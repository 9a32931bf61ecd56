/** Where the parts of a written message stand in its bytes
    (core/src/JetBlack.MessageBus.Messages, core/src/JetBlack.MessageBus.Common/IO/DataWriter.cs): the number of
    its kind comes first, the fields follow in a fixed order without gaps, and integers are in network order. */
module Layouts {
  import opened Options
  import opened Messages
  import opened Sequences
  import opened Codec

  datatype Field =
    | Text(text: Option<Bytes>)
    | Id(id: Guid)
    | Flag(flag: bool)
    | Numbers(numbers: Option<seq<int32>>)
    | Data(packets: Packets<seq<int32>>)

  /** The number of the kind of a message, and its fields in their order. */
  datatype Layout = Layout(number: byte, fields: seq<Field>)

  function LayoutOf(m: Written): Layout {
    match m
    case MulticastData(feed, topic, contentType, packets) =>
      Layout(1, [Text(feed), Text(topic), Text(contentType), Data(packets)])
    case UnicastData(clientId, feed, topic, contentType, packets) =>
      Layout(2, [Id(clientId), Text(feed), Text(topic), Text(contentType), Data(packets)])
    case ForwardedSubscriptionRequest(user, host, clientId, feed, topic, isAdd) =>
      Layout(3, [Text(user), Text(host), Id(clientId), Text(feed), Text(topic), Flag(isAdd)])
    case NotificationRequest(feed, isAdd) =>
      Layout(4, [Text(feed), Flag(isAdd)])
    case SubscriptionRequest(feed, topic, isAdd) =>
      Layout(5, [Text(feed), Text(topic), Flag(isAdd)])
    case AuthorizationRequest(clientId, host, user, feed, topic) =>
      Layout(6, [Id(clientId), Text(host), Text(user), Text(feed), Text(topic)])
    case AuthorizationResponse(clientId, feed, topic, isAuthorizationRequired, entitlements) =>
      Layout(7, [Id(clientId), Text(feed), Text(topic), Flag(isAuthorizationRequired), Numbers(entitlements)])
    case ForwardedMulticastData(user, host, feed, topic, contentType, packets) =>
      Layout(8, [Text(user), Text(host), Text(feed), Text(topic), Text(contentType), Data(packets)])
    case ForwardedUnicastData(user, host, clientId, feed, topic, contentType, packets) =>
      Layout(9, [Text(user), Text(host), Id(clientId), Text(feed), Text(topic), Text(contentType), Data(packets)])
  }

  // ----- How wide the parts are -----

  function Count<T>(s: Option<seq<T>>): nat {
    if s.None? then 0 else |s.value|
  }

  function PacketWidth(p: Packet<seq<int32>>): nat {
    4 + 4 * Count(p.entitlements) + 4 + Count(p.data)
  }

  /** Where the packet with the given index begins behind the number of packets. */
  function PacketStart(ps: seq<Packet<seq<int32>>>, i: nat): nat
    requires i <= |ps|
  {
    if i == 0 then 4 else PacketStart(ps, i - 1) + PacketWidth(ps[i - 1])
  }

  function Width(f: Field): nat {
    match f
    case Text(text) => 4 + Count(text)
    case Id(_) => 16
    case Flag(_) => 1
    case Numbers(numbers) => 4 + 4 * Count(numbers)
    case Data(packets) => if packets.None? then 4 else PacketStart(packets.value, |packets.value|)
  }

  /** Where the field with the given index begins behind the number of the kind. */
  function Start(fs: seq<Field>, i: nat): (n: nat)
    requires i <= |fs|
    ensures n >= 1
  {
    if i == 0 then 1 else Start(fs, i - 1) + Width(fs[i - 1])
  }

  // ----- What the parts look like -----

  /** The bytes are the integer in base 256, the most significant first, modulo 2^32. */
  predicate ShowsInteger(b: Bytes, v: int) {
    && |b| == 4
    && b[0] as int * 0x100_0000 + b[1] as int * 0x1_0000 + b[2] as int * 0x100 + b[3] as int
       == if v < 0 then v + 0x1_0000_0000 else v
  }

  predicate ShowsText(b: Bytes, text: Option<Bytes>) {
    |b| >= 4 && ShowsInteger(b[..4], Count(text)) && b[4..] == if text.None? then [] else text.value
  }

  predicate ShowsNumbers(b: Bytes, numbers: Option<seq<int32>>) {
    && |b| == 4 + 4 * Count(numbers) && ShowsInteger(b[..4], Count(numbers))
    && forall i :: 0 <= i < Count(numbers) ==> ShowsInteger(b[4 + 4 * i..8 + 4 * i], numbers.value[i] as int)
  }

  predicate ShowsPacket(b: Bytes, p: Packet<seq<int32>>) {
    var n := 4 + 4 * Count(p.entitlements);
    |b| >= n && ShowsNumbers(b[..n], p.entitlements) && ShowsText(b[n..], p.data)
  }

  /** From the start of the packet with the given index to the next one the bytes are that packet. */
  predicate ShowsPacketAt(b: Bytes, ps: seq<Packet<seq<int32>>>, i: nat)
    requires i < |ps|
  {
    PacketStart(ps, i + 1) <= |b| && ShowsPacket(b[PacketStart(ps, i)..PacketStart(ps, i + 1)], ps[i])
  }

  predicate ShowsPackets(b: Bytes, packets: Packets<seq<int32>>) {
    && |b| >= 4 && ShowsInteger(b[..4], Count(packets))
    && if packets.None? then |b| == 4
       else |b| == PacketStart(packets.value, |packets.value|)
            && forall i :: 0 <= i < |packets.value| ==> ShowsPacketAt(b, packets.value, i)
  }

  predicate Shows(b: Bytes, f: Field) {
    match f
    case Text(text) => ShowsText(b, text)
    case Id(id) => b == id
    case Flag(flag) => b == [if flag then 1 else 0]
    case Numbers(numbers) => ShowsNumbers(b, numbers)
    case Data(packets) => ShowsPackets(b, packets)
  }

  // ----- The parts look like this -----

  lemma IntegerShows(v: int32)
    ensures ShowsInteger(Int32Bytes(v), v as int)
  {
    BytesOfInt32(v);
  }

  lemma TextShows(text: Option<Bytes>)
    requires TextFits(text)
    ensures ShowsText(PrefixedBytes(text), text)
  {
    hide Int32Bytes, ShowsInteger;
    IntegerShows(Count(text));
    IntegerIsFour(Count(text));
    HeadAndRest(Int32Bytes(Count(text)), if text.None? then [] else text.value);
  }

  lemma {:induction false} NumbersShow(numbers: seq<int32>)
    ensures |IntsBytes(numbers)| == 4 * |numbers|
    ensures forall i :: 0 <= i < |numbers| ==> ShowsInteger(IntsBytes(numbers)[4 * i..4 * i + 4], numbers[i] as int)
  {
    hide Int32Bytes, ShowsInteger;
    if numbers != [] {
      var n := |numbers| - 1;
      NumbersShow(numbers[..n]);
      IntegerShows(numbers[n]);
      var front, last := IntsBytes(numbers[..n]), Int32Bytes(numbers[n]);
      assert |last| == 4 by { IntegerIsFour(numbers[n]); }
      forall i | 0 <= i < |numbers| ensures ShowsInteger(IntsBytes(numbers)[4 * i..4 * i + 4], numbers[i] as int) {
        if i < n {
          assert (front + last)[4 * i..4 * i + 4] == front[4 * i..4 * i + 4];
        } else {
          assert (front + last)[4 * i..4 * i + 4] == last;
        }
      }
    }
  }

  lemma HeadAndRest(head: Bytes, rest: Bytes)
    requires |head| == 4
    ensures (head + rest)[..4] == head && (head + rest)[4..] == rest && head + [] == head && head[..4] == head
  {
  }

  lemma IntegerIsFour(v: int32)
    ensures |Int32Bytes(v)| == 4
  {
  }

  lemma SetShows(numbers: Option<seq<int32>>)
    requires numbers.Some? ==> Short(numbers.value)
    ensures ShowsNumbers(SetBytes(numbers), numbers)
  {
    hide Int32Bytes, ShowsInteger, IntsBytes;
    var n := Count(numbers);
    IntegerShows(n);
    IntegerIsFour(n);
    HeadAndRest(Int32Bytes(n), []);
    if numbers.Some? {
      NumbersShow(numbers.value);
      var head, tail := Int32Bytes(n), IntsBytes(numbers.value);
      HeadAndRest(head, tail);
      forall i | 0 <= i < n ensures ShowsInteger(SetBytes(numbers)[4 + 4 * i..8 + 4 * i], numbers.value[i] as int) {
        assert (head + tail)[4 + 4 * i..8 + 4 * i] == tail[4 * i..4 * i + 4];
      }
    }
  }

  lemma PacketShows(p: Packet<seq<int32>>)
    requires PacketFits(p)
    ensures ShowsPacket(PacketBytes(p), p) && |PacketBytes(p)| == PacketWidth(p)
  {
    hide Int32Bytes, ShowsInteger, SetBytes, PrefixedBytes;
    SetShows(p.entitlements);
    TextShows(p.data);
    var a, b := SetBytes(p.entitlements), PrefixedBytes(p.data);
    assert (a + b)[..|a|] == a && (a + b)[|a|..] == b;
  }

  lemma {:induction false} StartsAgree(ps: seq<Packet<seq<int32>>>, qs: seq<Packet<seq<int32>>>, i: nat)
    requires i <= |ps| && ps <= qs
    ensures PacketStart(ps, i) == PacketStart(qs, i) >= 4
    decreases i
  {
    if i > 0 { StartsAgree(ps, qs, i - 1); }
  }

  lemma {:induction false} StartsGrow(ps: seq<Packet<seq<int32>>>, i: nat, j: nat)
    requires i <= j <= |ps|
    ensures PacketStart(ps, i) <= PacketStart(ps, j)
    decreases j
  {
    if i < j { StartsGrow(ps, i, j - 1); }
  }

  lemma {:induction false} PacketsShow(head: Bytes, ps: seq<Packet<seq<int32>>>)
    requires AllFit(ps) && |head| == 4
    ensures var b := head + PacketListBytes(ps);
            |b| == PacketStart(ps, |ps|) && forall i :: 0 <= i < |ps| ==> ShowsPacketAt(b, ps, i)
  {
    hide ShowsPacket, PacketBytes, PacketFits, PacketWidth;
    if ps != [] {
      var n := |ps| - 1;
      var front, p := ps[..n], ps[n];
      PacketsShow(head, front);
      PacketShows(p);
      var b, c := head + PacketListBytes(front), PacketBytes(p);
      Grouped(head, PacketListBytes(front), c);
      StartsAgree(front, ps, n);
      forall i | 0 <= i < |ps| ensures ShowsPacketAt(b + c, ps, i) {
        if i < n {
          StillShown(b, c, front, ps, i);
        } else {
          assert (b + c)[|b|..|b| + |c|] == c;
        }
      }
    }
  }

  lemma StillShown(b: Bytes, c: Bytes, ps: seq<Packet<seq<int32>>>, qs: seq<Packet<seq<int32>>>, i: nat)
    requires i < |ps| && ps <= qs && ShowsPacketAt(b, ps, i)
    ensures ShowsPacketAt(b + c, qs, i)
  {
    hide ShowsPacket;
    StartsAgree(ps, qs, i);
    StartsAgree(ps, qs, i + 1);
    StartsGrow(ps, i, i + 1);
    var j, k := PacketStart(ps, i), PacketStart(ps, i + 1);
    assert (b + c)[j..k] == b[j..k];
  }

  lemma DataShows(packets: Packets<seq<int32>>)
    requires PacketsFit(packets)
    ensures ShowsPackets(PacketsBytes(packets), packets)
  {
    hide Int32Bytes, ShowsInteger, PacketListBytes, ShowsPacketAt, PacketStart, AllFit;
    var n := Count(packets);
    IntegerShows(n);
    IntegerIsFour(n);
    var head := Int32Bytes(n);
    HeadAndRest(head, []);
    if packets.Some? {
      PacketsShow(head, packets.value);
      assert (head + PacketListBytes(packets.value))[..4] == head;
    }
  }

  // ----- The message -----

  predicate FieldFits(f: Field) {
    match f
    case Text(text) => TextFits(text)
    case Id(_) => true
    case Flag(_) => true
    case Numbers(numbers) => numbers.Some? ==> Short(numbers.value)
    case Data(packets) => PacketsFit(packets)
  }

  function FieldBytes(f: Field): Bytes
    requires FieldFits(f)
  {
    match f
    case Text(text) => PrefixedBytes(text)
    case Id(id) => id
    case Flag(flag) => BoolBytes(flag)
    case Numbers(numbers) => SetBytes(numbers)
    case Data(packets) => PacketsBytes(packets)
  }

  lemma FieldShows(f: Field)
    requires FieldFits(f)
    ensures Shows(FieldBytes(f), f) && |FieldBytes(f)| == Width(f)
  {
    hide PrefixedBytes, SetBytes, PacketsBytes, ShowsInteger;
    match f
    case Text(text) => TextShows(text);
    case Id(_) =>
    case Flag(_) =>
    case Numbers(numbers) => SetShows(numbers);
    case Data(packets) => DataShows(packets);
  }

  predicate AllFieldsFit(fs: seq<Field>) {
    forall f :: f in fs ==> FieldFits(f)
  }

  function FieldsBytes(fs: seq<Field>): Bytes
    requires AllFieldsFit(fs)
  {
    if fs == [] then [] else FieldBytes(fs[0]) + FieldsBytes(fs[1..])
  }

  /** From the start of the field with the given index to the next one the bytes are that field. */
  predicate ShowsFieldAt(b: Bytes, fs: seq<Field>, i: nat)
    requires i < |fs|
  {
    Start(fs, i + 1) <= |b| && Shows(b[Start(fs, i)..Start(fs, i + 1)], fs[i])
  }

  /** The first byte is the number of the kind, the fields follow each other, and nothing is behind them. */
  predicate LaidOut(b: Bytes, l: Layout) {
    && |b| == Start(l.fields, |l.fields|) && b[0] == l.number
    && forall i :: 0 <= i < |l.fields| ==> ShowsFieldAt(b, l.fields, i)
  }

  lemma {:induction false} StartMoves(fs: seq<Field>, i: nat)
    requires fs != [] && 0 < i <= |fs|
    ensures Start(fs, i) == Width(fs[0]) + Start(fs[1..], i - 1)
    decreases i
  {
    if i > 1 {
      StartMoves(fs, i - 1);
    } else {
      assert Start(fs, 0) == 1;
    }
  }

  lemma {:induction false} FieldsAreLaidOut(number: byte, fs: seq<Field>)
    requires AllFieldsFit(fs)
    ensures LaidOut([number] + FieldsBytes(fs), Layout(number, fs))
  {
    hide FieldBytes, Shows, FieldFits, Width;
    if fs != [] {
      FieldsAreLaidOut(number, fs[1..]);
      FieldShows(fs[0]);
      var c, rest := FieldBytes(fs[0]), FieldsBytes(fs[1..]);
      var b := [number] + (c + rest);
      StartMoves(fs, |fs|);
      StartMoves(fs, 1);
      forall i | 0 <= i < |fs| ensures ShowsFieldAt(b, fs, i) {
        if i == 0 {
          assert b[1..1 + |c|] == c;
        } else {
          MovedField(number, c, rest, fs, i);
        }
      }
    }
  }

  lemma MovedField(number: byte, c: Bytes, rest: Bytes, fs: seq<Field>, i: nat)
    requires 0 < i < |fs| && |c| == Width(fs[0]) && ShowsFieldAt([number] + rest, fs[1..], i - 1)
    ensures ShowsFieldAt([number] + (c + rest), fs, i)
  {
    hide Shows, Width;
    StartMoves(fs, i);
    StartMoves(fs, i + 1);
    var j, k := Start(fs[1..], i - 1), Start(fs[1..], i);
    assert fs[1..][i - 1] == fs[i] && k == j + Width(fs[i]);
    assert ([number] + (c + rest))[|c| + j..|c| + k] == ([number] + rest)[j..k];
  }

  lemma FieldBytesFirst(f: Field, fs: seq<Field>)
    requires FieldFits(f) && AllFieldsFit(fs)
    ensures AllFieldsFit([f] + fs) && FieldsBytes([f] + fs) == FieldBytes(f) + FieldsBytes(fs)
  {
    hide FieldBytes, FieldFits;
    assert ([f] + fs)[1..] == fs;
  }

  lemma TwoFields(a: Field, b: Field)
    requires FieldFits(a) && FieldFits(b)
    ensures AllFieldsFit([a, b]) && FieldsBytes([a, b]) == FieldBytes(a) + FieldBytes(b)
  {
    hide FieldBytes, FieldFits;
    FieldBytesFirst(b, []);
    assert [a] + [b] == [a, b] && [b] + [] == [b];
    FieldBytesFirst(a, [b]);
    assert FieldBytes(b) + [] == FieldBytes(b);
  }

  lemma ThreeFields(a: Field, b: Field, c: Field)
    requires AllFieldsFit([a, b, c])
    ensures FieldsBytes([a, b, c])
            == FieldBytes(a) + (FieldBytes(b) + FieldBytes(c))
  {
    hide FieldBytes, FieldFits;
    var rest := [b, c];
    assert [a, b, c] == [a] + rest;
    TwoFields(b, c);
    FieldBytesFirst(a, rest);
  }

  lemma FourFields(a: Field, b: Field, c: Field, d: Field)
    requires AllFieldsFit([a, b, c, d])
    ensures FieldsBytes([a, b, c, d])
            == FieldBytes(a) + (FieldBytes(b) + (FieldBytes(c) + FieldBytes(d)))
  {
    hide FieldBytes, FieldFits;
    var rest := [b, c, d];
    assert [a, b, c, d] == [a] + rest;
    ThreeFields(b, c, d);
    FieldBytesFirst(a, rest);
  }

  lemma FiveFields(a: Field, b: Field, c: Field, d: Field, e: Field)
    requires AllFieldsFit([a, b, c, d, e])
    ensures FieldsBytes([a, b, c, d, e])
            == FieldBytes(a) + (FieldBytes(b) + (FieldBytes(c) + (FieldBytes(d) + FieldBytes(e))))
  {
    hide FieldBytes, FieldFits;
    var rest := [b, c, d, e];
    assert [a, b, c, d, e] == [a] + rest;
    FourFields(b, c, d, e);
    FieldBytesFirst(a, rest);
  }

  lemma SixFields(a: Field, b: Field, c: Field, d: Field, e: Field, f: Field)
    requires AllFieldsFit([a, b, c, d, e, f])
    ensures FieldsBytes([a, b, c, d, e, f])
            == FieldBytes(a) + (FieldBytes(b) + (FieldBytes(c) + (FieldBytes(d) + (FieldBytes(e) + FieldBytes(f)))))
  {
    hide FieldBytes, FieldFits;
    var rest := [b, c, d, e, f];
    assert [a, b, c, d, e, f] == [a] + rest;
    FiveFields(b, c, d, e, f);
    FieldBytesFirst(a, rest);
  }

  lemma SevenFields(a: Field, b: Field, c: Field, d: Field, e: Field, f: Field, g: Field)
    requires AllFieldsFit([a, b, c, d, e, f, g])
    ensures FieldsBytes([a, b, c, d, e, f, g])
            == FieldBytes(a) + (FieldBytes(b) + (FieldBytes(c)
                                                 + (FieldBytes(d) + (FieldBytes(e) + (FieldBytes(f) + FieldBytes(g))))))
  {
    hide FieldBytes, FieldFits;
    var rest := [b, c, d, e, f, g];
    assert [a, b, c, d, e, f, g] == [a] + rest;
    SixFields(b, c, d, e, f, g);
    FieldBytesFirst(a, rest);
  }

  predicate CarriesData(m: Written) {
    m.MulticastData? || m.UnicastData? || m.ForwardedMulticastData? || m.ForwardedUnicastData?
  }

  lemma FieldsOfData(m: Written)
    requires Fits(m) && CarriesData(m)
    ensures var l := LayoutOf(m);
            AllFieldsFit(l.fields) && MessageBytes(m) == [l.number] + FieldsBytes(l.fields)
  {
    hide FieldsBytes, PrefixedBytes, SetBytes, PacketsBytes, BoolBytes, TextFits, PacketsFit;
    var fs := LayoutOf(m).fields;
    match m
    case MulticastData(_, _, _, _) => FourFields(fs[0], fs[1], fs[2], fs[3]);
    case UnicastData(_, _, _, _, _) => FiveFields(fs[0], fs[1], fs[2], fs[3], fs[4]);
    case ForwardedMulticastData(_, _, _, _, _, _) => SixFields(fs[0], fs[1], fs[2], fs[3], fs[4], fs[5]);
    case ForwardedUnicastData(_, _, _, _, _, _, _) =>
      SevenFields(fs[0], fs[1], fs[2], fs[3], fs[4], fs[5], fs[6]);
  }

  lemma FieldsOf(m: Written)
    requires Fits(m)
    ensures var l := LayoutOf(m);
            AllFieldsFit(l.fields) && MessageBytes(m) == [l.number] + FieldsBytes(l.fields)
  {
    hide FieldsBytes, PrefixedBytes, SetBytes, PacketsBytes, BoolBytes, TextFits, PacketsFit;
    var fs := LayoutOf(m).fields;
    if CarriesData(m) {
      FieldsOfData(m);
    } else if m.NotificationRequest? {
      TwoFields(fs[0], fs[1]);
    } else if m.SubscriptionRequest? {
      ThreeFields(fs[0], fs[1], fs[2]);
    } else if m.ForwardedSubscriptionRequest? {
      SixFields(fs[0], fs[1], fs[2], fs[3], fs[4], fs[5]);
    } else {
      FiveFields(fs[0], fs[1], fs[2], fs[3], fs[4]);
    }
  }

  /** A written message is laid out as the table says. */
  lemma MessageIsLaidOut(m: Written)
    requires Fits(m)
    ensures LaidOut(MessageBytes(m), LayoutOf(m))
  {
    hide FieldsBytes, FieldBytes, FieldFits, LaidOut;
    var l := LayoutOf(m);
    FieldsOf(m);
    FieldsAreLaidOut(l.number, l.fields);
  }
}
