/** The binary form of the messages (core/src/JetBlack.MessageBus.Common/IO/DataWriter.cs and DataReader.cs,
    core/src/JetBlack.MessageBus.Messages): what is written for a value, what reading makes of a sequence
    of bytes, and that reading gives back what was written. Texts stand as their UTF-8 bytes. */
module Codec {
  import opened Options
  import opened Messages
  import opened Parsing
  import opened Sequences

  type int32 = x: int | -0x8000_0000 <= x < 0x8000_0000

  /** A text may be missing when it is written; a set is written in the order of its enumeration. */
  type Written = Message<Option<Bytes>, seq<int32>>

  type Read = Message<Bytes, set<int32>>

  /** Why reading fails. At the end of the stream the loop that fills a buffer asks for more
      bytes for ever, which `FillingEndsExactlyWhen` shows; this stands as a failure of its own. */
  datatype Failure = EndOfStream | BadLength | Spins | UnknownType

  type Result<+T> = Parsed<T, Failure>

  // ----- What is written -----

  function Int32Bytes(v: int32): Bytes {
    [((v / 0x100_0000) % 0x100) as byte, ((v / 0x1_0000) % 0x100) as byte, ((v / 0x100) % 0x100) as byte,
     (v % 0x100) as byte]
  }

  function BoolBytes(v: bool): Bytes {
    [if v then 1 else 0]
  }

  /** A length is an integer of 32 bits. */
  predicate Short<T>(s: seq<T>) {
    |s| < 0x8000_0000
  }

  function PrefixedBytes(v: Option<Bytes>): Bytes
    requires v.Some? ==> Short(v.value)
  {
    if v.None? then Int32Bytes(0) else Int32Bytes(|v.value|) + v.value
  }

  function IntsBytes(s: seq<int32>): Bytes {
    if s == [] then [] else IntsBytes(s[..|s| - 1]) + Int32Bytes(s[|s| - 1])
  }

  function SetBytes(v: Option<seq<int32>>): Bytes
    requires v.Some? ==> Short(v.value)
  {
    if v.None? then Int32Bytes(0) else Int32Bytes(|v.value|) + IntsBytes(v.value)
  }

  predicate PacketFits(p: Packet<seq<int32>>) {
    (p.entitlements.Some? ==> Short(p.entitlements.value)) && (p.data.Some? ==> Short(p.data.value))
  }

  function PacketBytes(p: Packet<seq<int32>>): Bytes
    requires PacketFits(p)
  {
    SetBytes(p.entitlements) + PrefixedBytes(p.data)
  }

  predicate PacketsFit(ps: Packets<seq<int32>>) {
    ps.Some? ==> Short(ps.value) && AllFit(ps.value)
  }

  predicate AllFit(ps: seq<Packet<seq<int32>>>) {
    forall i :: 0 <= i < |ps| ==> PacketFits(ps[i])
  }

  function PacketListBytes(ps: seq<Packet<seq<int32>>>): Bytes
    requires AllFit(ps)
  {
    if ps == [] then [] else PacketListBytes(ps[..|ps| - 1]) + PacketBytes(ps[|ps| - 1])
  }

  function PacketsBytes(ps: Packets<seq<int32>>): Bytes
    requires PacketsFit(ps)
  {
    if ps.None? then Int32Bytes(0) else Int32Bytes(|ps.value|) + PacketListBytes(ps.value)
  }

  predicate TextFits(t: Option<Bytes>) {
    t.Some? ==> Short(t.value)
  }

  /** Everything in the message has a length that an array of the program can have. */
  predicate Fits(m: Written) {
    match m
    case MulticastData(feed, topic, contentType, packets) =>
      TextFits(feed) && TextFits(topic) && TextFits(contentType) && PacketsFit(packets)
    case UnicastData(clientId, feed, topic, contentType, packets) =>
      TextFits(feed) && TextFits(topic) && TextFits(contentType) && PacketsFit(packets)
    case ForwardedSubscriptionRequest(user, host, clientId, feed, topic, isAdd) =>
      TextFits(user) && TextFits(host) && TextFits(feed) && TextFits(topic)
    case NotificationRequest(feed, isAdd) => TextFits(feed)
    case SubscriptionRequest(feed, topic, isAdd) => TextFits(feed) && TextFits(topic)
    case AuthorizationRequest(clientId, host, user, feed, topic) =>
      TextFits(host) && TextFits(user) && TextFits(feed) && TextFits(topic)
    case AuthorizationResponse(clientId, feed, topic, isAuthorizationRequired, entitlements) =>
      TextFits(feed) && TextFits(topic) && (entitlements.Some? ==> Short(entitlements.value))
    case ForwardedMulticastData(user, host, feed, topic, contentType, packets) =>
      TextFits(user) && TextFits(host) && TextFits(feed) && TextFits(topic) && TextFits(contentType)
          && PacketsFit(packets)
    case ForwardedUnicastData(user, host, clientId, feed, topic, contentType, packets) =>
      TextFits(user) && TextFits(host) && TextFits(feed) && TextFits(topic) && TextFits(contentType)
          && PacketsFit(packets)
  }

  function TagOf<T, S>(m: Message<T, S>): byte {
    match m
    case MulticastData(_, _, _, _) => 1
    case UnicastData(_, _, _, _, _) => 2
    case ForwardedSubscriptionRequest(_, _, _, _, _, _) => 3
    case NotificationRequest(_, _) => 4
    case SubscriptionRequest(_, _, _) => 5
    case AuthorizationRequest(_, _, _, _, _) => 6
    case AuthorizationResponse(_, _, _, _, _) => 7
    case ForwardedMulticastData(_, _, _, _, _, _) => 8
    case ForwardedUnicastData(_, _, _, _, _, _, _) => 9
  }

  function BodyBytes(m: Written): Bytes
    requires Fits(m)
  {
    match m
    case MulticastData(feed, topic, contentType, packets) =>
      PrefixedBytes(feed) + (PrefixedBytes(topic) + (PrefixedBytes(contentType) + PacketsBytes(packets)))
    case UnicastData(clientId, feed, topic, contentType, packets) =>
      clientId + (PrefixedBytes(feed) + (PrefixedBytes(topic) + (PrefixedBytes(contentType) + PacketsBytes(packets))))
    case ForwardedSubscriptionRequest(user, host, clientId, feed, topic, isAdd) =>
      PrefixedBytes(user) + (PrefixedBytes(host) + (clientId
                                                    + (PrefixedBytes(feed)
                                                       + (PrefixedBytes(topic) + BoolBytes(isAdd)))))
    case NotificationRequest(feed, isAdd) =>
      PrefixedBytes(feed) + BoolBytes(isAdd)
    case SubscriptionRequest(feed, topic, isAdd) =>
      PrefixedBytes(feed) + (PrefixedBytes(topic) + BoolBytes(isAdd))
    case AuthorizationRequest(clientId, host, user, feed, topic) =>
      clientId + (PrefixedBytes(host) + (PrefixedBytes(user) + (PrefixedBytes(feed) + PrefixedBytes(topic))))
    case AuthorizationResponse(clientId, feed, topic, isAuthorizationRequired, entitlements) =>
      clientId + (PrefixedBytes(feed) + (PrefixedBytes(topic)
                                         + (BoolBytes(isAuthorizationRequired) + SetBytes(entitlements))))
    case ForwardedMulticastData(user, host, feed, topic, contentType, packets) =>
      PrefixedBytes(user) + (PrefixedBytes(host) + (PrefixedBytes(feed)
                                                    + (PrefixedBytes(topic)
                                                       + (PrefixedBytes(contentType) + PacketsBytes(packets)))))
    case ForwardedUnicastData(user, host, clientId, feed, topic, contentType, packets) =>
      PrefixedBytes(user) + (PrefixedBytes(host) + (clientId + (PrefixedBytes(feed) + (PrefixedBytes(topic)
      + (PrefixedBytes(contentType) + PacketsBytes(packets))))))
  }

  function MessageBytes(m: Written): Bytes
    requires Fits(m)
  {
    [TagOf(m)] + BodyBytes(m)
  }

  // ----- What is read -----

  function ParseFully(n: nat, data: Bytes): Result<Bytes> {
    if |data| < n then Fail(Spins) else Ok(data[..n], data[n..])
  }

  function ParseByte(data: Bytes): Result<byte> {
    if data == [] then Fail(EndOfStream) else Ok(data[0], data[1..])
  }

  /** At the end of the stream the byte that is read is -1, which is not zero. */
  function ParseBool(data: Bytes): Result<bool> {
    if data == [] then Ok(true, []) else Ok(data[0] != 0, data[1..])
  }

  function Int32Of(b: Bytes): int32
    requires |b| == 4
  {
    var high := if b[0] < 0x80 then b[0] as int else b[0] as int - 0x100;
    high * 0x100_0000 + b[1] as int * 0x1_0000 + b[2] as int * 0x100 + b[3] as int
  }

  function ParseInt32(data: Bytes): Result<int32> {
    var b :- ParseFully(4, data);
    Ok(Int32Of(b.value), b.rest)
  }

  function ParseText(data: Bytes): Result<Bytes> {
    var n :- ParseInt32(data);
    if n.value < 0 then Fail(BadLength) else ParseFully(n.value, n.rest)
  }

  function ParseInts(n: nat, soFar: set<int32>, data: Bytes): Result<set<int32>>
    decreases n
  {
    if n == 0 then Ok(soFar, data)
    else
      var v :- ParseInt32(data);
      ParseInts(n - 1, soFar + {v.value}, v.rest)
  }

  /** A negative count gives an empty set. */
  function ParseSet(data: Bytes): Result<Option<set<int32>>> {
    var n :- ParseInt32(data);
    if n.value == 0 then Ok(None, n.rest)
    else
      var s :- ParseInts(if n.value < 0 then 0 else n.value, {}, n.rest);
      Ok(Some(s.value), s.rest)
  }

  function ParseByteArray(data: Bytes): Result<Option<Bytes>> {
    var n :- ParseInt32(data);
    if n.value == 0 then Ok(None, n.rest)
    else if n.value < 0 then Fail(BadLength)
    else
      var b :- ParseFully(n.value, n.rest);
      Ok(Some(b.value), b.rest)
  }

  function ParseGuid(data: Bytes): Result<Guid> {
    if |data| < 16 then Fail(Spins) else Ok(data[..16], data[16..])
  }

  function ParsePacket(data: Bytes): Result<Packet<set<int32>>> {
    var e :- ParseSet(data);
    var d :- ParseByteArray(e.rest);
    Ok(Packet(e.value, d.value), d.rest)
  }

  function ParsePacketList(n: nat, soFar: seq<Packet<set<int32>>>, data: Bytes): Result<seq<Packet<set<int32>>>>
    decreases n
  {
    if n == 0 then Ok(soFar, data)
    else
      var p :- ParsePacket(data);
      ParsePacketList(n - 1, soFar + [p.value], p.rest)
  }

  function ParsePackets(data: Bytes): Result<Packets<set<int32>>> {
    var n :- ParseInt32(data);
    if n.value == 0 then Ok(None, n.rest)
    else if n.value < 0 then Fail(BadLength)
    else
      var ps :- ParsePacketList(n.value, [], n.rest);
      Ok(Some(ps.value), ps.rest)
  }

  function ParseMulticastData(data: Bytes): Result<Read> {
    var feed :- ParseText(data);
    var topic :- ParseText(feed.rest);
    var contentType :- ParseText(topic.rest);
    var packets :- ParsePackets(contentType.rest);
    Ok(MulticastData(feed.value, topic.value, contentType.value, packets.value), packets.rest)
  }

  function ParseUnicastData(data: Bytes): Result<Read> {
    var clientId :- ParseGuid(data);
    var feed :- ParseText(clientId.rest);
    var topic :- ParseText(feed.rest);
    var contentType :- ParseText(topic.rest);
    var packets :- ParsePackets(contentType.rest);
    Ok(UnicastData(clientId.value, feed.value, topic.value, contentType.value, packets.value), packets.rest)
  }

  function ParseForwardedSubscriptionRequest(data: Bytes): Result<Read> {
    var user :- ParseText(data);
    var host :- ParseText(user.rest);
    var clientId :- ParseGuid(host.rest);
    var feed :- ParseText(clientId.rest);
    var topic :- ParseText(feed.rest);
    var isAdd :- ParseBool(topic.rest);
    Ok(ForwardedSubscriptionRequest(user.value, host.value, clientId.value, feed.value, topic.value, isAdd.value),
       isAdd.rest)
  }

  function ParseNotificationRequest(data: Bytes): Result<Read> {
    var feed :- ParseText(data);
    var isAdd :- ParseBool(feed.rest);
    Ok(NotificationRequest(feed.value, isAdd.value), isAdd.rest)
  }

  function ParseSubscriptionRequest(data: Bytes): Result<Read> {
    var feed :- ParseText(data);
    var topic :- ParseText(feed.rest);
    var isAdd :- ParseBool(topic.rest);
    Ok(SubscriptionRequest(feed.value, topic.value, isAdd.value), isAdd.rest)
  }

  function ParseAuthorizationRequest(data: Bytes): Result<Read> {
    var clientId :- ParseGuid(data);
    var host :- ParseText(clientId.rest);
    var user :- ParseText(host.rest);
    var feed :- ParseText(user.rest);
    var topic :- ParseText(feed.rest);
    Ok(AuthorizationRequest(clientId.value, host.value, user.value, feed.value, topic.value), topic.rest)
  }

  function ParseAuthorizationResponse(data: Bytes): Result<Read> {
    var clientId :- ParseGuid(data);
    var feed :- ParseText(clientId.rest);
    var topic :- ParseText(feed.rest);
    var isAuthorizationRequired :- ParseBool(topic.rest);
    var entitlements :- ParseSet(isAuthorizationRequired.rest);
    Ok(AuthorizationResponse(clientId.value, feed.value, topic.value, isAuthorizationRequired.value,
                             entitlements.value), entitlements.rest)
  }

  function ParseForwardedMulticastData(data: Bytes): Result<Read> {
    var user :- ParseText(data);
    var host :- ParseText(user.rest);
    var feed :- ParseText(host.rest);
    var topic :- ParseText(feed.rest);
    var contentType :- ParseText(topic.rest);
    var packets :- ParsePackets(contentType.rest);
    Ok(ForwardedMulticastData(user.value, host.value, feed.value, topic.value, contentType.value, packets.value),
       packets.rest)
  }

  function ParseForwardedUnicastData(data: Bytes): Result<Read> {
    var user :- ParseText(data);
    var host :- ParseText(user.rest);
    var clientId :- ParseGuid(host.rest);
    var feed :- ParseText(clientId.rest);
    var topic :- ParseText(feed.rest);
    var contentType :- ParseText(topic.rest);
    var packets :- ParsePackets(contentType.rest);
    Ok(ForwardedUnicastData(user.value, host.value, clientId.value, feed.value, topic.value, contentType.value,
                            packets.value), packets.rest)
  }

  function ParseBody(tag: byte, data: Bytes): Result<Read> {
    if tag == 6 then ParseAuthorizationRequest(data)
    else if tag == 7 then ParseAuthorizationResponse(data)
    else if tag == 1 then ParseMulticastData(data)
    else if tag == 2 then ParseUnicastData(data)
    else if tag == 8 then ParseForwardedMulticastData(data)
    else if tag == 9 then ParseForwardedUnicastData(data)
    else if tag == 3 then ParseForwardedSubscriptionRequest(data)
    else if tag == 4 then ParseNotificationRequest(data)
    else if tag == 5 then ParseSubscriptionRequest(data)
    else Fail(UnknownType)
  }

  function ParseMessage(data: Bytes): Result<Read> {
    var tag :- ParseByte(data);
    ParseBody(tag.value, tag.rest)
  }

  // ----- The loop that fills a buffer -----

  /** How much of the buffer is filled, and what is left in the stream. */
  datatype Filling = Filling(n: nat, data: Bytes)

  /** One round of the loop, which goes on while the buffer is not full. The stream gives at least one byte,
      unless it has ended; then it gives none, and the loop asks again. */
  ghost predicate Round(len: nat, s: Filling, s': Filling) {
    s.n < len && exists count: nat :: Given(len, s, count) && s' == Filling(s.n + count, s.data[count..])
  }

  predicate Given(len: nat, s: Filling, count: nat) {
    s.n + count <= len && count <= |s.data| && (count == 0 <==> s.data == [])
  }

  ghost predicate IsFilling(len: nat, data: Bytes, run: seq<Filling>) {
    && run != [] && run[0] == Filling(0, data)
    && forall i :: 0 <= i < |run| - 1 ==> Round(len, run[i], run[i + 1])
  }

  /** The loop has either filled the buffer or come to a round that leads to itself. */
  ghost predicate ComesTo(len: nat, run: seq<Filling>, r: Outcome<Bytes, Failure>) {
    run != [] && var last := run[|run| - 1];
                 if r.Value? then last.n == len else Round(len, last, last)
  }

  lemma FillingStarts(len: nat, data: Bytes)
    ensures IsFilling(len, data, [Filling(0, data)])
  {
  }

  lemma FillingGoesOn(len: nat, data: Bytes, run: seq<Filling>, count: nat)
    requires IsFilling(len, data, run) && run[|run| - 1].n < len && Given(len, run[|run| - 1], count)
    ensures IsFilling(len, data, run + [Filling(run[|run| - 1].n + count, run[|run| - 1].data[count..])])
  {
    var last := run[|run| - 1];
    var s := Filling(last.n + count, last.data[count..]);
    assert Round(len, last, s);
    hide Round;
    var longer := run + [s];
    forall i | 0 <= i < |longer| - 1 ensures Round(len, longer[i], longer[i + 1]) {
      if i < |run| - 1 {
        assert Round(len, run[i], run[i + 1]);
      }
    }
  }

  lemma FillingStalls(len: nat, run: seq<Filling>)
    requires run != [] && run[|run| - 1].n < len && run[|run| - 1].data == []
    ensures ComesTo(len, run, Failed(Spins))
  {
    assert Given(len, run[|run| - 1], 0);
  }

  lemma FillingIsDone(len: nat, run: seq<Filling>, b: Bytes)
    requires run != [] && run[|run| - 1].n == len
    ensures ComesTo(len, run, Value(b))
  {
  }

  /** Nothing is lost on the way into the buffer, and every round fills some of it if there are bytes enough. */
  lemma {:induction false} FillingKeeps(len: nat, data: Bytes, run: seq<Filling>)
    requires IsFilling(len, data, run)
    ensures var s := run[|run| - 1];
            s.n <= len && s.n <= |data| && s.data == data[s.n..] && (len <= |data| ==> |run| - 1 <= s.n)
    decreases |run|
  {
    if |run| > 1 {
      var before := run[..|run| - 1];
      FillingKeeps(len, data, before);
      var s := before[|before| - 1];
      assert Round(len, s, run[|run| - 1]);
      var count: nat :| Given(len, s, count) && run[|run| - 1] == Filling(s.n + count, s.data[count..]);
      assert data[s.n..][count..] == data[s.n + count..];
    }
  }

  /** A stream that ends early never fills the buffer: after however many rounds there is one more. */
  lemma ShortStreamsNeverEnd(len: nat, data: Bytes, run: seq<Filling>)
    requires |data| < len && IsFilling(len, data, run)
    ensures exists s :: IsFilling(len, data, run + [s])
  {
    FillingKeeps(len, data, run);
    var s := run[|run| - 1];
    var count := if s.data == [] then 0 else 1;
    FillingGoesOn(len, data, run, count);
  }

  lemma {:induction false} LongFilling(len: nat, data: Bytes, k: nat) returns (run: seq<Filling>)
    requires |data| < len
    ensures IsFilling(len, data, run) && |run| == k + 1
    decreases k
  {
    if k == 0 {
      run := [Filling(0, data)];
    } else {
      run := LongFilling(len, data, k - 1);
      ShortStreamsNeverEnd(len, data, run);
      var s :| IsFilling(len, data, run + [s]);
      run := run + [s];
    }
  }

  /** The loop ends, within a round for each byte of the buffer and whatever pieces the stream comes in, exactly
      where the stream holds enough for the buffer. */
  lemma FillingEndsExactlyWhen(len: nat, data: Bytes)
    ensures (forall run :: IsFilling(len, data, run) ==> |run| - 1 <= len) <==> ParseFully(len, data).Ok?
  {
    if ParseFully(len, data).Ok? {
      forall run | IsFilling(len, data, run) ensures |run| - 1 <= len {
        FillingKeeps(len, data, run);
      }
    } else {
      var run := LongFilling(len, data, len + 1);
      assert IsFilling(len, data, run) && |run| - 1 > len;
    }
  }

  // ----- What comes back -----

  /** A missing text comes back empty. */
  function TextBack(t: Option<Bytes>): Bytes {
    if t.None? then [] else t.value
  }

  function Elements(s: seq<int32>): set<int32> {
    set v | v in s
  }

  /** An empty set comes back missing, and the order of a set is forgotten. */
  function SetBack(s: Option<seq<int32>>): Option<set<int32>> {
    if s.None? || s.value == [] then None else Some(Elements(s.value))
  }

  /** Empty data come back missing. */
  function DataBack(d: Option<Bytes>): Option<Bytes> {
    if d == Some([]) then None else d
  }

  function PacketBack(p: Packet<seq<int32>>): Packet<set<int32>> {
    Packet(SetBack(p.entitlements), DataBack(p.data))
  }

  /** An empty array of packets comes back missing. */
  function PacketsBack(ps: Packets<seq<int32>>): Packets<set<int32>> {
    if ps.None? || ps.value == [] then None
    else Some(seq(|ps.value|, i requires 0 <= i < |ps.value| => PacketBack(ps.value[i])))
  }

  function Back(m: Written): Read {
    match m
    case MulticastData(feed, topic, contentType, packets) =>
      MulticastData(TextBack(feed), TextBack(topic), TextBack(contentType), PacketsBack(packets))
    case UnicastData(clientId, feed, topic, contentType, packets) =>
      UnicastData(clientId, TextBack(feed), TextBack(topic), TextBack(contentType), PacketsBack(packets))
    case ForwardedSubscriptionRequest(user, host, clientId, feed, topic, isAdd) =>
      ForwardedSubscriptionRequest(TextBack(user), TextBack(host), clientId, TextBack(feed), TextBack(topic), isAdd)
    case NotificationRequest(feed, isAdd) => NotificationRequest(TextBack(feed), isAdd)
    case SubscriptionRequest(feed, topic, isAdd) => SubscriptionRequest(TextBack(feed), TextBack(topic), isAdd)
    case AuthorizationRequest(clientId, host, user, feed, topic) =>
      AuthorizationRequest(clientId, TextBack(host), TextBack(user), TextBack(feed), TextBack(topic))
    case AuthorizationResponse(clientId, feed, topic, isAuthorizationRequired, entitlements) =>
      AuthorizationResponse(clientId, TextBack(feed), TextBack(topic), isAuthorizationRequired, SetBack(entitlements))
    case ForwardedMulticastData(user, host, feed, topic, contentType, packets) =>
      ForwardedMulticastData(TextBack(user), TextBack(host), TextBack(feed), TextBack(topic), TextBack(contentType),
                             PacketsBack(packets))
    case ForwardedUnicastData(user, host, clientId, feed, topic, contentType, packets) =>
      ForwardedUnicastData(TextBack(user), TextBack(host), clientId, TextBack(feed), TextBack(topic),
                           TextBack(contentType), PacketsBack(packets))
  }

  // ----- Reading gives back what was written -----

  lemma BytesOfInt32(v: int32)
    ensures Int32Of(Int32Bytes(v)) == v
  {
    var b := Int32Bytes(v);
    var q := v as int / 0x100;
    var r := q / 0x100;
    var s := r / 0x100;
    assert v as int / 0x1_0000 == r && v as int / 0x100_0000 == s && -0x80 <= s < 0x80;
    assert v as int == q * 0x100 + b[3] as int && q == r * 0x100 + b[2] as int && r == s * 0x100 + b[1] as int;
    assert b[0] as int == if s < 0 then s + 0x100 else s;
  }

  lemma Int32Back(v: int32, rest: Bytes)
    ensures ParseInt32(Int32Bytes(v) + rest) == Ok(v, rest)
  {
    BytesOfInt32(v);
    var b := Int32Bytes(v);
    assert (b + rest)[..4] == b && (b + rest)[4..] == rest;
  }

  // ----- What no message holds -----

  /** A negative length of a text, of data or of an array is refused; a negative count of a set makes it empty. */
  lemma NegativeLengthsAreRefused(v: int32, rest: Bytes)
    requires v < 0
    ensures ParseText(Int32Bytes(v) + rest) == Fail(BadLength)
    ensures ParseByteArray(Int32Bytes(v) + rest) == Fail(BadLength)
    ensures ParsePackets(Int32Bytes(v) + rest) == Fail(BadLength)
    ensures ParseSet(Int32Bytes(v) + rest) == Ok(Some({}), rest)
  {
    hide Int32Bytes, ParseInt32;
    Int32Back(v, rest);
  }

  /** There are no messages but those with the numbers one to nine, and none where the stream has ended. */
  lemma UnknownTypesAreRefused(number: byte, rest: Bytes)
    requires number == 0 || number > 9
    ensures ParseMessage([number] + rest) == Fail(UnknownType) && ParseMessage([]) == Fail(EndOfStream)
  {
    assert ([number] + rest)[1..] == rest;
  }

  /** Every byte but zero is true. */
  lemma FlagsAreRead(b: byte, rest: Bytes)
    ensures ParseBool([b] + rest) == Ok(b != 0, rest)
  {
    assert ([b] + rest)[1..] == rest;
  }

  lemma BytesBack(b: Bytes, rest: Bytes)
    ensures ParseFully(|b|, b + rest) == Ok(b, rest)
  {
    assert (b + rest)[..|b|] == b && (b + rest)[|b|..] == rest;
  }

  lemma Grouped3(a: Bytes, b: Bytes, c: Bytes, rest: Bytes)
    ensures a + (b + c) + rest == a + (b + (c + rest))
  {
  }

  lemma Grouped4(a: Bytes, b: Bytes, c: Bytes, d: Bytes, rest: Bytes)
    ensures a + (b + (c + d)) + rest == a + (b + (c + (d + rest)))
  {
    Grouped3(a, b, c + d, rest);
    Grouped(c, d, rest);
  }

  lemma TextComesBack(t: Option<Bytes>, rest: Bytes)
    requires TextFits(t)
    ensures ParseText(PrefixedBytes(t) + rest) == Ok(TextBack(t), rest)
  {
    hide Int32Bytes, ParseInt32, ParseFully;
    var b := TextBack(t);
    Int32Back(|b|, b + rest);
    Grouped(Int32Bytes(|b|), b, rest);
    BytesBack(b, rest);
    if t.None? {
      assert [] + rest == rest;
    }
  }

  lemma DataComesBack(d: Option<Bytes>, rest: Bytes)
    requires TextFits(d)
    ensures ParseByteArray(PrefixedBytes(d) + rest) == Ok(DataBack(d), rest)
  {
    hide Int32Bytes, ParseInt32, ParseFully;
    var b := TextBack(d);
    Int32Back(|b|, b + rest);
    Grouped(Int32Bytes(|b|), b, rest);
    BytesBack(b, rest);
    if b == [] {
      assert Int32Bytes(0) + [] == Int32Bytes(0) && [] + rest == rest;
    }
  }

  lemma BoolComesBack(v: bool, rest: Bytes)
    ensures ParseBool(BoolBytes(v) + rest) == Ok(v, rest)
  {
    assert (BoolBytes(v) + rest)[1..] == rest;
  }

  lemma GuidComesBack(g: Guid, rest: Bytes)
    ensures ParseGuid(g + rest) == Ok(g, rest)
  {
    assert (g + rest)[..16] == g && (g + rest)[16..] == rest;
  }

  /** Integers are written in front of each other, and read into the set one by one. */
  lemma {:induction false} IntsFirst(s: seq<int32>)
    requires s != []
    ensures IntsBytes(s) == Int32Bytes(s[0]) + IntsBytes(s[1..])
    decreases |s|
  {
    hide Int32Bytes;
    var n := |s| - 1;
    if n == 0 {
      assert s[..0] == [] && s[1..] == [];
    } else {
      IntsFirst(s[..n]);
      assert s[..n][1..] == s[1..][..n - 1];
      Grouped(Int32Bytes(s[0]), IntsBytes(s[1..][..n - 1]), Int32Bytes(s[n]));
    }
  }

  lemma {:induction false} IntsComeBack(s: seq<int32>, soFar: set<int32>, rest: Bytes)
    ensures ParseInts(|s|, soFar, IntsBytes(s) + rest) == Ok(soFar + Elements(s), rest)
    decreases |s|
  {
    hide Int32Bytes, ParseInt32;
    if s == [] {
      assert [] + rest == rest && soFar + Elements(s) == soFar;
    } else {
      IntsFirst(s);
      Grouped(Int32Bytes(s[0]), IntsBytes(s[1..]), rest);
      Int32Back(s[0], IntsBytes(s[1..]) + rest);
      IntsComeBack(s[1..], soFar + {s[0]}, rest);
      assert soFar + {s[0]} + Elements(s[1..]) == soFar + Elements(s);
    }
  }

  lemma SetComesBack(s: Option<seq<int32>>, rest: Bytes)
    requires s.Some? ==> Short(s.value)
    ensures ParseSet(SetBytes(s) + rest) == Ok(SetBack(s), rest)
  {
    hide Int32Bytes, ParseInt32, ParseInts, IntsBytes;
    if s.Some? {
      var n := |s.value|;
      Grouped(Int32Bytes(n), IntsBytes(s.value), rest);
      Int32Back(n, IntsBytes(s.value) + rest);
      IntsComeBack(s.value, {}, rest);
      if n == 0 { NothingWritten(s.value, rest); }
      assert {} + Elements(s.value) == Elements(s.value);
    } else {
      Int32Back(0, rest);
    }
  }

  lemma NothingWritten(s: seq<int32>, rest: Bytes)
    requires s == []
    ensures IntsBytes(s) + rest == rest
  {
    assert [] + rest == rest;
  }

  lemma PacketComesBack(p: Packet<seq<int32>>, rest: Bytes)
    requires PacketFits(p)
    ensures ParsePacket(PacketBytes(p) + rest) == Ok(PacketBack(p), rest)
  {
    hide SetBytes, PrefixedBytes, ParseSet, ParseByteArray;
    Grouped(SetBytes(p.entitlements), PrefixedBytes(p.data), rest);
    SetComesBack(p.entitlements, PrefixedBytes(p.data) + rest);
    DataComesBack(p.data, rest);
  }

  function PacketListBack(ps: seq<Packet<seq<int32>>>): seq<Packet<set<int32>>> {
    seq(|ps|, i requires 0 <= i < |ps| => PacketBack(ps[i]))
  }

  lemma {:induction false} PacketsFirst(ps: seq<Packet<seq<int32>>>)
    requires ps != [] && AllFit(ps)
    ensures PacketListBytes(ps) == PacketBytes(ps[0]) + PacketListBytes(ps[1..])
    decreases |ps|
  {
    hide PacketBytes;
    var n := |ps| - 1;
    if n == 0 {
      assert ps[..0] == [] && ps[1..] == [];
    } else {
      PacketsFirst(ps[..n]);
      assert ps[..n][1..] == ps[1..][..n - 1];
      Grouped(PacketBytes(ps[0]), PacketListBytes(ps[1..][..n - 1]), PacketBytes(ps[n]));
    }
  }

  lemma {:induction false} PacketListComesBack(ps: seq<Packet<seq<int32>>>, soFar: seq<Packet<set<int32>>>, rest: Bytes)
    requires AllFit(ps)
    ensures ParsePacketList(|ps|, soFar, PacketListBytes(ps) + rest) == Ok(soFar + PacketListBack(ps), rest)
    decreases |ps|
  {
    hide PacketBytes, PacketBack, ParsePacket;
    if ps == [] {
      assert [] + rest == rest && soFar + PacketListBack(ps) == soFar;
    } else {
      PacketsFirst(ps);
      Grouped(PacketBytes(ps[0]), PacketListBytes(ps[1..]), rest);
      PacketComesBack(ps[0], PacketListBytes(ps[1..]) + rest);
      PacketListComesBack(ps[1..], soFar + [PacketBack(ps[0])], rest);
      assert soFar + [PacketBack(ps[0])] + PacketListBack(ps[1..]) == soFar + PacketListBack(ps);
    }
  }

  lemma PacketsComeBack(ps: Packets<seq<int32>>, rest: Bytes)
    requires PacketsFit(ps)
    ensures ParsePackets(PacketsBytes(ps) + rest) == Ok(PacketsBack(ps), rest)
  {
    hide Int32Bytes, ParseInt32, PacketBytes, PacketBack, ParsePacket;
    if ps.Some? {
      var n := |ps.value|;
      Grouped(Int32Bytes(n), PacketListBytes(ps.value), rest);
      Int32Back(n, PacketListBytes(ps.value) + rest);
      PacketListComesBack(ps.value, [], rest);
      if n == 0 { assert [] + rest == rest; }
      assert [] + PacketListBack(ps.value) == PacketListBack(ps.value);
    } else {
      Int32Back(0, rest);
    }
  }

  /** Three texts in a row, which most messages have. */
  lemma TopicComesBack(feed: Option<Bytes>, topic: Option<Bytes>, rest: Bytes)
    requires TextFits(feed) && TextFits(topic)
    ensures ParseText(PrefixedBytes(feed) + (PrefixedBytes(topic) + rest))
            == Ok(TextBack(feed), PrefixedBytes(topic) + rest)
    ensures ParseText(PrefixedBytes(topic) + rest) == Ok(TextBack(topic), rest)
  {
    TextComesBack(feed, PrefixedBytes(topic) + rest);
    TextComesBack(topic, rest);
  }

  lemma MulticastDataComesBack(m: Written, rest: Bytes)
    requires m.MulticastData? && Fits(m)
    ensures ParseMulticastData(BodyBytes(m) + rest) == Ok(Back(m), rest)
  {
    hide PrefixedBytes, BoolBytes, SetBytes, PacketsBytes, ParseText, ParseBool, ParseGuid, ParseSet, ParsePackets;
    hide PacketsFit, TextBack, SetBack, PacketsBack;
    var e := PacketsBytes(m.packets) + rest;
    var d := PrefixedBytes(m.contentType) + e;
    TopicComesBack(m.feed, m.topic, d);
    TextComesBack(m.contentType, e);
    PacketsComeBack(m.packets, rest);
    Grouped4(PrefixedBytes(m.feed), PrefixedBytes(m.topic), PrefixedBytes(m.contentType), PacketsBytes(m.packets),
             rest);
  }

  lemma UnicastDataComesBack(m: Written, rest: Bytes)
    requires m.UnicastData? && Fits(m)
    ensures ParseUnicastData(BodyBytes(m) + rest) == Ok(Back(m), rest)
  {
    hide PrefixedBytes, BoolBytes, SetBytes, PacketsBytes, ParseText, ParseBool, ParseGuid, ParseSet, ParsePackets;
    hide PacketsFit, TextBack, SetBack, PacketsBack;
    var e := PacketsBytes(m.packets) + rest;
    var d := PrefixedBytes(m.contentType) + e;
    GuidComesBack(m.clientId, PrefixedBytes(m.feed) + (PrefixedBytes(m.topic) + d));
    TopicComesBack(m.feed, m.topic, d);
    TextComesBack(m.contentType, e);
    PacketsComeBack(m.packets, rest);
    Grouped(m.clientId, PrefixedBytes(m.feed) + (PrefixedBytes(m.topic)
                                                 + (PrefixedBytes(m.contentType) + PacketsBytes(m.packets))), rest);
    Grouped4(PrefixedBytes(m.feed), PrefixedBytes(m.topic), PrefixedBytes(m.contentType), PacketsBytes(m.packets),
             rest);
  }

  lemma ForwardedSubscriptionRequestComesBack(m: Written, rest: Bytes)
    requires m.ForwardedSubscriptionRequest? && Fits(m)
    ensures ParseForwardedSubscriptionRequest(BodyBytes(m) + rest) == Ok(Back(m), rest)
  {
    hide PrefixedBytes, BoolBytes, SetBytes, PacketsBytes, ParseText, ParseBool, ParseGuid, ParseSet, ParsePackets;
    hide PacketsFit, TextBack, SetBack, PacketsBack;
    var e := BoolBytes(m.isAdd) + rest;
    var d := PrefixedBytes(m.feed) + (PrefixedBytes(m.topic) + e);
    TopicComesBack(m.user, m.host, m.clientId + d);
    GuidComesBack(m.clientId, d);
    TopicComesBack(m.feed, m.topic, e);
    BoolComesBack(m.isAdd, rest);
    Grouped4(PrefixedBytes(m.user), PrefixedBytes(m.host), m.clientId,
             PrefixedBytes(m.feed) + (PrefixedBytes(m.topic) + BoolBytes(m.isAdd)), rest);
    Grouped3(PrefixedBytes(m.feed), PrefixedBytes(m.topic), BoolBytes(m.isAdd), rest);
  }

  lemma NotificationRequestComesBack(m: Written, rest: Bytes)
    requires m.NotificationRequest? && Fits(m)
    ensures ParseNotificationRequest(BodyBytes(m) + rest) == Ok(Back(m), rest)
  {
    hide PrefixedBytes, BoolBytes, SetBytes, PacketsBytes, ParseText, ParseBool, ParseGuid, ParseSet, ParsePackets;
    hide PacketsFit, TextBack, SetBack, PacketsBack;
    TextComesBack(m.feed, BoolBytes(m.isAdd) + rest);
    BoolComesBack(m.isAdd, rest);
    Grouped(PrefixedBytes(m.feed), BoolBytes(m.isAdd), rest);
  }

  lemma SubscriptionRequestComesBack(m: Written, rest: Bytes)
    requires m.SubscriptionRequest? && Fits(m)
    ensures ParseSubscriptionRequest(BodyBytes(m) + rest) == Ok(Back(m), rest)
  {
    hide PrefixedBytes, BoolBytes, SetBytes, PacketsBytes, ParseText, ParseBool, ParseGuid, ParseSet, ParsePackets;
    hide PacketsFit, TextBack, SetBack, PacketsBack;
    TopicComesBack(m.feed, m.topic, BoolBytes(m.isAdd) + rest);
    BoolComesBack(m.isAdd, rest);
    Grouped3(PrefixedBytes(m.feed), PrefixedBytes(m.topic), BoolBytes(m.isAdd), rest);
  }

  lemma AuthorizationRequestComesBack(m: Written, rest: Bytes)
    requires m.AuthorizationRequest? && Fits(m)
    ensures ParseAuthorizationRequest(BodyBytes(m) + rest) == Ok(Back(m), rest)
  {
    hide PrefixedBytes, BoolBytes, SetBytes, PacketsBytes, ParseText, ParseBool, ParseGuid, ParseSet, ParsePackets;
    hide PacketsFit, TextBack, SetBack, PacketsBack;
    var d := PrefixedBytes(m.feed) + (PrefixedBytes(m.topic) + rest);
    GuidComesBack(m.clientId, PrefixedBytes(m.host) + (PrefixedBytes(m.user) + d));
    TopicComesBack(m.host, m.user, d);
    TopicComesBack(m.feed, m.topic, rest);
    Grouped4(m.clientId, PrefixedBytes(m.host), PrefixedBytes(m.user), PrefixedBytes(m.feed) + PrefixedBytes(m.topic),
             rest);
    Grouped(PrefixedBytes(m.feed), PrefixedBytes(m.topic), rest);
  }

  lemma AuthorizationResponseComesBack(m: Written, rest: Bytes)
    requires m.AuthorizationResponse? && Fits(m)
    ensures ParseAuthorizationResponse(BodyBytes(m) + rest) == Ok(Back(m), rest)
  {
    hide PrefixedBytes, BoolBytes, SetBytes, PacketsBytes, ParseText, ParseBool, ParseGuid, ParseSet, ParsePackets;
    hide PacketsFit, TextBack, SetBack, PacketsBack;
    var e := SetBytes(m.entitlements) + rest;
    var d := BoolBytes(m.isAuthorizationRequired) + e;
    GuidComesBack(m.clientId, PrefixedBytes(m.feed) + (PrefixedBytes(m.topic) + d));
    TopicComesBack(m.feed, m.topic, d);
    BoolComesBack(m.isAuthorizationRequired, e);
    SetComesBack(m.entitlements, rest);
    Grouped4(m.clientId, PrefixedBytes(m.feed), PrefixedBytes(m.topic),
             BoolBytes(m.isAuthorizationRequired) + SetBytes(m.entitlements), rest);
    Grouped(BoolBytes(m.isAuthorizationRequired), SetBytes(m.entitlements), rest);
  }

  lemma ForwardedMulticastDataComesBack(m: Written, rest: Bytes)
    requires m.ForwardedMulticastData? && Fits(m)
    ensures ParseForwardedMulticastData(BodyBytes(m) + rest) == Ok(Back(m), rest)
  {
    hide PrefixedBytes, BoolBytes, SetBytes, PacketsBytes, ParseText, ParseBool, ParseGuid, ParseSet, ParsePackets;
    hide PacketsFit, TextBack, SetBack, PacketsBack;
    var e := PacketsBytes(m.packets) + rest;
    var d := PrefixedBytes(m.contentType) + e;
    TopicComesBack(m.user, m.host, PrefixedBytes(m.feed) + (PrefixedBytes(m.topic) + d));
    TopicComesBack(m.feed, m.topic, d);
    TextComesBack(m.contentType, e);
    PacketsComeBack(m.packets, rest);
    Grouped3(PrefixedBytes(m.user), PrefixedBytes(m.host),
             PrefixedBytes(m.feed) + (PrefixedBytes(m.topic)
                                      + (PrefixedBytes(m.contentType) + PacketsBytes(m.packets))), rest);
    Grouped4(PrefixedBytes(m.feed), PrefixedBytes(m.topic), PrefixedBytes(m.contentType), PacketsBytes(m.packets),
             rest);
  }

  lemma ForwardedUnicastDataComesBack(m: Written, rest: Bytes)
    requires m.ForwardedUnicastData? && Fits(m)
    ensures ParseForwardedUnicastData(BodyBytes(m) + rest) == Ok(Back(m), rest)
  {
    hide PrefixedBytes, BoolBytes, SetBytes, PacketsBytes, ParseText, ParseBool, ParseGuid, ParseSet, ParsePackets;
    hide PacketsFit, TextBack, SetBack, PacketsBack;
    var e := PacketsBytes(m.packets) + rest;
    var d := PrefixedBytes(m.contentType) + e;
    var c := PrefixedBytes(m.feed) + (PrefixedBytes(m.topic) + d);
    TopicComesBack(m.user, m.host, m.clientId + c);
    GuidComesBack(m.clientId, c);
    TopicComesBack(m.feed, m.topic, d);
    TextComesBack(m.contentType, e);
    PacketsComeBack(m.packets, rest);
    Grouped4(PrefixedBytes(m.user), PrefixedBytes(m.host), m.clientId,
             PrefixedBytes(m.feed) + (PrefixedBytes(m.topic)
                                      + (PrefixedBytes(m.contentType) + PacketsBytes(m.packets))), rest);
    Grouped4(PrefixedBytes(m.feed), PrefixedBytes(m.topic), PrefixedBytes(m.contentType), PacketsBytes(m.packets),
             rest);
  }

  lemma BodyComesBack(m: Written, rest: Bytes)
    requires Fits(m)
    ensures ParseBody(TagOf(m), BodyBytes(m) + rest) == Ok(Back(m), rest)
  {
    hide BodyBytes, Back, Fits, ParseMulticastData, ParseUnicastData, ParseForwardedSubscriptionRequest,
         ParseNotificationRequest;
    hide ParseSubscriptionRequest, ParseAuthorizationRequest, ParseAuthorizationResponse, ParseForwardedMulticastData,
         ParseForwardedUnicastData;
    match m
    case MulticastData(_, _, _, _) => MulticastDataComesBack(m, rest);
    case UnicastData(_, _, _, _, _) => UnicastDataComesBack(m, rest);
    case ForwardedSubscriptionRequest(_, _, _, _, _, _) => ForwardedSubscriptionRequestComesBack(m, rest);
    case NotificationRequest(_, _) => NotificationRequestComesBack(m, rest);
    case SubscriptionRequest(_, _, _) => SubscriptionRequestComesBack(m, rest);
    case AuthorizationRequest(_, _, _, _, _) => AuthorizationRequestComesBack(m, rest);
    case AuthorizationResponse(_, _, _, _, _) => AuthorizationResponseComesBack(m, rest);
    case ForwardedMulticastData(_, _, _, _, _, _) => ForwardedMulticastDataComesBack(m, rest);
    case ForwardedUnicastData(_, _, _, _, _, _, _) => ForwardedUnicastDataComesBack(m, rest);
  }

  /** A written message reads back, and its reading takes exactly its own bytes. */
  lemma MessageComesBack(m: Written, rest: Bytes)
    requires Fits(m)
    ensures ParseMessage(MessageBytes(m) + rest) == Ok(Back(m), rest)
  {
    hide ParseBody, BodyBytes;
    BodyComesBack(m, rest);
    assert (MessageBytes(m) + rest)[0] == TagOf(m) && (MessageBytes(m) + rest)[1..] == BodyBytes(m) + rest;
  }

  function AllBytes(ms: seq<Written>): Bytes
    requires forall m :: m in ms ==> Fits(m)
  {
    if ms == [] then [] else MessageBytes(ms[0]) + AllBytes(ms[1..])
  }

  function ParseMessages(n: nat, data: Bytes): Result<seq<Read>> {
    if n == 0 then Ok([], data)
    else
      var m :- ParseMessage(data);
      var ms :- ParseMessages(n - 1, m.rest);
      Ok([m.value] + ms.value, ms.rest)
  }

  function AllBack(ms: seq<Written>): seq<Read> {
    if ms == [] then [] else [Back(ms[0])] + AllBack(ms[1..])
  }

  /** Messages that are written one after the other are read back one after the other. */
  lemma {:induction false} MessagesComeBack(ms: seq<Written>, rest: Bytes)
    requires forall m :: m in ms ==> Fits(m)
    ensures ParseMessages(|ms|, AllBytes(ms) + rest) == Ok(AllBack(ms), rest)
  {
    hide ParseMessage, MessageBytes, Back, Fits;
    if ms == [] {
      assert [] + rest == rest;
    } else {
      Grouped(MessageBytes(ms[0]), AllBytes(ms[1..]), rest);
      MessageComesBack(ms[0], AllBytes(ms[1..]) + rest);
      MessagesComeBack(ms[1..], rest);
    }
  }

  /** Different messages, up to what does not come back, have different bytes. */
  lemma BytesIdentifyMessages(m: Written, n: Written)
    requires Fits(m) && Fits(n) && MessageBytes(m) == MessageBytes(n)
    ensures Back(m) == Back(n)
  {
    hide ParseMessage, MessageBytes, Back, Fits;
    MessageComesBack(m, []);
    MessageComesBack(n, []);
  }

  // ----- A stream that ends early -----

  /** More bytes behind what has been read change nothing but what is left. Only a failure for want of bytes may
      be mended by them. */
  ghost predicate Extends<T>(p: Result<T>, q: Result<T>, more: Bytes) {
    match p
    case Ok(value, rest) => q == Ok(value, rest + more)
    case Fail(failure) => failure == Spins || q == p
  }

  /** Where the next field is read from. */
  function Left<T>(p: Result<T>): Bytes {
    if p.Ok? then p.rest else []
  }

  lemma FullyExtends(n: nat, data: Bytes, more: Bytes)
    ensures Extends(ParseFully(n, data), ParseFully(n, data + more), more)
  {
    if n <= |data| {
      assert (data + more)[..n] == data[..n] && (data + more)[n..] == data[n..] + more;
    }
  }

  lemma Int32Extends(data: Bytes, more: Bytes)
    ensures Extends(ParseInt32(data), ParseInt32(data + more), more)
  {
    hide ParseFully, Int32Of;
    FullyExtends(4, data, more);
  }

  lemma TextExtends(data: Bytes, more: Bytes)
    ensures Extends(ParseText(data), ParseText(data + more), more)
  {
    hide ParseFully, ParseInt32;
    Int32Extends(data, more);
    var n := ParseInt32(data);
    if n.Ok? && n.value >= 0 { FullyExtends(n.value, n.rest, more); }
  }

  lemma ByteArrayExtends(data: Bytes, more: Bytes)
    ensures Extends(ParseByteArray(data), ParseByteArray(data + more), more)
  {
    hide ParseFully, ParseInt32;
    Int32Extends(data, more);
    var n := ParseInt32(data);
    if n.Ok? && n.value > 0 { FullyExtends(n.value, n.rest, more); }
  }

  lemma GuidExtends(data: Bytes, more: Bytes)
    ensures Extends(ParseGuid(data), ParseGuid(data + more), more)
  {
    if 16 <= |data| {
      assert (data + more)[..16] == data[..16] && (data + more)[16..] == data[16..] + more;
    }
  }

  lemma {:induction false} IntsExtend(n: nat, soFar: set<int32>, data: Bytes, more: Bytes)
    ensures Extends(ParseInts(n, soFar, data), ParseInts(n, soFar, data + more), more)
    decreases n
  {
    hide ParseInt32;
    if n > 0 {
      Int32Extends(data, more);
      var v := ParseInt32(data);
      if v.Ok? { IntsExtend(n - 1, soFar + {v.value}, v.rest, more); }
    }
  }

  lemma SetExtends(data: Bytes, more: Bytes)
    ensures Extends(ParseSet(data), ParseSet(data + more), more)
  {
    hide ParseInt32, ParseInts;
    Int32Extends(data, more);
    var n := ParseInt32(data);
    if n.Ok? { IntsExtend(if n.value < 0 then 0 else n.value, {}, n.rest, more); }
  }

  lemma PacketExtends(data: Bytes, more: Bytes)
    ensures Extends(ParsePacket(data), ParsePacket(data + more), more)
  {
    hide ParseSet, ParseByteArray;
    SetExtends(data, more);
    ByteArrayExtends(Left(ParseSet(data)), more);
  }

  lemma {:induction false} PacketListExtends(n: nat, soFar: seq<Packet<set<int32>>>, data: Bytes, more: Bytes)
    ensures Extends(ParsePacketList(n, soFar, data), ParsePacketList(n, soFar, data + more), more)
    decreases n
  {
    hide ParsePacket;
    if n > 0 {
      PacketExtends(data, more);
      var p := ParsePacket(data);
      if p.Ok? { PacketListExtends(n - 1, soFar + [p.value], p.rest, more); }
    }
  }

  lemma PacketsExtend(data: Bytes, more: Bytes)
    ensures Extends(ParsePackets(data), ParsePackets(data + more), more)
  {
    hide ParseInt32, ParsePacketList;
    Int32Extends(data, more);
    var n := ParseInt32(data);
    if n.Ok? && n.value > 0 { PacketListExtends(n.value, [], n.rest, more); }
  }

  lemma MulticastDataExtends(data: Bytes, more: Bytes)
    ensures Extends(ParseMulticastData(data), ParseMulticastData(data + more), more)
  {
    hide ParseText, ParsePackets;
    var feed := ParseText(data);
    var topic := ParseText(Left(feed));
    var contentType := ParseText(Left(topic));
    TextExtends(data, more);
    TextExtends(Left(feed), more);
    TextExtends(Left(topic), more);
    PacketsExtend(Left(contentType), more);
  }

  lemma UnicastDataExtends(data: Bytes, more: Bytes)
    ensures Extends(ParseUnicastData(data), ParseUnicastData(data + more), more)
  {
    hide ParseGuid, ParseMulticastData, ParseText, ParsePackets;
    var clientId := ParseGuid(data);
    var feed := ParseText(Left(clientId));
    var topic := ParseText(Left(feed));
    var contentType := ParseText(Left(topic));
    GuidExtends(data, more);
    TextExtends(Left(clientId), more);
    TextExtends(Left(feed), more);
    TextExtends(Left(topic), more);
    PacketsExtend(Left(contentType), more);
  }

  lemma AuthorizationRequestExtends(data: Bytes, more: Bytes)
    ensures Extends(ParseAuthorizationRequest(data), ParseAuthorizationRequest(data + more), more)
  {
    hide ParseGuid, ParseText;
    var clientId := ParseGuid(data);
    var host := ParseText(Left(clientId));
    var user := ParseText(Left(host));
    var feed := ParseText(Left(user));
    GuidExtends(data, more);
    TextExtends(Left(clientId), more);
    TextExtends(Left(host), more);
    TextExtends(Left(user), more);
    TextExtends(Left(feed), more);
  }

  /** Where the stream ends before the flag, the flag reads as true but the set behind it does not read. */
  lemma FlagAndSetExtend(data: Bytes, more: Bytes)
    ensures data == [] ==> ParseSet(ParseBool(data).rest) == Fail(Spins)
    ensures data != [] ==> Extends(ParseBool(data), ParseBool(data + more), more)
    ensures data != [] ==> Extends(ParseSet(ParseBool(data).rest), ParseSet(ParseBool(data).rest + more), more)
  {
    SetExtends(ParseBool(data).rest, more);
    if data != [] {
      assert (data + more)[1..] == data[1..] + more;
    }
  }

  lemma AuthorizationResponseExtends(data: Bytes, more: Bytes)
    ensures Extends(ParseAuthorizationResponse(data), ParseAuthorizationResponse(data + more), more)
  {
    hide ParseGuid, ParseText, ParseBool, ParseSet;
    var clientId := ParseGuid(data);
    var feed := ParseText(Left(clientId));
    var topic := ParseText(Left(feed));
    GuidExtends(data, more);
    TextExtends(Left(clientId), more);
    TextExtends(Left(feed), more);
    FlagAndSetExtend(Left(topic), more);
    BoolIsRead(Left(topic));
  }

  lemma ForwardedMulticastDataExtends(data: Bytes, more: Bytes)
    ensures Extends(ParseForwardedMulticastData(data), ParseForwardedMulticastData(data + more), more)
  {
    hide ParseText, ParsePackets;
    var user := ParseText(data);
    var host := ParseText(Left(user));
    var feed := ParseText(Left(host));
    var topic := ParseText(Left(feed));
    var contentType := ParseText(Left(topic));
    TextExtends(data, more);
    TextExtends(Left(user), more);
    TextExtends(Left(host), more);
    TextExtends(Left(feed), more);
    TextExtends(Left(topic), more);
    PacketsExtend(Left(contentType), more);
  }

  lemma ForwardedUnicastDataExtends(data: Bytes, more: Bytes)
    ensures Extends(ParseForwardedUnicastData(data), ParseForwardedUnicastData(data + more), more)
  {
    hide ParseGuid, ParseText, ParsePackets;
    var user := ParseText(data);
    var host := ParseText(Left(user));
    var clientId := ParseGuid(Left(host));
    var feed := ParseText(Left(clientId));
    var topic := ParseText(Left(feed));
    var contentType := ParseText(Left(topic));
    TextExtends(data, more);
    TextExtends(Left(user), more);
    GuidExtends(Left(host), more);
    TextExtends(Left(clientId), more);
    TextExtends(Left(feed), more);
    TextExtends(Left(topic), more);
    PacketsExtend(Left(contentType), more);
  }

  /** A message that ends in a flag may have been read without it; then the next byte is taken for the flag. */
  ghost predicate ExtendsByFlag(p: Result<Read>, q: Result<Read>, more: Bytes)
    requires more != []
  {
    Extends(p, q, more) || (q.Ok? && q.rest == more[1..])
  }

  lemma FlagExtends(data: Bytes, more: Bytes)
    requires more != []
    ensures data == [] ==> ParseBool(data + more) == Ok(more[0] != 0, more[1..])
    ensures data != [] ==> Extends(ParseBool(data), ParseBool(data + more), more)
  {
    if data == [] {
      assert data + more == more;
    } else {
      assert (data + more)[1..] == data[1..] + more;
    }
  }

  lemma ForwardedSubscriptionRequestExtends(data: Bytes, more: Bytes)
    requires more != []
    ensures ExtendsByFlag(ParseForwardedSubscriptionRequest(data), ParseForwardedSubscriptionRequest(data + more), more)
  {
    hide ParseGuid, ParseText, ParseBool;
    var user := ParseText(data);
    var host := ParseText(Left(user));
    var clientId := ParseGuid(Left(host));
    var feed := ParseText(Left(clientId));
    var topic := ParseText(Left(feed));
    TextExtends(data, more);
    TextExtends(Left(user), more);
    GuidExtends(Left(host), more);
    TextExtends(Left(clientId), more);
    TextExtends(Left(feed), more);
    FlagExtends(Left(topic), more);
    BoolIsRead(Left(topic));
  }

  lemma BoolIsRead(data: Bytes)
    ensures ParseBool(data).Ok?
  {
  }

  lemma NotificationRequestExtends(data: Bytes, more: Bytes)
    requires more != []
    ensures ExtendsByFlag(ParseNotificationRequest(data), ParseNotificationRequest(data + more), more)
  {
    hide ParseText, ParseBool;
    TextExtends(data, more);
    FlagExtends(Left(ParseText(data)), more);
    BoolIsRead(Left(ParseText(data)));
  }

  lemma SubscriptionRequestExtends(data: Bytes, more: Bytes)
    requires more != []
    ensures ExtendsByFlag(ParseSubscriptionRequest(data), ParseSubscriptionRequest(data + more), more)
  {
    hide ParseText, ParseBool;
    var feed := ParseText(data);
    var topic := ParseText(Left(feed));
    TextExtends(data, more);
    TextExtends(Left(feed), more);
    FlagExtends(Left(topic), more);
    BoolIsRead(Left(topic));
  }

  predicate EndsInFlag<T, S>(m: Message<T, S>) {
    m.ForwardedSubscriptionRequest? || m.NotificationRequest? || m.SubscriptionRequest?
  }

  lemma BodyExtends(m: Written, data: Bytes, more: Bytes)
    requires more != []
    ensures var p, q := ParseBody(TagOf(m), data), ParseBody(TagOf(m), data + more);
            if EndsInFlag(m) then ExtendsByFlag(p, q, more) else Extends(p, q, more)
  {
    hide ParseMulticastData, ParseUnicastData, ParseForwardedSubscriptionRequest, ParseNotificationRequest;
    hide ParseSubscriptionRequest, ParseAuthorizationRequest, ParseAuthorizationResponse, ParseForwardedMulticastData,
         ParseForwardedUnicastData, Extends, ExtendsByFlag;
    match m
    case MulticastData(_, _, _, _) => MulticastDataExtends(data, more);
    case UnicastData(_, _, _, _, _) => UnicastDataExtends(data, more);
    case ForwardedSubscriptionRequest(_, _, _, _, _, _) => ForwardedSubscriptionRequestExtends(data, more);
    case NotificationRequest(_, _) => NotificationRequestExtends(data, more);
    case SubscriptionRequest(_, _, _) => SubscriptionRequestExtends(data, more);
    case AuthorizationRequest(_, _, _, _, _) => AuthorizationRequestExtends(data, more);
    case AuthorizationResponse(_, _, _, _, _) => AuthorizationResponseExtends(data, more);
    case ForwardedMulticastData(_, _, _, _, _, _) => ForwardedMulticastDataExtends(data, more);
    case ForwardedUnicastData(_, _, _, _, _, _, _) => ForwardedUnicastDataExtends(data, more);
  }

  /** What is read when nothing but the flag is missing. */
  function WithFlag(m: Read): Read
    requires EndsInFlag(m)
  {
    m.(isAdd := true)
  }

  lemma TextAtTheEnd(t: Option<Bytes>)
    requires TextFits(t)
    ensures ParseText(PrefixedBytes(t)) == Ok(TextBack(t), [])
  {
    hide PrefixedBytes, ParseText;
    TextComesBack(t, []);
    assert PrefixedBytes(t) + [] == PrefixedBytes(t);
  }

  lemma TopicAtTheEnd(feed: Option<Bytes>, topic: Option<Bytes>)
    requires TextFits(feed) && TextFits(topic)
    ensures ParseText(PrefixedBytes(feed) + PrefixedBytes(topic)) == Ok(TextBack(feed), PrefixedBytes(topic))
    ensures ParseText(PrefixedBytes(topic)) == Ok(TextBack(topic), [])
  {
    TextComesBack(feed, PrefixedBytes(topic));
    TextAtTheEnd(topic);
  }

  /** A body without its last byte, which is the flag. */
  function Flagless(m: Written): Bytes
    requires Fits(m) && EndsInFlag(m)
  {
    match m
    case ForwardedSubscriptionRequest(user, host, clientId, feed, topic, _) =>
      PrefixedBytes(user) + (PrefixedBytes(host) + (clientId + (PrefixedBytes(feed) + PrefixedBytes(topic))))
    case NotificationRequest(feed, _) => PrefixedBytes(feed)
    case SubscriptionRequest(feed, topic, _) => PrefixedBytes(feed) + PrefixedBytes(topic)
  }

  lemma FlagIsLast(m: Written)
    requires Fits(m) && EndsInFlag(m)
    ensures BodyBytes(m) == Flagless(m) + BoolBytes(m.isAdd)
  {
    hide PrefixedBytes, BoolBytes;
    match m
    case ForwardedSubscriptionRequest(user, host, clientId, feed, topic, isAdd) =>
      Grouped(PrefixedBytes(feed), PrefixedBytes(topic), BoolBytes(isAdd));
      Grouped4(PrefixedBytes(user), PrefixedBytes(host), clientId, PrefixedBytes(feed) + PrefixedBytes(topic),
               BoolBytes(isAdd));
    case NotificationRequest(_, _) =>
    case SubscriptionRequest(feed, topic, isAdd) =>
      Grouped(PrefixedBytes(feed), PrefixedBytes(topic), BoolBytes(isAdd));
  }

  lemma FlaglessReads(m: Written)
    requires Fits(m) && EndsInFlag(m)
    ensures ParseBody(TagOf(m), Flagless(m)) == Ok(WithFlag(Back(m)), [])
  {
    hide PrefixedBytes, ParseText, ParseGuid, TextBack;
    match m
    case ForwardedSubscriptionRequest(user, host, clientId, feed, topic, _) =>
      TopicComesBack(user, host, clientId + (PrefixedBytes(feed) + PrefixedBytes(topic)));
      GuidComesBack(clientId, PrefixedBytes(feed) + PrefixedBytes(topic));
      TopicAtTheEnd(feed, topic);
    case NotificationRequest(feed, _) =>
      TextAtTheEnd(feed);
    case SubscriptionRequest(feed, topic, _) =>
      TopicAtTheEnd(feed, topic);
  }

  /** What reading makes of a body that the end of the stream cuts. */
  function CutBody(m: Written, k: nat): Result<Read>
    requires Fits(m)
  {
    if EndsInFlag(m) && k == |BodyBytes(m)| - 1 then Ok(WithFlag(Back(m)), []) else Fail(Spins)
  }

  lemma BodyIsCut(m: Written, k: nat)
    requires Fits(m) && k < |BodyBytes(m)|
    ensures ParseBody(TagOf(m), BodyBytes(m)[..k]) == CutBody(m, k)
  {
    hide ParseBody, BodyBytes, Back, Fits, Flagless;
    var body := BodyBytes(m);
    if EndsInFlag(m) && k == |body| - 1 {
      FlagIsLast(m);
      FlaglessReads(m);
      assert body[..k] == Flagless(m);
    } else {
      BodyComesBack(m, []);
      assert body + [] == body == body[..k] + body[k..];
      BodyExtends(m, body[..k], body[k..]);
    }
  }

  /** A message that the end of the stream cuts is an end of the stream where nothing of it has come, and reads
      well, with the flag set, where nothing but its flag is missing. Everywhere else reading never ends. */
  lemma CutMessageReadsExactly(m: Written, k: nat)
    requires Fits(m) && k < |MessageBytes(m)|
    ensures ParseMessage(MessageBytes(m)[..k]) ==
              if k == 0 then Fail(EndOfStream)
              else if EndsInFlag(m) && k == |MessageBytes(m)| - 1 then Ok(WithFlag(Back(m)), [])
              else Fail(Spins)
  {
    hide ParseBody, BodyBytes, Back, Fits;
    if k > 0 {
      var cut := MessageBytes(m)[..k];
      assert cut[0] == TagOf(m) && cut[1..] == BodyBytes(m)[..k - 1];
      BodyIsCut(m, k - 1);
    }
  }
}
