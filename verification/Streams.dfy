/** Reading and writing messages step by step
    (core/src/JetBlack.MessageBus.Common/IO/DataReader.cs and DataWriter.cs,
    core/src/JetBlack.MessageBus.Messages/Message.cs and the nine bodies), against the functions of
    `Codec`. A stream delivers its bytes in pieces of any size. */
module Streams {
  import opened Options
  import opened Messages
  import opened Parsing
  import opened Codec
  import opened Sequences

  class Stream {
    var incoming: Bytes
    var outgoing: Bytes

    constructor (incoming: Bytes)
      ensures this.incoming == incoming && outgoing == []
    {
      this.incoming, outgoing := incoming, [];
    }

    /** The next byte, or -1 at the end. */
    method ReadByte() returns (ch: int)
      modifies this`incoming
      ensures old(incoming) == [] ==> ch == -1 && incoming == []
      ensures old(incoming) != [] ==> ch == old(incoming)[0] as int && incoming == old(incoming)[1..]
    {
      if incoming == [] {
        return -1;
      }
      ch := incoming[0] as int;
      incoming := incoming[1..];
    }

    /** Fills a part of the buffer with some bytes, as many as happen to be there, but at least one
        unless the stream has ended. */
    method Read(buf: array<byte>, off: nat, len: nat) returns (count: nat)
      requires off + len <= buf.Length
      modifies this`incoming, buf
      ensures count <= len && count <= |old(incoming)| && (count == 0 <==> len == 0 || old(incoming) == [])
      ensures incoming == old(incoming)[count..]
      ensures buf[..] == old(buf[..off]) + old(incoming)[..count] + old(buf[off + count..])
    {
      var most := if len < |incoming| then len else |incoming|;
      if most == 0 {
        count := 0;
      } else {
        count :| 1 <= count <= most;
      }
      var i := 0;
      while i < count
        invariant 0 <= i <= count && unchanged(this)
        invariant buf[..off] == old(buf[..off]) && buf[off + count..] == old(buf[off + count..])
        invariant forall j :: 0 <= j < i ==> buf[off + j] == incoming[j]
      {
        buf[off + i] := incoming[i];
        i := i + 1;
      }
      assert buf[off..off + count] == incoming[..count];
      assert buf[..] == buf[..off] + buf[off..off + count] + buf[off + count..];
      incoming := incoming[count..];
    }

    method Write(bytes: Bytes)
      modifies this`outgoing
      ensures outgoing == old(outgoing) + bytes
    {
      outgoing := outgoing + bytes;
    }
  }

  type Reading<+T> = Outcome<T, Failure>

  class DataReader {
    const stream: Stream

    constructor (stream: Stream)
      ensures this.stream == stream
    {
      this.stream := stream;
    }

    method ReadBoolean() returns (r: bool)
      modifies stream`incoming
      ensures Agrees(ParseBool(old(stream.incoming)), Value(r), stream.incoming)
    {
      var ch := stream.ReadByte();
      r := ch != 0;
    }

    method ReadByte() returns (r: Reading<byte>)
      modifies stream`incoming
      ensures Agrees(ParseByte(old(stream.incoming)), r, stream.incoming)
    {
      var ch := stream.ReadByte();
      if ch < 0 {
        return Failed(EndOfStream);
      }
      r := Value(ch as byte);
    }

    /** Reads until the buffer is full. When the stream has ended before, the program goes on asking it
        for bytes that never come: the rounds of the loop up to there end in one that leads to itself. */
    method ReadFully(buf: array<byte>) returns (r: Reading<Bytes>)
      modifies stream`incoming, buf
      ensures Agrees(ParseFully(buf.Length, old(stream.incoming)), r, stream.incoming)
      ensures exists run :: IsFilling(buf.Length, old(stream.incoming), run) && ComesTo(buf.Length, run, r)
    {
      hide IsFilling, ComesTo;
      var n := 0;
      ghost var all := stream.incoming;
      ghost var run := [Filling(0, all)];
      FillingStarts(buf.Length, all);
      while n < buf.Length
        invariant n <= buf.Length && n <= |all| && buf[..n] == all[..n] && stream.incoming == all[n..]
        invariant IsFilling(buf.Length, all, run) && run != [] && run[|run| - 1] == Filling(n, stream.incoming)
      {
        var count := stream.Read(buf, n, buf.Length - n);
        if count == 0 {
          FillingStalls(buf.Length, run);
          return Failed(Spins);
        }
        FillingGoesOn(buf.Length, all, run, count);
        run := run + [Filling(n + count, stream.incoming)];
        assert buf[..n + count] == all[..n] + all[n..][..count];
        assert all[..n + count] == all[..n] + all[n..][..count];
        n := n + count;
      }
      assert buf[..] == buf[..n];
      r := Value(buf[..]);
      FillingIsDone(buf.Length, run, buf[..]);
    }

    method ReadInt32() returns (r: Reading<int32>)
      modifies stream`incoming
      ensures Agrees(ParseInt32(old(stream.incoming)), r, stream.incoming)
    {
      var buf := new byte[4];
      var b :- ReadFully(buf);
      r := Value(Int32Of(b));
    }

    method ReadString() returns (r: Reading<Bytes>)
      modifies stream`incoming
      ensures Agrees(ParseText(old(stream.incoming)), r, stream.incoming)
    {
      var len :- ReadInt32();
      if len < 0 {
        return Failed(BadLength);
      }
      var buf := new byte[len];
      r := ReadFully(buf);
    }

    method ReadInt32Set() returns (r: Reading<Option<set<int32>>>)
      modifies stream`incoming
      ensures Agrees(ParseSet(old(stream.incoming)), r, stream.incoming)
    {
      hide ParseInt32;
      var count :- ReadInt32();
      if count == 0 {
        return Value(None);
      }
      var values: set<int32> := {};
      ghost var all := stream.incoming;
      var i: int := 0;
      while i < count as int
        invariant 0 <= i && (count > 0 ==> i <= count as int) && (count < 0 ==> i == 0)
        invariant ParseInts(if count < 0 then 0 else count, {}, all)
                  == ParseInts(if count < 0 then 0 else count as int - i, values, stream.incoming)
      {
        var v :- ReadInt32();
        values := values + {v};
        i := i + 1;
      }
      r := Value(Some(values));
    }

    method ReadByteArray() returns (r: Reading<Option<Bytes>>)
      modifies stream`incoming
      ensures Agrees(ParseByteArray(old(stream.incoming)), r, stream.incoming)
    {
      var count :- ReadInt32();
      if count == 0 {
        return Value(None);
      }
      if count < 0 {
        return Failed(BadLength);
      }
      var data := new byte[count];
      var buf :- ReadFully(data);
      r := Value(Some(buf));
    }

    method ReadGuid() returns (r: Reading<Guid>)
      modifies stream`incoming
      ensures Agrees(ParseGuid(old(stream.incoming)), r, stream.incoming)
    {
      var buf := new byte[16];
      var b :- ReadFully(buf);
      r := Value(b);
    }

    method ReadBinaryDataPacket() returns (r: Reading<Packet<set<int32>>>)
      modifies stream`incoming
      ensures Agrees(ParsePacket(old(stream.incoming)), r, stream.incoming)
    {
      hide ParseSet, ParseByteArray;
      var entitlements :- ReadInt32Set();
      var data :- ReadByteArray();
      r := Value(Packet(entitlements, data));
    }

    method ReadBinaryDataPacketArray() returns (r: Reading<Packets<set<int32>>>)
      modifies stream`incoming
      ensures Agrees(ParsePackets(old(stream.incoming)), r, stream.incoming)
    {
      hide ParseInt32, ParsePacket;
      var count :- ReadInt32();
      if count == 0 {
        return Value(None);
      }
      if count < 0 {
        return Failed(BadLength);
      }
      var dataPackets: seq<Packet<set<int32>>> := [];
      ghost var all := stream.incoming;
      while |dataPackets| < count as int
        invariant |dataPackets| <= count as int
        invariant ParsePacketList(count, [], all) == ParsePacketList(count as int - |dataPackets|, dataPackets,
                                                                     stream.incoming)
        decreases count as int - |dataPackets|
      {
        var p :- ReadBinaryDataPacket();
        dataPackets := dataPackets + [p];
      }
      r := Value(Some(dataPackets));
    }

    // ----- The bodies of the messages -----

    method ReadMulticastData() returns (r: Reading<Codec.Read>)
      modifies stream`incoming
      ensures Agrees(ParseMulticastData(old(stream.incoming)), r, stream.incoming)
    {
      hide ParseText, ParsePackets;
      var feed :- ReadString();
      var topic :- ReadString();
      var contentType :- ReadString();
      var dataPackets :- ReadBinaryDataPacketArray();
      r := Value(MulticastData(feed, topic, contentType, dataPackets));
    }

    method ReadUnicastData() returns (r: Reading<Codec.Read>)
      modifies stream`incoming
      ensures Agrees(ParseUnicastData(old(stream.incoming)), r, stream.incoming)
    {
      hide ParseText, ParsePackets, ParseGuid;
      var clientId :- ReadGuid();
      var feed :- ReadString();
      var topic :- ReadString();
      var contentType :- ReadString();
      var dataPackets :- ReadBinaryDataPacketArray();
      r := Value(UnicastData(clientId, feed, topic, contentType, dataPackets));
    }

    method ReadForwardedSubscriptionRequest() returns (r: Reading<Codec.Read>)
      modifies stream`incoming
      ensures Agrees(ParseForwardedSubscriptionRequest(old(stream.incoming)), r, stream.incoming)
    {
      hide ParseText, ParseBool, ParseGuid;
      var user :- ReadString();
      var host :- ReadString();
      var clientId :- ReadGuid();
      var feed :- ReadString();
      var topic :- ReadString();
      var isAdd := ReadBoolean();
      r := Value(ForwardedSubscriptionRequest(user, host, clientId, feed, topic, isAdd));
    }

    method ReadNotificationRequest() returns (r: Reading<Codec.Read>)
      modifies stream`incoming
      ensures Agrees(ParseNotificationRequest(old(stream.incoming)), r, stream.incoming)
    {
      hide ParseText, ParseBool;
      var feed :- ReadString();
      var isAdd := ReadBoolean();
      r := Value(NotificationRequest(feed, isAdd));
    }

    method ReadSubscriptionRequest() returns (r: Reading<Codec.Read>)
      modifies stream`incoming
      ensures Agrees(ParseSubscriptionRequest(old(stream.incoming)), r, stream.incoming)
    {
      hide ParseText, ParseBool;
      var feed :- ReadString();
      var topic :- ReadString();
      var isAdd := ReadBoolean();
      r := Value(SubscriptionRequest(feed, topic, isAdd));
    }

    method ReadAuthorizationRequest() returns (r: Reading<Codec.Read>)
      modifies stream`incoming
      ensures Agrees(ParseAuthorizationRequest(old(stream.incoming)), r, stream.incoming)
    {
      hide ParseText, ParseGuid;
      var clientId :- ReadGuid();
      var host :- ReadString();
      var user :- ReadString();
      var feed :- ReadString();
      var topic :- ReadString();
      r := Value(AuthorizationRequest(clientId, host, user, feed, topic));
    }

    method ReadAuthorizationResponse() returns (r: Reading<Codec.Read>)
      modifies stream`incoming
      ensures Agrees(ParseAuthorizationResponse(old(stream.incoming)), r, stream.incoming)
    {
      hide ParseText, ParseGuid, ParseBool, ParseSet;
      var clientId :- ReadGuid();
      var feed :- ReadString();
      var topic :- ReadString();
      var isAuthorizationRequired := ReadBoolean();
      var entitlements :- ReadInt32Set();
      r := Value(AuthorizationResponse(clientId, feed, topic, isAuthorizationRequired, entitlements));
    }

    method ReadForwardedMulticastData() returns (r: Reading<Codec.Read>)
      modifies stream`incoming
      ensures Agrees(ParseForwardedMulticastData(old(stream.incoming)), r, stream.incoming)
    {
      hide ParseText, ParsePackets;
      var user :- ReadString();
      var host :- ReadString();
      var feed :- ReadString();
      var topic :- ReadString();
      var contentType :- ReadString();
      var dataPackets :- ReadBinaryDataPacketArray();
      r := Value(ForwardedMulticastData(user, host, feed, topic, contentType, dataPackets));
    }

    method ReadForwardedUnicastData() returns (r: Reading<Codec.Read>)
      modifies stream`incoming
      ensures Agrees(ParseForwardedUnicastData(old(stream.incoming)), r, stream.incoming)
    {
      hide ParseText, ParsePackets, ParseGuid;
      var user :- ReadString();
      var host :- ReadString();
      var clientId :- ReadGuid();
      var feed :- ReadString();
      var topic :- ReadString();
      var contentType :- ReadString();
      var dataPackets :- ReadBinaryDataPacketArray();
      r := Value(ForwardedUnicastData(user, host, clientId, feed, topic, contentType, dataPackets));
    }

    /** Reads the header and then the body that it announces. */
    method ReadMessage() returns (r: Reading<Codec.Read>)
      modifies stream`incoming
      ensures Agrees(ParseMessage(old(stream.incoming)), r, stream.incoming)
    {
      hide ParseMulticastData, ParseUnicastData, ParseForwardedSubscriptionRequest, ParseNotificationRequest,
           ParseSubscriptionRequest;
      hide ParseAuthorizationRequest, ParseAuthorizationResponse, ParseForwardedMulticastData,
           ParseForwardedUnicastData;
      var messageType :- ReadByte();
      match messageType
      case 6 => r := ReadAuthorizationRequest();
      case 7 => r := ReadAuthorizationResponse();
      case 1 => r := ReadMulticastData();
      case 2 => r := ReadUnicastData();
      case 8 => r := ReadForwardedMulticastData();
      case 9 => r := ReadForwardedUnicastData();
      case 3 => r := ReadForwardedSubscriptionRequest();
      case 4 => r := ReadNotificationRequest();
      case 5 => r := ReadSubscriptionRequest();
      case _ => r := Failed(UnknownType);
    }

    /** Reads as many messages as have been written: exactly those come back, however the stream cuts
        their bytes, and what follows them stays in the stream. */
    method ReadMessages(ghost ms: seq<Written>, n: nat, ghost rest: Bytes) returns (r: Reading<seq<Codec.Read>>)
      requires n == |ms| && (forall m :: m in ms ==> Fits(m)) && stream.incoming == AllBytes(ms) + rest
      modifies stream`incoming
      ensures r == Value(AllBack(ms)) && stream.incoming == rest
    {
      hide ParseMessage;
      MessagesComeBack(ms, rest);
      var read: seq<Codec.Read> := [];
      while |read| < n
        invariant |read| <= n
        invariant ParseMessages(n - |read|, stream.incoming).Ok?
        invariant AllBack(ms) == read + ParseMessages(n - |read|, stream.incoming).value
        invariant ParseMessages(n - |read|, stream.incoming).rest == rest
      {
        ghost var left := ParseMessages(n - |read|, stream.incoming).value;
        var m :- ReadMessage();
        assert left == [m] + left[1..] && read + [m] + left[1..] == read + left;
        read := read + [m];
      }
      assert read + [] == read;
      r := Value(read);
    }
  }

  class DataWriter {
    const stream: Stream

    constructor (stream: Stream)
      ensures this.stream == stream
    {
      this.stream := stream;
    }

    method WriteBoolean(value: bool)
      modifies stream`outgoing
      ensures stream.outgoing == old(stream.outgoing) + BoolBytes(value)
    {
      stream.Write([if value then 1 else 0]);
    }

    method WriteByte(value: byte)
      modifies stream`outgoing
      ensures stream.outgoing == old(stream.outgoing) + [value]
    {
      stream.Write([value]);
    }

    method WriteInt32(value: int32)
      modifies stream`outgoing
      ensures stream.outgoing == old(stream.outgoing) + Int32Bytes(value)
    {
      var buf := [((value / 0x100_0000) % 0x100) as byte, ((value / 0x1_0000) % 0x100) as byte,
                  ((value / 0x100) % 0x100) as byte, (value % 0x100) as byte];
      stream.Write(buf);
    }

    /** A text, or an array of bytes. */
    method WritePrefixed(value: Option<Bytes>)
      requires TextFits(value)
      modifies stream`outgoing
      ensures stream.outgoing == old(stream.outgoing) + PrefixedBytes(value)
    {
      hide Int32Bytes;
      if value.None? {
        WriteInt32(0);
      } else {
        Grouped(stream.outgoing, Int32Bytes(|value.value|), value.value);
        WriteInt32(|value.value|);
        stream.Write(value.value);
      }
    }

    method WriteSet(value: Option<seq<int32>>)
      requires value.Some? ==> Short(value.value)
      modifies stream`outgoing
      ensures stream.outgoing == old(stream.outgoing) + SetBytes(value)
    {
      hide Int32Bytes;
      if value.None? {
        WriteInt32(0);
        return;
      }
      var values := value.value;
      ghost var before := stream.outgoing;
      WriteInt32(|values|);
      for i := 0 to |values|
        invariant stream.outgoing == before + (Int32Bytes(|values|) + IntsBytes(values[..i]))
      {
        assert values[..i + 1][..i] == values[..i];
        Grouped3(before, Int32Bytes(|values|), IntsBytes(values[..i]), Int32Bytes(values[i]));
        WriteInt32(values[i]);
      }
      assert values[..|values|] == values;
    }

    method WriteGuid(value: Guid)
      modifies stream`outgoing
      ensures stream.outgoing == old(stream.outgoing) + value
    {
      stream.Write(value);
    }

    method WritePacket(dataPacket: Packet<seq<int32>>)
      requires PacketFits(dataPacket)
      modifies stream`outgoing
      ensures stream.outgoing == old(stream.outgoing) + PacketBytes(dataPacket)
    {
      hide SetBytes, PrefixedBytes;
      Grouped(stream.outgoing, SetBytes(dataPacket.entitlements), PrefixedBytes(dataPacket.data));
      WriteSet(dataPacket.entitlements);
      WritePrefixed(dataPacket.data);
    }

    method WritePackets(dataPackets: Packets<seq<int32>>)
      requires PacketsFit(dataPackets)
      modifies stream`outgoing
      ensures stream.outgoing == old(stream.outgoing) + PacketsBytes(dataPackets)
    {
      hide Int32Bytes, PacketBytes, PacketFits;
      if dataPackets.None? {
        WriteInt32(0);
        return;
      }
      var packets := dataPackets.value;
      ghost var before := stream.outgoing;
      WriteInt32(|packets|);
      for i := 0 to |packets|
        invariant stream.outgoing == before + (Int32Bytes(|packets|) + PacketListBytes(packets[..i]))
      {
        assert packets[..i + 1][..i] == packets[..i];
        Grouped3(before, Int32Bytes(|packets|), PacketListBytes(packets[..i]), PacketBytes(packets[i]));
        WritePacket(packets[i]);
      }
      assert packets[..|packets|] == packets;
    }

    /** Writes the type of the message and then its fields in order. */
    method WriteMessage(m: Written)
      requires Fits(m)
      modifies stream`outgoing
      ensures stream.outgoing == old(stream.outgoing) + MessageBytes(m)
    {
      ghost var before := stream.outgoing;
      Grouped(before, [TagOf(m)], BodyBytes(m));
      WriteByte(TagOf(m));
      WriteBody(m);
    }

    method WriteBody(m: Written)
      requires Fits(m)
      modifies stream`outgoing
      ensures stream.outgoing == old(stream.outgoing) + BodyBytes(m)
    {
      hide PrefixedBytes, BoolBytes, SetBytes, PacketsBytes, PacketsFit;
      ghost var x := stream.outgoing;
      match m
      case AuthorizationRequest(clientId, host, user, feed, topic) =>
        WriteGuid(clientId);
        WriteTexts(host, user);
        WriteTexts(feed, topic);
        Chain3(x, clientId, PrefixedBytes(host) + PrefixedBytes(user), PrefixedBytes(feed) + PrefixedBytes(topic));
        Grouped(PrefixedBytes(host), PrefixedBytes(user), PrefixedBytes(feed) + PrefixedBytes(topic));
      case AuthorizationResponse(clientId, feed, topic, isAuthorizationRequired, entitlements) =>
        WriteGuid(clientId);
        WriteTexts(feed, topic);
        WriteBoolean(isAuthorizationRequired);
        WriteSet(entitlements);
        Chain4(x, clientId, PrefixedBytes(feed) + PrefixedBytes(topic), BoolBytes(isAuthorizationRequired),
               SetBytes(entitlements));
        Grouped(PrefixedBytes(feed), PrefixedBytes(topic), BoolBytes(isAuthorizationRequired) + SetBytes(entitlements));
      case MulticastData(feed, topic, contentType, packets) =>
        WriteTexts(feed, topic);
        WritePrefixed(contentType);
        WritePackets(packets);
        Chain3(x, PrefixedBytes(feed) + PrefixedBytes(topic), PrefixedBytes(contentType), PacketsBytes(packets));
        Grouped(PrefixedBytes(feed), PrefixedBytes(topic), PrefixedBytes(contentType) + PacketsBytes(packets));
      case UnicastData(clientId, feed, topic, contentType, packets) =>
        WriteGuid(clientId);
        WriteTexts(feed, topic);
        WritePrefixed(contentType);
        WritePackets(packets);
        Chain4(x, clientId, PrefixedBytes(feed) + PrefixedBytes(topic), PrefixedBytes(contentType),
               PacketsBytes(packets));
        Grouped(PrefixedBytes(feed), PrefixedBytes(topic), PrefixedBytes(contentType) + PacketsBytes(packets));
      case ForwardedMulticastData(user, host, feed, topic, contentType, packets) =>
        WriteTexts(user, host);
        WriteTexts(feed, topic);
        WritePrefixed(contentType);
        WritePackets(packets);
        var end := PrefixedBytes(contentType) + PacketsBytes(packets);
        Chain4(x, PrefixedBytes(user) + PrefixedBytes(host), PrefixedBytes(feed) + PrefixedBytes(topic),
               PrefixedBytes(contentType), PacketsBytes(packets));
        Grouped(PrefixedBytes(feed), PrefixedBytes(topic), end);
        Grouped(PrefixedBytes(user), PrefixedBytes(host), PrefixedBytes(feed) + (PrefixedBytes(topic) + end));
      case ForwardedUnicastData(user, host, clientId, feed, topic, contentType, packets) =>
        WriteTexts(user, host);
        WriteGuid(clientId);
        WriteTexts(feed, topic);
        WritePrefixed(contentType);
        WritePackets(packets);
        var end := PrefixedBytes(contentType) + PacketsBytes(packets);
        Chain5(x, PrefixedBytes(user) + PrefixedBytes(host), clientId, PrefixedBytes(feed) + PrefixedBytes(topic),
               PrefixedBytes(contentType), PacketsBytes(packets));
        Grouped(PrefixedBytes(feed), PrefixedBytes(topic), end);
        Grouped(PrefixedBytes(user), PrefixedBytes(host),
                clientId + (PrefixedBytes(feed) + (PrefixedBytes(topic) + end)));
      case ForwardedSubscriptionRequest(user, host, clientId, feed, topic, isAdd) =>
        WriteTexts(user, host);
        WriteGuid(clientId);
        WriteTexts(feed, topic);
        WriteBoolean(isAdd);
        Chain4(x, PrefixedBytes(user) + PrefixedBytes(host), clientId, PrefixedBytes(feed) + PrefixedBytes(topic),
               BoolBytes(isAdd));
        Grouped(PrefixedBytes(feed), PrefixedBytes(topic), BoolBytes(isAdd));
        Grouped(PrefixedBytes(user), PrefixedBytes(host),
                clientId + (PrefixedBytes(feed) + (PrefixedBytes(topic) + BoolBytes(isAdd))));
      case NotificationRequest(feed, isAdd) =>
        WritePrefixed(feed);
        WriteBoolean(isAdd);
        Grouped(x, PrefixedBytes(feed), BoolBytes(isAdd));
      case SubscriptionRequest(feed, topic, isAdd) =>
        WriteTexts(feed, topic);
        WriteBoolean(isAdd);
        Grouped(x, PrefixedBytes(feed) + PrefixedBytes(topic), BoolBytes(isAdd));
        Grouped(PrefixedBytes(feed), PrefixedBytes(topic), BoolBytes(isAdd));
    }

    method WriteTexts(first: Option<Bytes>, second: Option<Bytes>)
      requires TextFits(first) && TextFits(second)
      modifies stream`outgoing
      ensures stream.outgoing == old(stream.outgoing) + (PrefixedBytes(first) + PrefixedBytes(second))
    {
      hide PrefixedBytes;
      Grouped(stream.outgoing, PrefixedBytes(first), PrefixedBytes(second));
      WritePrefixed(first);
      WritePrefixed(second);
    }
  }

  lemma Chain3(x: Bytes, a: Bytes, b: Bytes, c: Bytes)
    ensures x + a + b + c == x + (a + (b + c))
  {
  }

  lemma Chain4(x: Bytes, a: Bytes, b: Bytes, c: Bytes, d: Bytes)
    ensures x + a + b + c + d == x + (a + (b + (c + d)))
  {
    Chain3(x, a, b, c + d);
    Grouped(x + a + b, c, d);
  }

  lemma Chain5(x: Bytes, a: Bytes, b: Bytes, c: Bytes, d: Bytes, e: Bytes)
    ensures x + a + b + c + d + e == x + (a + (b + (c + (d + e))))
  {
    Chain4(x, a, b, c, d + e);
    Grouped(x + a + b + c, d, e);
  }
}
