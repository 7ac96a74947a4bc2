// MQTT 3.1.1 framing: the variable-length remaining length (section 2.2.3), length-prefixed
// strings (section 1.5.3) and packets on a byte stream. `x & 127` is x % 128 and
// `x & 0x80 == 0` is x < 128 on bytes.
module MqttFraming {
  import opened Wrappers

  type Byte = x: int | 0 <= x < 256

  type Word = x: int | 0 <= x < 65536

  // Big-endian, as binary.BigEndian.
  function PutWord(w: Word): seq<Byte> { [w / 256, w % 256] }

  function GetWord(hi: Byte, lo: Byte): (w: Word)
    ensures PutWord(w) == [hi, lo]
  {
    var h: int, l: int := hi, lo;
    h * 256 + l
  }

  const MAX_LENGTH := 128 * 128 * 128 * 128

  function Pow128(k: nat): (r: nat)
    ensures r >= 1
  {
    if k == 0 then 1 else 128 * Pow128(k - 1)
  }

  // --- Remaining length --------------------------------------------------------------------

  function EncodeLength(n: int): (r: seq<Byte>)
    ensures |r| >= 1
  {
    if n < 0 then [0]
    else if n < 128 then [n]
    else [n % 128 + 128] + EncodeLength(n / 128)
  }

  // The number that some length bytes stand for, least significant first.
  function Value(digits: seq<Byte>): nat {
    if digits == [] then 0 else digits[0] % 128 + 128 * Value(digits[1..])
  }

  datatype LengthRead = Length(value: nat, used: nat) | TooLarge | Eof

  // `k` continuation bytes have been read; at most four bytes are.
  function ScanLength(s: seq<Byte>, k: nat): (r: LengthRead)
    requires k <= 4
    ensures r.Length? ==> k < r.used <= 4 && r.used <= |s| && r.value == Value(s[..r.used])
    decreases 4 - k
  {
    if k == 4 then TooLarge
    else if |s| <= k then Eof
    else if s[k] < 128 then Length(Value(s[..k + 1]), k + 1)
    else ScanLength(s, k + 1)
  }

  function ReadLength(s: seq<Byte>): LengthRead { ScanLength(s, 0) }

  // Continuation bytes, then one byte that ends the length.
  predicate Wellformed(digits: seq<Byte>) {
    digits != [] && digits[|digits| - 1] < 128 && forall i :: 0 <= i < |digits| - 1 ==> digits[i] >= 128
  }

  lemma {:induction false} EncodeWellformed(n: nat)
    ensures Wellformed(EncodeLength(n))
  {
    if n >= 128 { EncodeWellformed(n / 128); }
  }

  // decode(encode(n)) = n for every n.
  lemma {:induction false} ValueOfEncode(n: nat)
    ensures Value(EncodeLength(n)) == n
  {
    if n >= 128 {
      ValueOfEncode(n / 128);
      assert EncodeLength(n)[1..] == EncodeLength(n / 128);
    }
  }

  // At most k bytes exactly when n < 128^k.
  lemma {:induction false} EncodeSize(n: nat, k: nat)
    requires k >= 1
    ensures |EncodeLength(n)| <= k <==> n < Pow128(k)
  {
    if k == 1 {
      assert Pow128(1) == 128;
    } else if n >= 128 {
      EncodeSize(n / 128, k - 1);
    } else {
      assert Pow128(k - 1) >= 1;
    }
  }

  lemma FourBytes(n: nat)
    ensures |EncodeLength(n)| <= 4 <==> n < MAX_LENGTH
  {
    EncodeSize(n, 4);
    assert Pow128(4) == 128 * Pow128(3) && Pow128(3) == 128 * Pow128(2) && Pow128(2) == 128 * Pow128(1);
    assert Pow128(1) == 128 * Pow128(0);
  }

  lemma Spread(x: nat, y: nat, p: nat)
    ensures 128 * (x + y * p) == 128 * x + y * (128 * p)
  {
  }

  lemma {:induction false} ValueAppend(ds: seq<Byte>, b: Byte)
    ensures Value(ds + [b]) == Value(ds) + b % 128 * Pow128(|ds|)
  {
    if ds != [] {
      assert (ds + [b])[1..] == ds[1..] + [b];
      ValueAppend(ds[1..], b);
      Spread(Value(ds[1..]), b % 128, Pow128(|ds| - 1));
    }
  }

  // A reader finds a well-formed length at the front of any stream iff it has at most four bytes.
  lemma {:induction false} ScanFinds(digits: seq<Byte>, rest: seq<Byte>, k: nat)
    requires Wellformed(digits) && k <= 4 && k < |digits|
    ensures ScanLength(digits + rest, k) ==
            if |digits| <= 4 then Length(Value(digits), |digits|) else TooLarge
    decreases 4 - k
  {
    if k < 4 {
      if k + 1 == |digits| {
        assert (digits + rest)[..k + 1] == digits;
      } else {
        ScanFinds(digits, rest, k + 1);
      }
    }
  }

  lemma ReadEncoded(n: nat, rest: seq<Byte>)
    ensures ReadLength(EncodeLength(n) + rest) ==
            if n < MAX_LENGTH then Length(n, |EncodeLength(n)|) else TooLarge
  {
    EncodeWellformed(n);
    ValueOfEncode(n);
    FourBytes(n);
    ScanFinds(EncodeLength(n), rest, 0);
  }

  // How a reader ends: at the first byte below 128 if it is among the first four, with too large
  // after four others, and else at the end of the stream.
  lemma ReadEnds(s: seq<Byte>)
    ensures var more := (k: nat) => k < |s| && s[k] >= 128;
            if more(0) && more(1) && more(2) && more(3) then ReadLength(s) == TooLarge
            else if forall k :: 0 <= k < |s| ==> s[k] >= 128 then ReadLength(s) == Eof
            else ReadLength(s).Length? && s[ReadLength(s).used - 1] < 128 &&
                 (forall k :: 0 <= k < ReadLength(s).used - 1 ==> s[k] >= 128)
  {
    assert ReadLength(s) == ScanLength(s, 0);
    if |s| > 0 && s[0] >= 128 {
      assert ReadLength(s) == ScanLength(s, 1);
      if |s| > 1 && s[1] >= 128 {
        assert ReadLength(s) == ScanLength(s, 2);
        if |s| > 2 && s[2] >= 128 {
          assert ReadLength(s) == ScanLength(s, 3);
          if |s| > 3 && s[3] >= 128 { assert ReadLength(s) == ScanLength(s, 4); }
        }
      }
    }
  }

  // The limits of table 2.4 of MQTT 3.1.1.
  lemma LengthLimits()
    ensures EncodeLength(0) == [0x00] && EncodeLength(127) == [0x7F]
    ensures EncodeLength(128) == [0x80, 0x01] && EncodeLength(16383) == [0xFF, 0x7F]
    ensures EncodeLength(16384) == [0x80, 0x80, 0x01] && EncodeLength(2097151) == [0xFF, 0xFF, 0x7F]
    ensures EncodeLength(2097152) == [0x80, 0x80, 0x80, 0x01] && EncodeLength(268435455) == [0xFF, 0xFF, 0xFF, 0x7F]
  {
    assert EncodeLength(16383) == [0xFF] + EncodeLength(127);
    assert EncodeLength(16384) == [0x80] + EncodeLength(128);
    assert EncodeLength(2097151) == [0xFF] + EncodeLength(16383);
    assert EncodeLength(2097152) == [0x80] + EncodeLength(16384);
    assert EncodeLength(268435455) == [0xFF] + EncodeLength(2097151);
  }

  // Digits without a superfluous zero at the end are the ones the encoder writes.
  lemma {:induction false} CanonicalDigits(digits: seq<Byte>)
    requires Wellformed(digits)
    ensures EncodeLength(Value(digits)) == digits <==> |EncodeLength(Value(digits))| == |digits|
    ensures |EncodeLength(Value(digits))| <= |digits|
  {
    if |digits| > 1 {
      var tail := digits[1..];
      assert tail[|tail| - 1] == digits[|digits| - 1];
      CanonicalDigits(tail);
      var v := Value(tail);
      assert Value(digits) == digits[0] % 128 + 128 * v;
      if v > 0 {
        assert EncodeLength(Value(digits)) == [digits[0]] + EncodeLength(v);
        assert digits == [digits[0]] + tail;
      }
    }
  }

  // --- Packets -----------------------------------------------------------------------------

  datatype Packet = Packet(header: Byte, body: seq<Byte>)

  function Frame(p: Packet): (r: seq<Byte>)
    ensures |r| >= 2
  {
    [p.header] + EncodeLength(|p.body|) + p.body
  }

  datatype Read = Got(packet: seq<Byte>, rest: seq<Byte>) | EndOfStream | Malformed

  // readPacket of the two Go files: the packet is the bytes as they came.
  function ReadGo(s: seq<Byte>): (r: Read)
    ensures r.Got? ==> |r.rest| < |s|
  {
    if s == [] then EndOfStream
    else match ReadLength(s[1..])
      case Eof => EndOfStream
      case TooLarge => Malformed
      case Length(n, used) =>
        if |s| < 1 + used + n then EndOfStream
        else Got(s[..1 + used + n], s[1 + used + n..])
  }

  // readPacket of the Kotlin file: the length is written anew.
  function ReadKotlin(s: seq<Byte>): (r: Read)
    ensures r.Got? ==> |r.rest| < |s|
  {
    if s == [] then EndOfStream
    else match ReadLength(s[1..])
      case Eof => EndOfStream
      case TooLarge => Malformed
      case Length(n, used) =>
        if |s| < 1 + used + n then EndOfStream
        else Got(Frame(Packet(s[0], s[1 + used..1 + used + n])), s[1 + used + n..])
  }

  lemma FrameRest(p: Packet, rest: seq<Byte>)
    ensures (Frame(p) + rest)[1..] == EncodeLength(|p.body|) + (p.body + rest)
  {
    var e := EncodeLength(|p.body|);
    assert Frame(p) + rest == [p.header] + (e + (p.body + rest));
  }

  // Both readers give back a framed packet and leave the rest, exactly when it fits in four
  // length bytes.
  lemma ReadFramed(p: Packet, rest: seq<Byte>)
    ensures |p.body| < MAX_LENGTH ==>
      ReadGo(Frame(p) + rest) == Got(Frame(p), rest) && ReadKotlin(Frame(p) + rest) == Got(Frame(p), rest)
    ensures |p.body| >= MAX_LENGTH ==>
      ReadGo(Frame(p) + rest) == Malformed && ReadKotlin(Frame(p) + rest) == Malformed
  {
    FrameRest(p, rest);
    ReadEncoded(|p.body|, p.body + rest);
    var e := EncodeLength(|p.body|);
    var s := Frame(p) + rest;
    assert s[..|Frame(p)|] == Frame(p) && s[|Frame(p)|..] == rest;
    assert s[1 + |e|..1 + |e| + |p.body|] == p.body;
  }

  // The readers accept the same streams, consume the same bytes and see the same header and
  // body; the packets are byte for byte the same iff the length came in its shortest form.
  lemma ReadersAgree(s: seq<Byte>)
    ensures ReadGo(s).Got? <==> ReadKotlin(s).Got?
    ensures ReadGo(s).Malformed? <==> ReadKotlin(s).Malformed?
    ensures ReadGo(s).Got? ==>
      var n, used := ReadLength(s[1..]).value, ReadLength(s[1..]).used;
      && ReadGo(s).rest == ReadKotlin(s).rest
      && ReadGo(s).packet == [s[0]] + s[1..1 + used] + s[1 + used..1 + used + n]
      && ReadKotlin(s).packet == [s[0]] + EncodeLength(n) + s[1 + used..1 + used + n]
      && (ReadGo(s).packet == ReadKotlin(s).packet <==> used == |EncodeLength(n)|)
  {
    if ReadGo(s).Got? {
      var n, used := ReadLength(s[1..]).value, ReadLength(s[1..]).used;
      var digits := s[1..][..used];
      ScanWellformed(s[1..], 0);
      CanonicalDigits(digits);
      var body := s[1 + used..1 + used + n];
      assert digits == s[1..1 + used];
      assert s[..1 + used + n] == [s[0]] + digits + body;
      var g, k := [s[0]] + digits + body, [s[0]] + EncodeLength(n) + body;
      if |EncodeLength(n)| != used { assert |g| != |k|; }
    }
  }

  lemma {:induction false} ScanWellformed(s: seq<Byte>, k: nat)
    requires k <= 4 && k <= |s| && forall i :: 0 <= i < k ==> s[i] >= 128
    ensures var r := ScanLength(s, k);
            r.Length? ==> Wellformed(s[..r.used])
    decreases 4 - k
  {
    if k < 4 && k < |s| && s[k] >= 128 {
      ScanWellformed(s, k + 1);
    }
  }

  // --- Streams of packets ------------------------------------------------------------------

  function FrameAll(ps: seq<Packet>): seq<Byte> {
    if ps == [] then [] else Frame(ps[0]) + FrameAll(ps[1..])
  }

  function Frames(ps: seq<Packet>): seq<seq<Byte>> {
    seq(|ps|, i requires 0 <= i < |ps| => Frame(ps[i]))
  }

  // Reading until the stream is used up; None when a read fails on the way.
  function ReadAllGo(s: seq<Byte>): Option<seq<seq<Byte>>> {
    if s == [] then Some([])
    else match ReadGo(s)
      case Got(packet, rest) =>
        var more := ReadAllGo(rest);
        if more.Some? then Some([packet] + more.value) else None
      case _ => None
  }

  function ReadAllKotlin(s: seq<Byte>): Option<seq<seq<Byte>>> {
    if s == [] then Some([])
    else match ReadKotlin(s)
      case Got(packet, rest) =>
        var more := ReadAllKotlin(rest);
        if more.Some? then Some([packet] + more.value) else None
      case _ => None
  }

  lemma ReadAllNext(s: seq<Byte>, packet: seq<Byte>, rest: seq<Byte>, more: seq<seq<Byte>>)
    requires s != [] && ReadGo(s) == Got(packet, rest) && ReadKotlin(s) == Got(packet, rest)
    requires ReadAllGo(rest) == Some(more) && ReadAllKotlin(rest) == Some(more)
    ensures ReadAllGo(s) == Some([packet] + more) && ReadAllKotlin(s) == Some([packet] + more)
  {
  }

  lemma FramesNext(ps: seq<Packet>)
    requires ps != []
    ensures Frames(ps) == [Frame(ps[0])] + Frames(ps[1..])
  {
  }

  // Reading the concatenation of any packets returns exactly those packets, nothing left over.
  lemma {:induction false} StreamRoundTrip(ps: seq<Packet>)
    requires forall p :: p in ps ==> |p.body| < MAX_LENGTH
    ensures ReadAllGo(FrameAll(ps)) == Some(Frames(ps))
    ensures ReadAllKotlin(FrameAll(ps)) == Some(Frames(ps))
  {
    if ps == [] {
      assert Frames(ps) == [];
    } else {
      ReadFramed(ps[0], FrameAll(ps[1..]));
      StreamRoundTrip(ps[1..]);
      ReadAllNext(FrameAll(ps), Frame(ps[0]), FrameAll(ps[1..]), Frames(ps[1..]));
      FramesNext(ps);
    }
  }

  // Framing loses nothing: two different packets never look alike.
  lemma FrameInjective(p: Packet, q: Packet)
    requires |p.body| < MAX_LENGTH && |q.body| < MAX_LENGTH && Frame(p) == Frame(q)
    ensures p == q
  {
    FrameRest(p, []);
    FrameRest(q, []);
    assert Frame(p) + [] == Frame(p) && Frame(q) + [] == Frame(q);
    ReadEncoded(|p.body|, p.body + []);
    ReadEncoded(|q.body|, q.body + []);
    assert p.body == Frame(p)[|Frame(p)| - |p.body|..];
    assert q.body == Frame(q)[|Frame(q)| - |q.body|..];
    assert Frame(p)[0] == p.header && Frame(q)[0] == q.header;
  }

  // --- Publish packets ---------------------------------------------------------------------

  // The length is cast to 16 bits.
  function EncodeString(data: seq<Byte>): seq<Byte> {
    PutWord(|data| % 65536) + data
  }

  function PublishBody(topic: seq<Byte>, payload: seq<Byte>, qos: Byte, packetId: Word): seq<Byte> {
    EncodeString(topic) + (if qos > 0 then PutWord(packetId) else []) + payload
  }

  // 0x30 | (qos & 3) << 1.
  function PublishPacket(topic: seq<Byte>, payload: seq<Byte>, qos: Byte, packetId: Word): seq<Byte> {
    Frame(Packet(0x30 + 2 * (qos % 4), PublishBody(topic, payload, qos, packetId)))
  }

  // The packet on the wire (section 3.3 of MQTT 3.1.1): the header with the QoS in bits 1 and 2, the
  // length, the topic behind its size with the high byte first, above QoS 0 the packet id, and
  // the payload.
  lemma PublishWire(topic: seq<Byte>, payload: seq<Byte>, qos: Byte, packetId: Word, body: seq<Byte>)
    requires |topic| < 65536 && qos < 4
    requires var id: seq<Byte> := if qos >= 1 then [packetId / 256, packetId % 256] else [];
             body == [|topic| / 256, |topic| % 256] + topic + id + payload
    ensures PublishPacket(topic, payload, qos, packetId) == [0x30 + 2 * qos] + EncodeLength(|body|) + body
  {
    BodyWire(topic, payload, qos, packetId, if qos >= 1 then [packetId / 256, packetId % 256] else []);
  }

  lemma BodyWire(topic: seq<Byte>, payload: seq<Byte>, qos: Byte, packetId: Word, id: seq<Byte>)
    requires |topic| < 65536 && id == if qos >= 1 then [packetId / 256, packetId % 256] else []
    ensures PublishBody(topic, payload, qos, packetId) == [|topic| / 256, |topic| % 256] + topic + id + payload
  {
    Short(|topic|);
    assert EncodeString(topic) == [|topic| / 256, |topic| % 256] + topic;
  }

  // remainingLengthBytes, and the second half of Kotlin's decodeRemainingLength where it finds
  // an end: the number of length bytes at the front.
  function LengthBytes(s: seq<Byte>): (r: nat)
    ensures r <= |s| && (s != [] ==> r >= 1)
  {
    if s == [] then 0 else if s[0] < 128 then 1 else 1 + LengthBytes(s[1..])
  }

  lemma {:induction false} LengthBytesOf(digits: seq<Byte>, rest: seq<Byte>)
    requires Wellformed(digits)
    ensures LengthBytes(digits + rest) == |digits|
  {
    if |digits| > 1 {
      assert (digits + rest)[1..] == digits[1..] + rest;
      LengthBytesOf(digits[1..], rest);
    }
  }

  predicate HasEnd(s: seq<Byte>) { exists i :: 0 <= i < |s| && s[i] < 128 }

  // parseCommand's offset arithmetic (74-80); None where an index is out of range.
  function CommandPayload(packet: seq<Byte>): Option<seq<Byte>> {
    if packet == [] || !HasEnd(packet[1..]) then None
    else
      var at := 1 + LengthBytes(packet[1..]);
      if |packet| < at + 2 then None
      else
        var start := at + 2 + GetWord(packet[at], packet[at + 1]);
        if start > |packet| then None else Some(packet[start..])
  }

  // readMQTTString.
  function ReadString(data: seq<Byte>, offset: nat): Option<(seq<Byte>, nat)> {
    if offset + 2 > |data| then None
    else
      var length := GetWord(data[offset], data[offset + 1]);
      if offset + 2 + length > |data| then None
      else Some((data[offset + 2..offset + 2 + length], offset + 2 + length))
  }

  // What the device takes for the payload of any packet, and when it gives up: no end to the length,
  // or a topic that runs over the end.
  lemma PayloadOf(header: Byte, digits: seq<Byte>, body: seq<Byte>)
    requires Wellformed(digits)
    ensures var hi: int, lo: int := if |body| < 2 then 0 else body[0], if |body| < 2 then 0 else body[1];
            var topic := 256 * hi + lo;
            CommandPayload([header] + digits + body) ==
            if |body| < 2 + topic then None else Some(body[2 + topic..])
  {
    var packet := [header] + digits + body;
    assert packet[1..] == digits + body && packet[1 + |digits|..] == body;
    LengthBytesOf(digits, body);
    assert packet[1..][|digits| - 1] < 128;
    if |body| >= 2 {
      assert packet[1 + |digits|] == body[0] && packet[2 + |digits|] == body[1];
      var topic := GetWord(body[0], body[1]);
      if 2 + topic <= |body| { InsideBody(packet, 1 + |digits|, body, topic); }
    }
  }

  lemma NoPayload(packet: seq<Byte>)
    requires forall i :: 1 <= i < |packet| ==> packet[i] >= 128
    ensures CommandPayload(packet) == None
  {
  }

  lemma PublishShape(topic: seq<Byte>, payload: seq<Byte>, qos: Byte, packetId: Word)
    ensures var e := EncodeLength(|PublishBody(topic, payload, qos, packetId)|);
            var packet := PublishPacket(topic, payload, qos, packetId);
            && LengthBytes(packet[1..]) == |e| && HasEnd(packet[1..])
            && packet[1 + |e|..] == PublishBody(topic, payload, qos, packetId)
  {
    var body := PublishBody(topic, payload, qos, packetId);
    var e := EncodeLength(|body|);
    var packet := PublishPacket(topic, payload, qos, packetId);
    assert packet[1..] == e + body;
    EncodeWellformed(|body|);
    LengthBytesOf(e, body);
    assert packet[1..][|e| - 1] < 128;
  }

  // Indexes into the packet, counted from where the body starts.
  lemma InsideBody(packet: seq<Byte>, at: nat, body: seq<Byte>, n: nat)
    requires at <= |packet| && packet[at..] == body && 2 + n <= |body|
    ensures packet[at] == body[0] && packet[at + 1] == body[1] && packet[at + 2 + n..] == body[2 + n..]
  {
  }

  lemma BodyStart(topic: seq<Byte>, payload: seq<Byte>, qos: Byte, packetId: Word)
    ensures var body := PublishBody(topic, payload, qos, packetId);
            |body| == 2 + |topic| + (if qos > 0 then 2 else 0) + |payload| &&
                GetWord(body[0], body[1]) == |topic| % 65536
  {
  }

  lemma PayloadAt(packet: seq<Byte>, at: nat, body: seq<Byte>, n: nat)
    requires packet != [] && HasEnd(packet[1..]) && at == 1 + LengthBytes(packet[1..]) <= |packet| &&
      packet[at..] == body
    requires 2 + n <= |body| && GetWord(body[0], body[1]) == n
    ensures CommandPayload(packet) == Some(body[2 + n..])
  {
    InsideBody(packet, at, body, n);
  }

  // Whatever the topic and the QoS, the device cuts the packet behind the length it reads.
  lemma PayloadStart(topic: seq<Byte>, payload: seq<Byte>, qos: Byte, packetId: Word)
    ensures var body := PublishBody(topic, payload, qos, packetId);
            2 + |topic| % 65536 <= |body| &&
            CommandPayload(PublishPacket(topic, payload, qos, packetId)) == Some(body[2 + |topic| % 65536..])
  {
    var body := PublishBody(topic, payload, qos, packetId);
    PublishShape(topic, payload, qos, packetId);
    BodyStart(topic, payload, qos, packetId);
    PayloadAt(PublishPacket(topic, payload, qos, packetId), 1 + |EncodeLength(|body|)|, body, |topic| % 65536);
  }

  lemma BodyEnd(topic: seq<Byte>, payload: seq<Byte>)
    ensures PublishBody(topic, payload, 0, 0)[2 + |topic|..] == payload
  {
  }

  lemma Short(size: nat)
    ensures size % 65536 <= size && (size % 65536 == size <==> size < 65536)
  {
  }

  lemma TailIs(topic: seq<Byte>, payload: seq<Byte>, qos: Byte, packetId: Word, start: nat)
    requires start <= |topic| && (start == |topic| <==> |topic| < 65536)
    requires 2 + start <= |PublishBody(topic, payload, qos, packetId)|
    ensures PublishBody(topic, payload, qos, packetId)[2 + start..] == payload <==> qos == 0 && |topic| < 65536
  {
    BodyStart(topic, payload, qos, packetId);
    if qos == 0 && |topic| < 65536 {
      BodyEnd(topic, payload);
      assert PublishBody(topic, payload, qos, packetId) == PublishBody(topic, payload, 0, 0);
    } else {
      assert |PublishBody(topic, payload, qos, packetId)[2 + start..]| > |payload|;
    }
  }

  // The device gets back exactly the payload iff the packet came at QoS 0 with a topic whose
  // size fits in its two length bytes.
  lemma PayloadRoundTrip(topic: seq<Byte>, payload: seq<Byte>, qos: Byte, packetId: Word)
    ensures CommandPayload(PublishPacket(topic, payload, qos, packetId)) == Some(payload) <==>
            qos == 0 && |topic| < 65536
  {
    PayloadStart(topic, payload, qos, packetId);
    Short(|topic|);
    TailIs(topic, payload, qos, packetId, |topic| % 65536);
  }

  // A length-prefixed string reads back, wherever it stands, iff its size fits in 16 bits.
  lemma StringRoundTrip(before: seq<Byte>, text: seq<Byte>, after: seq<Byte>)
    ensures ReadString(before + EncodeString(text) + after, |before|) == Some((text, |before| + 2 + |text|)) <==>
            |text| < 65536
    ensures (before + EncodeString(text) + after)[|before| + 2 + |text|..] == after
  {
    var data := before + EncodeString(text) + after;
    assert data[|before|] == EncodeString(text)[0] && data[|before| + 1] == EncodeString(text)[1];
    var n := |text| % 65536;
    assert GetWord(data[|before|], data[|before| + 1]) == n;
    if |text| < 65536 {
      assert data[|before| + 2..|before| + 2 + n] == text;
    } else {
      assert n < |text|;
    }
  }

  // The dynamic-security client recovers the topic and the payload of any QoS 0 publish.
  lemma TopicRoundTrip(topic: seq<Byte>, payload: seq<Byte>)
    requires |topic| < 65536
    ensures var packet := PublishPacket(topic, payload, 0, 0);
            var next := 1 + LengthBytes(packet[1..]) + 2 + |topic|;
            && ReadString(packet, 1 + LengthBytes(packet[1..])) == Some((topic, next))
            && next <= |packet| && packet[next..] == payload
  {
    var packet := PublishPacket(topic, payload, 0, 0);
    var before := [0x30] + EncodeLength(|PublishBody(topic, payload, 0, 0)|);
    PublishShape(topic, payload, 0, 0);
    assert packet == before + EncodeString(topic) + payload;
    StringRoundTrip(before, topic, payload);
  }

  // --- Waiting for a response (mqttdynsec/client.go, 230-263) ------------------------------

  datatype Response = Found(body: seq<Byte>) | ReadError | StringError

  // The first publish on the response topic; other packets and other topics are skipped.
  function AwaitResponse(s: seq<Byte>, topic: seq<Byte>): Response
    decreases |s|
  {
    match ReadGo(s)
    case Got(packet, rest) =>
      if packet[0] / 16 != 3 then AwaitResponse(rest, topic)
      else
        var parsed := ReadString(packet, 1 + LengthBytes(packet[1..]));
        if parsed.None? then StringError
        else if parsed.value.0 != topic then AwaitResponse(rest, topic)
        else Found(packet[parsed.value.1..])
    case _ => ReadError
  }

  // The loop gives up at the first packet that cannot be read, or whose topic cannot.
  lemma AwaitFails(s: seq<Byte>, topic: seq<Byte>)
    ensures !ReadGo(s).Got? ==> AwaitResponse(s, topic) == ReadError
    ensures ReadGo(s).Got? && ReadGo(s).packet[0] / 16 == 3 &&
            ReadString(ReadGo(s).packet, 1 + LengthBytes(ReadGo(s).packet[1..])).None? ==>
              AwaitResponse(s, topic) == StringError
  {
  }

  datatype Message = Message(topic: seq<Byte>, payload: seq<Byte>) | Other(packet: Packet)

  predicate Sendable(m: Message) {
    match m
    case Message(topic, payload) => |topic| < 65536 && |PublishBody(topic, payload, 0, 0)| < MAX_LENGTH
    case Other(packet) => packet.header / 16 != 3 && |packet.body| < MAX_LENGTH
  }

  function Sent(m: Message): Packet {
    match m
    case Message(topic, payload) => Packet(0x30, PublishBody(topic, payload, 0, 0))
    case Other(packet) => packet
  }

  function SentAll(ms: seq<Message>): seq<Packet> {
    seq(|ms|, i requires 0 <= i < |ms| => Sent(ms[i]))
  }

  lemma AwaitPublish(s: seq<Byte>, packet: seq<Byte>, rest: seq<Byte>, topic: seq<Byte>, seen: seq<Byte>, next: nat)
    requires ReadGo(s) == Got(packet, rest) && packet != [] && packet[0] == 0x30 && next <= |packet|
    requires ReadString(packet, 1 + LengthBytes(packet[1..])) == Some((seen, next))
    ensures AwaitResponse(s, topic) == if seen != topic then AwaitResponse(rest, topic) else Found(packet[next..])
  {
  }

  lemma AwaitOther(s: seq<Byte>, packet: seq<Byte>, rest: seq<Byte>, topic: seq<Byte>)
    requires ReadGo(s) == Got(packet, rest) && packet != [] && packet[0] / 16 != 3
    ensures AwaitResponse(s, topic) == AwaitResponse(rest, topic)
  {
  }

  lemma PublishReads(topic: seq<Byte>, payload: seq<Byte>, rest: seq<Byte>)
    requires Sendable(Message(topic, payload))
    ensures var packet := PublishPacket(topic, payload, 0, 0);
            ReadGo(packet + rest) == Got(packet, rest) && packet[0] == 0x30
  {
    ReadFramed(Packet(0x30, PublishBody(topic, payload, 0, 0)), rest);
  }

  lemma AwaitMessage(topic: seq<Byte>, payload: seq<Byte>, rest: seq<Byte>, wanted: seq<Byte>)
    requires Sendable(Message(topic, payload))
    ensures AwaitResponse(PublishPacket(topic, payload, 0, 0) + rest, wanted) ==
            if topic != wanted then AwaitResponse(rest, wanted) else Found(payload)
  {
    var packet := PublishPacket(topic, payload, 0, 0);
    PublishReads(topic, payload, rest);
    TopicRoundTrip(topic, payload);
    AwaitPublish(packet + rest, packet, rest, wanted, topic, 1 + LengthBytes(packet[1..]) + 2 + |topic|);
  }

  lemma AwaitSkips(m: Message, more: seq<Byte>, topic: seq<Byte>)
    requires Sendable(m) && (m.Message? ==> m.topic != topic)
    ensures AwaitResponse(Frame(Sent(m)) + more, topic) == AwaitResponse(more, topic)
  {
    match m
    case Message(t, p) => AwaitMessage(t, p, more, topic);
    case Other(packet) =>
      ReadFramed(packet, more);
      AwaitOther(Frame(packet) + more, Frame(packet), more, topic);
  }

  // Among any traffic, the loop returns the payload of the first message on its topic, whatever
  // came before it and whatever follows.
  lemma {:induction false} ResponseFound(before: seq<Message>, topic: seq<Byte>, payload: seq<Byte>, rest: seq<Byte>)
    requires forall m :: m in before ==> Sendable(m) && (m.Message? ==> m.topic != topic)
    requires Sendable(Message(topic, payload))
    ensures AwaitResponse(FrameAll(SentAll(before)) + (PublishPacket(topic, payload, 0, 0) + rest), topic) ==
      Found(payload)
  {
    var tail := PublishPacket(topic, payload, 0, 0) + rest;
    if before == [] {
      assert FrameAll(SentAll(before)) + tail == tail;
      AwaitMessage(topic, payload, rest, topic);
    } else {
      assert SentAll(before)[1..] == SentAll(before[1..]);
      var more := FrameAll(SentAll(before[1..])) + tail;
      assert FrameAll(SentAll(before)) + tail == Frame(Sent(before[0])) + more;
      AwaitSkips(before[0], more, topic);
      ResponseFound(before[1..], topic, payload, rest);
    }
  }
}
