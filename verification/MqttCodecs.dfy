// The three hand-written MQTT codecs as loops over a byte stream, each proved against
// MqttFraming: server/internal/push/mqtt.go and server/internal/mqttdynsec/client.go (the same
// Go text twice) and MqttDeviceCommandTransport.kt.
module MqttCodecs {
  import opened Wrappers
  import opened MqttFraming

  // A connection: what the peer sent and has not been read.
  class Stream {
    var data: seq<Byte>

    constructor (data: seq<Byte>)
      ensures this.data == data
    {
      this.data := data;
    }

    // io.ReadFull of n bytes, or Kotlin's read() for one.
    method ReadFull(n: nat) returns (r: Option<seq<Byte>>)
      modifies this
      ensures n <= |old(data)| ==> r == Some(old(data)[..n]) && data == old(data)[n..]
      ensures n > |old(data)| ==> r == None && data == []
    {
      if n <= |data| {
        r := Some(data[..n]);
        data := data[n..];
      } else {
        r := None;
        data := [];
      }
    }

    // InputStream.read(buffer, offset, limit): some of the bytes to come, at least one; -1 at the end.
    method ReadInto(buffer: array<Byte>, offset: nat, limit: nat) returns (read: int)
      requires limit > 0 && offset + limit <= buffer.Length
      modifies this, buffer
      ensures old(data) == [] ==> read == -1
      ensures old(data) != [] ==> 1 <= read <= limit && offset + read <= buffer.Length
      ensures old(data) != [] ==> buffer[..offset + read] + data == old(buffer[..offset]) + old(data)
    {
      if data == [] { return -1; }
      var n: nat :| 1 <= n <= limit && n <= |data|;
      forall k | 0 <= k < n { buffer[offset + k] := data[k]; }
      assert buffer[..offset + n] == old(buffer[..offset]) + old(data)[..n];
      data := data[n..];
      read := n;
    }
  }

  // --- Go ----------------------------------------------------------------------------------

  // encodeRemainingLength (mqtt.go 112-129, client.go 338-355).
  method EncodeRemainingLength(n: int) returns (encoded: seq<Byte>)
    ensures encoded == EncodeLength(n)
  {
    if n < 0 { return [0]; }
    encoded := [];
    var rest := n;
    while true
      invariant rest >= 0
      invariant encoded + EncodeLength(rest) == EncodeLength(n)
      decreases rest
    {
      EncodeStep(encoded, rest);
      var digit := rest % 128;
      rest := rest / 128;
      if rest > 0 { digit := digit + 128; }
      encoded := encoded + [digit];
      if rest == 0 { break; }
    }
  }

  lemma EncodeStep(done: seq<Byte>, n: nat)
    ensures done + EncodeLength(n) ==
            if n / 128 > 0 then (done + [n % 128 + 128]) + EncodeLength(n / 128) else done + [n % 128]
  {
  }

  // readRemainingLength (mqtt.go 155-168).
  method ReadRemainingLength(r: Stream) returns (encoded: Option<seq<Byte>>, malformed: bool)
    modifies r
    ensures match ReadLength(old(r.data))
            case Length(n, used) => encoded == Some(old(r.data)[..used]) && r.data == old(r.data)[used..] && !malformed
            case TooLarge => encoded == None && malformed
            case Eof => encoded == None && !malformed
  {
    var bytes := [];
    for i := 0 to 4
      invariant i <= |old(r.data)| && bytes == old(r.data)[..i] && r.data == old(r.data)[i..]
      invariant ReadLength(old(r.data)) == ScanLength(old(r.data), i)
    {
      var b := r.ReadFull(1);
      if b.None? { return None, false; }
      bytes := bytes + b.value;
      assert bytes == old(r.data)[..i + 1];
      if b.value[0] < 128 { return Some(bytes), false; }
    }
    return None, true;
  }

  // decodeRemainingLength (mqtt.go 170-178).
  method DecodeRemainingLength(encoded: seq<Byte>) returns (value: nat)
    ensures value == Value(encoded)
  {
    var multiplier: int := 1;
    value := 0;
    for i := 0 to |encoded|
      invariant value == Value(encoded[..i]) && multiplier == Pow128(i)
    {
      assert encoded[..i + 1] == encoded[..i] + [encoded[i]];
      ValueAppend(encoded[..i], encoded[i]);
      var digit: int := encoded[i] % 128;
      value := value + digit * multiplier;
      multiplier := multiplier * 128;
    }
    assert encoded[..|encoded|] == encoded;
  }

  // readPacket (mqtt.go 136-153).
  method ReadPacketGo(r: Stream) returns (result: Read)
    modifies r
    ensures result == ReadGo(old(r.data))
    ensures result.Got? ==> r.data == result.rest
  {
    var header := r.ReadFull(1);
    if header.None? { return EndOfStream; }
    ghost var tail := r.data;
    var remaining, malformed := ReadRemainingLength(r);
    if malformed { return Malformed; }
    if remaining.None? { return EndOfStream; }
    var packet := header.value + remaining.value;
    var size := DecodeRemainingLength(remaining.value);
    var body := r.ReadFull(size);
    if body.None? { return EndOfStream; }
    assert tail == old(r.data)[1..];
    assert packet + body.value == old(r.data)[..|packet| + size];
    return Got(packet + body.value, r.data);
  }

  // remainingLengthBytes (client.go 406-413).
  method RemainingLengthBytes(encoded: seq<Byte>) returns (n: nat)
    ensures n == LengthBytes(encoded)
  {
    for i := 0 to |encoded|
      invariant LengthBytes(encoded) == i + LengthBytes(encoded[i..])
    {
      if encoded[i] < 128 { return i + 1; }
    }
    return |encoded|;
  }

  // The response loop of runCommand (client.go 230-263) up to the JSON of the body.
  method RunCommandResponse(r: Stream, topic: seq<Byte>) returns (result: Response)
    modifies r
    ensures result == AwaitResponse(old(r.data), topic)
  {
    while true
      invariant AwaitResponse(old(r.data), topic) == AwaitResponse(r.data, topic)
      decreases |r.data|
    {
      var packet := ReadPacketGo(r);
      if !packet.Got? { return ReadError; }
      if packet.packet == [] { continue; }
      if packet.packet[0] / 16 != 3 { continue; }
      var at := RemainingLengthBytes(packet.packet[1..]);
      var parsed := ReadString(packet.packet, 1 + at);
      if parsed.None? { return StringError; }
      if parsed.value.0 != topic { continue; }
      return Found(packet.packet[parsed.value.1..]);
    }
  }

  // --- Kotlin ------------------------------------------------------------------------------

  // Arithmetic on Kotlin's Int: a result outside this range would be an overflow.
  newtype Int32 = x: int | -0x8000_0000 <= x < 0x8000_0000

  // readRemainingLength (181-196). Nothing overflows.
  method ReadRemainingLengthKotlin(input: Stream) returns (result: Option<Int32>, malformed: bool)
    modifies input
    ensures match ReadLength(old(input.data))
            case Length(n, used) => result.Some? && result.value as int == n && input.data == old(input.data)[used..]
            case TooLarge => result.None? && malformed
            case Eof => result.None? && !malformed
  {
    var multiplier: Int32 := 1;
    var value: Int32 := 0;
    ghost var k := 0;
    ghost var s := input.data;
    while true
      invariant k <= 3 && k <= |s| && input.data == s[k..]
      invariant ReadLength(s) == ScanLength(s, k)
      invariant multiplier as int == Pow128(k) && value as int == Value(s[..k]) && 0 <= value < multiplier
      invariant multiplier <= 128 * 128 * 128
      decreases 4 - k
    {
      var digit := input.ReadFull(1);
      if digit.None? { return None, false; }
      assert s[..k + 1] == s[..k] + [s[k]];
      ValueAppend(s[..k], s[k]);
      SmallProduct(digit.value[0] % 128, multiplier as int);
      value := value + (digit.value[0] % 128) as Int32 * multiplier;
      if digit.value[0] < 128 { return Some(value), false; }
      multiplier := multiplier * 128;
      if multiplier > 128 * 128 * 128 {
        PowNext(k);
        return None, true;
      }
      k := k + 1;
    }
  }

  lemma SmallProduct(d: int, m: int)
    requires 0 <= d < 128 && 1 <= m <= 128 * 128 * 128
    ensures 0 <= d * m <= 127 * m
  {
  }

  lemma PowBelow(k: nat)
    requires k <= 3
    ensures Pow128(k) <= 128 * 128 * 128
    ensures k == 3 ==> Pow128(k) == 128 * 128 * 128
  {
    if k == 3 {
      assert Pow128(3) == 128 * Pow128(2) && Pow128(2) == 128 * Pow128(1) && Pow128(1) == 128 * Pow128(0);
    } else if k == 2 {
      assert Pow128(2) == 128 * Pow128(1) && Pow128(1) == 128 * Pow128(0);
    }
  }

  lemma PowNext(k: nat)
    requires k <= 3
    ensures k < 3 ==> Pow128(k + 1) <= 128 * 128 * 128
  {
    if k < 3 { PowBelow(k + 1); }
  }

  // ByteArrayOutputStreamCompat (244-272): an array that doubles when it is full.
  class ByteArrayOutputStreamCompat {
    var bytes: array<Byte>
    var size: nat

    ghost predicate Valid()
      reads this
    {
      size <= bytes.Length && bytes.Length >= 1
    }

    ghost function Contents(): seq<Byte>
      requires Valid()
      reads this, bytes
    {
      bytes[..size]
    }

    constructor ()
      ensures Valid() && fresh(bytes) && Contents() == []
    {
      bytes := new Byte[64](i => 0);
      size := 0;
    }

    method Write(value: int)
      requires Valid()
      modifies this, bytes
      ensures Valid() && fresh({bytes} - {old(bytes)})
      ensures Contents() == old(Contents()) + [value % 256]
    {
      EnsureCapacity(size + 1);
      bytes[size] := value % 256;
      size := size + 1;
    }

    method WriteAll(data: seq<Byte>)
      requires Valid()
      modifies this, bytes
      ensures Valid() && fresh({bytes} - {old(bytes)})
      ensures Contents() == old(Contents()) + data
    {
      EnsureCapacity(size + |data|);
      forall i | 0 <= i < |data| { bytes[size + i] := data[i]; }
      size := size + |data|;
    }

    method ToByteArray() returns (r: seq<Byte>)
      requires Valid()
      ensures r == Contents()
    {
      return bytes[..size];
    }

    method EnsureCapacity(targetSize: nat)
      requires Valid()
      modifies this
      ensures Valid() && fresh({bytes} - {old(bytes)})
      ensures size == old(size) && bytes.Length >= targetSize
      ensures Contents() == old(Contents())
      ensures old(bytes.Length) >= targetSize ==> bytes == old(bytes)
    {
      if targetSize <= bytes.Length { return; }
      var next := bytes.Length * 2;
      while next < targetSize
        invariant next >= bytes.Length * 2
        decreases targetSize - next
      {
        next := next * 2;
      }
      var grown := new Byte[next](i => 0);
      forall i | 0 <= i < bytes.Length { grown[i] := bytes[i]; }
      bytes := grown;
    }
  }

  // writeRemainingLength (222-232).
  method WriteRemainingLength(output: ByteArrayOutputStreamCompat, value: nat)
    requires output.Valid()
    modifies output, output.bytes
    ensures output.Valid() && fresh({output.bytes} - {old(output.bytes)})
    ensures output.Contents() == old(output.Contents()) + EncodeLength(value)
  {
    var x := value;
    var more := true;
    while more
      invariant output.Valid() && fresh({output.bytes} - {old(output.bytes)})
      invariant output.Contents() + (if more then EncodeLength(x) else []) ==
        old(output.Contents()) + EncodeLength(value)
      decreases more, x
    {
      EncodeStep(output.Contents(), x);
      var encoded := x % 128;
      x := x / 128;
      if x > 0 { encoded := encoded + 128; }
      output.Write(encoded);
      more := x > 0;
    }
  }

  // packet (150-156).
  method PacketKotlin(header: Byte, body: seq<Byte>) returns (r: seq<Byte>)
    ensures r == Frame(Packet(header, body))
  {
    var output := new ByteArrayOutputStreamCompat();
    output.Write(header);
    assert output.Contents() == [header];
    WriteRemainingLength(output, |body|);
    output.WriteAll(body);
    r := output.ToByteArray();
  }

  // readPacket (163-179).
  method ReadPacketKotlin(input: Stream) returns (result: Read)
    modifies input
    ensures result == ReadKotlin(old(input.data))
    ensures result.Got? ==> input.data == result.rest
  {
    var header := input.ReadFull(1);
    if header.None? { return EndOfStream; }
    ghost var tail := input.data;
    var length, malformed := ReadRemainingLengthKotlin(input);
    if length.None? { return if malformed then Malformed else EndOfStream; }
    var body := new Byte[length.value as int];
    var ok := ReadBody(input, body);
    if !ok { return EndOfStream; }
    var encoded := EncodeRemainingLengthKotlin(body.Length);
    KotlinPacket(old(input.data), tail, ReadLength(tail).used, body.Length);
    return Got(header.value + encoded + body[..], input.data);
  }

  lemma KotlinPacket(data: seq<Byte>, tail: seq<Byte>, used: nat, n: nat)
    requires data != [] && tail == data[1..] && ReadLength(tail) == Length(n, used) && used + n <= |tail|
    ensures ReadKotlin(data) == Got(data[..1] + EncodeLength(n) + tail[used..][..n], tail[used..][n..])
  {
    assert tail[used..][..n] == data[1 + used..1 + used + n];
    assert tail[used..][n..] == data[1 + used + n..];
    assert data[..1] == [data[0]];
  }

  // The loop of readPacket (170-177): the body arrives in chunks of any sizes.
  method ReadBody(input: Stream, body: array<Byte>) returns (ok: bool)
    modifies input, body
    ensures ok <==> body.Length <= |old(input.data)|
    ensures ok ==> body[..] == old(input.data)[..body.Length] && input.data == old(input.data)[body.Length..]
  {
    var offset := 0;
    while offset < body.Length
      invariant offset <= body.Length && body[..offset] + input.data == old(input.data)
      decreases body.Length - offset
    {
      var read := input.ReadInto(body, offset, body.Length - offset);
      if read < 0 { return false; }
      offset := offset + read;
    }
    assert body[..offset] == body[..];
    return true;
  }

  // encodeRemainingLength (234-238).
  method EncodeRemainingLengthKotlin(value: nat) returns (encoded: seq<Byte>)
    ensures encoded == EncodeLength(value)
  {
    var output := new ByteArrayOutputStreamCompat();
    WriteRemainingLength(output, value);
    encoded := output.ToByteArray();
  }

  // decodeRemainingLength (198-211 of the transport): value and number of bytes, at `offset`,
  // in Int arithmetic that wraps.
  function Wrap32(x: int): int { (x + 0x8000_0000) % 0x1_0000_0000 - 0x8000_0000 }

  lemma WrapShift(x: int, k: int)
    ensures Wrap32(x + k * 0x1_0000_0000) == Wrap32(x)
  {
  }

  // Wrapping only adds a multiple of 2^32.
  lemma WrapIs(x: int) returns (k: int)
    ensures Wrap32(x) == x + k * 0x1_0000_0000
  {
    k := -((x + 0x8000_0000) / 0x1_0000_0000);
  }

  lemma WrapSum(x: int, y: int)
    ensures Wrap32(Wrap32(x) + Wrap32(y)) == Wrap32(x + y)
  {
    var j := WrapIs(x);
    var k := WrapIs(y);
    WrapShift(x + y, j + k);
  }

  lemma WrapProduct(d: int, x: int)
    ensures Wrap32(d * Wrap32(x)) == Wrap32(d * x)
  {
    var k := WrapIs(x);
    assert d * (x + k * 0x1_0000_0000) == d * x + d * k * 0x1_0000_0000;
    WrapShift(d * x, d * k);
  }

  lemma EndsLater(s: seq<Byte>, k: nat)
    requires k < |s| && s[k] >= 128
    ensures HasEnd(s[k..]) <==> HasEnd(s[k + 1..])
    ensures LengthBytes(s[k..]) == 1 + LengthBytes(s[k + 1..])
  {
    assert s[k..][1..] == s[k + 1..];
    if HasEnd(s[k..]) {
      var e :| 0 <= e < |s[k..]| && s[k..][e] < 128;
      assert s[k + 1..][e - 1] < 128;
    }
    if HasEnd(s[k + 1..]) {
      var e :| 0 <= e < |s[k + 1..]| && s[k + 1..][e] < 128;
      assert s[k..][e + 1] < 128;
    }
  }

  lemma Wrap32Small(x: nat)
    ensures x < 0x8000_0000 ==> Wrap32(x) == x
  {
  }

  lemma EndsHere(s: seq<Byte>, k: nat)
    requires k < |s| && s[k] < 128
    ensures HasEnd(s[k..]) && LengthBytes(s[k..]) == 1
  {
    assert s[k..][0] < 128;
  }

  lemma SliceBehind(packet: seq<Byte>, offset: nat, n: nat)
    requires offset + n <= |packet|
    ensures packet[offset..][..n] == packet[offset..offset + n]
  {
  }

  // One turn of the loop below keeps value and multiplier exact up to wrapping.
  lemma DigitWraps(s: seq<Byte>, k: nat, value: int, multiplier: int)
    requires k < |s| && multiplier == Wrap32(Pow128(k)) && value == Wrap32(Value(s[..k]))
    ensures Wrap32(value + Wrap32(s[k] % 128 * multiplier)) == Wrap32(Value(s[..k + 1]))
    ensures Wrap32(multiplier * 128) == Wrap32(Pow128(k + 1))
  {
    assert s[..k + 1] == s[..k] + [s[k]];
    ValueAppend(s[..k], s[k]);
    WrapProduct(s[k] % 128, Pow128(k));
    WrapSum(Value(s[..k]), s[k] % 128 * Pow128(k));
    WrapProduct(128, Pow128(k));
  }

  // None where the packet ends before the length does. The value is right up to wrapping, and
  // so exact where it fits into an Int.
  method DecodeRemainingLengthKotlin(packet: seq<Byte>, offset: nat) returns (r: Option<(int, nat)>)
    requires offset <= |packet|
    ensures r.Some? <==> HasEnd(packet[offset..])
    ensures r.Some? ==> r.value.1 == LengthBytes(packet[offset..]) <= |packet| - offset
    ensures r.Some? ==> r.value.0 == Wrap32(Value(packet[offset..offset + r.value.1]))
    ensures r.Some? && Value(packet[offset..offset + r.value.1]) < 0x8000_0000 ==>
      r.value.0 == Value(packet[offset..offset + r.value.1])
  {
    ghost var s := packet[offset..];
    var multiplier: int := 1;
    var value: int := 0;
    var consumed: nat := 0;
    while true
      invariant consumed <= |s| && (HasEnd(s) <==> HasEnd(s[consumed..]))
      invariant LengthBytes(s) == consumed + LengthBytes(s[consumed..])
      invariant multiplier == Wrap32(Pow128(consumed)) && value == Wrap32(Value(s[..consumed]))
      decreases |s| - consumed
    {
      if offset + consumed == |packet| { return None; }
      var digit: int := packet[offset + consumed];
      ghost var k := consumed;
      assert digit == s[k];
      consumed := consumed + 1;
      DigitWraps(s, k, value, multiplier);
      value := Wrap32(value + Wrap32(digit % 128 * multiplier));
      if digit < 128 {
        EndsHere(s, k);
        SliceBehind(packet, offset, consumed);
        Wrap32Small(Value(s[..consumed]));
        return Some((value, consumed));
      }
      EndsLater(s, k);
      multiplier := Wrap32(multiplier * 128);
    }
  }

  // parseCommand (74-80), up to the JSON of the payload; None where it throws.
  method ParseCommand(packet: seq<Byte>) returns (payload: Option<seq<Byte>>)
    ensures payload == CommandPayload(packet)
  {
    if packet == [] { return None; }
    var length := DecodeRemainingLengthKotlin(packet, 1);
    if length.None? { return None; }
    var remainingOffset := 1 + length.value.1;
    if |packet| < remainingOffset + 2 { return None; }
    var topicLength := GetWord(packet[remainingOffset], packet[remainingOffset + 1]);
    var payloadStart := remainingOffset + 2 + topicLength;
    if payloadStart > |packet| { return None; }
    return Some(packet[payloadStart..]);
  }
}
