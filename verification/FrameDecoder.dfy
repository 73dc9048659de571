/** The serial frame decoder of the edge devices
    (integrations/edge-devices/native/edge_core.cpp) against a pure decoder on the whole byte
    stream, and against the frame encoder of protocol.py. */
module FrameDecoder {

  type byte = bv8

  const SYNC: byte := 0xAA
  const FOOTER: byte := 0xFF
  const BODY := 50       // bytes after the sync byte
  const PAYLOAD := 48    // device id and data
  const ID := 16

  /** `Timeout` is -1, `BadFooter` -2, `BadChecksum` -3. */
  datatype Result = Ok | Timeout | BadFooter | BadChecksum

  /** The caller's EdgeTelemetry struct, its floats as raw bytes. */
  datatype Telemetry = Telemetry(deviceId: seq<byte>, data: seq<byte>, timestampMs: int, statusCode: int)

  // ---- What a frame is ----

  function Xor(s: seq<byte>): byte {
    if s == [] then 0 else Xor(s[..|s| - 1]) ^ s[|s| - 1]
  }

  /** Where the first sync byte is, or the length of the stream. */
  function FirstSync(s: seq<byte>): (i: nat)
    ensures i <= |s|
    ensures i < |s| ==> s[i] == SYNC
    ensures SYNC !in s[..i]
  {
    if s == [] then 0
    else if s[0] == SYNC then 0
    else
      var i := 1 + FirstSync(s[1..]);
      assert s[..i] == [s[0]] + s[1..][..i - 1];
      i
  }

  /** The verdict on the 50 bytes after a sync byte. */
  function Judge(body: seq<byte>): Result
    requires |body| == BODY
  {
    if body[BODY - 1] != FOOTER then BadFooter
    else if Xor(body[..PAYLOAD]) != body[PAYLOAD] then BadChecksum
    else Ok
  }

  /** The struct a good frame is written to; C strings end at index 15. */
  function Unpack(body: seq<byte>, now: int): Telemetry
    requires |body| == BODY
  {
    Telemetry(body[..ID - 1] + [0], body[ID..PAYLOAD], now, 0)
  }

  /** The decoder on the whole stream: verdict, output, and what is left unread. */
  function Decode(stream: seq<byte>, out: Telemetry, now: int): (Result, Telemetry, seq<byte>) {
    var start := FirstSync(stream) + 1;
    if start + BODY > |stream| then (Timeout, out, [])
    else
      var body := stream[start..start + BODY];
      (Judge(body), if Judge(body) == Ok then Unpack(body, now) else out, stream[start + BODY..])
  }

  // ---- The device file ----

  /** A stream that arrives in pieces: each read returns at most the next piece size, and a size
      of zero is a read that times out (VMIN = 0). */
  class SerialPort {
    var stream: seq<byte>
    var pieces: seq<nat>

    constructor (stream: seq<byte>, pieces: seq<nat>)
      ensures this.stream == stream && this.pieces == pieces
    {
      this.stream, this.pieces := stream, pieces;
    }

    predicate NeverTimesOut()
      reads this
    {
      forall n :: n in pieces ==> n > 0
    }

    /** POSIX read of up to `count` bytes into `buffer` at `offset`. */
    method Read(buffer: array<byte>, offset: nat, count: nat) returns (n: nat)
      requires count > 0 && offset + count <= buffer.Length
      modifies this, buffer
      ensures n <= count && n <= |old(stream)|
      ensures old(NeverTimesOut()) && old(stream) != [] ==> n > 0
      ensures old(NeverTimesOut()) ==> NeverTimesOut()
      ensures stream == old(stream)[n..]
      ensures buffer[offset..offset + n] == old(stream)[..n]
      ensures buffer[..offset + n] == old(buffer[..offset]) + old(stream)[..n]
      ensures forall i :: 0 <= i < buffer.Length && !(offset <= i < offset + n) ==> buffer[i] == old(buffer[i])
    {
      n := if |stream| < count then |stream| else count;
      if pieces != [] {
        assert pieces[0] in pieces && forall p :: p in pieces[1..] ==> p in pieces;
        if pieces[0] < n { n := pieces[0]; }
        pieces := pieces[1..];
      }
      CopyIn(buffer, offset, stream[..n]);
      assert buffer[offset..offset + n] == stream[..n];
      assert buffer[..offset + n] == buffer[..offset] + buffer[offset..offset + n];
      stream := stream[n..];
    }
  }

  /** The bytes of one read. */
  method CopyIn(buffer: array<byte>, offset: nat, bytes: seq<byte>)
    requires offset + |bytes| <= buffer.Length
    modifies buffer
    ensures forall j :: 0 <= j < |bytes| ==> buffer[offset + j] == bytes[j]
    ensures forall j :: 0 <= j < buffer.Length && !(offset <= j < offset + |bytes|) ==> buffer[j] == old(buffer[j])
  {
    for i := 0 to |bytes|
      invariant forall j :: 0 <= j < i ==> buffer[offset + j] == bytes[j]
      invariant forall j :: 0 <= j < buffer.Length && !(offset <= j < offset + i) ==> buffer[j] == old(buffer[j])
    {
      buffer[offset + i] := bytes[i];
    }
  }

  /** The sync loop: one byte at a time until 0xAA. */
  method WaitForSync(port: SerialPort) returns (found: bool)
    modifies port
    ensures found ==> FirstSync(old(port.stream)) < |old(port.stream)|
                      && port.stream == old(port.stream)[FirstSync(old(port.stream)) + 1..]
    ensures old(port.NeverTimesOut()) ==> port.NeverTimesOut()
    ensures !found && old(port.NeverTimesOut()) ==>
            port.stream == [] && FirstSync(old(port.stream)) == |old(port.stream)|
  {
    var c := new byte[1];
    ghost var skipped := 0;
    while true
      invariant 0 <= skipped <= |old(port.stream)| && port.stream == old(port.stream)[skipped..]
      invariant FirstSync(old(port.stream)) == skipped + FirstSync(port.stream)
      invariant old(port.NeverTimesOut()) ==> port.NeverTimesOut()
      decreases |port.stream|
    {
      ghost var before := port.stream;
      var n := port.Read(c, 0, 1);
      if n == 0 { return false; }
      assert c[0..1][0] == before[0];
      skipped := skipped + 1;
      if c[0] == SYNC { return true; }
    }
  }

  lemma SliceGrows(s: seq<byte>, a: nat, b: nat, n: nat)
    requires a <= b && b + n <= |s|
    ensures s[a..b + n] == s[a..b] + s[b..][..n]
  {}

  /** The second half of `read_sensor_frame`: footer, checksum, and the struct of a good frame. */
  method JudgeBuffer(buffer: array<byte>, out: Telemetry, now: int) returns (result: Result, frame: Telemetry)
    requires buffer.Length == BODY
    ensures result == Judge(buffer[..])
    ensures frame == if result == Ok then Unpack(buffer[..], now) else out
  {
    if buffer[49] != FOOTER { return BadFooter, out; }

    var crc: byte := 0;
    for i := 0 to PAYLOAD
      invariant crc == Xor(buffer[..i])
    {
      assert buffer[..i + 1][..i] == buffer[..i];
      crc := crc ^ buffer[i];
    }
    assert buffer[..PAYLOAD] == buffer[..][..PAYLOAD];
    if crc != buffer[48] { return BadChecksum, out; }

    var id := buffer[..ID];
    id := id[15 := 0];
    assert id == buffer[..][..ID - 1] + [0];
    return Ok, Telemetry(id, buffer[ID..PAYLOAD], now, 0);
  }

  /** `read_sensor_frame`.  However the bytes are cut into reads, the verdict, the output and the
      bytes left in the stream are those of the pure decoder; a timed-out read can only turn the
      verdict into -1, never into another one. */
  method ReadSensorFrame(port: SerialPort, out: Telemetry, now: int) returns (result: Result, frame: Telemetry)
    modifies port
    ensures result != Timeout ==> (result, frame, port.stream) == Decode(old(port.stream), out, now)
    ensures old(port.NeverTimesOut()) ==> (result, frame, port.stream) == Decode(old(port.stream), out, now)
    ensures result != Ok ==> frame == out
  {
    ghost var stream := port.stream;
    var buffer := new byte[BODY];
    var found := WaitForSync(port);
    if !found { return Timeout, out; }
    ghost var start := FirstSync(stream) + 1;

    var bytesRead := 0;
    while bytesRead < BODY
      invariant 0 <= bytesRead <= BODY && start + bytesRead <= |stream|
      invariant port.stream == stream[start + bytesRead..]
      invariant buffer[..bytesRead] == stream[start..start + bytesRead]
      invariant old(port.NeverTimesOut()) ==> port.NeverTimesOut()
    {
      var n := port.Read(buffer, bytesRead, BODY - bytesRead);
      if n == 0 { return Timeout, out; }
      SliceGrows(stream, start, start + bytesRead, n);
      bytesRead := bytesRead + n;
    }
    assert buffer[..] == stream[start..start + BODY];
    result, frame := JudgeBuffer(buffer, out, now);
  }

  // ---- What the decoder accepts ----

  lemma XorSnoc(s: seq<byte>, b: byte)
    ensures Xor(s + [b]) == Xor(s) ^ b
  {}

  /** A body is accepted exactly when it ends in 0xFF and payload and checksum XOR to zero. */
  lemma AcceptedIff(body: seq<byte>)
    requires |body| == BODY
    ensures Judge(body) == Ok <==> body[BODY - 1] == FOOTER && Xor(body[..PAYLOAD + 1]) == 0
  {
    assert body[..PAYLOAD + 1] == body[..PAYLOAD] + [body[PAYLOAD]];
    XorSnoc(body[..PAYLOAD], body[PAYLOAD]);
    XorZero(Xor(body[..PAYLOAD]), body[PAYLOAD]);
  }

  lemma XorZero(a: byte, b: byte)
    ensures a ^ b == 0 <==> a == b
  {}

  lemma XorSwap(a: byte, b: byte, c: byte)
    ensures (a ^ b) ^ c == (a ^ c) ^ b
  {}

  /** Replacing one byte changes the XOR by the difference of the two bytes. */
  lemma {:induction false} XorUpdate(s: seq<byte>, i: nat, b: byte)
    requires i < |s|
    ensures Xor(s[i := b]) == (Xor(s) ^ s[i]) ^ b
  {
    var n := |s| - 1;
    var t := s[i := b];
    if i == n {
      assert t[..n] == s[..n];
      XorCancel(Xor(s[..n]), s[n]);
    } else {
      XorUpdate(s[..n], i, b);
      assert t[..n] == s[..n][i := b];
      XorSwap(Xor(s[..n]) ^ s[i], b, s[n]);
      XorSwap(Xor(s[..n]), s[i], s[n]);
    }
  }

  lemma XorCancel(a: byte, b: byte)
    ensures (a ^ b) ^ b == a
  {}

  lemma OneChangeFailsChecksum(body: seq<byte>, i: nat, b: byte)
    requires |body| == BODY && Judge(body) == Ok && i <= PAYLOAD && b != body[i]
    ensures Judge(body[i := b]) == BadChecksum
  {
    var bad := body[i := b];
    AcceptedIff(body);
    AcceptedIff(bad);
    assert bad[..PAYLOAD + 1] == body[..PAYLOAD + 1][i := b];
    XorUpdate(body[..PAYLOAD + 1], i, b);
    assert (0 ^ body[i]) == body[i];
    XorZero(body[i], b);
  }

  /** Any change to any one payload or checksum byte of a good frame is rejected, as a checksum
      error, wherever in the stream the frame is and whatever follows it. */
  lemma OneChangedByteIsRejected(noise: seq<byte>, body: seq<byte>, rest: seq<byte>, i: nat, b: byte, out: Telemetry,
                                 now: int)
    requires SYNC !in noise && |body| == BODY && Judge(body) == Ok
    requires i <= PAYLOAD && b != body[i]
    ensures Decode(noise + [SYNC] + body[i := b] + rest, out, now) == (BadChecksum, out, rest)
  {
    OneChangeFailsChecksum(body, i, b);
    FindsFrame(noise, body[i := b], rest);
  }

  /** The decoder skips noise without a sync byte and takes the 50 bytes after the first one. */
  lemma {:induction false} FindsFrame(noise: seq<byte>, body: seq<byte>, rest: seq<byte>)
    requires SYNC !in noise && |body| == BODY
    ensures var s := noise + [SYNC] + body + rest;
            && FirstSync(s) == |noise|
            && s[|noise| + 1..|noise| + 1 + BODY] == body && s[|noise| + 1 + BODY..] == rest
  {
    var s := noise + [SYNC] + body + rest;
    if noise != [] {
      FindsFrame(noise[1..], body, rest);
      assert s[1..] == noise[1..] + [SYNC] + body + rest;
    }
  }

  /** The verdict and the struct in the numbers of the wire: with the first 0xAA at `i`, 50 more bytes
      make a frame; the last one must be 0xFF, the 48 payload bytes must XOR to the 49th, and then the
      id is the first 15 of them with a terminator, the data the last 32, stamped with the time of
      reading and status 0. */
  lemma FrameLayout(stream: seq<byte>, i: nat, out: Telemetry, now: int)
    requires i <= |stream| && (forall j :: 0 <= j < i ==> stream[j] != 0xAA) && (i < |stream| ==> stream[i] == 0xAA)
    ensures var (result, frame, left) := Decode(stream, out, now);
            if |stream| < i + 51 then result == Timeout && frame == out && left == []
            else
              && left == stream[i + 51..]
              && (result == BadFooter <==> stream[i + 50] != 0xFF)
              && (result == Ok <==> stream[i + 50] == 0xFF && Xor(stream[i + 1..i + 49]) == stream[i + 49])
              && (result == Ok ==>
                    frame == Telemetry(stream[i + 1..i + 16] + [0], stream[i + 17..i + 49], now, 0))
              && (result != Ok ==> frame == out && result != Timeout)
  {
    FirstSyncIs(stream, i);
    if |stream| >= i + 51 {
      var body := stream[i + 1..i + 51];
      assert body[..48] == stream[i + 1..i + 49] && body[..15] == stream[i + 1..i + 16];
      assert body[16..48] == stream[i + 17..i + 49];
    }
  }

  lemma FirstSyncIs(stream: seq<byte>, i: nat)
    requires i <= |stream| && (forall j :: 0 <= j < i ==> stream[j] != 0xAA) && (i < |stream| ==> stream[i] == 0xAA)
    ensures FirstSync(stream) == i
  {}

  /** The XOR of a list, byte by byte from the left. */
  lemma {:induction false} XorAppend(a: seq<byte>, b: seq<byte>)
    ensures Xor(a + b) == Xor(a) ^ Xor(b)
    ensures |b| == 1 ==> Xor(b) == b[0]
  {
    if b == [] {
      assert a + b == a;
    } else {
      var n := |b| - 1;
      assert (a + b)[..|a + b| - 1] == a + b[..n];
      XorAppend(a, b[..n]);
    }
  }

  // ---- The encoder of the Python side ----

  /** `encode_serial_frame` on a padded 16-byte id and 32 bytes of floats. */
  function Encode(id: seq<byte>, data: seq<byte>): seq<byte>
    requires |id| == ID && |data| == PAYLOAD - ID
  {
    [SYNC] + (id + data + [Xor(id + data)] + [FOOTER])
  }

  /** Every encoded frame is accepted, its floats come back, and its id comes back unless it
      fills all 16 bytes: then the decoder overwrites the last one with the terminator. */
  lemma EncodedFramesDecode(noise: seq<byte>, id: seq<byte>, data: seq<byte>, rest: seq<byte>, out: Telemetry, now: int)
    requires SYNC !in noise && |id| == ID && |data| == PAYLOAD - ID
    ensures var (result, frame, left) := Decode(noise + Encode(id, data) + rest, out, now);
            && result == Ok && left == rest && frame.data == data
            && frame.deviceId[..ID - 1] == id[..ID - 1]
            && (frame.deviceId == id <==> id[ID - 1] == 0)
  {
    var body := id + data + [Xor(id + data)] + [FOOTER];
    assert noise + Encode(id, data) + rest == noise + [SYNC] + body + rest;
    FindsFrame(noise, body, rest);
    assert body[..PAYLOAD] == id + data;
    assert body[..ID - 1] == id[..ID - 1] && body[ID..PAYLOAD] == data;
    assert id == id[..ID - 1] + [id[ID - 1]];
  }
}
