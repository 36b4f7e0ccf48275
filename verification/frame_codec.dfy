/**
 * Client-side WebSocket framing of `WebSocketConnection`: the frame writer
 * (`sendFrame(int, byte[])`), client masking, and the frame reader used by
 * the read loop. Bytes are `bv8`; the inbound stream is a finite sequence and
 * reading past its end is Java's `read() == -1`.
 *
 * The writer follows the code rather than section 5.2 of RFC 6455: the 8-byte
 * extended length repeats the low 32 bits of the length, because Java takes
 * `int` shift distances modulo 32. The reader ignores the first four bytes of
 * an 8-byte length and never looks at the FIN bit.
 */
module FrameCodec {
  import opened Wrappers

  const OpText: bv8 := 0x1
  const OpClose: bv8 := 0x8
  const OpPing: bv8 := 0x9
  const OpPong: bv8 := 0xA

  /** Java arrays are indexed by a non-negative `int`, so no payload reaches 2^31 bytes. */
  const JavaArrayLimit: nat := 0x8000_0000

  /** Payloads the writer can be handed. */
  predicate ValidPayload(payload: seq<bv8>)
  {
    |payload| < JavaArrayLimit
  }

  // ---------------------------------------------------------------------------
  // Integer helpers
  // ---------------------------------------------------------------------------

  /**
   * Java `x >> (8 * k)` on a non-negative `int`. Java keeps only the low five
   * bits of a shift distance, so shifting by 32, 40, 48 or 56 is shifting by
   * 0, 8, 16 or 24.
   */
  function ShiftRightBytes(x: nat, k: nat): nat
  {
    var b := k % 4;   // the distance 8 * k reduced to five bits is 8 * (k % 4): see `JavaDistance`
    if b == 0 then x else if b == 1 then x / 256 else if b == 2 then x / 65536 else x / 16777216
  }

  /** Keeping the low five bits of the distance `8 * k` leaves `8 * (k % 4)`. */
  lemma JavaDistance(k: nat)
    ensures (8 * k) % 32 == 8 * (k % 4)
  {
  }

  /** `OutputStream.write(int)` keeps only the low eight bits of its argument. */
  function LowByte(x: nat): bv8
  {
    (x % 256) as bv8
  }

  lemma LowByteValue(x: nat)
    ensures LowByte(x) as int == x % 256
  {
    SmallByte(x % 256);
  }

  lemma SmallByte(y: nat)
    requires y < 256
    ensures (y as bv8) as int == y
  {
    if y < 16 {
    } else if y < 128 {
    } else {
    }
  }

  /** The unsigned big-endian value of two bytes. */
  function Be16(hi: bv8, lo: bv8): nat
  {
    hi as nat * 256 + lo as nat
  }

  /** The unsigned big-endian value of four bytes. */
  function Be32(bs: seq<bv8>): nat
    requires |bs| == 4
  {
    bs[0] as nat * 16777216 + bs[1] as nat * 65536 + bs[2] as nat * 256 + bs[3] as nat
  }

  /** The unsigned big-endian value of eight bytes, as section 5.2 of RFC 6455 reads a 64-bit length. */
  function Be64(bs: seq<bv8>): nat
    requires |bs| == 8
  {
    Be32(bs[..4]) * 0x1_0000_0000 + Be32(bs[4..])
  }

  /** A value below 2^32 is the big-endian combination of its four low bytes. */
  lemma SplitWord(x: nat)
    requires x < 0x1_0000_0000
    ensures x == (x / 16777216) * 16777216 + ((x / 65536) % 256) * 65536 + ((x / 256) % 256) * 256 + x % 256
    ensures x / 16777216 < 256 && (x < 0x8000_0000 ==> x / 16777216 < 128)
  {
  }

  /** The four bytes of a value below 2^32, most significant first. */
  function BytesOf32(x: nat): (r: seq<bv8>)
    requires x < 0x1_0000_0000
    ensures |r| == 4 && Be32(r) == x
    ensures x < 0x8000_0000 ==> r[0] < 128
  {
    var r := [LowByte(x / 16777216), LowByte(x / 65536), LowByte(x / 256), LowByte(x)];
    SplitWord(x);
    LowByteValue(x / 16777216);
    LowByteValue(x / 65536);
    LowByteValue(x / 256);
    LowByteValue(x);
    assert r[0] as nat == x / 16777216;
    assert r[1] as nat == (x / 65536) % 256;
    assert r[2] as nat == (x / 256) % 256;
    assert r[3] as nat == x % 256;
    r
  }

  // ---------------------------------------------------------------------------
  // Writer
  // ---------------------------------------------------------------------------

  /**
   * The second byte and the extended length the writer emits for a payload of
   * `len` bytes, with the mask bit set: seven bits when below 126; 126 and a
   * 16-bit big-endian length below 65536; otherwise 127 and eight bytes, each
   * `(len >> 8 * i) & 0xFF` for `i` from 7 down to 0.
   */
  function LengthField(len: nat): (r: seq<bv8>)
    requires len < JavaArrayLimit
  {
    if len < 126 then
      [0x80 | len as bv8]
    else if len < 65536 then
      [0x80 | 126, LowByte(ShiftRightBytes(len, 1)), LowByte(len)]
    else
      [0x80 | 127,
       LowByte(ShiftRightBytes(len, 7)), LowByte(ShiftRightBytes(len, 6)),
       LowByte(ShiftRightBytes(len, 5)), LowByte(ShiftRightBytes(len, 4)),
       LowByte(ShiftRightBytes(len, 3)), LowByte(ShiftRightBytes(len, 2)),
       LowByte(ShiftRightBytes(len, 1)), LowByte(ShiftRightBytes(len, 0))]
  }

  /**
   * What the length field means: the seven-bit form carries the length
   * itself, the 16-bit form its big-endian value, and the 8-byte form the four
   * low bytes of the length twice over.
   */
  lemma LengthFieldShape(len: nat)
    requires len < JavaArrayLimit
    ensures var r := LengthField(len);
            && (len < 126 ==> |r| == 1 && r[0] as int == 128 + len)
            && (126 <= len < 65536 ==> |r| == 3 && r[0] == 0xFE && Be16(r[1], r[2]) == len)
            && (65536 <= len ==> |r| == 9 && r[0] == 0xFF
                                 && r[1..5] == r[5..9] == BytesOf32(len))
  {
    if len < 126 {
      ShortLength(len);
    } else if len < 65536 {
      MediumLength(len);
    } else {
      LongLengthBytes(len);
    }
  }

  lemma ShortLength(len: nat)
    requires len < 126
    ensures var r := LengthField(len);
            |r| == 1 && r[0] as int == 128 + len
  {
    SmallByte(len);
    SetHighBit(len as bv8);
  }

  lemma MediumLength(len: nat)
    requires 126 <= len < 65536
    ensures var r := LengthField(len);
            |r| == 3 && r[0] == 0xFE && Be16(r[1], r[2]) == len
  {
    var r := LengthField(len);
    ShiftValues(len);
    assert r == [0x80 | 126, LowByte(len / 256), LowByte(len)];
    Be16OfLowBytes(len / 256, len);
    SplitHalfword(len);
  }

  lemma Be16OfLowBytes(a: nat, b: nat)
    ensures Be16(LowByte(a), LowByte(b)) == (a % 256) * 256 + b % 256
  {
    LowByteValue(a);
    LowByteValue(b);
  }

  /** A value below 2^16 is the big-endian combination of its two low bytes. */
  lemma SplitHalfword(x: nat)
    requires x < 65536
    ensures ((x / 256) % 256) * 256 + x % 256 == x
  {
  }

  /** The eight shift distances the writer uses, reduced as Java reduces them. */
  lemma ShiftValues(x: nat)
    ensures ShiftRightBytes(x, 7) == x / 16777216
    ensures ShiftRightBytes(x, 3) == x / 16777216
    ensures ShiftRightBytes(x, 6) == x / 65536
    ensures ShiftRightBytes(x, 2) == x / 65536
    ensures ShiftRightBytes(x, 5) == x / 256
    ensures ShiftRightBytes(x, 1) == x / 256
    ensures ShiftRightBytes(x, 4) == x
    ensures ShiftRightBytes(x, 0) == x
  {
  }

  lemma LongLengthBytes(len: nat)
    requires 65536 <= len < JavaArrayLimit
    ensures var r := LengthField(len);
            |r| == 9 && r[1..5] == r[5..9] == BytesOf32(len)
  {
    LongLengthRepeats(len);
    var w := [LowByte(len / 16777216), LowByte(len / 65536), LowByte(len / 256), LowByte(len)];
    assert BytesOf32(len) == w;
    assert LengthField(len)[1..5] == w;
    assert LengthField(len)[5..9] == w;
  }

  /** The eight bytes the writer emits are the four low bytes of the length, twice. */
  lemma LongLengthRepeats(len: nat)
    requires 65536 <= len < JavaArrayLimit
    ensures var w := [LowByte(len / 16777216), LowByte(len / 65536), LowByte(len / 256), LowByte(len)];
            LengthField(len) == [0x80 | 127] + w + w
  {
    ShiftValues(len);
  }

  lemma SetHighBit(b: bv8)
    requires b < 128
    ensures (0x80 | b) as int == 128 + b as int
  {
  }

  /** `payload[i] ^ key[i % 4]` for every byte: client masking (section 5.3 of RFC 6455). */
  function Mask(payload: seq<bv8>, key: seq<bv8>): (r: seq<bv8>)
    requires |key| == 4
    ensures |r| == |payload|
  {
    seq(|payload|, i requires 0 <= i < |payload| => payload[i] ^ key[i % 4])
  }

  /**
   * One frame as the client writes it: FIN and the opcode, the length field
   * with the mask bit, the caller-supplied mask key (drawn from `SecureRandom`
   * in the source), then the masked payload.
   */
  function EncodeFrame(opcode: bv8, payload: seq<bv8>, key: seq<bv8>): (r: seq<bv8>)
    requires ValidPayload(payload) && |key| == 4
    ensures |r| == KeyOffset(|payload|) + 4 + |payload|
  {
    [0x80 | opcode] + LengthField(|payload|) + key + Mask(payload, key)
  }

  /** Where the mask key starts inside an encoded frame. */
  function KeyOffset(len: nat): nat
    requires len < JavaArrayLimit
  {
    1 + |LengthField(len)|
  }

  /** Masking with the same key twice gives back the original bytes. */
  lemma MaskInvolution(payload: seq<bv8>, key: seq<bv8>)
    requires |key| == 4
    ensures Mask(Mask(payload, key), key) == payload
  {
    var m := Mask(payload, key);
    var mm := Mask(m, key);
    forall i | 0 <= i < |payload|
      ensures mm[i] == payload[i]
    {
      assert mm[i] == (payload[i] ^ key[i % 4]) ^ key[i % 4];
    }
  }

  /**
   * Every written frame is the first byte, the length field, the key and the
   * masked payload laid end to end; unmasking the transmitted bytes with the
   * transmitted key restores the payload.
   */
  lemma EncodedFrameLayout(opcode: bv8, payload: seq<bv8>, key: seq<bv8>)
    requires ValidPayload(payload) && |key| == 4
    ensures var f := EncodeFrame(opcode, payload, key);
            var o := KeyOffset(|payload|);
            && f[0] == 0x80 | opcode
            && f[1..o] == LengthField(|payload|)
            && f[o..o + 4] == key
            && f[o + 4..] == Mask(payload, key)
            && Mask(f[o + 4..], f[o..o + 4]) == payload
  {
    var f := EncodeFrame(opcode, payload, key);
    var lf := LengthField(|payload|);
    var o := KeyOffset(|payload|);
    assert f == [0x80 | opcode] + lf + key + Mask(payload, key);
    assert f[1..o] == lf;
    assert f[o..o + 4] == key;
    assert f[o + 4..] == Mask(payload, key);
    MaskInvolution(payload, key);
  }

  /**
   * Section 5.2 of RFC 6455 reads the 8-byte length as one 64-bit big-endian
   * number. For every payload of 65536 bytes or more the writer's bytes denote
   * a different, far larger length.
   */
  lemma LongLengthIsNotRfcLength(len: nat)
    requires 65536 <= len < JavaArrayLimit
    ensures Be64(LengthField(len)[1..9]) != len
    ensures Be64(LengthField(len)[1..9]) == len * 0x1_0000_0001
  {
    LengthFieldShape(len);
    var r := LengthField(len);
    assert r[1..9][..4] == r[1..5];
    assert r[1..9][4..] == r[5..9];
  }

  /**
   * The length field section 5.2 of RFC 6455 asks for: the same short and
   * 16-bit forms, and an 8-byte big-endian length whose high word is zero for
   * every payload a Java array can hold.
   */
  function RfcLengthField(len: nat): (r: seq<bv8>)
    requires len < JavaArrayLimit
    ensures len < 65536 ==> r == LengthField(len)
    ensures 65536 <= len ==> |r| == 9 && r[0] == 0xFF && Be64(r[1..]) == len
  {
    if len < 65536 then LengthField(len)
    else
      var r := [0x80 | 127, 0, 0, 0, 0] + BytesOf32(len);
      assert r[1..][..4] == [0, 0, 0, 0];
      assert r[1..][4..] == BytesOf32(len);
      r
  }

  /** The writer with the RFC length field; everything else as written. */
  function RfcEncodeFrame(opcode: bv8, payload: seq<bv8>, key: seq<bv8>): (r: seq<bv8>)
    requires ValidPayload(payload) && |key| == 4
    ensures |payload| < 65536 ==> r == EncodeFrame(opcode, payload, key)
  {
    [0x80 | opcode] + RfcLengthField(|payload|) + key + Mask(payload, key)
  }

  // ---------------------------------------------------------------------------
  // Reader
  // ---------------------------------------------------------------------------

  /** A frame as the read loop sees it, payload already unmasked. */
  datatype Frame = Frame(fin: bool, opcode: bv8, masked: bool, payload: seq<bv8>)

  datatype DecodeResult =
    | EndOfStream                        // a header byte read returned -1
    | Malformed                          // a negative Java length: `new byte[n]` throws
    | Decoded(frame: Frame, next: nat)   // the frame and the stream position after it

  /** `InputStream.read()` at position `pos`: the byte, or -1 at end of stream. */
  function ReadAt(s: seq<bv8>, pos: nat): int
  {
    if pos < |s| then s[pos] as int else -1
  }

  /** The stream position after trying to read `n` more bytes. */
  function Advance(s: seq<bv8>, pos: nat, n: nat): nat
  {
    if pos + n <= |s| then pos + n else if pos <= |s| then |s| else pos
  }

  /**
   * Reading `n` bytes into a fresh zeroed array, looping until the array is
   * full or the stream ends: what is available, then zeros.
   */
  function ReadBlock(s: seq<bv8>, pos: nat, n: nat): (r: seq<bv8>)
    ensures |r| == n
    ensures forall i :: 0 <= i < n ==> r[i] == (if pos + i < |s| then s[pos + i] else 0)
  {
    seq(n, i requires 0 <= i < n => if pos + i < |s| then s[pos + i] else 0)
  }

  /**
   * `(read() << 8) | read()` in Java `int` arithmetic. A -1 from either read
   * makes the result negative; `None` stands for any negative value.
   */
  function Length16(hi: int, lo: int): Option<nat>
  {
    if hi < 0 || lo < 0 then None else Some(hi * 256 + lo)
  }

  /**
   * `(a << 24) | (b << 16) | (c << 8) | d` in Java `int` arithmetic: negative
   * when a read returned -1 or when the top byte has its high bit set.
   */
  function Length32(a: int, b: int, c: int, d: int): Option<nat>
  {
    if a < 0 || b < 0 || c < 0 || d < 0 || a >= 128 then None
    else Some(a * 16777216 + b * 65536 + c * 256 + d)
  }

  /** The declared payload length (`None` when negative) and the position after the length field. */
  datatype LengthRead = LengthRead(len: Option<nat>, next: nat)

  /**
   * Reading the length field at `pos`, given the low seven bits of the second
   * header byte. For the 8-byte form the first four reads are discarded.
   */
  function ReadLength(s: seq<bv8>, pos: nat, len7: nat): (r: LengthRead)
    ensures pos <= |s| ==> pos <= r.next <= |s|
  {
    if len7 == 126 then
      LengthRead(Length16(ReadAt(s, pos), ReadAt(s, pos + 1)), Advance(s, pos, 2))
    else if len7 == 127 then
      LengthRead(Length32(ReadAt(s, pos + 4), ReadAt(s, pos + 5), ReadAt(s, pos + 6), ReadAt(s, pos + 7)),
                 Advance(s, pos, 8))
    else
      LengthRead(Some(len7), pos)
  }

  /**
   * One iteration of the read loop's decoding step, starting at `pos`: two
   * header bytes, the length, the mask key when the mask bit is set, the
   * payload (unmasked). FIN is recorded but the source never acts on it.
   */
  function DecodeFrame(s: seq<bv8>, pos: nat): (d: DecodeResult)
    ensures d.Decoded? ==> pos + 2 <= d.next <= |s|
    ensures d.Malformed? ==> pos + 2 <= |s|
  {
    if pos + 2 > |s| then EndOfStream
    else
      var lr := ReadLength(s, pos + 2, (s[pos + 1] & 0x7F) as nat);
      DecodeAfterLength(s, s[pos], s[pos + 1], lr.len, lr.next)
  }

  /** A negative length is `Malformed`; otherwise the rest of the frame is read. */
  function DecodeAfterLength(s: seq<bv8>, b0: bv8, b1: bv8, len: Option<nat>, afterLength: nat): (d: DecodeResult)
    ensures d.Decoded? && afterLength <= |s| ==> afterLength <= d.next <= |s|
  {
    match len
    case None => Malformed
    case Some(n) => ReadPayload(s, b0, b1, n, afterLength)
  }

  /** The rest of a frame once its length is known: the mask key if any, then the payload. */
  function ReadPayload(s: seq<bv8>, b0: bv8, b1: bv8, len: nat, afterLength: nat): (d: DecodeResult)
    ensures d.Decoded? && afterLength <= |s| ==> afterLength <= d.next <= |s|
  {
    var masked := b1 & 0x80 != 0;
    var afterKey := if masked then Advance(s, afterLength, 4) else afterLength;
    var raw := ReadBlock(s, afterKey, len);
    var payload := if masked then Mask(raw, ReadBlock(s, afterLength, 4)) else raw;
    Decoded(Frame(b0 & 0x80 != 0, b0 & 0x0F, masked, payload), Advance(s, afterKey, len))
  }

  /** `lf` is a length field with the mask bit set that the reader resolves to `len`. */
  predicate DenotesLength(lf: seq<bv8>, len: nat)
  {
    || (len < 126 && |lf| == 1 && lf[0] as int == 128 + len)
    || (126 <= len < 65536 && |lf| == 3 && lf[0] == 0xFE && Be16(lf[1], lf[2]) == len)
    || (65536 <= len < JavaArrayLimit && |lf| == 9 && lf[0] == 0xFF && lf[5..9] == BytesOf32(len))
  }

  lemma LengthFieldDenotes(len: nat)
    requires len < JavaArrayLimit
    ensures DenotesLength(LengthField(len), len)
    ensures DenotesLength(RfcLengthField(len), len)
  {
    LengthFieldShape(len);
    if 65536 <= len {
      var r := RfcLengthField(len);
      assert r[5..9] == BytesOf32(len);
    }
  }

  lemma LowBits(b: bv8)
    ensures (b & 0x7F) as int == b as int % 128
    ensures (b & 0x80 != 0) <==> b as int >= 128
  {
  }

  lemma OpcodeBits(opcode: bv8)
    requires opcode < 16
    ensures (0x80 | opcode) & 0x0F == opcode && (0x80 | opcode) & 0x80 != 0
  {
  }

  /** The reader resolves a length field it is given to the length it denotes. */
  lemma ReadLengthOf(s: seq<bv8>, lf: seq<bv8>, len: nat)
    requires DenotesLength(lf, len) && 1 + |lf| <= |s| && s[1..1 + |lf|] == lf
    ensures s[1] & 0x80 != 0
    ensures ReadLength(s, 2, (s[1] & 0x7F) as nat).len == Some(len)
    ensures ReadLength(s, 2, (s[1] & 0x7F) as nat).next == 1 + |lf|
  {
    assert s[1] == s[1..1 + |lf|][0] == lf[0];
    LowBits(s[1]);
    if |lf| == 9 {
      assert s[6..10] == s[1..1 + |lf|][5..9] == lf[5..9];
      ReadLength64(s, len);
    } else if |lf| == 3 {
      assert s[2] == lf[1] && s[3] == lf[2];
      ReadLength16(s, len);
    } else {
      ReadLength7(s, len);
    }
  }

  lemma ReadLength7(s: seq<bv8>, len: nat)
    requires len < 126
    ensures ReadLength(s, 2, len).len == Some(len)
    ensures ReadLength(s, 2, len).next == 2
  {
  }

  lemma ReadLength16(s: seq<bv8>, len: nat)
    requires 4 <= |s| && Be16(s[2], s[3]) == len
    ensures ReadLength(s, 2, 126).len == Some(len)
    ensures ReadLength(s, 2, 126).next == 4
  {
    assert ReadAt(s, 2) == s[2] as int && ReadAt(s, 3) == s[3] as int;
  }

  lemma ReadLength64(s: seq<bv8>, len: nat)
    requires 10 <= |s| && len < JavaArrayLimit && s[6..10] == BytesOf32(len)
    ensures ReadLength(s, 2, 127).len == Some(len)
    ensures ReadLength(s, 2, 127).next == 10
  {
    var w := BytesOf32(len);
    assert s[6] == w[0] && s[7] == w[1] && s[8] == w[2] && s[9] == w[3];
    assert ReadAt(s, 6) == w[0] as int && ReadAt(s, 7) == w[1] as int;
    assert ReadAt(s, 8) == w[2] as int && ReadAt(s, 9) == w[3] as int;
  }

  lemma ReadBlockSlice(s: seq<bv8>, pos: nat, n: nat)
    requires pos + n <= |s|
    ensures ReadBlock(s, pos, n) == s[pos..pos + n]
  {
  }

  /** The parts of a frame laid out as the writer lays it out. */
  lemma LaidOutParts(h: bv8, lf: seq<bv8>, key: seq<bv8>, body: seq<bv8>, rest: seq<bv8>)
    ensures var s := [h] + lf + key + body + rest;
            var o := 1 + |lf|;
            && s[0] == h
            && s[1..o] == lf
            && s[o..o + |key|] == key
            && s[o + |key|..o + |key| + |body|] == body
  {
  }

  /** Decoding a stream whose header, key and masked payload are known. */
  lemma DecodeFromParts(s: seq<bv8>, opcode: bv8, o: nat, key: seq<bv8>, payload: seq<bv8>)
    requires opcode < 16 && |key| == 4 && 2 <= |s|
    requires s[0] == 0x80 | opcode && s[1] & 0x80 != 0
    requires ReadLength(s, 2, (s[1] & 0x7F) as nat).len == Some(|payload|)
    requires ReadLength(s, 2, (s[1] & 0x7F) as nat).next == o
    requires o + 4 + |payload| <= |s|
    requires s[o..o + 4] == key && s[o + 4..o + 4 + |payload|] == Mask(payload, key)
    ensures DecodeFrame(s, 0) == Decoded(Frame(true, opcode, true, payload), o + 4 + |payload|)
  {
    var n := |payload|;
    UnfoldDecodeAtStart(s, Some(n), o);
    ReadMaskedPayload(s, s[0], s[1], n, o);
    ReadBlockSlice(s, o, 4);
    ReadBlockSlice(s, o + 4, n);
    OpcodeBits(opcode);
    MaskInvolution(payload, key);
  }

  lemma UnfoldDecodeAtStart(s: seq<bv8>, len: Option<nat>, o: nat)
    requires 2 <= |s|
    requires ReadLength(s, 2, (s[1] & 0x7F) as nat).len == len
    requires ReadLength(s, 2, (s[1] & 0x7F) as nat).next == o
    ensures DecodeFrame(s, 0) == DecodeAfterLength(s, s[0], s[1], len, o)
  {
  }

  /** A masked payload that arrived in full: the key, then the masked bytes. */
  lemma ReadMaskedPayload(s: seq<bv8>, b0: bv8, b1: bv8, n: nat, o: nat)
    requires b1 & 0x80 != 0 && o + 4 + n <= |s|
    ensures DecodeAfterLength(s, b0, b1, Some(n), o)
            == Decoded(Frame(b0 & 0x80 != 0, b0 & 0x0F, true, Mask(ReadBlock(s, o + 4, n), ReadBlock(s, o, 4))), o + 4 + n)
  {
    assert Advance(s, o, 4) == o + 4;
    assert Advance(s, o + 4, n) == o + 4 + n;
  }

  /** Decoding a frame laid out as the writer lays it out. */
  lemma DecodeLaidOut(opcode: bv8, lf: seq<bv8>, key: seq<bv8>, payload: seq<bv8>, rest: seq<bv8>)
    requires opcode < 16 && |key| == 4 && DenotesLength(lf, |payload|)
    ensures var f := [0x80 | opcode] + lf + key + Mask(payload, key);
            DecodeFrame(f + rest, 0) == Decoded(Frame(true, opcode, true, payload), |f|)
  {
    var body := Mask(payload, key);
    var f := [0x80 | opcode] + lf + key + body;
    var s := f + rest;
    assert s == [0x80 | opcode] + lf + key + body + rest;
    LaidOutParts(0x80 | opcode, lf, key, body, rest);
    ReadLengthOf(s, lf, |payload|);
    DecodeFromParts(s, opcode, 1 + |lf|, key, payload);
  }

  /**
   * Decoding what the writer produced gives back the opcode and the payload,
   * with FIN and mask bits set, and consumes exactly the encoded bytes, for
   * every payload a Java array can hold: the reader skips the four bytes the
   * writer gets wrong.
   */
  lemma RoundTrip(opcode: bv8, payload: seq<bv8>, key: seq<bv8>, rest: seq<bv8>)
    requires opcode < 16 && ValidPayload(payload) && |key| == 4
    ensures var f := EncodeFrame(opcode, payload, key);
            DecodeFrame(f + rest, 0) == Decoded(Frame(true, opcode, true, payload), |f|)
  {
    LengthFieldDenotes(|payload|);
    DecodeLaidOut(opcode, LengthField(|payload|), key, payload, rest);
  }

  /** The corrected writer decodes just as well. */
  lemma RfcRoundTrip(opcode: bv8, payload: seq<bv8>, key: seq<bv8>, rest: seq<bv8>)
    requires opcode < 16 && ValidPayload(payload) && |key| == 4
    ensures var f := RfcEncodeFrame(opcode, payload, key);
            DecodeFrame(f + rest, 0) == Decoded(Frame(true, opcode, true, payload), |f|)
  {
    LengthFieldDenotes(|payload|);
    DecodeLaidOut(opcode, RfcLengthField(|payload|), key, payload, rest);
  }

  // ---------------------------------------------------------------------------
  // Frames from the server: unmasked, with the RFC 6455 length field
  // ---------------------------------------------------------------------------

  /** `lf` is a length field without the mask bit that the reader resolves to `len`. */
  predicate DenotesPlainLength(lf: seq<bv8>, len: nat)
  {
    || (len < 126 && |lf| == 1 && lf[0] as int == len)
    || (126 <= len < 65536 && |lf| == 3 && lf[0] == 126 && Be16(lf[1], lf[2]) == len)
    || (65536 <= len < JavaArrayLimit && |lf| == 9 && lf[0] == 127 && lf[5..9] == BytesOf32(len))
  }

  /** The length field of a server frame: the RFC 6455 one with the mask bit clear. */
  function ServerLengthField(len: nat): (r: seq<bv8>)
    requires len < JavaArrayLimit
    ensures DenotesPlainLength(r, len)
  {
    ServerLengthFieldDenotes(len);
    [if len < 126 then len as bv8 else if len < 65536 then 126 else 127] + RfcLengthField(len)[1..]
  }

  lemma ServerLengthFieldDenotes(len: nat)
    requires len < JavaArrayLimit
    ensures DenotesPlainLength([if len < 126 then len as bv8 else if len < 65536 then 126 else 127]
                               + RfcLengthField(len)[1..], len)
  {
    var f := RfcLengthField(len);
    LengthFieldDenotes(len);
    var r := [if len < 126 then len as bv8 else if len < 65536 then 126 else 127] + f[1..];
    assert |r| == |f|;
    if len < 126 {
      assert r[0] as int == len;
    } else if len < 65536 {
      assert r[1] == f[1] && r[2] == f[2];
    } else {
      assert r[5..9] == f[5..9];
    }
  }

  /** A server frame: FIN and the opcode, the length field, and the payload as it is. */
  function ServerEncodeFrame(opcode: bv8, payload: seq<bv8>): (r: seq<bv8>)
    requires ValidPayload(payload)
  {
    [0x80 | opcode] + ServerLengthField(|payload|) + payload
  }

  /** The reader resolves an unmasked length field to the length it denotes. */
  lemma ReadPlainLengthOf(s: seq<bv8>, lf: seq<bv8>, len: nat)
    requires DenotesPlainLength(lf, len) && 1 + |lf| <= |s| && s[1..1 + |lf|] == lf
    ensures s[1] & 0x80 == 0
    ensures ReadLength(s, 2, (s[1] & 0x7F) as nat).len == Some(len)
    ensures ReadLength(s, 2, (s[1] & 0x7F) as nat).next == 1 + |lf|
  {
    assert s[1] == s[1..1 + |lf|][0] == lf[0];
    LowBits(s[1]);
    if |lf| == 9 {
      assert s[6..10] == s[1..1 + |lf|][5..9] == lf[5..9];
      ReadLength64(s, len);
    } else if |lf| == 3 {
      assert s[2] == lf[1] && s[3] == lf[2];
      ReadLength16(s, len);
    } else {
      ReadLength7(s, len);
    }
  }

  /** An unmasked payload that arrived in full. */
  lemma ReadPlainPayload(s: seq<bv8>, b0: bv8, b1: bv8, n: nat, o: nat)
    requires b1 & 0x80 == 0 && o + n <= |s|
    ensures DecodeAfterLength(s, b0, b1, Some(n), o)
            == Decoded(Frame(b0 & 0x80 != 0, b0 & 0x0F, false, ReadBlock(s, o, n)), o + n)
  {
    assert Advance(s, o, n) == o + n;
  }

  /** Decoding a stream whose header and unmasked payload are known. */
  lemma DecodeFromPlainParts(s: seq<bv8>, opcode: bv8, o: nat, payload: seq<bv8>)
    requires opcode < 16 && 2 <= |s|
    requires s[0] == 0x80 | opcode && s[1] & 0x80 == 0
    requires ReadLength(s, 2, (s[1] & 0x7F) as nat).len == Some(|payload|)
    requires ReadLength(s, 2, (s[1] & 0x7F) as nat).next == o
    requires o + |payload| <= |s| && s[o..o + |payload|] == payload
    ensures DecodeFrame(s, 0) == Decoded(Frame(true, opcode, false, payload), o + |payload|)
  {
    var n := |payload|;
    UnfoldDecodeAtStart(s, Some(n), o);
    ReadPlainPayload(s, s[0], s[1], n, o);
    ReadBlockSlice(s, o, n);
    OpcodeBits(opcode);
  }

  /**
   * Decoding a frame the server wrote gives back the opcode and the payload,
   * with FIN set and the mask bit clear, and consumes exactly its bytes, for
   * every length form.
   */
  lemma ServerRoundTrip(opcode: bv8, payload: seq<bv8>, rest: seq<bv8>)
    requires opcode < 16 && ValidPayload(payload)
    ensures var f := ServerEncodeFrame(opcode, payload);
            DecodeFrame(f + rest, 0) == Decoded(Frame(true, opcode, false, payload), |f|)
  {
    var lf := ServerLengthField(|payload|);
    var f := ServerEncodeFrame(opcode, payload);
    var s := f + rest;
    assert s == [0x80 | opcode] + lf + [] + payload + rest;
    LaidOutParts(0x80 | opcode, lf, [], payload, rest);
    ReadPlainLengthOf(s, lf, |payload|);
    DecodeFromPlainParts(s, opcode, 1 + |lf|, payload);
  }

  /** With fewer than two bytes left the reader reports end of stream. */
  lemma HeaderEof(s: seq<bv8>, pos: nat)
    requires |s| <= pos + 1
    ensures DecodeFrame(s, pos) == EndOfStream
  {
  }

  /**
   * A stream that ends inside the payload still yields a frame of the
   * declared length: the bytes that arrived, then zeros.
   */
  lemma TruncatedPayload(opcode: bv8, arrived: seq<bv8>, declared: nat)
    requires opcode < 16 && |arrived| <= declared < 126
    ensures DecodeFrame([opcode, declared as bv8] + arrived, 0)
            == Decoded(Frame(false, opcode, false, arrived + Zeros(declared - |arrived|)), 2 + |arrived|)
  {
    var s := [opcode, declared as bv8] + arrived;
    assert (s[1] & 0x7F) as nat == declared by {
      assert s[1] == declared as bv8;
      SmallByte(declared);
      LowBits(s[1]);
    }
    assert s[0] & 0x80 == 0 && s[0] & 0x0F == opcode by {
      assert s[0] == opcode;
    }
    ShortUnmasked(s);
    assert s[2..] == arrived;
    ZeroFilled(s, 2, arrived, declared);
  }

  function Zeros(n: nat): (r: seq<bv8>)
    ensures |r| == n
  {
    seq(n, _ => 0)
  }

  /** A block read that runs into end of stream is completed with zeros. */
  lemma ZeroFilled(s: seq<bv8>, pos: nat, arrived: seq<bv8>, n: nat)
    requires |arrived| <= n && pos + |arrived| == |s| && s[pos..] == arrived
    ensures ReadBlock(s, pos, n) == arrived + Zeros(n - |arrived|)
    ensures Advance(s, pos, n) == |s|
  {
    var raw := ReadBlock(s, pos, n);
    forall i | 0 <= i < n
      ensures raw[i] == (arrived + Zeros(n - |arrived|))[i]
    {
      if i < |arrived| {
        assert s[pos + i] == s[pos..][i];
      }
    }
  }

  /** An unmasked frame with a seven-bit length. */
  lemma ShortUnmasked(s: seq<bv8>)
    requires 2 <= |s| && s[1] < 126
    ensures var len := (s[1] & 0x7F) as nat;
            DecodeFrame(s, 0)
            == Decoded(Frame(s[0] & 0x80 != 0, s[0] & 0x0F, false, ReadBlock(s, 2, len)), Advance(s, 2, len))
  {
    LowBits(s[1]);
  }

  /** An 8-byte length whose low word has its top bit set makes the reader fail. */
  lemma HugeLengthFails(s: seq<bv8>)
    requires |s| >= 10 && s[1] & 0x7F == 127 && s[6] >= 128
    ensures DecodeFrame(s, 0) == Malformed
  {
  }
}
