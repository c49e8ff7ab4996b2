/**
 * The on-disk framing of one hinted-handoff record (cmd/kateway/hh/disk/block.go):
 *
 *   [key length: 4 bytes, big-endian][key][value length: 4 bytes, big-endian][value]
 *
 * The pure part (the frame layout, the big-endian uint32 and a reference decoder)
 * comes first; then the io.Writer / io.Reader the codec talks to, and the block
 * object whose methods write and read a frame step by step.
 */
module DiskBlock {
  import opened Base

  /** One byte of a segment file. */
  type Byte = b: int | 0 <= b < 0x100

  /** Go's uint32. */
  type Uint32 = n: int | 0 <= n < 0x1_0000_0000

  const Uint32Modulus: int := 0x1_0000_0000

  /** The error values the codec can return. */
  datatype Error =
    | EOF                                  // io.EOF: the reader had no byte left at all
    | UnexpectedEOF                        // io.ErrUnexpectedEOF: the reader ran dry part-way
    | BadRead(expected: nat, got: nat)     // readBytes: fewer bytes than requested without an error
    | WriterFailed                         // the writer's own error for a short write
    | ShortWrite(expected: nat, got: nat)  // writeBytes: the writer accepted fewer bytes and said nothing
    | SegmentCorrupt                       // ErrSegmentCorrupt: a declared length above maxBlockSize

  /** How io.ReadAtLeast fails when the reader holds only `avail` of the wanted bytes. */
  function ShortRead(avail: nat): Error
  {
    if avail == 0 then EOF else UnexpectedEOF
  }

  // ---------------------------------------------------------------------------
  // encoding/binary.BigEndian on a uint32

  /** binary.BigEndian.PutUint32: most significant byte first. */
  function PutUint32(v: Uint32): (bytes: seq<Byte>)
    ensures |bytes| == 4
  {
    [v / 0x100_0000, (v / 0x1_0000) % 0x100, (v / 0x100) % 0x100, v % 0x100]
  }

  /** binary.BigEndian.Uint32. */
  function Uint32Of(bytes: seq<Byte>): Uint32
    requires |bytes| == 4
  {
    var b0: int, b1: int, b2: int, b3: int := bytes[0], bytes[1], bytes[2], bytes[3];
    b0 * 0x100_0000 + b1 * 0x1_0000 + b2 * 0x100 + b3
  }

  /** Decoding the four bytes written for `v` gives `v` back. */
  lemma Uint32RoundTrip(v: Uint32)
    ensures Uint32Of(PutUint32(v)) == v
  {
    var h := v / 0x100;
    var g := h / 0x100;
    var e := g / 0x100;
    var b1, b2, b3 := g % 0x100, h % 0x100, v % 0x100;
    assert v == g * 0x1_0000 + (b2 * 0x100 + b3);
    DivMod16(g, b2 * 0x100 + b3);
    assert v == e * 0x100_0000 + (b1 * 0x1_0000 + b2 * 0x100 + b3);
    DivMod24(e, b1 * 0x1_0000 + b2 * 0x100 + b3);
  }

  /** Every four bytes are the encoding of the value they decode to. */
  lemma BytesRoundTrip(bytes: seq<Byte>)
    requires |bytes| == 4
    ensures PutUint32(Uint32Of(bytes)) == bytes
  {
    var b0: int, b1: int, b2: int, b3: int := bytes[0], bytes[1], bytes[2], bytes[3];
    var v := Uint32Of(bytes);
    var w2 := b0 * 0x100 + b1;
    var w1 := w2 * 0x100 + b2;
    assert v == w1 * 0x100 + b3;
    DivMod8(w1, b3);
    DivMod8(w2, b2);
    assert v == w2 * 0x1_0000 + (b2 * 0x100 + b3);
    DivMod16(w2, b2 * 0x100 + b3);
    DivMod8(b0, b1);
    assert v == b0 * 0x100_0000 + (b1 * 0x1_0000 + b2 * 0x100 + b3);
    DivMod24(b0, b1 * 0x1_0000 + b2 * 0x100 + b3);
  }

  lemma DivMod8(q: int, r: int)
    requires 0 <= r < 0x100
    ensures (q * 0x100 + r) / 0x100 == q && (q * 0x100 + r) % 0x100 == r
  {
  }

  lemma DivMod16(q: int, r: int)
    requires 0 <= r < 0x1_0000
    ensures (q * 0x1_0000 + r) / 0x1_0000 == q
  {
  }

  lemma DivMod24(q: int, r: int)
    requires 0 <= r < 0x100_0000
    ensures (q * 0x100_0000 + r) / 0x100_0000 == q
  {
  }

  // ---------------------------------------------------------------------------
  // The frame

  /** The 32-bit length field of a slice: Go's `uint32(len(s))` keeps the low 32 bits. */
  function LengthField(s: seq<Byte>): (n: Uint32)
    ensures |s| < Uint32Modulus ==> n == |s|
    ensures (n - |s|) % Uint32Modulus == 0
  {
    |s| % Uint32Modulus
  }

  /** The bytes writeTo emits for a (key, value) record when every write succeeds. */
  function Frame(key: seq<Byte>, value: seq<Byte>): seq<Byte>
  {
    PutUint32(LengthField(key)) + key + PutUint32(LengthField(value)) + value
  }

  /** The frame has the four fields in order, and its length is what size() reports. */
  lemma FrameLayout(key: seq<Byte>, value: seq<Byte>)
    ensures var f := Frame(key, value);
      |f| == |key| + |value| + 8
      && f[..4] == PutUint32(LengthField(key))
      && f[4..4 + |key|] == key
      && f[4 + |key|..8 + |key|] == PutUint32(LengthField(value))
      && f[8 + |key|..|f|] == value
  {
    var f := Frame(key, value);
    var a := PutUint32(LengthField(key));
    var c := PutUint32(LengthField(value));
    assert f == a + key + c + value;
    assert f[..4] == a;
    assert f[4..4 + |key|] == key;
    assert f[4 + |key|..8 + |key|] == c;
    assert f[8 + |key|..|f|] == value;
  }

  /**
   * The slice left in b.key or b.value after a read copies `data` into it: a slice
   * shorter than the data is replaced by a new one of exactly that length, a longer
   * one keeps its length and only its first |data| bytes are overwritten.
   */
  function Refill(slot: seq<Byte>, data: seq<Byte>): (r: seq<Byte>)
    ensures |r| == if |slot| < |data| then |data| else |slot|
    ensures r[..|data|] == data
    ensures |data| <= |slot| ==> r[|data|..] == slot[|data|..]
  {
    if |slot| < |data| then data else data + slot[|data|..]
  }

  /** A field the read copied (Some) or never reached (None). */
  function Apply(slot: seq<Byte>, copied: Option<seq<Byte>>): seq<Byte>
  {
    match copied
    case None => slot
    case Some(data) => Refill(slot, data)
  }

  /**
   * One length-prefixed field read from the head of `t`: the bytes copied (None when the
   * field is not reached in full), how many bytes are consumed, and the error.
   */
  datatype Field = Field(data: Option<seq<Byte>>, consumed: nat, err: Option<Error>)

  /** Reads a 4-byte big-endian length and then that many bytes, as readFrom does for each field. */
  function ReadField(t: seq<Byte>, maxBlockSize: nat): (fd: Field)
    ensures fd.consumed <= |t|
    ensures fd.err.None? <==> fd.data.Some?
    ensures fd.data.Some? ==>
              && fd.consumed == 4 + |fd.data.value| && fd.data.value == t[4..fd.consumed]
              && |fd.data.value| <= maxBlockSize && Uint32Of(t[..4]) == |fd.data.value|
  {
    if |t| < 4 then Field(None, |t|, Some(ShortRead(|t|)))
    else
      var n := Uint32Of(t[..4]);
      if n > maxBlockSize then Field(None, 4, Some(SegmentCorrupt))
      else if |t| - 4 < n then Field(None, |t|, Some(ShortRead(|t| - 4)))
      else Field(Some(t[4..4 + n]), 4 + n, None)
  }

  /**
   * What readFrom does to a reader holding the bytes `s`: the key and value it copies
   * (None for a field it does not reach), how many bytes it consumes, and its error.
   * A key is Some even when the declared key length is 0.
   */
  datatype Decoded = Decoded(key: Option<seq<Byte>>, value: Option<seq<Byte>>, consumed: nat, err: Option<Error>)

  /** Reference decoder of one frame at the head of `s`: the key field, then the value field. */
  function Decode(s: seq<Byte>, maxBlockSize: nat): (d: Decoded)
    ensures d.consumed <= |s|
    ensures d.err.None? <==> d.value.Some?
    ensures d.value.Some? ==> d.key.Some?
  {
    var k := ReadField(s, maxBlockSize);
    if k.err.Some? then Decoded(None, None, k.consumed, k.err)
    else
      var v := ReadField(s[k.consumed..], maxBlockSize);
      Decoded(k.data, v.data, k.consumed + v.consumed, v.err)
  }

  /** A length-prefixed field that fits maxBlockSize is read back exactly. */
  lemma ReadFieldBack(data: seq<Byte>, rest: seq<Byte>, maxBlockSize: nat)
    requires |data| <= maxBlockSize && maxBlockSize < Uint32Modulus
    ensures ReadField(PutUint32(|data|) + data + rest, maxBlockSize) == Field(Some(data), 4 + |data|, None)
  {
    var t := PutUint32(|data|) + data + rest;
    assert t[..4] == PutUint32(|data|);
    Uint32RoundTrip(|data|);
    assert t[4..4 + |data|] == data;
  }

  /**
   * Round trip: reading back a frame whose fields fit maxBlockSize returns exactly the
   * key and value that were written and consumes exactly the frame.
   */
  lemma DecodeFrame(key: seq<Byte>, value: seq<Byte>, rest: seq<Byte>, maxBlockSize: nat)
    requires |key| <= maxBlockSize && |value| <= maxBlockSize
    requires maxBlockSize < Uint32Modulus
    ensures Decode(Frame(key, value) + rest, maxBlockSize)
         == Decoded(Some(key), Some(value), |key| + |value| + 8, None)
  {
    var tail := PutUint32(|value|) + value + rest;
    var s := PutUint32(|key|) + key + tail;
    assert Frame(key, value) + rest == s;
    ReadFieldBack(key, tail, maxBlockSize);
    assert s[4 + |key|..] == tail;
    ReadFieldBack(value, rest, maxBlockSize);
  }

  /** A declared key length above maxBlockSize is corruption, found before any key byte is read. */
  lemma KeyLengthCorrupt(keyLen: Uint32, rest: seq<Byte>, maxBlockSize: nat)
    requires keyLen > maxBlockSize
    ensures Decode(PutUint32(keyLen) + rest, maxBlockSize) == Decoded(None, None, 4, Some(SegmentCorrupt))
  {
    var s := PutUint32(keyLen) + rest;
    assert s[..4] == PutUint32(keyLen);
    Uint32RoundTrip(keyLen);
  }

  /**
   * A declared value length above maxBlockSize is corruption too, found after the
   * key has been consumed (and copied into the block).
   */
  lemma ValueLengthCorrupt(key: seq<Byte>, valueLen: Uint32, rest: seq<Byte>, maxBlockSize: nat)
    requires |key| <= maxBlockSize && maxBlockSize < Uint32Modulus
    requires valueLen > maxBlockSize
    ensures Decode(PutUint32(|key|) + key + PutUint32(valueLen) + rest, maxBlockSize)
         == Decoded(Some(key), None, |key| + 8, Some(SegmentCorrupt))
  {
    var s := PutUint32(|key|) + key + PutUint32(valueLen) + rest;
    assert s[..4] == PutUint32(|key|);
    Uint32RoundTrip(|key|);
    assert s[4..4 + |key|] == key;
    assert s[4 + |key|..8 + |key|] == PutUint32(valueLen);
    Uint32RoundTrip(valueLen);
  }

  /** A frame cut short anywhere (a crash in the middle of writeTo) never decodes as a record. */
  lemma TruncatedFrame(key: seq<Byte>, value: seq<Byte>, n: nat, maxBlockSize: nat)
    requires |key| <= maxBlockSize && |value| <= maxBlockSize && maxBlockSize < Uint32Modulus
    requires n < |key| + |value| + 8
    ensures var d := Decode(Frame(key, value)[..n], maxBlockSize);
      d.err.Some? && d.err.value in {EOF, UnexpectedEOF} && d.value.None? && d.consumed == n
  {
    var f := Frame(key, value);
    FrameLayout(key, value);
    var s := f[..n];
    if n >= 4 {
      assert s[..4] == f[..4];
      Uint32RoundTrip(|key|);
      if n >= 8 + |key| {
        var p := 4 + |key|;
        assert s[p..p + 4] == f[p..p + 4];
        Uint32RoundTrip(|value|);
      }
    }
  }

  /** A key of length 0 leaves b.key as it was; a fresh (empty) slice takes the data as is. */
  lemma RefillFacts(slot: seq<Byte>, data: seq<Byte>)
    ensures Refill(slot, []) == slot
    ensures Refill([], data) == data
  {
    assert [] + slot[0..] == slot;
  }

  /**
   * The reuse hazard: a block whose value slice is longer than the next record's value
   * keeps stale trailing bytes. Reading the frame ([], [9]) into a block that holds the
   * value [1, 2, 3] leaves [9, 2, 3], not [9].
   */
  lemma StaleTrailingBytes()
    ensures var d := Decode(Frame([], [9]), 16);
      d.err.None? && d.value == Some([9]) && Apply([1, 2, 3], d.value) == [9, 2, 3]
  {
    DecodeFrame([], [9], [], 16);
    assert Frame([], [9]) + [] == Frame([], [9]);
  }

  /** After the first k bytes of frame f were offered to a writer that had room0 bytes of room. */
  ghost predicate Progress(w0: seq<Byte>, room0: nat, f: seq<Byte>, k: nat, written: seq<Byte>, room: int)
    requires k <= |f|
  {
    written == w0 + f[..Min(k, room0)] && room == room0 - Min(k, room0)
  }

  /** Offering the next piece f[k..k2] of the frame, when everything before it fitted. */
  lemma Advance(w0: seq<Byte>, room0: nat, f: seq<Byte>, k: nat, k2: nat, piece: seq<Byte>,
                before: seq<Byte>, roomBefore: nat, after: seq<Byte>, roomAfter: int)
    requires k <= k2 <= |f| && k <= room0 && piece == f[k..k2]
    requires Progress(w0, room0, f, k, before, roomBefore)
    requires after == before + piece[..Min(|piece|, roomBefore)] && roomAfter == roomBefore - Min(|piece|, roomBefore)
    ensures Progress(w0, room0, f, k2, after, roomAfter)
    ensures |piece| <= roomBefore <==> k2 <= room0
  {
    var m := Min(|piece|, roomBefore);
    assert f[..k] + piece[..m] == f[..k + m];
  }

  /** A write that stops at a field ending at k, for want of room, has written all of the frame that fitted. */
  lemma StoppedAt(w0: seq<Byte>, room0: nat, f: seq<Byte>, k: nat, written: seq<Byte>, room: int)
    requires k <= |f| && room0 < k && Progress(w0, room0, f, k, written, room)
    ensures Progress(w0, room0, f, |f|, written, room)
  {
  }

  /** A buffer whose first |data| bytes were overwritten with `data` and the rest kept is Refill(before, data). */
  lemma Overwritten(after: seq<Byte>, before: seq<Byte>, data: seq<Byte>)
    requires |after| == |before| && |data| <= |before|
    requires after[..|data|] == data && after[|data|..] == before[|data|..]
    ensures after == Refill(before, data)
  {
    assert after == after[..|data|] + after[|data|..];
  }

  // ---------------------------------------------------------------------------
  // The io.Writer and io.Reader the codec works against

  /**
   * An io.Writer backed by a device that can take `room` more bytes. A write that does
   * not fit stores what fits; `reportsShortWrites` says whether the writer then returns
   * an error, as the io.Writer contract asks, or (misbehaving) only the short count.
   */
  class Writer {
    var written: seq<Byte>
    var room: nat
    const reportsShortWrites: bool

    constructor (room: nat, reportsShortWrites: bool)
      ensures written == [] && this.room == room && this.reportsShortWrites == reportsShortWrites
    {
      written := [];
      this.room := room;
      this.reportsShortWrites := reportsShortWrites;
    }

    /** w.Write(p): returns how many bytes were stored and the writer's error. */
    method Write(p: seq<Byte>) returns (n: nat, err: Option<Error>)
      modifies this
      ensures n == Min(|p|, old(room))
      ensures written == old(written) + p[..n] && room == old(room) - n
      ensures err == if n < |p| && reportsShortWrites then Some(WriterFailed) else None
    {
      n := Min(|p|, room);
      written := written + p[..n];
      room := room - n;
      err := if n < |p| && reportsShortWrites then Some(WriterFailed) else None;
    }
  }

  /** An io.Reader over the bytes of a segment file not read yet. */
  class Reader {
    var rest: seq<Byte>

    constructor (bytes: seq<Byte>)
      ensures rest == bytes
    {
      rest := bytes;
    }

    /**
     * io.ReadAtLeast(r, dst[:n], n): fills dst[..n] when n bytes are left; otherwise
     * stores and consumes what is left and fails with EOF or UnexpectedEOF.
     */
    method ReadAtLeast(dst: array<Byte>, n: nat) returns (got: nat, err: Option<Error>)
      requires n <= dst.Length
      modifies this, dst
      ensures got == Min(n, |old(rest)|)
      ensures rest == old(rest)[got..]
      ensures dst[..got] == old(rest)[..got] && dst[got..] == old(dst[got..])
      ensures err == if n <= |old(rest)| then None else Some(ShortRead(|old(rest)|))
    {
      got := Min(n, |rest|);
      forall i | 0 <= i < got {
        dst[i] := rest[i];
      }
      assert dst[..got] == rest[..got];
      err := if n <= |rest| then None else Some(ShortRead(|rest|));
      rest := rest[got..];
    }
  }

  /** writeBytes: fails when the writer reports an error or stores fewer bytes than given. */
  method WriteBytes(w: Writer, p: seq<Byte>) returns (err: Option<Error>)
    modifies w
    ensures var n := Min(|p|, old(w.room));
      w.written == old(w.written) + p[..n] && w.room == old(w.room) - n
    ensures err.None? <==> |p| <= old(w.room)
    ensures err.Some? ==> err == if w.reportsShortWrites then Some(WriterFailed) else Some(ShortWrite(|p|, old(w.room)))
  {
    var n, e := w.Write(p);
    if e.Some? {
      err := e;
    } else if n != |p| {
      err := Some(ShortWrite(|p|, n));
    } else {
      err := None;
    }
  }

  /** readBytes: fails unless exactly n bytes are read into dst[..n]. */
  method ReadBytes(r: Reader, dst: array<Byte>, n: nat) returns (err: Option<Error>)
    requires n <= dst.Length
    modifies r, dst
    ensures var got := Min(n, |old(r.rest)|);
      r.rest == old(r.rest)[got..] && dst[..got] == old(r.rest)[..got] && dst[got..] == old(dst[got..])
    ensures err == if n <= |old(r.rest)| then None else Some(ShortRead(|old(r.rest)|))
  {
    var got, e := r.ReadAtLeast(dst, n);
    if e.Some? {
      err := e;
    } else if got != n {
      err := Some(BadRead(n, got));
    } else {
      err := None;
    }
  }

  // ---------------------------------------------------------------------------
  // The block

  /** One (key, value) record, with the two 4-byte scratch buffers it reads and writes lengths through. */
  class Block {
    var key: seq<Byte>
    var value: seq<Byte>
    const rbuf: array<Byte>
    const wbuf: array<Byte>

    ghost predicate Valid()
      reads this
    {
      rbuf.Length == 4 && wbuf.Length == 4 && rbuf != wbuf
    }

    constructor ()
      ensures Valid() && key == [] && value == [] && fresh(rbuf) && fresh(wbuf)
    {
      key, value := [], [];
      rbuf := new Byte[4](_ => 0);
      wbuf := new Byte[4](_ => 0);
    }

    /** size(): the number of bytes writeTo emits for this block. */
    function Size(): (n: int)
      reads this
      ensures n == |Frame(key, value)|
    {
      FrameLayout(key, value);
      |key| + |value| + 8
    }

    /** keyLen(): the key length as a uint32. */
    function KeyLen(): (n: Uint32)
      reads this
      ensures n == LengthField(key)
      ensures |key| < Uint32Modulus ==> n == |key|
    {
      |key| % Uint32Modulus
    }

    /** valueLen(): the value length as a uint32. */
    function ValueLen(): (n: Uint32)
      reads this
      ensures n == LengthField(value)
      ensures |value| < Uint32Modulus ==> n == |value|
    {
      |value| % Uint32Modulus
    }

    /** writeUint32: puts `v` big-endian into wbuf and writes wbuf. */
    method WriteUint32(w: Writer, v: Uint32) returns (err: Option<Error>)
      requires Valid()
      modifies wbuf, w
      ensures wbuf[..] == PutUint32(v)
      ensures var n := Min(4, old(w.room));
        w.written == old(w.written) + PutUint32(v)[..n] && w.room == old(w.room) - n
      ensures err.None? <==> 4 <= old(w.room)
      ensures err.Some? ==> err == if w.reportsShortWrites then Some(WriterFailed) else Some(ShortWrite(4, old(w.room)))
    {
      var bytes := PutUint32(v);
      wbuf[0], wbuf[1], wbuf[2], wbuf[3] := bytes[0], bytes[1], bytes[2], bytes[3];
      assert wbuf[..] == bytes;
      err := WriteBytes(w, wbuf[..]);
    }

    /**
     * writeTo: writes the frame field by field and stops at the first failing write, so
     * the writer holds the frame when it had room for it and otherwise exactly the
     * prefix of the frame that fitted.
     */
    method WriteTo(w: Writer) returns (err: Option<Error>)
      requires Valid()
      modifies wbuf, w
      ensures var f := Frame(key, value); var n := Min(|f|, old(w.room));
        w.written == old(w.written) + f[..n] && w.room == old(w.room) - n
      ensures err.None? <==> |Frame(key, value)| <= old(w.room)
      ensures err.Some? && w.reportsShortWrites ==> err == Some(WriterFailed)
      ensures err.Some? && !w.reportsShortWrites ==> err.value.ShortWrite? && err.value.got < err.value.expected
      ensures wbuf[..] == PutUint32(if 4 + |key| <= old(w.room) then ValueLen() else KeyLen())
    {
      ghost var f := Frame(key, value);
      ghost var w0, room0 := w.written, w.room;
      FrameLayout(key, value);
      assert Progress(w0, room0, f, 0, w0, room0) by { assert w0 + f[..0] == w0; }
      ghost var before, roomBefore := w.written, w.room;
      err := WriteUint32(w, KeyLen());
      Advance(w0, room0, f, 0, 4, PutUint32(KeyLen()), before, roomBefore, w.written, w.room);
      if err.Some? {
        StoppedAt(w0, room0, f, 4, w.written, w.room);
        return;
      }
      // a failure from here on leaves a partial frame behind
      before, roomBefore := w.written, w.room;
      err := WriteBytes(w, key);
      Advance(w0, room0, f, 4, 4 + |key|, key, before, roomBefore, w.written, w.room);
      if err.Some? {
        StoppedAt(w0, room0, f, 4 + |key|, w.written, w.room);
        return;
      }
      before, roomBefore := w.written, w.room;
      err := WriteUint32(w, ValueLen());
      Advance(w0, room0, f, 4 + |key|, 8 + |key|, PutUint32(ValueLen()), before, roomBefore, w.written, w.room);
      if err.Some? {
        StoppedAt(w0, room0, f, 8 + |key|, w.written, w.room);
        return;
      }
      before, roomBefore := w.written, w.room;
      err := WriteBytes(w, value);
      Advance(w0, room0, f, 8 + |key|, |f|, value, before, roomBefore, w.written, w.room);
    }

    /** readUint32: reads four bytes into rbuf and decodes them. */
    method ReadUint32(r: Reader) returns (v: Uint32, err: Option<Error>)
      requires Valid()
      modifies rbuf, r
      ensures var got := Min(4, |old(r.rest)|);
        r.rest == old(r.rest)[got..] && rbuf[..got] == old(r.rest)[..got] && rbuf[got..] == old(rbuf[got..])
      ensures err == if 4 <= |old(r.rest)| then None else Some(ShortRead(|old(r.rest)|))
      ensures v == if err.None? then Uint32Of(old(r.rest)[..4]) else 0
    {
      err := ReadBytes(r, rbuf, 4);
      if err.Some? {
        return 0, err;
      }
      assert rbuf[..] == rbuf[..4];
      v := Uint32Of(rbuf[..]);
    }

    /**
     * The key half of readFrom: the key length, the corruption check, and (for a
     * non-empty key) the key bytes read into `buf` and copied into the reused b.key.
     */
    method ReadKey(r: Reader, buf: array<Byte>, maxBlockSize: nat) returns (keyLen: Uint32, err: Option<Error>)
      requires Valid() && buf != rbuf
      requires maxBlockSize <= buf.Length
      modifies this`key, rbuf, buf, r
      ensures var fd := ReadField(old(r.rest), maxBlockSize);
        err == fd.err
        && r.rest == old(r.rest)[fd.consumed..]
        && key == Apply(old(key), fd.data)
        && (err.None? ==> keyLen == |fd.data.value| && buf[..] == Apply(old(buf[..]), fd.data))
    {
      ghost var s := r.rest;
      ghost var buf0 := buf[..];
      keyLen, err := ReadUint32(r);
      if err.Some? {
        return;
      }
      if keyLen > maxBlockSize {
        return keyLen, Some(SegmentCorrupt);
      }
      if keyLen > 0 {
        err := ReadBytes(r, buf, keyLen);
        if err.Some? {
          return;
        }
        var k := key;
        if |k| < keyLen {
          k := seq(keyLen, _ => 0);
        }
        k := buf[..keyLen] + k[keyLen..];
        assert k == Refill(key, s[4..4 + keyLen]);
        key := k;
        Overwritten(buf[..], buf0, s[4..4 + keyLen]);
      } else {
        RefillFacts(buf0, []);
        RefillFacts(key, []);
      }
    }

    /**
     * The value half of readFrom: the value length, the corruption check, the value
     * bytes read into `buf` and copied into the reused b.value.
     */
    method ReadValue(r: Reader, buf: array<Byte>, maxBlockSize: nat) returns (valueLen: Uint32, err: Option<Error>)
      requires Valid() && buf != rbuf
      requires maxBlockSize <= buf.Length
      modifies this`value, rbuf, buf, r
      ensures var fd := ReadField(old(r.rest), maxBlockSize);
        err == fd.err
        && r.rest == old(r.rest)[fd.consumed..]
        && value == Apply(old(value), fd.data)
        && (err.None? ==> valueLen == |fd.data.value| && buf[..] == Apply(old(buf[..]), fd.data))
    {
      ghost var s := r.rest;
      ghost var buf0 := buf[..];
      valueLen, err := ReadUint32(r);
      if err.Some? {
        return;
      }
      if valueLen > maxBlockSize {
        return valueLen, Some(SegmentCorrupt);
      }
      err := ReadBytes(r, buf, valueLen);
      if err.Some? {
        return;
      }
      var v := value;
      if |v| < valueLen {
        v := seq(valueLen, _ => 0);
      }
      v := buf[..valueLen] + v[valueLen..];
      assert v == Refill(value, s[4..4 + valueLen]);
      value := v;
      Overwritten(buf[..], buf0, s[4..4 + valueLen]);
    }

    /**
     * readFrom, as written: reads one frame from `r` through the caller's scratch `buf`
     * and copies the key and the value into the block's slices, reusing a slice long
     * enough for the data and never shortening it. The outcome is the reference
     * decoder's; the block's slices follow Refill.
     */
    method ReadFrom(r: Reader, buf: array<Byte>, maxBlockSize: nat) returns (err: Option<Error>)
      requires Valid() && buf != rbuf
      requires maxBlockSize <= buf.Length
      modifies this, rbuf, buf, r
      ensures var d := Decode(old(r.rest), maxBlockSize);
        err == d.err
        && r.rest == old(r.rest)[d.consumed..]
        && key == Apply(old(key), d.key)
        && value == Apply(old(value), d.value)
      ensures err.None? ==> var d := Decode(old(r.rest), maxBlockSize);
        buf[..] == Apply(Apply(old(buf[..]), d.key), d.value)
    {
      ghost var s := r.rest;
      var keyLen, valueLen;
      keyLen, err := ReadKey(r, buf, maxBlockSize);
      if err.Some? {
        return;
      }
      ghost var kf := ReadField(s, maxBlockSize);
      valueLen, err := ReadValue(r, buf, maxBlockSize);
      assert s[kf.consumed..][ReadField(s[kf.consumed..], maxBlockSize).consumed..]
          == s[Decode(s, maxBlockSize).consumed..];
    }

    /**
     * readFrom with the slices cut to the declared lengths (`b.key = b.key[:keyLen]`,
     * likewise for the value): the block then holds exactly the record read.
     */
    method ReadFromExact(r: Reader, buf: array<Byte>, maxBlockSize: nat) returns (err: Option<Error>)
      requires Valid() && buf != rbuf
      requires maxBlockSize <= buf.Length
      modifies this, rbuf, buf, r
      ensures var d := Decode(old(r.rest), maxBlockSize);
        err == d.err
        && r.rest == old(r.rest)[d.consumed..]
        && key == (if d.key.Some? then d.key.value else old(key))
        && value == (if d.value.Some? then d.value.value else old(value))
    {
      ghost var s := r.rest;
      var keyLen, valueLen;
      keyLen, err := ReadKey(r, buf, maxBlockSize);
      if err.Some? {
        return;
      }
      key := key[..keyLen];
      ghost var kf := ReadField(s, maxBlockSize);
      valueLen, err := ReadValue(r, buf, maxBlockSize);
      assert s[kf.consumed..][ReadField(s[kf.consumed..], maxBlockSize).consumed..]
          == s[Decode(s, maxBlockSize).consumed..];
      if err.Some? {
        return;
      }
      value := value[..valueLen];
    }
  }

  /**
   * Write-then-read through readFrom as written, into a block whose slices are still
   * empty (the zero `block` the pump starts with): it ends up with exactly the record
   * the writing block held.
   */
  method WriteThenReadFresh(src: Block, dst: Block, w: Writer, buf: array<Byte>, maxBlockSize: nat)
    returns (ok: bool)
    requires src.Valid() && dst.Valid() && src != dst && buf != dst.rbuf && buf != src.wbuf
    requires maxBlockSize <= buf.Length && maxBlockSize < Uint32Modulus
    requires |src.key| <= maxBlockSize && |src.value| <= maxBlockSize
    requires dst.key == [] && dst.value == []
    requires w.written == [] && |Frame(src.key, src.value)| <= w.room
    modifies src.wbuf, w, dst, dst.rbuf, buf
    ensures ok && dst.key == src.key && dst.value == src.value
  {
    ghost var k, v := src.key, src.value;
    var err := src.WriteTo(w);
    assert w.written == Frame(k, v);
    var r := new Reader(w.written);
    DecodeFrame(k, v, [], maxBlockSize);
    assert Frame(k, v) + [] == Frame(k, v);
    assert Decode(Frame(k, v), maxBlockSize).key == Some(k);
    assert Decode(Frame(k, v), maxBlockSize).value == Some(v);
    RefillFacts([], k);
    RefillFacts([], v);
    err := dst.ReadFrom(r, buf, maxBlockSize);
    ok := err.None?;
  }

  /**
   * Write-then-read through the corrected reader: whatever the reading block held
   * before, it ends up with exactly the record the writing block held.
   */
  method WriteThenRead(src: Block, dst: Block, w: Writer, buf: array<Byte>, maxBlockSize: nat)
    returns (ok: bool)
    requires src.Valid() && dst.Valid() && src != dst && buf != dst.rbuf && buf != src.wbuf
    requires maxBlockSize <= buf.Length && maxBlockSize < Uint32Modulus
    requires |src.key| <= maxBlockSize && |src.value| <= maxBlockSize
    requires w.written == [] && |Frame(src.key, src.value)| <= w.room
    modifies src.wbuf, w, dst, dst.rbuf, buf
    ensures ok && dst.key == src.key && dst.value == src.value
  {
    var err := src.WriteTo(w);
    assert w.written == Frame(src.key, src.value);
    var r := new Reader(w.written);
    DecodeFrame(src.key, src.value, [], maxBlockSize);
    assert Frame(src.key, src.value) + [] == Frame(src.key, src.value);
    err := dst.ReadFromExact(r, buf, maxBlockSize);
    ok := err.None?;
  }
}
