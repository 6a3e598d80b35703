/** Uncompressed ALAC frames: the bit packer, and the receiver's reader. */
module Alac {
  import opened Wire
  import opened Bits
  import opened Arith

  type BitSeq = seq<nat>    // zeros and ones, first transmitted first

  // The low `width` bits of v, most significant first.
  function Field(v: nat, width: nat): (r: BitSeq)
    ensures |r| == width
  {
    if width == 0 then [] else Field(v / 2, width - 1) + [v % 2]
  }

  function Zeros(n: nat): BitSeq { seq(n, _ => 0) }

  // Bits of whole bytes.
  function Unpack(b: Bytes): (r: BitSeq)
    ensures |r| == 8 * |b|
  {
    if b == [] then [] else Unpack(b[..|b| - 1]) + Field(b[|b| - 1], 8)
  }

  function Unsigned(s: Sample): nat { if s >= 0 then s else s + 0x1_0000 }
  function Signed(v: nat): int { if v < 0x8000 then v else v - 0x1_0000 }

  // ---- The frame ----

  const HEADER: BitSeq := Field(1, 3) + Field(0, 4) + Field(0, 12) + Field(0, 1) + Field(0, 2) + Field(1, 1)

  function SampleBits(samples: seq<Sample>): (r: BitSeq)
    ensures |r| == 16 * |samples|
  {
    if samples == [] then [] else SampleBits(samples[..|samples| - 1]) + Field(Unsigned(samples[|samples| - 1]), 16)
  }

  function FrameBits(samples: seq<Sample>): BitSeq { HEADER + SampleBits(samples) + Field(7, 3) }

  // ---- The reader ----

  // The bit a reader sees at position i of a byte string.
  function BitAt(frame: Bytes, i: nat): nat
    requires i / 8 < |frame|
  {
    Shift(frame[i / 8], 7 - i % 8) % 2
  }

  // n bits from `at` on, as a number; None past the end of the frame.
  function Get(frame: Bytes, at: nat, n: nat): Option<nat>
  {
    if n == 0 then Some(0)
    else
      match Get(frame, at, n - 1)
      case None => None
      case Some(v) => if (at + n - 1) / 8 >= |frame| then None else Some(2 * v + BitAt(frame, at + n - 1))
  }

  // Samples read from bit `at` on.
  function GetSamples(frame: Bytes, at: nat, count: nat): Option<seq<int>>
  {
    if count == 0 then Some([])
    else
      match GetSamples(frame, at, count - 1)
      case None => None
      case Some(before) =>
        match Get(frame, at + 16 * (count - 1), 16)
        case None => None
        case Some(v) => Some(before + [Signed(v)])
  }

  predicate HeaderOk(frame: Bytes)
  {
    Get(frame, 0, 3) == Some(1) && Get(frame, 3, 4) == Some(0) && Get(frame, 7, 12) == Some(0)
    && Get(frame, 19, 1) == Some(0) && Get(frame, 20, 2) == Some(0) && Get(frame, 22, 1) == Some(1)
  }

  function DecodeFrame(frame: Bytes, nFrames: nat): Option<seq<int>>
  {
    if !HeaderOk(frame) then None
    else
      match GetSamples(frame, 23, 2 * nFrames)
      case None => None
      case Some(pcm) => if Get(frame, 23 + 32 * nFrames, 3) == Some(7) then Some(pcm) else None
  }

  // ---- Reading what was packed ----

  lemma {:induction false} FieldBit(v: nat, width: nat, i: nat)
    requires i < width
    ensures Field(v, width)[i] == Shift(v, width - 1 - i) % 2
  {
    if i < width - 1 {
      FieldBit(v / 2, width - 1, i);
    }
  }

  lemma {:induction false} BitOfUnpacked(frame: Bytes, i: nat)
    requires i < 8 * |frame|
    ensures Unpack(frame)[i] == BitAt(frame, i)
    decreases |frame|
  {
    hide Field, Shift;
    var n := |frame| - 1;
    if i < 8 * n {
      BitOfUnpacked(frame[..n], i);
    } else {
      FieldBit(frame[n], 8, i - 8 * n);
    }
  }

  // A field standing in the bits of a frame.
  ghost predicate FieldAt(frame: Bytes, at: nat, v: nat, width: nat)
  {
    at + width <= 8 * |frame| && Unpack(frame)[at..at + width] == Field(v, width)
  }

  lemma {:induction false} GetReads(frame: Bytes, at: nat, v: nat, width: nat, n: nat)
    requires FieldAt(frame, at, v, width) && n <= width && v < Pow2(width)
    ensures Get(frame, at, n) == Some(Shift(v, width - n))
    decreases n
  {
    hide Unpack, Field, Shift, BitAt;
    if n == 0 {
      ShiftsAway(v, width);
    } else {
      GetReads(frame, at, v, width, n - 1);
      BitOfUnpacked(frame, at + n - 1);
      FieldBit(v, width, n - 1);
      assert Unpack(frame)[at..at + width][n - 1] == Unpack(frame)[at + n - 1];
      ShiftOnce(v, width - n);
    }
  }

  lemma ShiftsAway(v: nat, width: nat)
    requires v < Pow2(width)
    ensures Shift(v, width) == 0
  {
    ShiftVanishes(v, width, width);
  }

  lemma {:induction false} ShiftOnce(v: nat, k: nat)
    ensures Shift(v, k) == 2 * Shift(v, k + 1) + Shift(v, k) % 2
  {
    if k > 0 {
      ShiftOnce(v / 2, k - 1);
    }
  }

  lemma GetField(frame: Bytes, at: nat, v: nat, width: nat)
    requires FieldAt(frame, at, v, width) && v < Pow2(width)
    ensures Get(frame, at, width) == Some(v)
  {
    GetReads(frame, at, v, width, width);
  }

  lemma {:induction false} SamplesRead(frame: Bytes, at: nat, samples: seq<Sample>)
    requires at + 16 * |samples| <= 8 * |frame| && Unpack(frame)[at..at + 16 * |samples|] == SampleBits(samples)
    ensures GetSamples(frame, at, |samples|) == Some(samples)
    decreases |samples|
  {
    hide Unpack, Field, Get, Signed, Unsigned, Pow2, FieldAt;
    if samples != [] {
      var n := |samples| - 1;
      LastField(frame, at, samples);
      SamplesRead(frame, at, samples[..n]);
      LastSample(frame, at + 16 * n, samples[n]);
      assert samples == samples[..n] + [samples[n]];
    }
  }

  // The bits of the samples before the last, and the field of the last.
  lemma {:induction false} LastField(frame: Bytes, at: nat, samples: seq<Sample>)
    requires samples != []
    requires at + 16 * |samples| <= 8 * |frame| && Unpack(frame)[at..at + 16 * |samples|] == SampleBits(samples)
    ensures var n := |samples| - 1;
      && Unpack(frame)[at..at + 16 * n] == SampleBits(samples[..n])
      && FieldAt(frame, at + 16 * n, Unsigned(samples[n]), 16)
  {
    hide Unpack, Field, Unsigned, SampleBits;
    var n := |samples| - 1;
    MoreSampleBits(samples);
    SlicesOfSum(Unpack(frame), at, SampleBits(samples[..n]), Field(Unsigned(samples[n]), 16));
  }

  lemma {:induction false} MoreSampleBits(samples: seq<Sample>)
    requires samples != []
    ensures var n := |samples| - 1; SampleBits(samples) == SampleBits(samples[..n]) + Field(Unsigned(samples[n]), 16)
  {
    hide Field, Unsigned;
  }

  lemma LastSample(frame: Bytes, at: nat, s: Sample)
    requires FieldAt(frame, at, Unsigned(s), 16)
    ensures Get(frame, at, 16) == Some(Unsigned(s)) && Signed(Unsigned(s)) == s
  {
    hide FieldAt, Get;
    SampleFits(s);
    GetField(frame, at, Unsigned(s), 16);
  }

  lemma SlicesOfSum(u: BitSeq, at: nat, a: BitSeq, b: BitSeq)
    requires at + |a| + |b| <= |u| && u[at..at + |a| + |b|] == a + b
    ensures u[at..at + |a|] == a && u[at + |a|..at + |a| + |b|] == b
  {
    var c := u[at..at + |a| + |b|];
    assert c[..|a|] == a && c[|a|..] == b;
  }

  lemma SampleFits(s: Sample)
    ensures Unsigned(s) < Pow2(16) && Signed(Unsigned(s)) == s
  {
    Pow2Of16();
  }

  lemma Pow2Of16()
    ensures Pow2(16) == 0x1_0000
  {
    assert Pow2(8) == 256;
  }

  // The bits that begin the frame, field by field.
  lemma HeaderReads(frame: Bytes)
    requires 8 * |frame| >= 23 && Unpack(frame)[..23] == HEADER
    ensures HeaderOk(frame)
  {
    hide Unpack, Field, Get;
    var u := Unpack(frame);
    assert u[0..3] == u[..23][0..3] && u[3..7] == u[..23][3..7] && u[7..19] == u[..23][7..19];
    assert u[19..20] == u[..23][19..20] && u[20..22] == u[..23][20..22] && u[22..23] == u[..23][22..23];
    GetField(frame, 0, 1, 3);
    GetField(frame, 3, 0, 4);
    GetField(frame, 7, 0, 12);
    GetField(frame, 19, 0, 1);
    GetField(frame, 20, 0, 2);
    GetField(frame, 22, 1, 1);
  }

  /** A byte string whose bits are the frame's, then padding, reads back to the same samples. */
  lemma FrameReads(frame: Bytes, samples: seq<Sample>, n: nat, pad: nat)
    requires |samples| == 2 * n && Unpack(frame) == FrameBits(samples) + Zeros(pad)
    ensures DecodeFrame(frame, n) == Some(samples)
  {
    hide Unpack, Field, Get, HEADER, SampleBits, GetSamples, HeaderOk;
    var u := Unpack(frame);
    HeaderLength();
    assert u[..23] == HEADER;
    assert u[23..23 + 32 * n] == SampleBits(samples);
    assert u[23 + 32 * n..23 + 32 * n + 3] == Field(7, 3);
    HeaderReads(frame);
    SamplesRead(frame, 23, samples);
    EndTag(frame, 23 + 32 * n);
  }

  lemma HeaderLength()
    ensures |HEADER| == 23
  {
  }

  lemma EndTag(frame: Bytes, at: nat)
    requires FieldAt(frame, at, 7, 3)
    ensures Get(frame, at, 3) == Some(7)
  {
    hide FieldAt;
    GetField(frame, at, 7, 3);
  }

  // ---- The packer ----

  // Whole bytes written, and the bits waiting in the current one.
  datatype Packer = Packer(out: Bytes, cur: Byte, filled: nat)

  ghost predicate PackerOk(p: Packer) { p.filled < 8 && p.cur < Pow2(p.filled) }

  function Written(p: Packer): BitSeq { Unpack(p.out) + Field(p.cur, p.filled) }

  lemma OneMoreBit(p: Packer, bit: nat)
    requires PackerOk(p) && bit < 2
    ensures 2 * p.cur + bit < Pow2(p.filled + 1) <= 256
    ensures Field(2 * p.cur + bit, p.filled + 1) == Field(p.cur, p.filled) + [bit]
  {
    hide Field;
    Pow2Orders(p.filled + 1, 8);
    Pow2Eight();
    FieldGrows(p.cur, p.filled, bit);
  }

  lemma FieldGrows(v: nat, width: nat, bit: nat)
    requires bit < 2
    ensures Field(2 * v + bit, width + 1) == Field(v, width) + [bit]
  {
    assert (2 * v + bit) / 2 == v;
  }

  lemma {:induction false} FieldSplit(v: nat, width: nat, k: nat)
    requires k < width
    ensures Field(v, width)[..k] + [Shift(v, width - 1 - k) % 2] == Field(v, width)[..k + 1]
  {
    FieldBit(v, width, k);
  }

  // Appends the low `bits` bits of a value.
  method Put(p: Packer, value: nat, bits: nat) returns (q: Packer)
    requires PackerOk(p)
    ensures PackerOk(q) && Written(q) == Written(p) + Field(value, bits)
  {
    hide Unpack, Field, Shift, Pow2;
    var out: Bytes, cur: Byte, filled: nat := p.out, p.cur, p.filled;
    var i: int := bits - 1;
    assert Field(value, bits)[..0] == [];
    while i >= 0
      invariant -1 <= i < bits && PackerOk(Packer(out, cur, filled))
      invariant Written(Packer(out, cur, filled)) == Written(p) + Field(value, bits)[..bits - 1 - i]
    {
      var bit := Shift(value, i) % 2;
      FieldSplit(value, bits, bits - 1 - i);
      OneMoreBit(Packer(out, cur, filled), bit);
      ghost var before := Written(Packer(out, cur, filled));
      cur := 2 * cur + bit;
      filled := filled + 1;
      assert Unpack(out) + Field(cur, filled) == before + [bit];
      if filled == 8 {
        ByteDone(out, cur);
        out := out + [cur];
        cur, filled := 0, 0;
      }
      i := i - 1;
    }
    q := Packer(out, cur, filled);
  }

  lemma ByteDone(out: Bytes, cur: Byte)
    ensures Unpack(out + [cur]) + Field(0, 0) == Unpack(out) + Field(cur, 8) && 0 < Pow2(0)
  {
    assert (out + [cur])[..|out|] == out;
  }

  lemma {:induction false} PaddedField(v: nat, width: nat, k: nat)
    ensures Field(v * Pow2(k), width + k) == Field(v, width) + Zeros(k)
  {
    if k == 0 {
      assert Field(v, width) + Zeros(0) == Field(v, width);
    } else {
      PaddedField(v, width, k - 1);
      assert v * Pow2(k) == 2 * (v * Pow2(k - 1));
      assert Zeros(k) == Zeros(k - 1) + [0];
    }
  }

  // Fills the last byte with zeros.
  lemma LastByte(p: Packer)
    requires PackerOk(p) && p.filled > 0
    ensures p.cur * Pow2(8 - p.filled) < 256
    ensures Unpack(p.out + [p.cur * Pow2(8 - p.filled)]) == Written(p) + Zeros(8 - p.filled)
  {
    hide Field, Zeros, Unpack;
    var k := 8 - p.filled;
    Pow2Adds(p.filled, k);
    Pow2Eight();
    ProductGrows(Pow2(k), p.cur, Pow2(p.filled));
    ShiftedFits(p.cur, Pow2(p.filled), Pow2(k));
    PaddedField(p.cur, p.filled, k);
    UnpackMore(p.out, p.cur * Pow2(k));
    assert Unpack(p.out) + (Field(p.cur, p.filled) + Zeros(k)) == Unpack(p.out) + Field(p.cur, p.filled) + Zeros(k);
  }

  lemma UnpackMore(out: Bytes, b: Byte)
    ensures Unpack(out + [b]) == Unpack(out) + Field(b, 8)
  {
    hide Field;
    assert (out + [b])[..|out|] == out;
  }

  lemma Pow2Eight()
    ensures Pow2(8) == 256
  {
  }

  lemma ShiftedFits(c: nat, p: nat, q: nat)
    requires q * c + q <= q * p && p * q == 256 && q > 0
    ensures c * q < 256
  {
  }

  method EncodeAlacFrame(frames: seq<Sample>, nFrames: nat) returns (out: Bytes)
    requires |frames| == 2 * nFrames
    ensures |out| == 4 * nFrames + 4
    ensures Unpack(out) == FrameBits(frames) + Zeros(6)
    ensures DecodeFrame(out, nFrames) == Some(frames)
  {
    hide Unpack, Field, SampleBits, Zeros, DecodeFrame;
    var p := PutHeader();
    var i := 0;
    SampleStart();
    assert frames[..0] == [];
    while i < nFrames * 2
      invariant i <= 2 * nFrames && PackerOk(p) && Written(p) == HEADER + SampleBits(frames[..i])
    {
      SampleMore(frames, i);
      p := Put(p, Unsigned(frames[i]), 16);
      i := i + 1;
    }
    assert frames[..i] == frames;
    p := Put(p, 7, 3);
    TwoBitsLeft(p, frames, nFrames);
    LastByte(p);
    out := p.out + [p.cur * Pow2(8 - p.filled)];
    FrameReads(out, frames, nFrames, 6);
  }

  method PutHeader() returns (p: Packer)
    ensures PackerOk(p) && Written(p) == HEADER
  {
    hide Field;
    p := Packer([], 0, 0);
    NothingWritten();
    p := Put(p, 1, 3);
    p := Put(p, 0, 4);
    p := Put(p, 0, 12);
    p := Put(p, 0, 1);
    p := Put(p, 0, 2);
    p := Put(p, 1, 1);
  }

  lemma NothingWritten()
    ensures PackerOk(Packer([], 0, 0)) && Written(Packer([], 0, 0)) == []
  {
  }

  lemma SampleStart()
    ensures HEADER + SampleBits([]) == HEADER
  {
  }

  lemma SampleMore(frames: seq<Sample>, i: nat)
    requires i < |frames|
    ensures SampleBits(frames[..i + 1]) == SampleBits(frames[..i]) + Field(Unsigned(frames[i]), 16)
  {
    hide Field;
    assert frames[..i + 1][..i] == frames[..i];
  }

  // 26 + 32 n bits end two bits into a byte.
  lemma TwoBitsLeft(p: Packer, frames: seq<Sample>, n: nat)
    requires PackerOk(p) && |frames| == 2 * n && Written(p) == HEADER + SampleBits(frames) + Field(7, 3)
    ensures p.filled == 2 && |p.out| == 4 * n + 3
  {
    hide Field, SampleBits;
    HeaderLength();
    assert |Written(p)| == 8 * |p.out| + p.filled;
  }
}
