/** The frames of the pipe protocol: a head of 16 bytes whose first field is the length of the
    body, then the body.  A stream of frames can be cut back into them in one way only. */
module PipeFrames {
  import opened Sequences

  newtype byte = x: int | 0 <= x < 256

  type Bytes = seq<byte>

  const HEAD_SIZE: nat := 16
  const MAX_UINT32: nat := 0xFFFF_FFFF

  /** PipeMsgHead, with the 32-bit and 64-bit fields of the source. */
  datatype Head = Head(length: nat, kind: nat, data: nat)

  predicate HeadFits(h: Head) { h.length <= MAX_UINT32 && h.kind <= MAX_UINT32 && h.data <= 0xFFFF_FFFF_FFFF_FFFF }

  /** The `n` low bytes of `v`, the lowest first. */
  function LittleEndian(v: nat, n: nat): (s: Bytes)
    ensures |s| == n
  {
    if n == 0 then [] else [(v % 256) as byte] + LittleEndian(v / 256, n - 1)
  }

  /** The number that the bytes `s` hold, the lowest first. */
  function Number(s: Bytes): nat { if s == [] then 0 else s[0] as nat + 256 * Number(s[1..]) }

  function Power256(n: nat): (p: nat)
    ensures p > 0
  {
    if n == 0 then 1 else 256 * Power256(n - 1)
  }

  lemma {:induction false} NumberOfLittleEndian(v: nat, n: nat)
    requires v < Power256(n)
    ensures Number(LittleEndian(v, n)) == v
  {
    if n > 0 {
      var s := LittleEndian(v, n);
      assert s[1..] == LittleEndian(v / 256, n - 1);
      NumberOfLittleEndian(v / 256, n - 1);
    }
  }

  /** The length field at the start of `s`. */
  function LengthField(s: Bytes): nat
    requires |s| >= 4
  {
    Number(s[..4])
  }

  function EncodeHead(h: Head): (s: Bytes)
    ensures |s| == HEAD_SIZE
  {
    LittleEndian(h.length, 4) + LittleEndian(h.kind, 4) + LittleEndian(h.data, 8)
  }

  /** What `msend(head, body)` appends. */
  function Encode(h: Head, body: Bytes): Bytes { EncodeHead(h) + body }

  predicate IsFrame(f: Bytes) { |f| >= HEAD_SIZE && |f| == HEAD_SIZE + LengthField(f) }

  lemma {:induction false} EncodeIsFrame(h: Head, body: Bytes)
    requires HeadFits(h) && h.length == |body|
    ensures IsFrame(Encode(h, body))
  {
    var l := LittleEndian(h.length, 4);
    assert Encode(h, body)[..4] == l;
    assert Power256(4) == MAX_UINT32 + 1 by {
      assert Power256(1) == 256 && Power256(2) == 65536 && Power256(3) == 16777216;
    }
    NumberOfLittleEndian(h.length, 4);
  }

  /** PipeConnection::handle_package.  `data` is everything from the frame's start to the end of the
      array, of which the caller says that `len` bytes count. */
  function HandlePackage(data: Bytes, len: nat): nat
    requires |data| >= 4
  {
    if len < HEAD_SIZE then 0
    else if LengthField(data) + HEAD_SIZE > len then 0
    else HEAD_SIZE + LengthField(data)
  }

  /** The length of the whole frame at the start of `s`; 0 if it is not whole. */
  function NextFrame(s: Bytes): (n: nat)
    ensures n <= |s| && (n > 0 ==> IsFrame(s[..n]))
  {
    if |s| < HEAD_SIZE || HEAD_SIZE + LengthField(s) > |s| then 0
    else
      var n := HEAD_SIZE + LengthField(s);
      assert s[..n][..4] == s[..4];
      n
  }

  /** A frame at the start of `s` is found, and it is the only one. */
  lemma {:induction false} NextFrameIs(s: Bytes, k: nat)
    requires k <= |s| && IsFrame(s[..k])
    ensures NextFrame(s) == k
  {
    assert s[..k][..4] == s[..4];
  }

  /** Passing the length of the whole buffer, instead of what is left of it, does no harm: the framing loop
      refuses what does not fit.  `all` is the array from `pos` on, `live` its bytes that were received. */
  lemma {:induction false} HandlePackageFrames(all: Bytes, live: Bytes, len: nat)
    requires 0 < |live| <= len && |live| <= |all| && all[..|live|] == live && |all| >= 4
    ensures var n := HandlePackage(all, len); NextFrame(live) == if n <= |live| then n else 0
  {
    if |live| >= HEAD_SIZE {
      assert all[..4] == all[..|live|][..4];
    }
  }

  function Concat(fs: seq<Bytes>): Bytes { if fs == [] then [] else fs[0] + Concat(fs[1..]) }

  predicate AllFrames(fs: seq<Bytes>) { forall k :: 0 <= k < |fs| ==> IsFrame(fs[k]) }

  lemma {:induction false} ConcatAppend(fs: seq<Bytes>, gs: seq<Bytes>)
    ensures Concat(fs + gs) == Concat(fs) + Concat(gs)
  {
    if fs == [] {
      assert fs + gs == gs;
    } else {
      assert (fs + gs)[1..] == fs[1..] + gs;
      ConcatAppend(fs[1..], gs);
    }
  }

  lemma {:induction false} ConcatSnoc(fs: seq<Bytes>, f: Bytes)
    ensures Concat(fs + [f]) == Concat(fs) + f
  {
    ConcatAppend(fs, [f]);
    assert [f][1..] == [] && Concat([f]) == f + Concat([]);
  }

  /** The bytes received, cut into whole frames and the start of the next. */
  datatype Cut = Cut(frames: seq<Bytes>, rest: Bytes)

  function CutFrames(s: Bytes): Cut
    decreases |s|
  {
    var n := NextFrame(s);
    if n == 0 then Cut([], s)
    else
      var c := CutFrames(s[n..]);
      Cut([s[..n]] + c.frames, c.rest)
  }

  lemma {:induction false} PutInFront(f: Bytes, c: Cut, t: Bytes)
    requires IsFrame(f) && AllFrames(c.frames) && t == Concat(c.frames) + c.rest
    ensures AllFrames([f] + c.frames) && f + t == Concat([f] + c.frames) + c.rest
  {
    assert ([f] + c.frames)[1..] == c.frames;
    assert f + (Concat(c.frames) + c.rest) == f + Concat(c.frames) + c.rest;
  }

  /** The first frame, and the cut of what follows. */
  lemma {:induction false} CutFirst(s: Bytes, f: Bytes, t: Bytes)
    requires NextFrame(s) > 0 && f == s[..NextFrame(s)] && t == s[NextFrame(s)..]
    ensures s == f + t && IsFrame(f) && |t| < |s|
    ensures CutFrames(s) == Cut([f] + CutFrames(t).frames, CutFrames(t).rest)
  {}

  ghost predicate IsCut(s: Bytes, c: Cut) {
    s == Concat(c.frames) + c.rest && AllFrames(c.frames) && NextFrame(c.rest) == 0
  }

  lemma {:induction false} CutIsExact(s: Bytes)
    ensures IsCut(s, CutFrames(s))
    decreases |s|
  {
    var n := NextFrame(s);
    if n > 0 {
      CutFirst(s, s[..n], s[n..]);
      CutIsExact(s[n..]);
      PutInFront(s[..n], CutFrames(s[n..]), s[n..]);
    }
  }

  /** Appending to a stream that starts with a whole frame. */
  lemma {:induction false} FrameInFront(f: Bytes, s: Bytes)
    requires IsFrame(f)
    ensures NextFrame(f + s) == |f| && (f + s)[..|f|] == f && (f + s)[|f|..] == s
  {
    assert (f + s)[..4] == f[..4];
    assert (f + s)[..|f|] == f;
  }

  /** Frames found in a prefix of the stream are the first frames sent. */
  lemma {:induction false} FramesArePrefix(ds: seq<Bytes>, rest: Bytes, fs: seq<Bytes>)
    requires AllFrames(ds) && AllFrames(fs) && IsPrefix(Concat(ds) + rest, Concat(fs))
    ensures IsPrefix(ds, fs) && IsPrefix(rest, Concat(fs[|ds|..]))
    decreases |ds|
  {
    if ds == [] {
      assert Concat(ds) + rest == rest && fs[0..] == fs;
    } else {
      var d, s := ds[0], Concat(ds[1..]) + rest;
      assert Concat(ds) + rest == d + s;
      assert |Concat(fs)| >= HEAD_SIZE && fs != [];
      var f, t := fs[0], Concat(fs[1..]);
      assert d[..4] == (f + t)[..4] == f[..4];
      assert |d| == |f| && d == (f + t)[..|f|] == f;
      assert s == (d + s)[|d|..] && t == (f + t)[|f|..];
      FramesArePrefix(ds[1..], rest, fs[1..]);
      assert fs[1..][|ds[1..]|..] == fs[|ds|..];
    }
  }

  lemma {:induction false} ShortOrWhole(rest: Bytes, f: Bytes, t: Bytes)
    requires IsFrame(f) && IsPrefix(rest, f + t)
    ensures |rest| < |f| || NextFrame(rest) > 0
  {
    if |rest| >= |f| {
      assert rest[..|f|] == (f + t)[..|rest|][..|f|] == f;
      NextFrameIs(rest, |f|);
    }
  }

  /** What is left after cutting is a proper part of the next frame sent. */
  lemma {:induction false} RestIsShort(rest: Bytes, fs: seq<Bytes>)
    requires NextFrame(rest) == 0 && AllFrames(fs) && IsPrefix(rest, Concat(fs))
    ensures if fs == [] then rest == [] else |rest| < |fs[0]|
  {
    if fs != [] { ShortOrWhole(rest, fs[0], Concat(fs[1..])); }
  }
}
