/** The streaming delimiter decoder of app/tcp/frame_codec.py. */
module FrameCodec {
  import opened Constants

  const DELIMITER: Bytes := [0x50, 0xAF, 0xA0, 0x5F, 0xA0]
  const MIN_LENGTH := 16
  const MAX_LENGTH := 51200000

  predicate At(buf: Bytes, i: nat) {
    i + 5 <= |buf| && buf[i..i + 5] == DELIMITER
  }

  ghost predicate NoDelimiter(buf: Bytes) {
    forall i: nat :: !At(buf, i)
  }

  /** `buf.find(DELIMITER, from)`: the first occurrence at or after `from`, or -1. */
  function Find(buf: Bytes, from: nat): (idx: int)
    ensures idx == -1 ==> forall j: nat | from <= j :: !At(buf, j)
    ensures idx != -1 ==> from <= idx && At(buf, idx) && forall j: nat | from <= j < idx :: !At(buf, j)
    decreases |buf| - from
  {
    if from + 5 > |buf| then -1
    else if At(buf, from) then from
    else Find(buf, from + 1)
  }

  predicate Legal(frame: Bytes) {
    MIN_LENGTH <= |frame| < MAX_LENGTH
  }

  /** Every piece cut off the buffer, each up to and including FRAME_END, legal or not. */
  function Pieces(buf: Bytes): seq<Bytes>
    decreases |buf|
  {
    var idx := Find(buf, 0);
    if idx == -1 then [] else [buf[..idx + 4]] + Pieces(buf[idx + 5..])
  }

  /** What stays in the buffer. */
  function Rest(buf: Bytes): Bytes
    decreases |buf|
  {
    var idx := Find(buf, 0);
    if idx == -1 then buf else Rest(buf[idx + 5..])
  }

  function KeepLegal(pieces: seq<Bytes>): seq<Bytes> {
    if pieces == [] then []
    else KeepLegal(pieces[..|pieces| - 1]) + if Legal(pieces[|pieces| - 1]) then [pieces[|pieces| - 1]] else []
  }

  lemma CutOnce(buf: Bytes)
    ensures var idx := Find(buf, 0);
            if idx == -1 then Pieces(buf) == [] && Rest(buf) == buf
            else Pieces(buf) == [buf[..idx + 4]] + Pieces(buf[idx + 5..]) && Rest(buf) == Rest(buf[idx + 5..])
  {
  }

  lemma KeepLegalStep(pieces: seq<Bytes>, f: Bytes)
    ensures KeepLegal([]) == []
    ensures KeepLegal(pieces + [f]) == KeepLegal(pieces) + if Legal(f) then [f] else []
  {
    assert (pieces + [f])[..|pieces|] == pieces;
  }

  lemma KeepLegalConcat(a: seq<Bytes>, b: seq<Bytes>)
    ensures KeepLegal(a + b) == KeepLegal(a) + KeepLegal(b)
  {
    if b == [] {
      assert a + b == a;
    } else {
      assert (a + b)[..|a + b| - 1] == a + b[..|b| - 1];
      KeepLegalConcat(a, b[..|b| - 1]);
    }
  }

  // ---------- What a decoded stream is ----------

  /** The pieces as they stood in the stream, each followed by the last delimiter byte. */
  function Join(pieces: seq<Bytes>): Bytes {
    if pieces == [] then [] else pieces[0] + [0xA0] + Join(pieces[1..])
  }

  /** A piece that the decoder cuts exactly at its end. */
  ghost predicate Clean(f: Bytes) {
    |f| >= 4 && f[|f| - 4..] == FRAME_END && NoDelimiter(f)
  }

  // Whether a delimiter starts at a position depends on five bytes only.

  lemma AtPrefix(s: Bytes, t: Bytes, i: nat)
    requires i + 5 <= |s|
    ensures At(s + t, i) == At(s, i)
  {
    assert (s + t)[i..i + 5] == s[i..i + 5];
  }

  lemma AtSuffix(s: Bytes, t: Bytes, i: nat)
    ensures At(s + t, |s| + i) == At(t, i)
  {
    if i + 5 <= |t| {
      assert (s + t)[|s| + i..|s| + i + 5] == t[i..i + 5];
    }
  }

  lemma AtBytes(s: Bytes, i: nat)
    requires At(s, i)
    ensures i + 5 <= |s|
    ensures s[i] == 0x50 && s[i + 1] == 0xAF && s[i + 2] == 0xA0 && s[i + 3] == 0x5F && s[i + 4] == 0xA0
  {
    var d := s[i..i + 5];
    assert d[0] == s[i] && d[1] == s[i + 1] && d[2] == s[i + 2] && d[3] == s[i + 3] && d[4] == s[i + 4];
  }

  lemma AtFrameEnd(f: Bytes, tail: Bytes)
    requires |f| >= 4 && f[|f| - 4..] == FRAME_END
    ensures At(f + [0xA0] + tail, |f| - 4)
  {
    assert (f + [0xA0] + tail)[|f| - 4..|f| + 1] == FRAME_END + [0xA0];
  }

  /** A clean piece at the head of the buffer is what the decoder cuts first. */
  lemma CutsClean(f: Bytes, tail: Bytes)
    requires Clean(f)
    ensures Pieces(f + [0xA0] + tail) == [f] + Pieces(tail)
    ensures Rest(f + [0xA0] + tail) == Rest(tail)
  {
    hide At;
    var s := f + [0xA0] + tail;
    AtFrameEnd(f, tail);
    forall j: nat | j < |f| - 4
      ensures !At(s, j)
    {
      AtPrefix(f, [0xA0] + tail, j);
      assert s == f + ([0xA0] + tail);
    }
    assert Find(s, 0) == |f| - 4;
    assert s[..|f|] == f && s[|f| + 1..] == tail;
  }

  /** The piece that the first delimiter cuts is clean. */
  lemma FirstCut(buf: Bytes) returns (f: Bytes, tail: Bytes)
    requires Find(buf, 0) != -1
    ensures f == buf[..Find(buf, 0) + 4] && tail == buf[Find(buf, 0) + 5..]
    ensures Clean(f) && buf == f + [0xA0] + tail
  {
    var idx := Find(buf, 0);
    f, tail := buf[..idx + 4], buf[idx + 5..];
    assert buf[idx..idx + 5] == DELIMITER;
    assert f[idx..] == buf[idx..idx + 5][..4];
    assert buf[idx + 4] == buf[idx..idx + 5][4];
    forall j: nat
      ensures !At(f, j)
    {
      if j + 5 <= |f| {
        AtPrefix(f, buf[idx + 4..], j);
        assert buf == f + buf[idx + 4..];
      }
    }
  }

  lemma FindNone(buf: Bytes)
    ensures Find(buf, 0) == -1 <==> NoDelimiter(buf)
  {
  }

  lemma JoinNone()
    ensures Join([]) == []
  {
  }

  lemma JoinFirst(f: Bytes, fs: seq<Bytes>)
    ensures Join([f] + fs) == f + [0xA0] + Join(fs)
  {
  }

  /** The pieces and the rest are a decomposition of the stream, byte for byte, at the first delimiters. */
  lemma {:induction false} Decomposition(buf: Bytes)
    ensures Join(Pieces(buf)) + Rest(buf) == buf
    ensures NoDelimiter(Rest(buf))
    ensures forall f | f in Pieces(buf) :: Clean(f)
    decreases |buf|
  {
    hide *;
    CutOnce(buf);
    JoinNone();
    if Find(buf, 0) == -1 {
      assert [] + buf == buf;
      FindNone(buf);
    } else {
      var f, tail := FirstCut(buf);
      Decomposition(tail);
      JoinFirst(f, Pieces(tail));
      assert f + [0xA0] + Join(Pieces(tail)) + Rest(tail) == f + [0xA0] + (Join(Pieces(tail)) + Rest(tail));
    }
  }

  /** ... and it is the only one: clean pieces and a delimiter-free rest decode to themselves. */
  lemma {:induction false} DecompositionUnique(pieces: seq<Bytes>, rest: Bytes)
    requires forall f | f in pieces :: Clean(f)
    requires NoDelimiter(rest)
    ensures Pieces(Join(pieces) + rest) == pieces
    ensures Rest(Join(pieces) + rest) == rest
  {
    hide At;
    if pieces == [] {
      assert Join(pieces) + rest == rest;
      assert Find(rest, 0) == -1;
    } else {
      var f, tail := pieces[0], Join(pieces[1..]) + rest;
      assert Join(pieces) + rest == f + [0xA0] + tail;
      CutsClean(f, tail);
      DecompositionUnique(pieces[1..], rest);
    }
  }

  lemma {:induction false} JoinConcat(a: seq<Bytes>, b: seq<Bytes>)
    ensures Join(a + b) == Join(a) + Join(b)
  {
    if a == [] {
      assert a + b == b;
    } else {
      assert (a + b)[1..] == a[1..] + b;
      JoinConcat(a[1..], b);
    }
  }

  /** Feeding s then t decodes as feeding t behind the rest of s. */
  lemma FeedAppend(s: Bytes, t: Bytes)
    ensures Pieces(s + t) == Pieces(s) + Pieces(Rest(s) + t)
    ensures Rest(s + t) == Rest(Rest(s) + t)
  {
    hide *;
    var r := Rest(s) + t;
    Decomposition(s);
    Decomposition(r);
    JoinConcat(Pieces(s), Pieces(r));
    Reassociate(Join(Pieces(s)), Rest(s), t, Join(Pieces(r)), Rest(r));
    DecompositionUnique(Pieces(s) + Pieces(r), Rest(r));
  }

  lemma Reassociate(a: Bytes, b: Bytes, c: Bytes, d: Bytes, e: Bytes)
    requires b + c == d + e
    ensures (a + b) + c == (a + d) + e
  {
    assert (a + b) + c == a + (b + c);
    assert (a + d) + e == a + (d + e);
  }

  function TotalLength(pieces: seq<Bytes>): nat {
    if pieces == [] then 0 else |pieces[0]| + 1 + TotalLength(pieces[1..])
  }

  lemma {:induction false} JoinLength(pieces: seq<Bytes>)
    ensures |Join(pieces)| == TotalLength(pieces)
  {
    if pieces != [] {
      JoinLength(pieces[1..]);
    }
  }

  /** Bytes in equal bytes cut, kept or dropped, plus bytes pending. */
  lemma ByteAccount(buf: Bytes)
    ensures |buf| == TotalLength(Pieces(buf)) + |Rest(buf)|
  {
    Decomposition(buf);
    JoinLength(Pieces(buf));
  }

  // ---------- The buffer of a connection ----------

  class FrameBuffer {
    var buf: Bytes
    /** Everything received so far. */
    ghost var received: Bytes

    ghost predicate Valid()
      reads this
    {
      buf == Rest(received)
    }

    constructor ()
      ensures Valid() && buf == received == []
    {
      buf, received := [], [];
    }

    method Feed(data: Bytes) returns (frames: seq<Bytes>)
      requires Valid()
      modifies this
      ensures Valid() && received == old(received) + data
      ensures KeepLegal(Pieces(received)) == KeepLegal(Pieces(old(received))) + frames
      ensures frames == KeepLegal(Pieces(old(buf) + data)) && buf == Rest(old(buf) + data)
    {
      hide Pieces, Rest, KeepLegal;
      buf, received := buf + data, received + data;
      frames := [];
      ghost var whole, cut := buf, [];
      KeepLegalStep([], []);
      while true
        invariant Pieces(whole) == cut + Pieces(buf)
        invariant Rest(whole) == Rest(buf)
        invariant frames == KeepLegal(cut) && received == old(received) + data
        decreases |buf|
      {
        var idx := Find(buf, 0);
        CutOnce(buf);
        if idx == -1 {
          break;
        }
        var frame := buf[..idx + 4];
        KeepLegalStep(cut, frame);
        buf := buf[idx + |DELIMITER|..];
        assert cut + ([frame] + Pieces(buf)) == (cut + [frame]) + Pieces(buf);
        cut := cut + [frame];
        if MIN_LENGTH <= |frame| < MAX_LENGTH {
          frames := frames + [frame];
        }
      }
      assert cut + [] == cut;
      FeedAppend(old(received), data);
      KeepLegalConcat(Pieces(old(received)), Pieces(whole));
    }

    /** Bytes received that no piece has taken: each piece took its own bytes and the one after it. */
    method Pending() returns (n: nat)
      requires Valid()
      ensures |received| == TotalLength(Pieces(received)) + n
    {
      ByteAccount(received);
      n := |buf|;
    }
  }

  function Concat(chunks: seq<Bytes>): Bytes {
    if chunks == [] then [] else Concat(chunks[..|chunks| - 1]) + chunks[|chunks| - 1]
  }

  /** A chunk at a time: all frames so far, and the buffer. */
  function FeedAll(buf: Bytes, chunks: seq<Bytes>): (seq<Bytes>, Bytes)
    decreases |chunks|
  {
    if chunks == [] then (KeepLegal(Pieces(buf)), Rest(buf))
    else
      var (frames, rest) := FeedAll(buf, chunks[..|chunks| - 1]);
      var s := rest + chunks[|chunks| - 1];
      (frames + KeepLegal(Pieces(s)), Rest(s))
  }

  /** Chunking does not matter: frames and leftover depend on the bytes alone. */
  lemma {:induction false} ChunkingIndependent(buf: Bytes, chunks: seq<Bytes>)
    ensures FeedAll(buf, chunks) == (KeepLegal(Pieces(buf + Concat(chunks))), Rest(buf + Concat(chunks)))
    decreases |chunks|
  {
    hide Pieces, Rest, At, KeepLegal;
    if chunks == [] {
      assert buf + [] == buf;
    } else {
      var n := |chunks| - 1;
      var s := buf + Concat(chunks[..n]);
      ChunkingIndependent(buf, chunks[..n]);
      FeedAppend(s, chunks[n]);
      KeepLegalConcat(Pieces(s), Pieces(Rest(s) + chunks[n]));
      assert buf + Concat(chunks) == s + chunks[n];
    }
  }

  /** The read loop of a connection: every chunk received goes through one buffer. */
  method ReadLoop(chunks: seq<Bytes>) returns (frames: seq<Bytes>, pending: nat)
    ensures frames == KeepLegal(Pieces(Concat(chunks)))
    ensures |Concat(chunks)| == TotalLength(Pieces(Concat(chunks))) + pending
  {
    hide Pieces, Rest, At, KeepLegal;
    var buffer := new FrameBuffer();
    frames := [];
    CutOnce([]);
    KeepLegalStep([], []);
    for i := 0 to |chunks|
      invariant fresh(buffer) && buffer.Valid()
      invariant buffer.received == Concat(chunks[..i])
      invariant frames == KeepLegal(Pieces(buffer.received))
    {
      assert chunks[..i + 1][..i] == chunks[..i];
      var more := buffer.Feed(chunks[i]);
      frames := frames + more;
    }
    assert chunks[..|chunks|] == chunks;
    pending := buffer.Pending();
  }

  // ---------- Round trip and resynchronisation ----------

  lemma {:induction false} AllLegal(fs: seq<Bytes>)
    requires forall f | f in fs :: Legal(f)
    ensures KeepLegal(fs) == fs
  {
    if fs != [] {
      AllLegal(fs[..|fs| - 1]);
      assert fs[|fs| - 1] in fs;
    }
  }

  /** Clean frames, each sent with a trailing A0: those of 16 to 51199999 bytes come out, under any chunking. */
  lemma StreamKeepsLegal(fs: seq<Bytes>, chunks: seq<Bytes>)
    requires forall f | f in fs :: Clean(f)
    requires Concat(chunks) == Join(fs)
    ensures FeedAll([], chunks) == (KeepLegal(fs), [])
    ensures forall f | f in fs :: f in KeepLegal(fs) <==> 16 <= |f| < 51200000
  {
    hide Clean;
    ChunkingIndependent([], chunks);
    NothingLeft();
    DecompositionUnique(fs, []);
    assert [] + Concat(chunks) == Join(fs) + [];
    KeptAreLegal(fs);
  }

  lemma {:induction false} KeptAreLegal(fs: seq<Bytes>)
    ensures forall f :: f in KeepLegal(fs) <==> f in fs && 16 <= |f| < 51200000
  {
    if fs != [] {
      KeptAreLegal(fs[..|fs| - 1]);
      assert fs == fs[..|fs| - 1] + [fs[|fs| - 1]];
    }
  }

  /** Frames of legal length come out as they went in. */
  lemma StreamRoundTrip(fs: seq<Bytes>, chunks: seq<Bytes>)
    requires forall f | f in fs :: 16 <= |f| < 51200000 && Clean(f)
    requires Concat(chunks) == Join(fs)
    ensures FeedAll([], chunks) == (fs, [])
  {
    ChunkingIndependent([], chunks);
    DecompositionUnique(fs, []);
    AllLegal(fs);
    assert [] + Concat(chunks) == Join(fs) + [];
  }

  /** A suffix of a clean frame that still holds FRAME_END is clean. */
  lemma CleanSuffix(f: Bytes, r: nat)
    requires Clean(f) && r + 4 <= |f|
    ensures Clean(f[r..])
  {
    hide At;
    var g := f[r..];
    assert g[|g| - 4..] == f[|f| - 4..];
    forall j: nat
      ensures !At(g, j)
    {
      AtSuffix(f[..r], g, j);
      assert f == f[..r] + g;
      assert |f[..r]| + j == r + j;
    }
  }

  /** The first delimiter of two delimiter-free byte strings put together straddles them. */
  lemma Straddles(junk: Bytes, f: Bytes)
    requires NoDelimiter(junk) && NoDelimiter(f) && Find(junk + f, 0) != -1
    ensures Find(junk + f, 0) < |junk| < Find(junk + f, 0) + 5 <= |junk + f|
    ensures f != [] && f[0] in {0xAF, 0xA0, 0x5F}
  {
    hide At;
    var s, idx, j := junk + f, Find(junk + f, 0), |junk|;
    AtBytes(s, idx);
    if idx + 5 <= j {
      AtPrefix(junk, f, idx);
    }
    if idx >= j {
      AtSuffix(junk, f, idx - j);
    }
    assert f[0] == s[idx + (j - idx)];
  }

  /** A frame that begins with either frame head cannot be straddled: junk without a delimiter merges with it whole. */
  lemma HeadStopsStraddle(junk: Bytes, f: Bytes)
    requires NoDelimiter(junk) && NoDelimiter(f) && f != [] && f[0] in {0x40, 0x20}
    ensures NoDelimiter(junk + f)
  {
    if Find(junk + f, 0) != -1 {
      Straddles(junk, f);
    }
  }

  /**
   * Delimiter-free junk before a clean frame of legal length ends with the frame: at most one
   * delimiter straddles the two, and then a suffix of the frame is the next piece.
   */
  lemma AbsorbJunk(junk: Bytes, f: Bytes) returns (absorbed: seq<Bytes>)
    requires NoDelimiter(junk) && Clean(f) && Legal(f)
    ensures junk + f + [0xA0] == Join(absorbed)
    ensures forall p | p in absorbed :: Clean(p)
    ensures |absorbed| <= 2
    ensures NoDelimiter(junk + f) ==> absorbed == [junk + f]
  {
    hide At;
    var s := junk + f;
    if Find(s, 0) == -1 {
      assert s[|s| - 4..] == f[|f| - 4..];
      absorbed := [s];
      assert Join(absorbed[1..]) == [];
    } else {
      Straddles(junk, f);
      var p, g := FirstCut(s);
      var r: nat := Find(s, 0) + 5 - |junk|;
      CleanSuffix(f, r);
      assert g == f[r..];
      absorbed := [p, g];
      assert absorbed[1..] == [g];
      assert Join([g]) == g + [0xA0];
      assert s + [0xA0] == p + [0xA0] + (g + [0xA0]);
    }
  }

  /** A junk prefix costs at most the first frame; it costs none if the junk ends at a delimiter. */
  lemma Resynchronises(junk: Bytes, fs: seq<Bytes>) returns (lost: seq<Bytes>)
    requires fs != [] && forall f | f in fs :: Legal(f) && Clean(f)
    ensures |lost| <= |Pieces(junk)| + 2
    ensures KeepLegal(Pieces(junk + Join(fs))) == KeepLegal(lost) + fs[1..]
    ensures Rest(junk + Join(fs)) == []
    ensures NoDelimiter(Rest(junk) + fs[0]) ==> lost == Pieces(junk) + [Rest(junk) + fs[0]]
  {
    hide *;
    var r := Rest(junk);
    Decomposition(junk);
    assert fs[0] in fs;
    var absorbed := AbsorbJunk(r, fs[0]);
    lost := Pieces(junk) + absorbed;
    JoinConcat(Pieces(junk), absorbed);
    JoinConcat(lost, fs[1..]);
    JoinFirst(fs[0], fs[1..]);
    assert fs == [fs[0]] + fs[1..];
    Merge(Join(Pieces(junk)), r, fs[0], Join(fs[1..]), Join(absorbed));
    assert forall f | f in lost + fs[1..] :: Clean(f);
    NothingLeft();
    DecompositionUnique(lost + fs[1..], []);
    assert Join(lost + fs[1..]) + [] == Join(lost + fs[1..]);
    KeepLegalConcat(lost, fs[1..]);
    AllLegal(fs[1..]);
  }

  lemma NothingLeft()
    ensures NoDelimiter([])
  {
  }

  lemma Merge(a: Bytes, r: Bytes, f: Bytes, t: Bytes, b: Bytes)
    requires r + f + [0xA0] == b
    ensures (a + r) + (f + [0xA0] + t) == (a + b) + t
  {
  }

  /** Junk that ends at a delimiter costs no frame. */
  lemma JunkEndingCleanly(junk: Bytes, fs: seq<Bytes>)
    requires forall f | f in fs :: Legal(f) && Clean(f)
    requires Rest(junk) == []
    ensures KeepLegal(Pieces(junk + Join(fs))) == KeepLegal(Pieces(junk)) + fs
    ensures Rest(junk + Join(fs)) == []
  {
    hide *;
    FeedAppend(junk, Join(fs));
    NothingLeft();
    DecompositionUnique(fs, []);
    assert [] + Join(fs) == Join(fs) + [];
    KeepLegalConcat(Pieces(junk), fs);
    AllLegal(fs);
  }
}
