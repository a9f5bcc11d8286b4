/** Splitting transcript text into overlapping chunks that never cut a character. */
module Chunking {
  import opened Wrappers

  const USIZE_MAX: nat := 0xffff_ffff_ffff_ffff

  /** The longest string an allocation can hold. */
  const ISIZE_MAX: nat := 0x7fff_ffff_ffff_ffff

  /** Machine integers: every sum below is checked not to wrap. */
  type Size = n: nat | n <= USIZE_MAX

  type Byte = n: nat | n < 0x100

  /** A Unicode scalar value: a code point that is no surrogate. */
  type Scalar = n: nat | n < 0xD800 || 0xE000 <= n < 0x110000

  // ---- UTF-8, section 3 of RFC 3629 ----------------------------------------------------

  predicate Continuation(b: Byte) {
    0x80 <= b < 0xC0
  }

  function Trailing(x: nat): Byte {
    0x80 + x % 0x40
  }

  function Encode(c: Scalar): (r: seq<Byte>)
    ensures 1 <= |r| <= 4 && !Continuation(r[0]) && forall i :: 1 <= i < |r| ==> Continuation(r[i])
  {
    if c < 0x80 then [c]
    else if c < 0x800 then [0xC0 + c / 0x40, Trailing(c)]
    else if c < 0x10000 then [0xE0 + c / 0x1000, Trailing(c / 0x40), Trailing(c)]
    else [0xF0 + c / 0x40000, Trailing(c / 0x1000), Trailing(c / 0x40), Trailing(c)]
  }

  function EncodeAll(cs: seq<Scalar>): seq<Byte> {
    if cs == [] then [] else Encode(cs[0]) + EncodeAll(cs[1..])
  }

  ghost predicate Utf8(text: seq<Byte>) {
    exists cs :: EncodeAll(cs) == text
  }

  /** The test the language makes on one byte. */
  predicate IsCharBoundary(text: seq<Byte>, i: nat) {
    i == 0 || i == |text| || (i < |text| && !Continuation(text[i]))
  }

  /** Two sequences joined and cut behind the end of the first one. */
  lemma JoinedCut<T>(a: seq<T>, b: seq<T>, i: nat)
    requires |a| <= i <= |a| + |b|
    ensures (a + b)[..i] == a + b[..i - |a|] && (a + b)[i..] == b[i - |a|..]
    ensures i < |a| + |b| ==> (a + b)[i] == b[i - |a|]
  {
  }

  /** Behind its first byte, no boundary lies inside the first character. */
  lemma BoundaryBehindFirst(cs: seq<Scalar>, i: nat)
    requires 0 < i <= |EncodeAll(cs)| && IsCharBoundary(EncodeAll(cs), i)
    ensures |Encode(cs[0])| <= i && IsCharBoundary(EncodeAll(cs[1..]), i - |Encode(cs[0])|)
  {
    var first, rest := Encode(cs[0]), EncodeAll(cs[1..]);
    assert forall p :: 0 <= p < |first| ==> EncodeAll(cs)[p] == first[p];
    assert |first| <= i;
    JoinedCut(first, rest, i);
  }

  /** The bytes before `i` are those of the first `k` characters, the others those of the rest. */
  predicate CutsAt(cs: seq<Scalar>, i: nat, k: nat) {
    && k <= |cs| && i <= |EncodeAll(cs)|
    && EncodeAll(cs)[..i] == EncodeAll(cs[..k]) && EncodeAll(cs)[i..] == EncodeAll(cs[k..])
  }

  lemma CutBehindFirst(cs: seq<Scalar>, i: nat, k: nat)
    requires cs != [] && CutsAt(cs[1..], i, k)
    ensures CutsAt(cs, |Encode(cs[0])| + i, k + 1)
  {
    var first, rest := Encode(cs[0]), EncodeAll(cs[1..]);
    assert cs[..k + 1] != [] && cs[..k + 1][0] == cs[0] && cs[..k + 1][1..] == cs[1..][..k];
    assert EncodeAll(cs[..k + 1]) == first + EncodeAll(cs[1..][..k]);
    assert cs[k + 1..] == cs[1..][k..];
    JoinedCut(first, rest, |first| + i);
  }

  /** A boundary splits an encoding between two characters. */
  lemma {:induction false} BoundaryCut(cs: seq<Scalar>, i: nat) returns (k: nat)
    requires i <= |EncodeAll(cs)| && IsCharBoundary(EncodeAll(cs), i)
    ensures CutsAt(cs, i, k)
  {
    if i == 0 {
      k := 0;
      assert cs[..0] == [] && cs[0..] == cs;
    } else {
      BoundaryBehindFirst(cs, i);
      var rest := BoundaryCut(cs[1..], i - |Encode(cs[0])|);
      CutBehindFirst(cs, i - |Encode(cs[0])|, rest);
      k := rest + 1;
    }
  }

  lemma PrefixIsUtf8(cs: seq<Scalar>, i: nat)
    requires i <= |EncodeAll(cs)| && IsCharBoundary(EncodeAll(cs), i)
    ensures Utf8(EncodeAll(cs)[..i])
  {
    var k := BoundaryCut(cs, i);
  }

  /** What lies between two boundaries is well-formed text again. */
  lemma SliceIsUtf8(text: seq<Byte>, i: nat, j: nat)
    requires Utf8(text) && i <= j <= |text| && IsCharBoundary(text, i) && IsCharBoundary(text, j)
    ensures Utf8(text[i..j])
  {
    var cs :| EncodeAll(cs) == text;
    var k := BoundaryCut(cs, i);
    PrefixIsUtf8(cs[k..], j - i);
    assert text[i..][..j - i] == text[i..j];
  }

  /** A boundary is never more than three bytes ahead. */
  lemma {:induction false} BoundaryAhead(cs: seq<Scalar>, i: nat)
    requires i <= |EncodeAll(cs)|
    ensures exists j :: i <= j <= i + 3 && j <= |EncodeAll(cs)| && IsCharBoundary(EncodeAll(cs), j)
  {
    var text := EncodeAll(cs);
    if cs == [] || i == 0 {
      assert IsCharBoundary(text, i);
    } else {
      var first, rest := Encode(cs[0]), EncodeAll(cs[1..]);
      if i <= |first| {
        assert |first| < |text| ==> text[|first|] == rest[0];
        assert cs[1..] != [] ==> rest[0] == Encode(cs[1])[0];
        assert IsCharBoundary(text, |first|);
      } else {
        BoundaryAhead(cs[1..], i - |first|);
        var j :| i - |first| <= j <= i - |first| + 3 && j <= |rest| && IsCharBoundary(rest, j);
        assert j < |rest| ==> text[j + |first|] == rest[j];
        assert IsCharBoundary(text, j + |first|);
      }
    }
  }

  // ---- snapping ------------------------------------------------------------------------

  /** The first boundary at or after `i`. */
  function Snap(text: seq<Byte>, i: nat): (r: nat)
    ensures i <= r && (i <= |text| ==> r <= |text| && IsCharBoundary(text, r))
    decreases |text| - i
  {
    if i < |text| && !IsCharBoundary(text, i) then Snap(text, i + 1) else i
  }

  lemma {:induction false} SnapIsFirst(text: seq<Byte>, i: nat, j: nat)
    requires i <= j <= |text| && IsCharBoundary(text, j)
    ensures Snap(text, i) <= j
    decreases |text| - i
  {
    if i < |text| && !IsCharBoundary(text, i) {
      SnapIsFirst(text, i + 1, j);
    }
  }

  lemma SnapIsNear(text: seq<Byte>, i: nat)
    requires Utf8(text) && i <= |text|
    ensures Snap(text, i) <= i + 3
  {
    var cs :| EncodeAll(cs) == text;
    BoundaryAhead(cs, i);
    var j :| i <= j <= i + 3 && j <= |text| && IsCharBoundary(text, j);
    SnapIsFirst(text, i, j);
  }

  lemma SnapIsMonotone(text: seq<Byte>, i: nat, j: nat)
    requires i <= j <= |text|
    ensures Snap(text, i) <= Snap(text, j)
  {
    SnapIsFirst(text, i, Snap(text, j));
  }

  /** `r` is reached from `i` without passing a boundary or the end. */
  predicate SnapsTo(text: seq<Byte>, i: nat, r: nat) {
    && i <= r && (i < r ==> r <= |text|) && (r < |text| ==> IsCharBoundary(text, r))
    && forall j :: i <= j < r ==> !IsCharBoundary(text, j)
  }

  lemma {:induction false} SnapsToSnap(text: seq<Byte>, i: nat, r: nat)
    requires SnapsTo(text, i, r)
    ensures r == Snap(text, i)
    decreases r - i
  {
    if i < r {
      assert !IsCharBoundary(text, i);
      SnapsToSnap(text, i + 1, r);
    }
  }

  method SnapForward(text: seq<Byte>, i: Size) returns (r: Size)
    requires |text| <= ISIZE_MAX
    ensures SnapsTo(text, i, r)
  {
    r := i;
    while r < |text| && !IsCharBoundary(text, r)
      invariant i <= r && (i < r ==> r <= |text|)
      invariant forall j :: i <= j < r ==> !IsCharBoundary(text, j)
      decreases |text| - r
    {
      r := r + 1;
    }
  }

  // ---- chunk_text ----------------------------------------------------------------------

  datatype Span = Span(start: nat, end: nat)

  function Advance(size: nat, overlap: nat): nat {
    if size > overlap then size - overlap else size
  }

  function EndOf(text: seq<Byte>, size: nat, start: nat): nat {
    Snap(text, if start + size < |text| then start + size else |text|)
  }

  /** Where the next chunk starts, if the chunk at `start` is not the last. */
  function NextStart(text: seq<Byte>, size: nat, overlap: nat, start: nat): Option<nat> {
    if start >= |text| || EndOf(text, size, start) >= |text| then None
    else Some(Snap(text, start + Advance(size, overlap)))
  }

  /** The next chunk starts later, at a boundary and not behind the end of this one. */
  lemma NextIsCovered(text: seq<Byte>, size: nat, overlap: nat, start: nat)
    requires size > 0
    ensures var next := NextStart(text, size, overlap, start);
            next.Some? ==> start < next.value <= EndOf(text, size, start) < |text| && IsCharBoundary(text, next.value)
  {
    if NextStart(text, size, overlap, start).Some? {
      SnapIsMonotone(text, start + Advance(size, overlap), start + size);
    }
  }

  /** The start after `n` rounds, `None` once the loop has ended. */
  function StartAfter(text: seq<Byte>, size: nat, overlap: nat, n: nat): Option<nat> {
    if n == 0 then if text == [] then None else Some(0)
    else match StartAfter(text, size, overlap, n - 1)
      case None => None
      case Some(start) => NextStart(text, size, overlap, start)
  }

  lemma {:induction false} StartsAdvance(text: seq<Byte>, size: nat, overlap: nat, n: nat)
    requires size > 0
    ensures StartAfter(text, size, overlap, n).Some? ==> n <= StartAfter(text, size, overlap, n).value < |text|
  {
    if n == 0 {
    } else {
      StartsAdvance(text, size, overlap, n - 1);
      var before := StartAfter(text, size, overlap, n - 1);
      if before.Some? {
        NextIsCovered(text, size, overlap, before.value);
      }
    }
  }

  lemma {:induction false} ZeroSizeStays(text: seq<Byte>, overlap: nat, n: nat)
    requires text != []
    ensures StartAfter(text, 0, overlap, n) == Some(0)
  {
    if n == 0 {
    } else {
      ZeroSizeStays(text, overlap, n - 1);
    }
  }

  /** The loop ends exactly when the text is empty or the chunk size is positive. */
  lemma {:induction false} EndsUnlessSizeIsZero(text: seq<Byte>, size: nat, overlap: nat)
    ensures (exists n :: StartAfter(text, size, overlap, n) == None) <==> text == [] || size > 0
  {
    if text == [] {
      assert StartAfter(text, size, overlap, 0) == None;
    } else if size > 0 {
      StartsAdvance(text, size, overlap, |text|);
      assert StartAfter(text, size, overlap, |text|) == None;
    } else {
      forall n: nat ensures StartAfter(text, 0, overlap, n) == Some(0) {
        ZeroSizeStays(text, overlap, n);
      }
    }
  }

  /** The spans cut from `start` on. */
  function Spans(text: seq<Byte>, size: nat, overlap: nat, start: nat): seq<Span>
    requires size > 0
    decreases |text| - start
  {
    if start >= |text| then []
    else [Span(start, EndOf(text, size, start))] + match NextStart(text, size, overlap, start)
         case None => []
         case Some(next) => Spans(text, size, overlap, next)
  }

  ghost predicate WellCut(text: seq<Byte>, size: nat, span: Span) {
    && span.start <= span.end <= |text| && IsCharBoundary(text, span.start) && IsCharBoundary(text, span.end)
    && span.end <= span.start + size + 3
    && (span.end == |text| || span.end >= span.start + size)
  }

  /** No gap, progress, and an overlap within three bytes of the one asked for. */
  ghost predicate Follows(text: seq<Byte>, size: nat, overlap: nat, left: Span, right: Span) {
    && left.start < right.start <= left.end <= right.end && left.end < |text|
    && (if overlap < size then overlap - 3 <= left.end - right.start <= overlap + 3 else right.start == left.end)
  }

  ghost predicate FollowsAt(text: seq<Byte>, size: nat, overlap: nat, spans: seq<Span>, i: nat)
    requires 0 < i < |spans|
  {
    Follows(text, size, overlap, spans[i - 1], spans[i])
  }

  /** Spans that cut the text from `start` to its end. */
  ghost predicate Cuts(text: seq<Byte>, size: nat, overlap: nat, start: nat, spans: seq<Span>) {
    && |spans| > 0 && spans[0].start == start && spans[|spans| - 1].end == |text|
    && (forall i :: 0 <= i < |spans| ==> WellCut(text, size, spans[i]))
    && (forall i :: 0 < i < |spans| ==> FollowsAt(text, size, overlap, spans, i))
  }

  lemma FirstIsWellCut(text: seq<Byte>, size: nat, start: nat)
    requires Utf8(text) && size > 0 && start < |text| && IsCharBoundary(text, start)
    ensures WellCut(text, size, Span(start, EndOf(text, size, start)))
  {
    SnapIsNear(text, if start + size < |text| then start + size else |text|);
  }

  lemma NextFollows(text: seq<Byte>, size: nat, overlap: nat, start: nat)
    requires Utf8(text) && size > 0 && NextStart(text, size, overlap, start).Some?
    ensures var next := NextStart(text, size, overlap, start).value;
            && start < next < |text| && IsCharBoundary(text, next)
            && Follows(text, size, overlap, Span(start, EndOf(text, size, start)), Span(next, EndOf(text, size, next)))
  {
    var next := NextStart(text, size, overlap, start).value;
    NextIsCovered(text, size, overlap, start);
    SnapIsNear(text, start + size);
    SnapIsNear(text, start + Advance(size, overlap));
    SnapIsMonotone(text, start + size, if next + size < |text| then next + size else |text|);
  }

  lemma CutsFurther(text: seq<Byte>, size: nat, overlap: nat, first: Span, rest: seq<Span>)
    requires |rest| > 0 && Cuts(text, size, overlap, rest[0].start, rest)
    requires WellCut(text, size, first) && Follows(text, size, overlap, first, rest[0])
    ensures Cuts(text, size, overlap, first.start, [first] + rest)
  {
    forall i | 0 < i < |[first] + rest| ensures FollowsAt(text, size, overlap, [first] + rest, i) {
      assert i > 1 ==> FollowsAt(text, size, overlap, rest, i - 1);
    }
  }

  lemma {:induction false} SpansCut(text: seq<Byte>, size: nat, overlap: nat, start: nat)
    requires Utf8(text) && size > 0 && start < |text| && IsCharBoundary(text, start)
    ensures Cuts(text, size, overlap, start, Spans(text, size, overlap, start))
    decreases |text| - start
  {
    var next := NextStart(text, size, overlap, start);
    var first := Span(start, EndOf(text, size, start));
    FirstIsWellCut(text, size, start);
    if next.Some? {
      NextFollows(text, size, overlap, start);
      var rest := Spans(text, size, overlap, next.value);
      SpansCut(text, size, overlap, next.value);
      assert rest[0] == Span(next.value, EndOf(text, size, next.value));
      CutsFurther(text, size, overlap, first, rest);
    }
  }

  function Slice(text: seq<Byte>, span: Span): seq<Byte> {
    if span.start <= span.end <= |text| then text[span.start..span.end] else []
  }

  function Slices(text: seq<Byte>, spans: seq<Span>): (r: seq<seq<Byte>>)
    ensures |r| == |spans| && forall i {:trigger r[i]} :: 0 <= i < |r| ==> r[i] == Slice(text, spans[i])
  {
    if spans == [] then [] else [Slice(text, spans[0])] + Slices(text, spans[1..])
  }

  /** How many bytes the second span repeats of the first. */
  function Repeated(left: Span, right: Span): nat {
    if right.start <= left.end then left.end - right.start else 0
  }

  function Repeats(spans: seq<Span>): (r: seq<nat>)
    ensures |r| == |spans|
    ensures forall i {:trigger r[i]} :: 0 <= i < |r| ==> r[i] == if i == 0 then 0 else Repeated(spans[i - 1], spans[i])
  {
    var n := |spans| - 1;
    if spans == [] then [] else Repeats(spans[..n]) + [if n == 0 then 0 else Repeated(spans[n - 1], spans[n])]
  }

  function Dropped(chunk: seq<Byte>, n: nat): seq<Byte> {
    if n <= |chunk| then chunk[n..] else []
  }

  /** The first `n` chunks put together, dropping from each what it repeats of the one before it. */
  function Rebuilt(chunks: seq<seq<Byte>>, repeated: seq<nat>, n: nat): seq<Byte>
    requires n <= |chunks| == |repeated|
  {
    if n == 0 then [] else Rebuilt(chunks, repeated, n - 1) + Dropped(chunks[n - 1], repeated[n - 1])
  }

  lemma RebuildsOn(text: seq<Byte>, spans: seq<Span>, n: nat, before: seq<Byte>)
    requires 0 < n <= |spans| && before == Rebuilt(Slices(text, spans), Repeats(spans), n - 1)
    ensures Rebuilt(Slices(text, spans), Repeats(spans), n)
            == before + Dropped(Slice(text, spans[n - 1]), if n == 1 then 0 else Repeated(spans[n - 2], spans[n - 1]))
  {
    var chunks, repeated := Slices(text, spans), Repeats(spans);
    assert chunks[n - 1] == Slice(text, spans[n - 1]);
    assert repeated[n - 1] == if n == 1 then 0 else Repeated(spans[n - 2], spans[n - 1]);
  }

  lemma Overlapped(text: seq<Byte>, a: nat, b: nat, c: nat, d: nat)
    requires a <= b <= c <= d <= |text|
    ensures text[..c] + text[b..d][c - b..] == text[..d]
    ensures text[a..c][b - a..] == text[b..d][..c - b]
  {
    assert text[b..d][c - b..] == text[c..d];
  }

  /** `right` begins with the last `n` bytes of `left`. */
  predicate Shares(left: seq<Byte>, right: seq<Byte>, n: nat) {
    n <= |left| && n <= |right| && left[|left| - n..] == right[..n]
  }

  lemma SliceAdds(text: seq<Byte>, size: nat, overlap: nat, left: Span, right: Span)
    requires WellCut(text, size, left) && WellCut(text, size, right) && Follows(text, size, overlap, left, right)
    ensures text[..left.end] + Dropped(Slice(text, right), Repeated(left, right)) == text[..right.end]
    ensures Shares(Slice(text, left), Slice(text, right), Repeated(left, right))
  {
    Overlapped(text, left.start, right.start, left.end, right.end);
  }

  lemma {:induction false} SlicesRebuild(text: seq<Byte>, size: nat, overlap: nat, spans: seq<Span>, n: nat)
    requires Cuts(text, size, overlap, 0, spans) && 0 < n <= |spans|
    ensures Rebuilt(Slices(text, spans), Repeats(spans), n) == text[..spans[n - 1].end]
  {
    var last := spans[n - 1];
    assert WellCut(text, size, last);
    if n == 1 {
      RebuildsOn(text, spans, 1, []);
      assert text[0..last.end] == text[..last.end] == [] + text[0..last.end][0..];
    } else {
      SlicesRebuild(text, size, overlap, spans, n - 1);
      assert WellCut(text, size, spans[n - 2]) && FollowsAt(text, size, overlap, spans, n - 1);
      SliceAdds(text, size, overlap, spans[n - 2], last);
      RebuildsOn(text, spans, n, text[..spans[n - 2].end]);
    }
  }

  predicate AsRequested(size: nat, overlap: nat, repeated: nat) {
    if overlap < size then overlap - 3 <= repeated <= overlap + 3 else repeated == 0
  }

  /** Chunk `i` repeats `repeated[i]` bytes of the one before it, as many as asked for. */
  predicate Neighbours(size: nat, overlap: nat, chunks: seq<seq<Byte>>, repeated: seq<nat>, i: nat)
    requires 0 < i < |chunks| == |repeated|
  {
    Shares(chunks[i - 1], chunks[i], repeated[i]) && AsRequested(size, overlap, repeated[i])
  }

  ghost predicate Rebuilds(text: seq<Byte>, size: nat, overlap: nat, chunks: seq<seq<Byte>>, repeated: seq<nat>) {
    && |repeated| == |chunks| > 0 && repeated[0] == 0
    && (forall i :: 0 < i < |chunks| ==> Neighbours(size, overlap, chunks, repeated, i))
    && Rebuilt(chunks, repeated, |chunks|) == text
  }

  /** What the caller gets: well-formed chunks of bounded size that overlap as asked and lose nothing. */
  ghost predicate IsChunking(text: seq<Byte>, size: nat, overlap: nat, chunks: seq<seq<Byte>>) {
    && chunks != []
    && (forall i :: 0 <= i < |chunks| ==> Utf8(chunks[i]) && |chunks[i]| <= size + 3)
    && (forall i :: 0 <= i < |chunks| - 1 ==> size <= |chunks[i]|)
    && exists repeated :: Rebuilds(text, size, overlap, chunks, repeated)
  }

  lemma SliceIsChunk(text: seq<Byte>, size: nat, overlap: nat, spans: seq<Span>, i: nat)
    requires Utf8(text) && Cuts(text, size, overlap, 0, spans) && i < |spans|
    ensures Utf8(Slice(text, spans[i])) && |Slice(text, spans[i])| <= size + 3
    ensures i < |spans| - 1 ==> size <= |Slice(text, spans[i])|
  {
    assert WellCut(text, size, spans[i]);
    SliceIsUtf8(text, spans[i].start, spans[i].end);
    assert i < |spans| - 1 ==> FollowsAt(text, size, overlap, spans, i + 1);
  }

  lemma SlicesNeighbour(text: seq<Byte>, size: nat, overlap: nat, spans: seq<Span>, i: nat)
    requires Cuts(text, size, overlap, 0, spans) && 0 < i < |spans|
    ensures Neighbours(size, overlap, Slices(text, spans), Repeats(spans), i)
  {
    assert WellCut(text, size, spans[i - 1]) && WellCut(text, size, spans[i]);
    assert FollowsAt(text, size, overlap, spans, i);
    SliceAdds(text, size, overlap, spans[i - 1], spans[i]);
  }

  lemma SlicesRebuildText(text: seq<Byte>, size: nat, overlap: nat, spans: seq<Span>)
    requires Cuts(text, size, overlap, 0, spans)
    ensures Rebuilt(Slices(text, spans), Repeats(spans), |spans|) == text
  {
    SlicesRebuild(text, size, overlap, spans, |spans|);
    assert text[..|text|] == text;
  }

  lemma SlicesRebuildAll(text: seq<Byte>, size: nat, overlap: nat, spans: seq<Span>)
    requires Cuts(text, size, overlap, 0, spans)
    ensures Rebuilds(text, size, overlap, Slices(text, spans), Repeats(spans))
  {
    forall i | 0 < i < |spans| ensures Neighbours(size, overlap, Slices(text, spans), Repeats(spans), i) {
      SlicesNeighbour(text, size, overlap, spans, i);
    }
    SlicesRebuildText(text, size, overlap, spans);
  }

  lemma SlicesAreChunks(text: seq<Byte>, size: nat, overlap: nat, spans: seq<Span>)
    requires Utf8(text) && Cuts(text, size, overlap, 0, spans)
    ensures IsChunking(text, size, overlap, Slices(text, spans))
  {
    var chunks := Slices(text, spans);
    forall i | 0 <= i < |chunks|
      ensures Utf8(chunks[i]) && |chunks[i]| <= size + 3 && (i < |chunks| - 1 ==> size <= |chunks[i]|)
    {
      SliceIsChunk(text, size, overlap, spans, i);
    }
    SlicesRebuildAll(text, size, overlap, spans);
  }

  /** The chunks cut so far and those still to be cut from `start` on make up the whole list. */
  ghost predicate Completes(text: seq<Byte>, size: nat, overlap: nat, chunks: seq<seq<Byte>>, start: nat)
    requires size > 0
  {
    chunks + Slices(text, Spans(text, size, overlap, start)) == Slices(text, Spans(text, size, overlap, 0))
  }

  lemma Regrouped<T>(a: seq<T>, x: T, b: seq<T>)
    ensures a + ([x] + b) == (a + [x]) + b
  {
  }

  lemma SlicesFrom(text: seq<Byte>, size: nat, overlap: nat, chunks: seq<seq<Byte>>, start: nat)
    requires size > 0 && start < |text|
    ensures var spans := Spans(text, size, overlap, start);
            spans != [] &&
              chunks + Slices(text, spans)
                == (chunks + [text[start..EndOf(text, size, start)]]) + Slices(text, spans[1..])
  {
    var spans := Spans(text, size, overlap, start);
    assert spans[0] == Span(start, EndOf(text, size, start));
    Regrouped(chunks, Slice(text, spans[0]), Slices(text, spans[1..]));
  }

  lemma NextCompletes(text: seq<Byte>, size: nat, overlap: nat, chunks: seq<seq<Byte>>, start: nat, end: nat, next: nat)
    requires size > 0 && start < |text| && Completes(text, size, overlap, chunks, start)
    requires SnapsTo(text, if start + size < |text| then start + size else |text|, end) && end < |text|
    requires SnapsTo(text, start + Advance(size, overlap), next)
    ensures start < next && Completes(text, size, overlap, chunks + [text[start..end]], next)
  {
    SnapsToSnap(text, if start + size < |text| then start + size else |text|, end);
    SnapsToSnap(text, start + Advance(size, overlap), next);
    SlicesFrom(text, size, overlap, chunks, start);
    assert NextStart(text, size, overlap, start) == Some(next);
  }

  lemma LastCompletes(text: seq<Byte>, size: nat, overlap: nat, chunks: seq<seq<Byte>>, start: nat, end: nat)
    requires size > 0 && start < |text| && Completes(text, size, overlap, chunks, start)
    requires SnapsTo(text, if start + size < |text| then start + size else |text|, end) && end >= |text|
    ensures end == |text| && Completes(text, size, overlap, chunks + [text[start..end]], |text|)
  {
    SnapsToSnap(text, if start + size < |text| then start + size else |text|, end);
    SlicesFrom(text, size, overlap, chunks, start);
  }

  lemma EndCompletes(text: seq<Byte>, size: nat, overlap: nat, chunks: seq<seq<Byte>>, start: nat)
    requires size > 0 && start >= |text| && Completes(text, size, overlap, chunks, start)
    ensures chunks == Slices(text, Spans(text, size, overlap, 0))
  {
    assert chunks + [] == chunks;
  }

  lemma EmptyIsChunking(size: nat, overlap: nat)
    ensures IsChunking([], size, overlap, [[]])
  {
    assert EncodeAll([]) == [];
    assert Rebuilt([[]], [0], 0) == [];
    assert Rebuilds([], size, overlap, [[]], [0]);
  }

  /** Cut text into overlapping chunks at character boundaries. */
  method ChunkText(text: seq<Byte>, size: Size, overlap: Size) returns (chunks: seq<seq<Byte>>)
    requires Utf8(text) && |text| <= ISIZE_MAX && (text == [] || size > 0)
    ensures text == [] ==> chunks == [[]]
    ensures text != [] ==> chunks == Slices(text, Spans(text, size, overlap, 0))
    ensures IsChunking(text, size, overlap, chunks)
  {
    if text == [] {
      EmptyIsChunking(size, overlap);
      return [[]];
    }
    chunks := [];
    var start: Size := 0;
    while start < |text|
      invariant start == 0 || size < |text|
      invariant Completes(text, size, overlap, chunks, start)
      decreases |text| - start
    {
      var sum: Size := start + size;
      var end := SnapForward(text, if sum < |text| then sum else |text|);
      ghost var was, before := start, chunks;
      chunks := chunks + [text[start..end]];
      if end >= |text| {
        LastCompletes(text, size, overlap, before, was, end);
        break;
      }
      var advance: Size := if size > overlap then size - overlap else size;
      start := SnapForward(text, start + advance);
      NextCompletes(text, size, overlap, before, was, end, start);
    }
    EndCompletes(text, size, overlap, chunks, if start < |text| then |text| else start);
    SpansCut(text, size, overlap, 0);
    SlicesAreChunks(text, size, overlap, Spans(text, size, overlap, 0));
  }

  // ---- truncate_to_char_boundary -------------------------------------------------------

  /** Keep the longest prefix of at most `limit` bytes that cuts no character. */
  method TruncateToCharBoundary(text: seq<Byte>, limit: nat) returns (kept: seq<Byte>)
    requires Utf8(text)
    ensures |kept| <= limit && kept <= text && Utf8(kept)
    ensures forall j :: |kept| < j <= |text| && j <= limit ==> !IsCharBoundary(text, j)
    ensures |kept| == |text| || |kept| + 3 >= limit
  {
    if |text| <= limit {
      assert text[..|text|] == text;
      return text;
    }
    var end := limit;
    while end > 0 && !IsCharBoundary(text, end)
      invariant 0 <= end <= limit
      invariant forall j :: end < j <= limit ==> !IsCharBoundary(text, j)
    {
      end := end - 1;
    }
    SliceIsUtf8(text, 0, end);
    if end + 3 < limit {
      SnapIsNear(text, end + 1);
    }
    return text[..end];
  }
}
