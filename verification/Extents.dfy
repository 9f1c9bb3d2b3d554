/**
 Extent lists as maps from file positions to where each byte comes from, and the
 replacement of one range by a freshly written chunk.
 */
module Extents {
  import opened Types

  /** Where the byte at some position of a file comes from. */
  datatype Source =
    | Hole
    | FromChunk(chunk: ChunkId, index: nat)
    | FromObject(key: string, index: nat)

  predicate Covers(e: Extent, p: nat) {
    e.offset <= p < e.End()
  }

  function SourceIn(e: Extent, p: nat): Source
    requires Covers(e, p)
  {
    match e
    case Local(offset, _, chunk) => FromChunk(chunk, p - offset)
    case UfsRange(offset, _, key, _, objectOffset) => FromObject(key, objectOffset + (p - offset))
  }

  /** The source of position `p`: the extent that covers it, or a hole. */
  function At(es: seq<Extent>, p: nat): Source {
    if es == [] then Hole
    else if Covers(es[0], p) then SourceIn(es[0], p)
    else At(es[1..], p)
  }

  lemma {:induction false} AtJoin(a: seq<Extent>, b: seq<Extent>, p: nat)
    ensures At(a + b, p) == if At(a, p) == Hole then At(b, p) else At(a, p)
  {
    if a == [] {
      assert a + b == b;
    } else {
      assert (a + b)[1..] == a[1..] + b;
      AtJoin(a[1..], b, p);
    }
  }

  lemma {:induction false} AtOutside(es: seq<Extent>, p: nat)
    requires forall i | 0 <= i < |es| :: !Covers(es[i], p)
    ensures At(es, p) == Hole
  {
    if es != [] { AtOutside(es[1..], p); }
  }

  /** Every extent ends before every later one starts. */
  predicate Sorted(es: seq<Extent>) {
    forall i, j | 0 <= i < j < |es| :: es[i].End() <= es[j].offset
  }

  lemma {:induction false} SortedIffOrdered(es: seq<Extent>)
    ensures Sorted(es) <==> Ordered(es)
  {
    if Ordered(es) {
      forall i, j | 0 <= i < j < |es| ensures es[i].End() <= es[j].offset { OrderedGap(es, i, j); }
    }
  }

  lemma {:induction false} OrderedGap(es: seq<Extent>, i: nat, j: nat)
    requires Ordered(es) && i < j < |es|
    ensures es[i].End() <= es[j].offset
    decreases j
  {
    if j > i + 1 { OrderedGap(es, i, j - 1); }
    assert es[j-1].End() <= es[j].offset;
  }

  /** Replacing `[start, end)` would cut into a chunk. */
  predicate CutsLocal(es: seq<Extent>, start: nat, end: nat) {
    exists k | 0 <= k < |es| :: LocalCut(es[k], start, end)
  }

  predicate LocalCut(e: Extent, start: nat, end: nat) {
    e.Local? && e.offset < end && start < e.End() && !(start <= e.offset && e.End() <= end)
  }

  predicate AllPositive(es: seq<Extent>) {
    forall k | 0 <= k < |es| :: es[k].len > 0
  }

  /** A piece of some extent of `es`, with the bytes it had there. */
  predicate PieceOf(e: Extent, es: seq<Extent>) {
    exists k | 0 <= k < |es| :: Piece(e, es[k])
  }

  predicate Piece(e: Extent, o: Extent) {
    || e == o
    || (&& e.UfsRange? && o.UfsRange? && e.key == o.key && e.version == o.version
        && o.offset <= e.offset && e.End() <= o.End() && e.objectOffset == o.objectOffset + (e.offset - o.offset))
  }

  /** What the loop of a replacement has built from the first extents. */
  ghost predicate Carved(es: seq<Extent>, left: seq<Extent>, right: seq<Extent>, start: nat, end: nat) {
    && Sorted(left) && Sorted(right) && AllPositive(left) && AllPositive(right)
    && (forall i | 0 <= i < |left| :: left[i].End() <= start && PieceOf(left[i], es))
    && (forall i | 0 <= i < |right| :: end <= right[i].offset && PieceOf(right[i], es))
    && (forall p: nat | p < start :: At(left, p) == At(es, p))
    && (forall p: nat | end <= p :: At(right, p) == At(es, p))
  }

  /** The parts of one extent before and after the replaced range. */
  function HeadOf(e: Extent, start: nat): seq<Extent> {
    if e.End() <= start then [e]
    else if e.UfsRange? && e.offset < start then [e.(len := start - e.offset)]
    else []
  }

  function TailOf(e: Extent, end: nat): seq<Extent> {
    if end <= e.offset then [e]
    else if e.UfsRange? && end < e.End()
    then [e.(offset := end, len := e.End() - end, objectOffset := e.objectOffset + (end - e.offset))]
    else []
  }

  lemma HeadSource(e: Extent, start: nat, end: nat, p: nat)
    requires start < end && !LocalCut(e, start, end) && p < start && e.len > 0
    ensures At(HeadOf(e, start), p) == At([e], p)
  {
  }

  lemma TailSource(e: Extent, start: nat, end: nat, p: nat)
    requires start < end && !LocalCut(e, start, end) && end <= p && e.len > 0
    ensures At(TailOf(e, end), p) == At([e], p)
  {
  }

  lemma PiecesGrow(left: seq<Extent>, es: seq<Extent>, e: Extent)
    requires forall i | 0 <= i < |left| :: PieceOf(left[i], es)
    ensures forall i | 0 <= i < |left| :: PieceOf(left[i], es + [e])
  {
    forall i | 0 <= i < |left| ensures PieceOf(left[i], es + [e]) {
      assert PieceOf(left[i], es);
      var k :| 0 <= k < |es| && Piece(left[i], es[k]);
      assert (es + [e])[k] == es[k];
    }
  }

  /** Pieces end where their extent ends at the latest. */
  lemma PieceBounds(x: Extent, es: seq<Extent>, bound: nat)
    requires PieceOf(x, es) && forall k | 0 <= k < |es| :: es[k].End() <= bound
    ensures x.End() <= bound
  {
  }

  /** One more extent is dealt with. */
  lemma CarveLeft(es: seq<Extent>, e: Extent, left: seq<Extent>, right: seq<Extent>, start: nat, end: nat)
    requires start < end && Carved(es, left, right, start, end)
    requires Sorted(es + [e]) && e.len > 0 && !LocalCut(e, start, end)
    ensures var left' := left + HeadOf(e, start);
            && Sorted(left') && AllPositive(left')
            && (forall i | 0 <= i < |left'| :: left'[i].End() <= start && PieceOf(left'[i], es + [e]))
            && (forall p: nat | p < start :: At(left', p) == At(es + [e], p))
  {
    var left' := left + HeadOf(e, start);
    PiecesGrow(left, es, e);
    assert (es + [e])[|es|] == e;
    forall k | 0 <= k < |es| ensures es[k].End() <= e.offset { assert (es + [e])[k] == es[k]; }
    forall i | 0 <= i < |left| ensures left[i].End() <= e.offset { PieceBounds(left[i], es, e.offset); }
    forall p: nat | p < start ensures At(left', p) == At(es + [e], p) {
      AtJoin(left, HeadOf(e, start), p);
      AtJoin(es, [e], p);
      HeadSource(e, start, end, p);
    }
  }

  lemma CarveRight(es: seq<Extent>, e: Extent, left: seq<Extent>, right: seq<Extent>, start: nat, end: nat)
    requires start < end && Carved(es, left, right, start, end)
    requires Sorted(es + [e]) && e.len > 0 && !LocalCut(e, start, end)
    ensures var right' := right + TailOf(e, end);
            && Sorted(right') && AllPositive(right')
            && (forall i | 0 <= i < |right'| :: end <= right'[i].offset && PieceOf(right'[i], es + [e]))
            && (forall p: nat | end <= p :: At(right', p) == At(es + [e], p))
  {
    var right' := right + TailOf(e, end);
    PiecesGrow(right, es, e);
    assert (es + [e])[|es|] == e;
    forall k | 0 <= k < |es| ensures es[k].End() <= e.offset { assert (es + [e])[k] == es[k]; }
    forall i | 0 <= i < |right| ensures right[i].End() <= e.offset { PieceBounds(right[i], es, e.offset); }
    forall p: nat | end <= p ensures At(right', p) == At(es + [e], p) {
      AtJoin(right, TailOf(e, end), p);
      AtJoin(es, [e], p);
      TailSource(e, start, end, p);
    }
  }

  /** The next extent of the list is dealt with. */
  lemma CarveNext(es: seq<Extent>, k: nat, left: seq<Extent>, right: seq<Extent>, start: nat, end: nat)
    requires Sorted(es) && AllPositive(es) && k < |es| && start < end && !LocalCut(es[k], start, end)
    requires Carved(es[..k], left, right, start, end)
    ensures Carved(es[..k+1], left + HeadOf(es[k], start), right + TailOf(es[k], end), start, end)
  {
    assert es[..k+1] == es[..k] + [es[k]];
    CarveLeft(es[..k], es[k], left, right, start, end);
    CarveRight(es[..k], es[k], left, right, start, end);
    hide HeadOf;
    hide TailOf;
  }

  /** The result of putting `written` over its range. */
  ghost predicate Replaced(es: seq<Extent>, written: Extent, es': seq<Extent>) {
    && Sorted(es') && AllPositive(es')
    && (forall p: nat :: At(es', p) == if Covers(written, p) then SourceIn(written, p) else At(es, p))
    && (forall i | 0 <= i < |es'| :: es'[i] == written || PieceOf(es'[i], es))
  }

  lemma CarvedReplaced(es: seq<Extent>, left: seq<Extent>, right: seq<Extent>, written: Extent)
    requires written.len > 0 && Carved(es, left, right, written.offset, written.End())
    ensures Replaced(es, written, left + [written] + right)
  {
    var es' := left + [written] + right;
    forall p: nat ensures At(es', p) == if Covers(written, p) then SourceIn(written, p) else At(es, p) {
      AtJoin(left + [written], right, p);
      AtJoin(left, [written], p);
      if p >= written.offset { AtOutside(left, p); }
      if p < written.End() { AtOutside(right, p); }
    }
  }

  /**
   `Manifest::replace_range` on the extent list: existing object ranges keep
   their parts outside the new range, covered chunks go, and a chunk that would
   have to be cut is an error.
   */
  method ReplaceRange(es: seq<Extent>, written: Extent) returns (r: Result<seq<Extent>>)
    requires Sorted(es) && AllPositive(es)
    ensures r.Ok? <==> written.len > 0 && !CutsLocal(es, written.offset, written.End())
    ensures r.Ok? ==> Replaced(es, written, r.value)
    ensures r.Err? ==> r.error == InvalidArg
  {
    hide Replaced;
    hide HeadOf;
    hide TailOf;
    if written.len == 0 {
      return Err(InvalidArg);
    }
    var left: seq<Extent>, right: seq<Extent> := [], [];
    assert Carved(es[..0], left, right, written.offset, written.End());
    hide Carved;
    var k := 0;
    while k < |es|
      invariant 0 <= k <= |es|
      invariant Carved(es[..k], left, right, written.offset, written.End())
      invariant forall i | 0 <= i < k :: !LocalCut(es[i], written.offset, written.End())
    {
      var e := es[k];
      if LocalCut(e, written.offset, written.End()) {
        return Err(InvalidArg);
      }
      CarveNext(es, k, left, right, written.offset, written.End());
      left := left + HeadOf(e, written.offset);
      right := right + TailOf(e, written.End());
      k := k + 1;
    }
    assert es[..k] == es;
    CarvedReplaced(es, left, right, written);
    r := Ok(left + [written] + right);
  }
}
