/**
 * merge_subtitles of merge-dfxp.py: two caption tracks merged like the
 * merge step of a merge sort, fusing the two heads whenever they describe
 * the same moment.
 */
module TrackMerge {
  import opened Dfxp

  /** The tolerances of completely_overlap, in milliseconds (0.3 s and 0.9 s). */
  const EdgeTolerance: nat := 300
  const SumTolerance: nat := 900

  /** abs(x - y) */
  function Dist(x: int, y: int): (d: nat)
    ensures d >= x - y && d >= y - x && (d == x - y || d == y - x)
  {
    if x < y then y - x else x - y
  }

  /**
   * completely_overlap: the starts are less than 0.3 s apart, or the ends
   * are, or the two distances add up to less than 0.9 s.
   */
  predicate CompletelyOverlap(a: Cue, b: Cue)
  {
    var ds, de := Dist(a.start, b.start), Dist(a.end, b.end);
    ds < EdgeTolerance || de < EdgeTolerance || ds + de < SumTolerance
  }

  /** The test does not depend on the order of its arguments. */
  lemma OverlapSymmetric(a: Cue, b: Cue)
    ensures CompletelyOverlap(a, b) <==> CompletelyOverlap(b, a)
  {
  }

  /** Cues starting together, or ending together, always overlap; so does a cue with itself. */
  lemma SharedEdgeOverlaps(a: Cue, b: Cue)
    requires a.start == b.start || a.end == b.end
    ensures CompletelyOverlap(a, b)
  {
  }

  /** Cues whose edges are both at least 0.9 s apart never overlap. */
  lemma FarApartDisjoint(a: Cue, b: Cue)
    requires Dist(a.start, b.start) >= SumTolerance && Dist(a.end, b.end) >= SumTolerance
    ensures !CompletelyOverlap(a, b)
  {
  }

  const LineBreak: string := "<br />"

  /** merge(a, b): the fused caption spans both and shows a's text above b's. */
  function Fuse(a: Cue, b: Cue): (r: Cue)
    ensures r.start <= a.start && r.start <= b.start && (r.start == a.start || r.start == b.start)
    ensures r.end >= a.end && r.end >= b.end && (r.end == a.end || r.end == b.end)
    ensures r.content == a.content + LineBreak + b.content
  {
    Cue(if a.start <= b.start then a.start else b.start,
        if a.end >= b.end then a.end else b.end,
        a.content + LineBreak + b.content)
  }

  /** The fused caption covers each input's interval. */
  lemma FuseCovers(a: Cue, b: Cue)
    ensures Fuse(a, b).start <= a.start && a.end <= Fuse(a, b).end
    ensures Fuse(a, b).start <= b.start && b.end <= Fuse(a, b).end
  {
  }

  /**
   * merge_subtitles on the two queues: while both are non-empty, fuse the
   * heads if they overlap, else emit the head that starts strictly earlier
   * (b's head on a tie); then the rest of a, then the rest of b.
   */
  function MergeJoin(a: seq<Cue>, b: seq<Cue>): seq<Cue>
    decreases |a| + |b|
  {
    if a == [] then b
    else if b == [] then a
    else if CompletelyOverlap(a[0], b[0]) then [Fuse(a[0], b[0])] + MergeJoin(a[1..], b[1..])
    else if a[0].start < b[0].start then [a[0]] + MergeJoin(a[1..], b)
    else [b[0]] + MergeJoin(a, b[1..])
  }

  /** The cue merge_subtitles emits when both queues are non-empty. */
  function HeadOut(x: Cue, y: Cue): Cue
  {
    if CompletelyOverlap(x, y) then Fuse(x, y) else if x.start < y.start then x else y
  }

  /** One round of the loop: the emitted cue, then the merge of what is left. */
  lemma JoinStep(a: seq<Cue>, b: seq<Cue>)
    requires a != [] && b != []
    ensures MergeJoin(a, b) == [HeadOut(a[0], b[0])] + MergeJoin(
      if CompletelyOverlap(a[0], b[0]) || a[0].start < b[0].start then a[1..] else a,
      if CompletelyOverlap(a[0], b[0]) || !(a[0].start < b[0].start) then b[1..] else b)
  {
  }

  /** The loop of merge_subtitles, popping the heads of its two queues. */
  method MergeSubtitles(a: seq<Cue>, b: seq<Cue>) returns (result: seq<Cue>)
    ensures result == MergeJoin(a, b)
  {
    var qa, qb := a, b;
    result := [];
    while qa != [] && qb != []
      invariant result + MergeJoin(qa, qb) == MergeJoin(a, b)
      decreases |qa| + |qb|
    {
      JoinStep(qa, qb);
      ghost var tail := MergeJoin(qa, qb)[1..];
      var out := HeadOut(qa[0], qb[0]);
      if CompletelyOverlap(qa[0], qb[0]) {
        qa, qb := qa[1..], qb[1..];
      } else if qa[0].start < qb[0].start {
        qa := qa[1..];
      } else {
        qb := qb[1..];
      }
      assert tail == MergeJoin(qa, qb);
      assert result + [out] + tail == result + ([out] + tail);
      result := result + [out];
    }
    assert MergeJoin(qa, qb) == qa + qb;
    result := result + qa;
    result := result + qb;
  }

  /** Where one output cue came from: a[i] alone, b[j] alone, or a[i] fused with b[j]. */
  datatype Origin = FromA(i: nat) | FromB(j: nat) | Both(i: nat, j: nat)

  /** The positions lo .. hi-1. */
  function Range(lo: nat, hi: nat): (r: seq<nat>)
    requires lo <= hi
    ensures |r| == hi - lo && forall k :: 0 <= k < |r| ==> r[k] == lo + k
  {
    seq(hi - lo, k requires 0 <= k => lo + k)
  }

  /** The origins of MergeJoin(a[i..], b[j..]), in output order. */
  function Trace(a: seq<Cue>, b: seq<Cue>, i: nat, j: nat): seq<Origin>
    requires i <= |a| && j <= |b|
    decreases |a| - i + |b| - j
  {
    if i == |a| then seq(|b| - j, k requires 0 <= k => FromB(j + k))
    else if j == |b| then seq(|a| - i, k requires 0 <= k => FromA(i + k))
    else if CompletelyOverlap(a[i], b[j]) then [Both(i, j)] + Trace(a, b, i + 1, j + 1)
    else if a[i].start < b[j].start then [FromA(i)] + Trace(a, b, i + 1, j)
    else [FromB(j)] + Trace(a, b, i, j + 1)
  }

  /** The a-positions an origin sequence uses, in order. */
  function UsesA(t: seq<Origin>): seq<nat>
  {
    if t == [] then []
    else match t[0]
      case FromA(i) => [i] + UsesA(t[1..])
      case Both(i, _) => [i] + UsesA(t[1..])
      case FromB(_) => UsesA(t[1..])
  }

  /** The b-positions an origin sequence uses, in order. */
  function UsesB(t: seq<Origin>): seq<nat>
  {
    if t == [] then []
    else match t[0]
      case FromB(j) => [j] + UsesB(t[1..])
      case Both(_, j) => [j] + UsesB(t[1..])
      case FromA(_) => UsesB(t[1..])
  }

  /** The number of fused pairs in an origin sequence. */
  function Fused(t: seq<Origin>): nat
  {
    if t == [] then 0 else (if t[0].Both? then 1 else 0) + Fused(t[1..])
  }

  /** The cue an origin stands for. */
  function Realize(a: seq<Cue>, b: seq<Cue>, o: Origin): Cue
    requires o.FromA? || o.Both? ==> o.i < |a|
    requires o.FromB? || o.Both? ==> o.j < |b|
  {
    match o
    case FromA(i) => a[i]
    case FromB(j) => b[j]
    case Both(i, j) => Fuse(a[i], b[j])
  }

  predicate ValidOrigin(a: seq<Cue>, b: seq<Cue>, o: Origin)
  {
    (o.FromA? || o.Both? ==> o.i < |a|) && (o.FromB? || o.Both? ==> o.j < |b|)
  }

  /** JoinStep at positions i and j of the original queues. */
  lemma JoinAt(a: seq<Cue>, b: seq<Cue>, i: nat, j: nat)
    requires i < |a| && j < |b|
    ensures MergeJoin(a[i..], b[j..]) ==
      if CompletelyOverlap(a[i], b[j]) then [Fuse(a[i], b[j])] + MergeJoin(a[i + 1..], b[j + 1..])
      else if a[i].start < b[j].start then [a[i]] + MergeJoin(a[i + 1..], b[j..])
      else [b[j]] + MergeJoin(a[i..], b[j + 1..])
  {
    assert a[i..][0] == a[i] && a[i..][1..] == a[i + 1..];
    assert b[j..][0] == b[j] && b[j..][1..] == b[j + 1..];
  }

  /** Each output cue is what the origin at the same position says. */
  predicate Realizes(a: seq<Cue>, b: seq<Cue>, t: seq<Origin>, out: seq<Cue>)
  {
    |t| == |out| && forall k :: 0 <= k < |t| ==> ValidOrigin(a, b, t[k]) && out[k] == Realize(a, b, t[k])
  }

  /** The output lines up with the trace: each output cue is what its origin says. */
  lemma {:induction false} TraceRealizes(a: seq<Cue>, b: seq<Cue>, i: nat, j: nat)
    requires i <= |a| && j <= |b|
    ensures Realizes(a, b, Trace(a, b, i, j), MergeJoin(a[i..], b[j..]))
    decreases |a| - i + |b| - j
  {
    if i == |a| {
      assert a[i..] == [];
    } else if j == |b| {
      assert b[j..] == [];
    } else {
      JoinAt(a, b, i, j);
      if CompletelyOverlap(a[i], b[j]) {
        TraceRealizes(a, b, i + 1, j + 1);
        RealizesCons(a, b, Both(i, j), Trace(a, b, i + 1, j + 1), MergeJoin(a[i + 1..], b[j + 1..]));
      } else if a[i].start < b[j].start {
        TraceRealizes(a, b, i + 1, j);
        RealizesCons(a, b, FromA(i), Trace(a, b, i + 1, j), MergeJoin(a[i + 1..], b[j..]));
      } else {
        TraceRealizes(a, b, i, j + 1);
        RealizesCons(a, b, FromB(j), Trace(a, b, i, j + 1), MergeJoin(a[i..], b[j + 1..]));
      }
    }
  }

  lemma RealizesCons(a: seq<Cue>, b: seq<Cue>, o: Origin, t: seq<Origin>, out: seq<Cue>)
    requires ValidOrigin(a, b, o) && Realizes(a, b, t, out)
    ensures Realizes(a, b, [o] + t, [Realize(a, b, o)] + out)
  {
    var t', out' := [o] + t, [Realize(a, b, o)] + out;
    forall k | 0 <= k < |t'| ensures ValidOrigin(a, b, t'[k]) && out'[k] == Realize(a, b, t'[k]) {
      if k > 0 {
        assert t'[k] == t[k - 1] && out'[k] == out[k - 1];
      }
    }
  }

  /**
   * Every input cue contributes exactly once: the trace uses the positions
   * of a, and of b, each once and in increasing order.
   */
  lemma {:induction false} TraceUses(a: seq<Cue>, b: seq<Cue>, i: nat, j: nat)
    requires i <= |a| && j <= |b|
    ensures UsesA(Trace(a, b, i, j)) == Range(i, |a|)
    ensures UsesB(Trace(a, b, i, j)) == Range(j, |b|)
    decreases |a| - i + |b| - j
  {
    var t := Trace(a, b, i, j);
    if i == |a| {
      UsesOnlyB(t, j, |b|);
    } else if j == |b| {
      UsesOnlyA(t, i, |a|);
    } else {
      if CompletelyOverlap(a[i], b[j]) {
        TraceUses(a, b, i + 1, j + 1);
        assert Range(i, |a|) == [i] + Range(i + 1, |a|);
        assert Range(j, |b|) == [j] + Range(j + 1, |b|);
        assert t[1..] == Trace(a, b, i + 1, j + 1);
      } else if a[i].start < b[j].start {
        TraceUses(a, b, i + 1, j);
        assert Range(i, |a|) == [i] + Range(i + 1, |a|);
        assert t[1..] == Trace(a, b, i + 1, j);
      } else {
        TraceUses(a, b, i, j + 1);
        assert Range(j, |b|) == [j] + Range(j + 1, |b|);
        assert t[1..] == Trace(a, b, i, j + 1);
      }
    }
  }

  lemma {:induction false} UsesOnlyB(t: seq<Origin>, j: nat, n: nat)
    requires j <= n && t == seq(n - j, k requires 0 <= k => FromB(j + k))
    ensures UsesA(t) == [] && UsesB(t) == Range(j, n) && Fused(t) == 0
    decreases n - j
  {
    if j < n {
      UsesOnlyB(t[1..], j + 1, n);
      assert Range(j, n) == [j] + Range(j + 1, n);
    }
  }

  lemma {:induction false} UsesOnlyA(t: seq<Origin>, i: nat, n: nat)
    requires i <= n && t == seq(n - i, k requires 0 <= k => FromA(i + k))
    ensures UsesB(t) == [] && UsesA(t) == Range(i, n) && Fused(t) == 0
    decreases n - i
  {
    if i < n {
      UsesOnlyA(t[1..], i + 1, n);
      assert Range(i, n) == [i] + Range(i + 1, n);
    }
  }

  /** The output has one cue for every input cue, less one for every fused pair. */
  lemma {:induction false} TraceCounts(t: seq<Origin>)
    ensures |t| + Fused(t) == |UsesA(t)| + |UsesB(t)|
  {
    if t != [] {
      TraceCounts(t[1..]);
    }
  }

  /** Output length is len(a) + len(b) minus the number of fused pairs. */
  lemma MergeLength(a: seq<Cue>, b: seq<Cue>)
    ensures |MergeJoin(a, b)| == |a| + |b| - Fused(Trace(a, b, 0, 0))
  {
    TraceRealizes(a, b, 0, 0);
    TraceUses(a, b, 0, 0);
    TraceCounts(Trace(a, b, 0, 0));
    assert a[0..] == a && b[0..] == b;
  }

  /** When one queue is empty the result is the other one. */
  lemma MergeWithEmpty(a: seq<Cue>, b: seq<Cue>)
    ensures MergeJoin([], b) == b && MergeJoin(a, []) == a
  {
  }

  /** With heads that do not overlap, a's head comes out first iff it starts strictly earlier. */
  lemma FirstOfDisjointHeads(a: seq<Cue>, b: seq<Cue>)
    requires a != [] && b != [] && !CompletelyOverlap(a[0], b[0])
    ensures MergeJoin(a, b)[0] == if a[0].start < b[0].start then a[0] else b[0]
  {
  }

  predicate SortedByStart(s: seq<Cue>)
  {
    forall x, y :: 0 <= x < y < |s| ==> s[x].start <= s[y].start
  }

  predicate StartsFrom(s: seq<Cue>, t: int)
  {
    forall k :: 0 <= k < |s| ==> t <= s[k].start
  }

  /** Nothing in the output starts before everything in the inputs does. */
  lemma {:induction false} MergeStartsFrom(a: seq<Cue>, b: seq<Cue>, t: int)
    requires StartsFrom(a, t) && StartsFrom(b, t)
    ensures StartsFrom(MergeJoin(a, b), t)
    decreases |a| + |b|
  {
    if a != [] && b != [] {
      if CompletelyOverlap(a[0], b[0]) {
        MergeStartsFrom(a[1..], b[1..], t);
      } else if a[0].start < b[0].start {
        MergeStartsFrom(a[1..], b, t);
      } else {
        MergeStartsFrom(a, b[1..], t);
      }
    }
  }

  /** Two tracks sorted by start merge into a track sorted by start. */
  lemma {:induction false} MergeSorted(a: seq<Cue>, b: seq<Cue>)
    requires SortedByStart(a) && SortedByStart(b)
    ensures SortedByStart(MergeJoin(a, b))
    decreases |a| + |b|
  {
    if a != [] && b != [] {
      var head: Cue, rest: seq<Cue>;
      if CompletelyOverlap(a[0], b[0]) {
        head, rest := Fuse(a[0], b[0]), MergeJoin(a[1..], b[1..]);
        MergeSorted(a[1..], b[1..]);
        MergeStartsFrom(a[1..], b[1..], head.start);
      } else if a[0].start < b[0].start {
        head, rest := a[0], MergeJoin(a[1..], b);
        MergeSorted(a[1..], b);
        MergeStartsFrom(a[1..], b, head.start);
      } else {
        head, rest := b[0], MergeJoin(a, b[1..]);
        MergeSorted(a, b[1..]);
        MergeStartsFrom(a, b[1..], head.start);
      }
      assert MergeJoin(a, b) == [head] + rest;
    }
  }
}
