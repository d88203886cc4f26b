/**
 * The two windowed clean-up passes of main.py, on entry values: the cursor
 * walk shared by merge_split_subtitles and combine_simultaneous_subtitles,
 * the per-pass matching rule and entry update, and what a whole pass keeps,
 * drops and changes.
 */
module Sweep {
  import opened Results
  import opened Text
  import opened Srt

  /** How many entries after the cursor a pass looks at (the slice [i+1:i+6]). */
  const Window: nat := 5

  /** merge_split_subtitles or combine_simultaneous_subtitles. */
  datatype Pass = SplitMerge | Simultaneous

  /** can_merge_split_subtitles(first, second). */
  predicate CanMergeSplit(first: Entry, second: Entry)
  {
    first.end == second.start && first.content == second.content
  }

  /** The filter of each pass's list comprehension: does cand qualify for cur? */
  predicate Qualifies(pass: Pass, cur: Entry, cand: Entry)
  {
    match pass
    case SplitMerge => cand.content == cur.content && cand.start == cur.end
    case Simultaneous => cand.start == cur.start || cand.end == cur.end
  }

  /** The split pass's filter is can_merge_split_subtitles(cur, cand). */
  lemma SplitFilterIsCanMerge(cur: Entry, cand: Entry)
    ensures Qualifies(SplitMerge, cur, cand) <==> CanMergeSplit(cur, cand)
  {
  }

  /** Subtitle.extend(next) applied to a copy of cur. */
  function Extended(cur: Entry, next: Entry): (r: Entry)
    ensures r.end == next.end
    ensures r.idx == cur.idx && r.start == cur.start && r.content == cur.content
  {
    cur.(end := next.end)
  }

  /** A content with its line breaks replaced by spaces: content.replace('\n', ' '). */
  function Flatten(s: string): (r: string)
    ensures |r| == |s| && '\n' !in r
    ensures forall k :: 0 <= k < |s| && s[k] != '\n' ==> r[k] == s[k]
    ensures forall k :: 0 <= k < |s| && s[k] == '\n' ==> r[k] == ' '
  {
    var r := Replace(s, '\n', ' ');
    assert forall k :: 0 <= k < |r| ==> r[k] != '\n';
    r
  }

  /** Flattening twice is flattening once. */
  lemma FlattenIdempotent(s: string)
    ensures Flatten(Flatten(s)) == Flatten(s)
  {
    NoNewlineFixed(Flatten(s));
  }

  /** A text without line breaks is left alone by Flatten. */
  lemma NoNewlineFixed(s: string)
    requires '\n' !in s
    ensures Flatten(s) == s
  {
    assert forall k :: 0 <= k < |s| ==> s[k] != '\n' by {
      forall k | 0 <= k < |s| ensures s[k] != '\n' { assert s[k] in s; }
    }
  }

  /** The two-speaker caption add_simultaneous_sub builds: "-a\n-b" of the flattened contents. */
  function Dialogue(first: string, second: string): (r: string)
    ensures Count(r, '\n') == 1
    ensures r == "-" + Flatten(first) + "\n-" + Flatten(second)
  {
    var a, b := Flatten(first), Flatten(second);
    CountAbsent(a, '\n');
    CountAbsent(b, '\n');
    CountAppend("-" + a, "\n-" + b, '\n');
    CountAppend("-", a, '\n');
    CountAppend("\n-", b, '\n');
    assert "-" + a + "\n-" + b == ("-" + a) + ("\n-" + b);
    "-" + a + "\n-" + b
  }

  /** Subtitle.add_simultaneous_sub(next) applied to a copy of cur. */
  function Joined(cur: Entry, next: Entry): (r: Entry)
    ensures r.idx == cur.idx && r.start == cur.start && r.end == cur.end
    ensures r.content == Dialogue(cur.content, next.content)
  {
    cur.(content := Dialogue(cur.content, next.content))
  }

  /** What a pass does to the cursor entry when cand is merged into it. */
  function Absorb(pass: Pass, cur: Entry, cand: Entry): Entry
  {
    match pass
    case SplitMerge => Extended(cur, cand)
    case Simultaneous => Joined(cur, cand)
  }

  /**
   * What a pass leaves in the candidate it removes from the list: untouched
   * by the split pass, its content flattened by the simultaneous pass.
   */
  function Dropped(pass: Pass, cand: Entry): Entry
  {
    match pass
    case SplitMerge => cand
    case Simultaneous => cand.(content := Flatten(cand.content))
  }

  /** The fields a pass never changes: idx and start always, and content or end by pass. */
  predicate Survives(pass: Pass, e: Entry, orig: Entry)
  {
    e.idx == orig.idx && e.start == orig.start &&
    match pass
    case SplitMerge => e.content == orig.content
    case Simultaneous => e.end == orig.end
  }

  /** Positions the cursor at i looks at: i+1 .. i+5, cut off at the end of the list. */
  predicate InWindow(es: seq<Entry>, i: int, k: int)
  {
    i < k < |es| && k <= i + Window
  }

  /**
   * potential_matches[0]: the nearest position in the window of i whose
   * entry qualifies, or None when the comprehension is empty.
   */
  function FirstMatch(pass: Pass, es: seq<Entry>, i: nat): (m: Option<nat>)
    requires i < |es|
    ensures m.Some? ==> InWindow(es, i, m.value) && Qualifies(pass, es[i], es[m.value])
    ensures m.Some? ==> forall k :: i < k < m.value ==> !Qualifies(pass, es[i], es[k])
    ensures m.None? <==> forall k :: InWindow(es, i, k) ==> !Qualifies(pass, es[i], es[k])
  {
    ScanFrom(pass, es, i, i + 1)
  }

  /** The nearest qualifying position in the window of i at or after k. */
  function ScanFrom(pass: Pass, es: seq<Entry>, i: nat, k: nat): (m: Option<nat>)
    requires i < k && i < |es|
    requires forall p :: i < p < k && p < |es| ==> !Qualifies(pass, es[i], es[p])
    ensures m.Some? ==> InWindow(es, i, m.value) && Qualifies(pass, es[i], es[m.value])
    ensures m.Some? ==> forall p :: i < p < m.value ==> !Qualifies(pass, es[i], es[p])
    ensures m.None? <==> forall p :: InWindow(es, i, p) ==> !Qualifies(pass, es[i], es[p])
    decreases |es| - k
  {
    if k >= |es| || k > i + Window then None
    else if Qualifies(pass, es[i], es[k]) then Some(k)
    else ScanFrom(pass, es, i, k + 1)
  }

  /** list.remove(x) for the x at position j: the list without that position. */
  function Remove<T>(s: seq<T>, j: nat): (r: seq<T>)
    requires j < |s|
    ensures |r| == |s| - 1
    ensures forall k :: 0 <= k < j ==> r[k] == s[k]
    ensures forall k :: j <= k < |r| ==> r[k] == s[k + 1]
  {
    s[..j] + s[j + 1..]
  }

  /** One merge: the cursor entry absorbs the entry at j, which leaves the list. */
  function Step(pass: Pass, es: seq<Entry>, i: nat, j: nat): (r: seq<Entry>)
    requires i < j < |es|
    ensures |r| == |es| - 1
    ensures r[i] == Absorb(pass, es[i], es[j])
    ensures forall k :: 0 <= k < j && k != i ==> r[k] == es[k]
    ensures forall k :: j <= k < |r| ==> r[k] == es[k + 1]
  {
    Remove(es[i := Absorb(pass, es[i], es[j])], j)
  }

  /**
   * The state of a pass between two rounds of its loop: the list, the
   * cursor, for each entry of the list the position of the input entry it
   * grew from, and the number of merges so far.
   */
  datatype Cursor = Cursor(es: seq<Entry>, i: nat, kept: seq<nat>, merges: nat)

  /** The state before the first round: every entry is its own origin. */
  function Start(es: seq<Entry>): (c: Cursor)
    ensures c.es == es && c.i == 0 && c.merges == 0
    ensures |c.kept| == |es| && forall k :: 0 <= k < |es| ==> c.kept[k] == k
  {
    Cursor(es, 0, seq(|es|, k requires 0 <= k => k), 0)
  }

  /**
   * One round of the loop: with no candidate the cursor moves on; otherwise
   * the first candidate is merged into the cursor entry and removed, and
   * the cursor stays put. Either way one entry fewer is left to visit.
   */
  function Advance(pass: Pass, c: Cursor): (d: Cursor)
    requires c.i < |c.es| && |c.kept| == |c.es|
    ensures |d.kept| == |d.es| && c.i <= d.i <= |d.es|
    ensures |d.es| - d.i == |c.es| - c.i - 1
  {
    match FirstMatch(pass, c.es, c.i)
    case None => c.(i := c.i + 1)
    case Some(j) => Cursor(Step(pass, c.es, c.i, j), c.i, Remove(c.kept, j), c.merges + 1)
  }

  /** The loop run from state c until the cursor is past the end. */
  function Finish(pass: Pass, c: Cursor): (d: Cursor)
    requires |c.kept| == |c.es|
    ensures |d.kept| == |d.es| && d.i >= |d.es|
    decreases |c.es| - c.i
  {
    if c.i >= |c.es| then c else Finish(pass, Advance(pass, c))
  }

  /** Finish, one round at a time. */
  lemma FinishAdvance(pass: Pass, c: Cursor)
    requires c.i < |c.es| && |c.kept| == |c.es|
    ensures Finish(pass, c) == Finish(pass, Advance(pass, c))
  {
  }

  /** With the cursor past the end the loop is over. */
  lemma FinishDone(pass: Pass, c: Cursor)
    requires c.i >= |c.es| && |c.kept| == |c.es|
    ensures Finish(pass, c) == c
  {
  }

  /** The final state of a whole pass. */
  function Outcome(pass: Pass, es: seq<Entry>): Cursor
  {
    Finish(pass, Start(es))
  }

  /** The list a whole pass returns. */
  function Cleaned(pass: Pass, es: seq<Entry>): seq<Entry>
  {
    Outcome(pass, es).es
  }

  /** No entry in the window of any position from i on qualifies for it. */
  ghost predicate Settled(pass: Pass, es: seq<Entry>, i: nat)
  {
    forall p, q :: i <= p < |es| && InWindow(es, p, q) ==> !Qualifies(pass, es[p], es[q])
  }

  predicate Increasing(s: seq<nat>)
  {
    forall a, b :: 0 <= a < b < |s| ==> s[a] < s[b]
  }

  /**
   * What every state of a pass over orig satisfies: the list is shorter
   * than orig by the number of merges, and its entries grew from distinct
   * entries of orig, in orig's order, keeping the fields the pass never
   * changes.
   */
  predicate Tracks(pass: Pass, orig: seq<Entry>, c: Cursor)
  {
    |c.kept| == |c.es| && |c.es| + c.merges == |orig| && Increasing(c.kept) &&
    forall k :: 0 <= k < |c.kept| ==> c.kept[k] < |orig| && Survives(pass, c.es[k], orig[c.kept[k]])
  }

  lemma StartTracks(pass: Pass, es: seq<Entry>)
    ensures Tracks(pass, es, Start(es))
  {
  }

  /** One round keeps the bookkeeping right. */
  lemma AdvanceTracks(pass: Pass, orig: seq<Entry>, c: Cursor)
    requires c.i < |c.es| && Tracks(pass, orig, c)
    ensures Tracks(pass, orig, Advance(pass, c))
  {
    var m := FirstMatch(pass, c.es, c.i);
    if m.Some? {
      MergeTracks(pass, orig, c, m.value);
    }
  }

  /** A merge with the entry at j keeps the bookkeeping right. */
  lemma MergeTracks(pass: Pass, orig: seq<Entry>, c: Cursor, j: nat)
    requires c.i < j < |c.es| && Tracks(pass, orig, c)
    ensures Tracks(pass, orig, Cursor(Step(pass, c.es, c.i, j), c.i, Remove(c.kept, j), c.merges + 1))
  {
    var es, kept := Step(pass, c.es, c.i, j), Remove(c.kept, j);
    RemoveIncreasing(c.kept, j);
    forall k | 0 <= k < |kept|
      ensures kept[k] < |orig| && Survives(pass, es[k], orig[kept[k]])
    {
      var o := if k < j then k else k + 1;
      assert kept[k] == c.kept[o];
      StepSurvives(pass, c.es, c.i, j, k);
      SurvivesTrans(pass, es[k], c.es[o], orig[c.kept[o]]);
    }
  }

  lemma RemoveIncreasing(s: seq<nat>, j: nat)
    requires j < |s| && Increasing(s)
    ensures Increasing(Remove(s, j))
  {
    var r := Remove(s, j);
    forall a, b | 0 <= a < b < |r| ensures r[a] < r[b] {
      var oa, ob := if a < j then a else a + 1, if b < j then b else b + 1;
      assert r[a] == s[oa] && r[b] == s[ob];
    }
  }

  /** The whole remaining loop keeps the bookkeeping right. */
  lemma {:induction false} FinishTracks(pass: Pass, orig: seq<Entry>, c: Cursor)
    requires Tracks(pass, orig, c)
    ensures Tracks(pass, orig, Finish(pass, c))
    decreases |c.es| - c.i
  {
    if c.i < |c.es| {
      AdvanceTracks(pass, orig, c);
      FinishTracks(pass, orig, Advance(pass, c));
    }
  }

  /**
   * A whole pass returns an order-preserving subsequence of its input, one
   * entry shorter per merge, each entry keeping the fields the pass never
   * changes (idx and start, and content or end).
   */
  lemma PassTracks(pass: Pass, es: seq<Entry>)
    ensures Tracks(pass, es, Outcome(pass, es))
    ensures |Cleaned(pass, es)| == |es| - Outcome(pass, es).merges <= |es|
  {
    StartTracks(pass, es);
    FinishTracks(pass, es, Start(es));
  }

  /** Every entry of the list after one merge survives the entry it came from. */
  lemma StepSurvives(pass: Pass, es: seq<Entry>, i: nat, j: nat, p: nat)
    requires i < j < |es| && p < |es| - 1
    ensures var o := if p < j then p else p + 1;
      Survives(pass, Step(pass, es, i, j)[p], es[o])
  {
  }

  /** Survival composes: what survives a survivor survives the original. */
  lemma SurvivesTrans(pass: Pass, a: Entry, b: Entry, c: Entry)
    requires Survives(pass, a, b) && Survives(pass, b, c)
    ensures Survives(pass, a, c)
  {
  }

  /** One round leaves the entries before the cursor, and their origins, alone. */
  lemma AdvanceKeepsPrefix(pass: Pass, c: Cursor)
    requires c.i < |c.es| && |c.kept| == |c.es|
    ensures Advance(pass, c).es[..c.i] == c.es[..c.i]
    ensures Advance(pass, c).kept[..c.i] == c.kept[..c.i]
  {
    var d := Advance(pass, c);
    assert forall k :: 0 <= k < c.i ==> d.es[k] == c.es[k] && d.kept[k] == c.kept[k];
  }

  /** The entries before the cursor are never touched again, and stay their own origins. */
  lemma {:induction false} FinishKeepsPrefix(pass: Pass, c: Cursor)
    requires |c.kept| == |c.es| && c.i <= |c.es|
    ensures |Finish(pass, c).es| >= c.i
    ensures Finish(pass, c).es[..c.i] == c.es[..c.i]
    ensures Finish(pass, c).kept[..c.i] == c.kept[..c.i]
    decreases |c.es| - c.i
  {
    if c.i < |c.es| {
      var d := Advance(pass, c);
      AdvanceKeepsPrefix(pass, c);
      FinishKeepsPrefix(pass, d);
      var e := Finish(pass, d);
      PrefixOfPrefix(e.es, d.es, c.i, d.i);
      PrefixOfPrefix(e.kept, d.kept, c.i, d.i);
    }
  }

  lemma PrefixOfPrefix<T>(a: seq<T>, b: seq<T>, m: nat, n: nat)
    requires m <= n <= |a| && n <= |b| && a[..n] == b[..n]
    ensures a[..m] == b[..m]
  {
    assert a[..m] == a[..n][..m];
    assert b[..m] == b[..n][..m];
  }

  /** A run from c merges nothing exactly when no window pair from the cursor on qualifies. */
  lemma {:induction false} FinishUnchanged(pass: Pass, c: Cursor)
    requires |c.kept| == |c.es|
    ensures Finish(pass, c).merges >= c.merges
    ensures Finish(pass, c).merges == c.merges <==> Settled(pass, c.es, c.i)
    ensures Settled(pass, c.es, c.i) ==> Finish(pass, c).es == c.es
    decreases |c.es| - c.i
  {
    if c.i < |c.es| {
      var m := FirstMatch(pass, c.es, c.i);
      FinishUnchanged(pass, Advance(pass, c));
      if m.None? {
        SettledNext(pass, c.es, c.i);
      } else {
        MatchUnsettles(pass, c.es, c.i, m.value);
      }
    }
  }

  /** Past a cursor with no candidate, being settled from i or from i + 1 is the same. */
  lemma SettledNext(pass: Pass, es: seq<Entry>, i: nat)
    requires i < |es| && FirstMatch(pass, es, i).None?
    ensures Settled(pass, es, i) <==> Settled(pass, es, i + 1)
  {
  }

  /** A candidate in the window means the list is not settled. */
  lemma MatchUnsettles(pass: Pass, es: seq<Entry>, i: nat, j: nat)
    requires i < |es| && FirstMatch(pass, es, i) == Some(j)
    ensures !Settled(pass, es, i)
  {
  }

  /** The whole pass returns its input unchanged iff no window pair ever qualifies. */
  lemma PassUnchanged(pass: Pass, es: seq<Entry>)
    ensures Cleaned(pass, es) == es <==> Settled(pass, es, 0)
  {
    FinishUnchanged(pass, Start(es));
    PassTracks(pass, es);
  }

  /** In the simultaneous pass the survivor of a merge is a two-speaker caption. */
  lemma JoinedSurvivor(cur: Entry, next: Entry)
    ensures Survives(Simultaneous, Absorb(Simultaneous, cur, next), cur)
    ensures Count(Absorb(Simultaneous, cur, next).content, '\n') == 1
  {
  }
}
