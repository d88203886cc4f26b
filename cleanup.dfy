/**
 * main.py's Subtitle objects and the two clean-up passes as they run: a
 * cursor over a list of objects, entries updated in place through extend
 * and add_simultaneous_sub, absorbed entries removed from the list. Each
 * pass is proved to compute the value-level pass of module Sweep.
 */
module Cleanup {
  import opened Results
  import opened Srt
  import opened Sweep

  /** A Subtitle object; its fields are what extend and add_simultaneous_sub update. */
  class Subtitle {
    var idx: string
    var start: string
    var end: string
    var content: string

    /** The fields at this moment, as a value. */
    function Value(): Entry
      reads this
    {
      Entry(idx, start, end, content)
    }

    /** A new object holding the fields of a parsed segment. */
    constructor (e: Entry)
      ensures Value() == e
    {
      idx, start, end, content := e.idx, e.start, e.end, e.content;
    }

    /** extend(next_subtitle): this entry now ends where next ends. */
    method Extend(next: Subtitle)
      modifies this
      ensures Value() == Extended(old(Value()), old(next.Value()))
    {
      end := next.end;
    }

    /**
     * add_simultaneous_sub(next_sub): both contents lose their line breaks,
     * then this content becomes the two-speaker caption of the pair.
     */
    method AddSimultaneousSub(next: Subtitle)
      modifies this, next
      ensures Value() == Joined(old(Value()), old(next.Value()))
      ensures next != this ==> next.Value() == old(next.Value()).(content := Flatten(old(next.content)))
    {
      FlattenIdempotent(content);
      content := Flatten(content);
      next.content := Flatten(next.content);
      content := "-" + content + "\n-" + next.content;
    }
  }

  /** The values held by a list of objects, in list order. */
  function Values(list: seq<Subtitle>): (r: seq<Entry>)
    reads list
    ensures |r| == |list| && forall k :: 0 <= k < |list| ==> r[k] == list[k].Value()
  {
    seq(|list|, k requires 0 <= k < |list| reads list => list[k].Value())
  }

  /** No object appears twice: list.remove(x) then deletes exactly x's position. */
  predicate Distinct(list: seq<Subtitle>)
  {
    forall j, k :: 0 <= j < k < |list| ==> list[j] != list[k]
  }

  /** parse_to_subtitles: one fresh object per parsed segment, or the segment error. */
  method ParseToSubtitles(text: string) returns (r: Result<seq<Subtitle>, SrtError>)
    ensures r.Err? <==> ParseFile(text).Err?
    ensures r.Ok? ==> Values(r.value) == ParseFile(text).value && Distinct(r.value)
    ensures r.Ok? ==> forall s :: s in r.value ==> fresh(s)
  {
    var parsed := ParseFile(text);
    if parsed.Err? {
      return Err(parsed.error);
    }
    var list := NewSubtitles(parsed.value);
    return Ok(list);
  }

  /** The list comprehension of parse_to_subtitles, one new object per entry. */
  method NewSubtitles(es: seq<Entry>) returns (list: seq<Subtitle>)
    ensures Values(list) == es && Distinct(list)
    ensures forall s :: s in list ==> fresh(s)
  {
    list := [];
    for k := 0 to |es|
      invariant |list| == k && forall p :: 0 <= p < k ==> list[p].Value() == es[p]
      invariant Distinct(list) && forall s :: s in list ==> fresh(s)
    {
      var s := new Subtitle(es[k]);
      list := list + [s];
    }
  }

  /**
   * The cursor loop both passes share: look for the first candidate in the
   * next five entries; if there is none advance, otherwise merge it into the
   * cursor entry and remove it, keeping the cursor where it is. The
   * assignment subtitles[current_idx] = current_sub stores the object that
   * is already there, so it has no counterpart here.
   */
  method RunPass(pass: Pass, subtitles: seq<Subtitle>) returns (list: seq<Subtitle>)
    requires Distinct(subtitles)
    modifies subtitles
    ensures Values(list) == Cleaned(pass, old(Values(subtitles)))
    ensures Distinct(list) && forall s :: s in list ==> s in subtitles
    ensures forall s :: s in subtitles && s !in list ==> s.Value() == Dropped(pass, old(s.Value()))
  {
    list := subtitles;
    var i := 0;
    ghost var orig := Values(list);
    ghost var state := Start(orig);
    ghost var init := map s | s in subtitles :: s.Value();
    while i < |list|
      invariant Distinct(list) && Tracked(pass, subtitles, list, i, init)
      invariant state.es == Values(list) && state.i == i && |state.kept| == |state.es|
      invariant Finish(pass, state) == Outcome(pass, orig)
      decreases |list| - i
    {
      FinishAdvance(pass, state);
      var m := FirstMatch(pass, Values(list), i);
      if m.None? {
        AdvanceSkips(pass, state);
        i := i + 1;
      } else {
        var j := m.value;
        AdvanceMerges(pass, state, j);
        TrackedListed(pass, subtitles, list, i, init, i);
        TrackedListed(pass, subtitles, list, i, init, j);
        list := MergeTracked(pass, subtitles, list, i, j, init);
      }
      state := Advance(pass, state);
    }
    FinishDone(pass, state);
  }

  lemma AdvanceSkips(pass: Pass, c: Cursor)
    requires c.i < |c.es| && |c.kept| == |c.es| && FirstMatch(pass, c.es, c.i).None?
    ensures Advance(pass, c).es == c.es && Advance(pass, c).i == c.i + 1
  {
  }

  lemma AdvanceMerges(pass: Pass, c: Cursor, j: nat)
    requires c.i < |c.es| && |c.kept| == |c.es| && FirstMatch(pass, c.es, c.i) == Some(j)
    ensures c.i < j < |c.es|
    ensures Advance(pass, c).es == Step(pass, c.es, c.i, j) && Advance(pass, c).i == c.i
  {
  }

  /**
   * What the loop keeps about the objects of the caller's list: each listed
   * object is one of them, the objects ahead of the cursor still hold what
   * they held when the pass began (init), and each object removed so far
   * holds what the pass leaves in a candidate.
   */
  ghost predicate Tracked(pass: Pass, subtitles: seq<Subtitle>, list: seq<Subtitle>, i: nat, init: map<Subtitle, Entry>)
    reads init.Keys
  {
    (forall s :: s in list ==> s in subtitles) &&
    (forall k :: i < k < |list| ==> list[k] in init && list[k].Value() == init[list[k]]) &&
    (forall s :: s in init && s !in list ==> s.Value() == Dropped(pass, init[s]))
  }

  lemma TrackedListed(pass: Pass, subtitles: seq<Subtitle>, list: seq<Subtitle>, i: nat, init: map<Subtitle, Entry>, k: nat)
    requires Tracked(pass, subtitles, list, i, init) && k < |list|
    ensures list[k] in subtitles
  {
    assert list[k] in list;
  }

  /** MergeAt inside the loop, keeping Tracked. */
  method MergeTracked(pass: Pass, ghost subtitles: seq<Subtitle>, list: seq<Subtitle>, i: nat, j: nat,
                      ghost init: map<Subtitle, Entry>)
    returns (rest: seq<Subtitle>)
    requires i < j < |list| && Distinct(list) && Tracked(pass, subtitles, list, i, init)
    modifies list[i], list[j]
    ensures Values(rest) == Step(pass, old(Values(list)), i, j)
    ensures Distinct(rest) && Tracked(pass, subtitles, rest, i, init)
  {
    rest := MergeAt(pass, list, i, j);
    AheadUntouched(list, rest, i, j);
    forall k | i < k < |rest|
      ensures rest[k] in init && rest[k].Value() == init[rest[k]]
    {
      var p := if k < j then k else k + 1;
      assert rest[k] == list[p] && list[p] != list[i] && list[p] != list[j];
    }
    forall s | s in init && s !in rest
      ensures s.Value() == Dropped(pass, init[s])
    {
      if s != list[j] {
        assert s !in list && s != list[i];
      }
    }
  }

  /**
   * One merge of the loop: the cursor object absorbs the candidate object,
   * which is then removed from the list (subtitles.remove by identity).
   */
  method MergeAt(pass: Pass, list: seq<Subtitle>, i: nat, j: nat) returns (rest: seq<Subtitle>)
    requires i < j < |list| && Distinct(list)
    modifies list[i], list[j]
    ensures Values(rest) == Step(pass, old(Values(list)), i, j)
    ensures Distinct(rest) && rest == Remove(list, j) && list[j] !in rest
    ensures list[j].Value() == Dropped(pass, old(list[j].Value()))
  {
    ghost var es := Values(list);
    var cur, cand := list[i], list[j];
    if pass.SplitMerge? {
      cur.Extend(cand);
    } else {
      cur.AddSimultaneousSub(cand);
    }
    forall k | 0 <= k < |list| && k != i && k != j ensures list[k].Value() == es[k] {
      assert list[k] != cur && list[k] != cand;
    }
    rest := Remove(list, j);
    StepValues(pass, list, i, j, es);
    RemoveDistinct(list, j);
  }

  /**
   * After a merge at (i, j) the entries ahead of the cursor are the objects
   * that were ahead of it, and every object but the candidate stays listed.
   */
  lemma AheadUntouched(before: seq<Subtitle>, rest: seq<Subtitle>, i: nat, j: nat)
    requires i < j < |before| && rest == Remove(before, j)
    ensures forall k :: i < k < |rest| ==> rest[k] == before[if k < j then k else k + 1]
    ensures forall s :: s in before && s != before[j] ==> s in rest
  {
    forall s | s in before && s != before[j] ensures s in rest {
      var q :| 0 <= q < |before| && before[q] == s;
      assert s == rest[if q < j then q else q - 1];
    }
  }

  /** The values after a merge in place are those of the value-level step. */
  lemma StepValues(pass: Pass, list: seq<Subtitle>, i: nat, j: nat, es: seq<Entry>)
    requires i < j < |list| == |es|
    requires list[i].Value() == Absorb(pass, es[i], es[j])
    requires forall k :: 0 <= k < |list| && k != i && k != j ==> list[k].Value() == es[k]
    ensures Values(Remove(list, j)) == Step(pass, es, i, j)
  {
  }

  /** Removing a position keeps the other objects, each once. */
  lemma RemoveDistinct(list: seq<Subtitle>, j: nat)
    requires j < |list| && Distinct(list)
    ensures Distinct(Remove(list, j)) && forall s :: s in Remove(list, j) ==> s in list
    ensures list[j] !in Remove(list, j)
  {
    var rest := Remove(list, j);
    forall s | s in rest ensures s in list && s != list[j] {
      var k :| 0 <= k < |rest| && rest[k] == s;
      assert s == list[if k < j then k else k + 1];
    }
  }

  /** merge_split_subtitles: the split pass, on the caller's objects. */
  method MergeSplitSubtitles(subtitles: seq<Subtitle>) returns (r: seq<Subtitle>)
    requires Distinct(subtitles)
    modifies subtitles
    ensures Values(r) == Cleaned(SplitMerge, old(Values(subtitles)))
    ensures Distinct(r) && forall s :: s in r ==> s in subtitles
    ensures forall s :: s in subtitles && s !in r ==> s.Value() == old(s.Value())
  {
    r := RunPass(SplitMerge, subtitles);
  }

  /** combine_simultaneous_subtitles: the simultaneous pass, on the caller's objects. */
  method CombineSimultaneousSubtitles(subtitles: seq<Subtitle>) returns (r: seq<Subtitle>)
    requires Distinct(subtitles)
    modifies subtitles
    ensures Values(r) == Cleaned(Simultaneous, old(Values(subtitles)))
    ensures Distinct(r) && forall s :: s in r ==> s in subtitles
    ensures forall s :: s in subtitles && s !in r ==> s.Value() == old(s.Value()).(content := Flatten(old(s.content)))
  {
    r := RunPass(Simultaneous, subtitles);
  }
}
