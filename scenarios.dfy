/**
 * Concrete cases: the values main.py's unit tests check, and a list on
 * which running the split pass a second time still merges.
 */
module Scenarios {
  import opened Results
  import opened Text
  import opened Srt
  import opened Sweep
  import Dfxp
  import TrackMerge

  /** The entry test_subtitle_init expects. */
  function InitEntry(): Entry
  {
    Entry("1", "00:05:14", "00:06:19", "a\nb")
  }

  /** The segment of test_subtitle_init parses into its four fields. */
  lemma SegmentExample()
    ensures ParseSegment("1\n00:05:14 --> 00:06:19\na\nb") == Ok(InitEntry())
  {
    InitBlock();
    InitEntryPrintable();
    ParseRender(InitEntry());
  }

  lemma InitBlock()
    ensures Block(InitEntry()) == "1\n00:05:14 --> 00:06:19\na\nb"
  {
  }

  lemma InitEntryPrintable()
    ensures Printable(InitEntry())
  {
    var e := InitEntry();
    assert NoSpace(e.idx) && NoSpace(e.start) && NoSpace(e.end);
  }

  /** test_can_merge_split_subtitles: equal text and touching times merge; a changed text or end does not. */
  lemma CanMergeSplitExample()
    ensures var first, second := Entry("1", "00:05:14", "00:06:19", "a\nb"), Entry("2", "00:06:19", "00:08:93", "a\nb");
      CanMergeSplit(first, second) &&
      !CanMergeSplit(first.(content := "no"), second) &&
      !CanMergeSplit(first.(content := "no", end := "00:05:99"), second.(content := "no"))
  {
    assert "a\nb" != "no";
    assert "00:05:99" != "00:06:19";
  }

  /** test_extend: the first entry keeps its start and content and takes the second one's end. */
  lemma ExtendExample()
    ensures var first, second := Entry("1", "00:05:14", "00:06:19", "a\nb"), Entry("2", "00:06:19", "00:08:93", "a\nb");
      Extended(first, second) == Entry("1", "00:05:14", "00:08:93", "a\nb")
  {
  }

  /** The two entries of test_add_simultaneous_subtitles. */
  function LoveEntry(): Entry
  {
    Entry("1", "00:05:14", "00:07:19", "what is love")
  }

  function HurtEntry(): Entry
  {
    Entry("2", "00:06:19", "00:07:19", "don't hurt me")
  }

  /** test_add_simultaneous_subtitles: the two lines become a two-speaker caption. */
  lemma DialogueExample()
    ensures Joined(LoveEntry(), HurtEntry()).content == "-what is love\n-don't hurt me"
  {
    SingleLines();
    DialoguePlain(LoveEntry().content, HurtEntry().content);
    LoveHurtText();
  }

  lemma LoveHurtText()
    ensures "-" + LoveEntry().content + "\n-" + HurtEntry().content == "-what is love\n-don't hurt me"
  {
  }

  lemma SingleLines()
    ensures '\n' !in LoveEntry().content && '\n' !in HurtEntry().content
  {
  }

  /** Contents without line breaks are joined as they are. */
  lemma DialoguePlain(a: string, b: string)
    requires '\n' !in a && '\n' !in b
    ensures Dialogue(a, b) == "-" + a + "\n-" + b
  {
    NoNewlineFixed(a);
    NoNewlineFixed(b);
  }

  /** Two fragments of one caption, the second continuing where the first ends. */
  function Fragments(): seq<Entry>
  {
    [Entry("1", "00:00:01,000", "00:00:02,000", "hi"), Entry("2", "00:00:02,000", "00:00:03,000", "hi")]
  }

  /** The split pass joins the fragments into one caption spanning both. */
  lemma SplitPassExample()
    ensures Cleaned(SplitMerge, Fragments()) == [Entry("1", "00:00:01,000", "00:00:03,000", "hi")]
  {
    var es := Fragments();
    var c0 := Start(es);
    assert FirstMatch(SplitMerge, es, 0) == Some(1);
    assert Step(SplitMerge, es, 0, 1) == [Entry("1", "00:00:01,000", "00:00:03,000", "hi")];
    FinishAdvance(SplitMerge, c0);
    var c1 := Advance(SplitMerge, c0);
    FinishAdvance(SplitMerge, c1);
    FinishDone(SplitMerge, Advance(SplitMerge, c1));
  }

  /** Two captions starting together. */
  function SameStart(): seq<Entry>
  {
    [Entry("1", "00:00:01,000", "00:00:02,000", "a"), Entry("2", "00:00:01,000", "00:00:03,000", "b")]
  }

  /** The simultaneous pass turns them into one two-speaker caption. */
  lemma SimultaneousPassExample()
    ensures Cleaned(Simultaneous, SameStart()) == [Entry("1", "00:00:01,000", "00:00:02,000", "-a\n-b")]
  {
    var es := SameStart();
    var c0 := Start(es);
    assert FirstMatch(Simultaneous, es, 0) == Some(1);
    assert '\n' !in "a" && '\n' !in "b";
    DialoguePlain("a", "b");
    assert "-" + "a" + "\n-" + "b" == "-a\n-b";
    assert Step(Simultaneous, es, 0, 1) == [Entry("1", "00:00:01,000", "00:00:02,000", "-a\n-b")];
    FinishAdvance(Simultaneous, c0);
    var c1 := Advance(Simultaneous, c0);
    FinishAdvance(Simultaneous, c1);
    FinishDone(Simultaneous, Advance(Simultaneous, c1));
  }

  /** Two unrelated captions. */
  function Apart(): seq<Entry>
  {
    [Entry("1", "00:00:01,000", "00:00:02,000", "a"), Entry("2", "00:00:03,000", "00:00:04,000", "b")]
  }

  /** Neither pass touches them. */
  lemma NoMatchExample()
    ensures Cleaned(SplitMerge, Apart()) == Apart()
    ensures Cleaned(Simultaneous, Apart()) == Apart()
  {
    assert Settled(SplitMerge, Apart(), 0) && Settled(Simultaneous, Apart(), 0);
    PassUnchanged(SplitMerge, Apart());
    PassUnchanged(Simultaneous, Apart());
  }

  /** Two tracks whose captions are seconds apart come out side by side, unchanged. */
  lemma TrackMergeApartExample()
    ensures var x, y := Dfxp.Cue(1000, 2000, "x"), Dfxp.Cue(5000, 6000, "y");
      TrackMerge.MergeJoin([x], [y]) == [x, y]
  {
  }

  /** Captions starting 0.1 s apart are fused into one spanning both. */
  lemma TrackMergeOverlapExample()
    ensures var x, y := Dfxp.Cue(1000, 2000, "x"), Dfxp.Cue(1100, 2050, "y");
      TrackMerge.MergeJoin([x], [y]) == [Dfxp.Cue(1000, 2050, "x<br />y")]
  {
    assert "x" + TrackMerge.LineBreak + "y" == "x<br />y";
  }

  /**
   * A list on which the split pass is not idempotent: merging e2 into e1
   * pulls e6 into the window of e0, which the cursor has already left.
   */
  function Shifting(): seq<Entry>
  {
    [Entry("0", "a", "b", "A"), Entry("1", "c", "d", "B"), Entry("2", "d", "e", "B"),
     Entry("3", "f", "g", "C"), Entry("4", "h", "i", "D"), Entry("5", "j", "k", "E"),
     Entry("6", "b", "l", "A")]
  }

  /** The list after one split pass: e1 has absorbed e2, nothing else changed. */
  function ShiftedOnce(): seq<Entry>
  {
    [Entry("0", "a", "b", "A"), Entry("1", "c", "e", "B"),
     Entry("3", "f", "g", "C"), Entry("4", "h", "i", "D"), Entry("5", "j", "k", "E"),
     Entry("6", "b", "l", "A")]
  }

  /** Running merge_split_subtitles on its own output can merge again. */
  lemma SplitPassNotIdempotent()
    ensures Cleaned(SplitMerge, Shifting()) == ShiftedOnce()
    ensures Cleaned(SplitMerge, ShiftedOnce()) != ShiftedOnce()
  {
    var es, once := Shifting(), ShiftedOnce();
    ShiftingSteps();
    var c0 := Start(es);
    FinishAdvance(SplitMerge, c0);
    var c1 := Advance(SplitMerge, c0);
    FinishAdvance(SplitMerge, c1);
    var c2 := Advance(SplitMerge, c1);
    assert c2.es == once && c2.i == 1;
    OnceSettledFromOne();
    FinishUnchanged(SplitMerge, c2);
    OnceUnsettled();
    PassUnchanged(SplitMerge, once);
  }

  /** The first pass: nothing for e0, then e2 merges into e1. */
  lemma ShiftingSteps()
    ensures FirstMatch(SplitMerge, Shifting(), 0) == None
    ensures FirstMatch(SplitMerge, Shifting(), 1) == Some(2)
    ensures Step(SplitMerge, Shifting(), 1, 2) == ShiftedOnce()
  {
  }

  /** After that merge no window from position 1 on holds a candidate. */
  lemma OnceSettledFromOne()
    ensures Settled(SplitMerge, ShiftedOnce(), 1)
  {
    var once := ShiftedOnce();
    forall p, q | 1 <= p < |once| && InWindow(once, p, q)
      ensures !Qualifies(SplitMerge, once[p], once[q])
    {
    }
  }

  /** But e6 now sits in the window of e0 and continues it. */
  lemma OnceUnsettled()
    ensures !Settled(SplitMerge, ShiftedOnce(), 0)
  {
    var once := ShiftedOnce();
    assert InWindow(once, 0, 5) && Qualifies(SplitMerge, once[0], once[5]);
  }
}
