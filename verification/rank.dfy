/**
 * An over-wide candidate that `prettyFill` prefers to a feasible one (fill.go,
 * `prettyFill` and `addWord`).
 *
 * `addWord` records 2147483647 as the badness of a candidate with a line that
 * is too wide, and the search ranks that value like any other badness: the
 * bound is the greedy badness, and the final scan keeps the least badness
 * within it. Once the greedy fill is feasible but costs more than 2147483647,
 * an over-wide candidate is within the bound and beats every feasible one. At
 * width 50000, "a" followed by a word of 49999 letters is such a case: the
 * greedy fill breaks between the two words at a cost of 49999 * 49999 =
 * 2499900001, while "a" and the long word together make a line 50001 columns
 * wide.
 */
module SentinelRank {
  import opened Paragraphs
  import opened Greedy
  import opened Pretty
  import SentinelClash

  const RankWidth := 50000
  const Long: string := SentinelClash.Filler(49999)
  const RankWords: seq<string> := ["a", Long]
  const RankBound := 2499900001

  /** "a" on the first line. */
  const First := Para(0, [Line(["a"], 1)])
  /** An empty first line, then "a". */
  const Broken := Para(2500000000, [Line([], 0), Line(["a"], 1)])
  /** "a" and the long word on one line, one column too wide. */
  const OneLine := Para(Sentinel, [Line(["a", Long], 50001)])
  /** "a", then the long word: the greedy fill. */
  const TwoLines := Para(RankBound, [Line(["a"], 1), Line([Long], 49999)])

  lemma AddA()
    ensures AddWordTo(NewPara(), RankWidth, "a") == First
  {
    assert NewPara() == Para(0, [] + [NewLine()]) && [] + ["a"] == ["a"];
    AddOnto(0, [], NewLine(), RankWidth, "a");
  }

  lemma BreakA()
    ensures BreakAndAddTo(NewPara(), RankWidth, "a") == Broken
  {
    assert NewPara() == Para(0, [] + [NewLine()]);
    assert Cost(NewLine(), RankWidth) == 50000 * 50000 == 2500000000;
    BreakOnto(0, [], NewLine(), RankWidth, "a");
  }

  lemma AddLong()
    ensures AddWordTo(First, RankWidth, Long) == OneLine
  {
    assert First == Para(0, [] + [Line(["a"], 1)]) && ["a"] + [Long] == ["a", Long];
    AddOnto(0, [], Line(["a"], 1), RankWidth, Long);
  }

  lemma BreakLong()
    ensures BreakAndAddTo(First, RankWidth, Long) == TwoLines
  {
    assert First == Para(0, [] + [Line(["a"], 1)]);
    assert Cost(Line(["a"], 1), RankWidth) == 49999 * 49999 == RankBound;
    BreakOnto(0, [], Line(["a"], 1), RankWidth, Long);
  }

  lemma RankFill1()
    ensures Fill(RankWidth, ["a"]) == First
  {
    FillSnoc(RankWidth, [], "a");
    assert [] + ["a"] == ["a"];
    AddA();
  }

  /** The greedy fill: "a" joins the empty line, the long word starts a new one. */
  lemma RankFill()
    ensures Fill(RankWidth, RankWords) == TwoLines
  {
    RankFill1();
    FillSnoc(RankWidth, ["a"], Long);
    assert ["a"] + [Long] == RankWords;
    BreakLong();
  }

  lemma RankSearch1()
    ensures Search(RankWidth, ["a"], RankBound) == [First, Broken]
  {
    SearchSnoc(RankWidth, [], "a", RankBound);
    assert [] + ["a"] == ["a"];
    AddA();
    BreakA();
    ForksKeep([], NewPara(), RankWidth, "a", RankBound, Broken);
    assert [] + [NewPara()] == [NewPara()];
    PassIs([NewPara()], RankWidth, "a", RankBound, [First], [Broken]);
  }

  lemma RankGrown2()
    ensures Grown([First, Broken], RankWidth, Long, RankBound) == [OneLine, Broken]
  {
    AddLong();
  }

  lemma RankForks2()
    ensures Forks([First, Broken], RankWidth, Long, RankBound) == [TwoLines]
  {
    BreakLong();
    ForksKeep([], First, RankWidth, Long, RankBound, TwoLines);
    ForksSkip([First], Broken, RankWidth, Long, RankBound);
    assert [] + [First] == [First] && [First] + [Broken] == [First, Broken] && [] + [TwoLines] == [TwoLines];
  }

  lemma RankSearch2()
    ensures Search(RankWidth, RankWords, RankBound) == [OneLine, Broken, TwoLines]
  {
    RankSearch1();
    SearchSnoc(RankWidth, ["a"], Long, RankBound);
    assert ["a"] + [Long] == RankWords;
    RankGrown2();
    RankForks2();
    assert [OneLine, Broken] + [TwoLines] == [OneLine, Broken, TwoLines];
  }

  /** The greedy fill fits the width and holds both words. */
  lemma RankFeasible()
    ensures Fits(TwoLines.lines, RankWidth) && Words(TwoLines.lines) == RankWords
  {
    RankFill();
    FillWords(RankWidth, RankWords);
  }

  /**
   * The greedy fill is feasible and holds both words, yet its badness is above
   * the sentinel. Of the three candidates the search ends with, the first is
   * over-wide, within the bound and strictly better than the two after it, so
   * the final scan (`SelectBest`) returns it.
   */
  lemma OverWideChosen()
    ensures Fill(RankWidth, RankWords) == TwoLines && TwoLines.badness > Sentinel
    ensures Fits(TwoLines.lines, RankWidth) && Words(TwoLines.lines) == RankWords
    ensures Explored(RankWidth, RankWords) == [OneLine, Broken, TwoLines]
    ensures !Fits(OneLine.lines, RankWidth) && OneLine.badness <= TwoLines.badness
    ensures OneLine.badness < Broken.badness && OneLine.badness < TwoLines.badness
  {
    RankFill();
    RankFeasible();
    RankSearch2();
    assert OneLine.lines[0].width > RankWidth;
  }
}
