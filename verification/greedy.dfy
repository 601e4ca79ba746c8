/**
 * Greedy filling (fill.go, `greedyFill`): one pass over the words, breaking
 * before a word when the current line's width plus the word's length reaches
 * the target width. `Fill` is the result as a value; `GreedyFill` builds it
 * in place on a candidate.
 */
module Greedy {
  import opened Paragraphs
  import opened Candidates

  /** Every word is at most `width` long. */
  predicate AllFit(width: int, words: seq<string>)
  {
    forall i :: 0 <= i < |words| ==> |words[i]| <= width
  }

  /** Every word but the last is at most `width` long. */
  predicate NonLastFit(width: int, words: seq<string>)
  {
    forall i :: 0 <= i < |words| - 1 ==> |words[i]| <= width
  }

  /** The test that decides a break: the gap before the word is not counted, `>=` stands in for it. */
  predicate BreaksBefore(p: Para, width: int, w: string)
    requires p.lines != []
  {
    Last(p).width + |w| >= width
  }

  /** One step of the greedy pass. */
  function Step(p: Para, width: int, w: string): (r: Para)
    requires p.lines != []
    ensures r.lines != []
  {
    if BreaksBefore(p, width, w) then BreakAndAddTo(p, width, w) else AddWordTo(p, width, w)
  }

  /** The candidate the greedy pass builds for `words`. */
  function Fill(width: int, words: seq<string>): (r: Para)
    ensures r.lines != []
  {
    if words == [] then NewPara()
    else Step(Fill(width, words[..|words| - 1]), width, words[|words| - 1])
  }

  /** `greedyFill`, in place on a fresh candidate. */
  method GreedyFill(width: int, words: seq<string>) returns (c: Candidate)
    requires 0 < width
    requires NonLastFit(width, words)
    ensures fresh(c)
    ensures c.Valid(width)
    ensures c.View() == Fill(width, words)
  {
    c := new Candidate();
    NewParaFaithful(width);
    for i := 0 to |words|
      invariant c.Valid(width)
      invariant c.View() == Fill(width, words[..i])
    {
      var w := words[i];
      assert words[..i + 1][..i] == words[..i];
      FillFits(width, words[..i]);
      if c.paragraph[|c.paragraph| - 1].width + |w| >= width {
        c.BreakAndAdd(width, w);
      } else {
        c.AddWord(width, w);
      }
    }
    assert words[..|words|] == words;
  }

  /** The greedy pass places every word exactly once, in order, and keeps every width exact. */
  lemma {:induction false} FillWords(width: int, words: seq<string>)
    ensures WellFormed(Fill(width, words).lines)
    ensures Words(Fill(width, words).lines) == words
  {
    if words == [] {
      assert [NewLine()][..0] == [];
    } else {
      var prefix, w := words[..|words| - 1], words[|words| - 1];
      SplitLast(words);
      FillWords(width, prefix);
      StepWellFormed(Fill(width, prefix), width, w);
      StepAppendsWord(Fill(width, prefix), width, w);
    }
  }

  lemma StepAppendsWord(p: Para, width: int, w: string)
    requires p.lines != []
    ensures Words(Step(p, width, w).lines) == Words(p.lines) + [w]
  {
    if BreaksBefore(p, width, w) {
      BreakAndAddAppendsWord(p, width, w);
    } else {
      AddWordAppendsWord(p, width, w);
    }
  }

  lemma StepWellFormed(p: Para, width: int, w: string)
    requires WellFormed(p.lines)
    ensures WellFormed(Step(p, width, w).lines)
  {
    if BreaksBefore(p, width, w) {
      BreakAndAddWellFormed(p, width, w);
    } else {
      AddWordWellFormed(p, width, w);
    }
  }

  /** When every word fits, no line of the greedy result is wider than `width`. */
  lemma {:induction false} FillFits(width: int, words: seq<string>)
    requires 0 < width
    requires AllFit(width, words)
    ensures Fits(Fill(width, words).lines, width)
  {
    if words != [] {
      var prefix := words[..|words| - 1];
      FillFits(width, prefix);
      StepFits(Fill(width, prefix), width, words[|words| - 1]);
    }
  }

  /** A greedy step with a word that fits keeps every line within `width`. */
  lemma StepFits(q: Para, width: int, w: string)
    requires q.lines != [] && Fits(q.lines, width) && |w| <= width
    ensures Fits(Step(q, width, w).lines, width)
  {
    var r := Step(q, width, w);
    var n := |q.lines|;
    if BreaksBefore(q, width, w) {
      forall i | 0 <= i < |r.lines| ensures r.lines[i].width <= width {
        if i < n { assert r.lines[i] == q.lines[i]; }
      }
    } else {
      forall i | 0 <= i < |r.lines| ensures r.lines[i].width <= width {
        if i < n - 1 { assert r.lines[i] == q.lines[..n - 1][i]; }
      }
    }
  }

  /**
   * The greedy result keeps the invariant that `fidelity` checks when every
   * word but the last fits (the last one may leave the candidate infeasible).
   */
  lemma {:induction false} FillFaithful(width: int, words: seq<string>)
    requires 0 < width
    requires NonLastFit(width, words)
    ensures Faithful(Fill(width, words), width)
  {
    if words == [] {
      NewParaFaithful(width);
    } else {
      var prefix, w := words[..|words| - 1], words[|words| - 1];
      var q := Fill(width, prefix);
      FillFaithful(width, prefix);
      FillFits(width, prefix);
      if BreaksBefore(q, width, w) {
        BreakAndAddKeepsFaithful(q, width, w);
      } else {
        AddWordKeepsFaithful(q, width, w);
      }
    }
  }

  /** Placing a word that fits never lowers the greedy badness. */
  lemma StepBadnessGrows(p: Para, width: int, w: string)
    requires p.lines != [] && |w| <= width
    ensures p.badness <= Step(p, width, w).badness
  {
  }

  /** When every word fits, the badness of the greedy pass after any prefix is at most its final badness. */
  lemma {:induction false} FillBadnessGrows(width: int, words: seq<string>, k: nat)
    requires AllFit(width, words)
    requires k <= |words|
    ensures Fill(width, words[..k]).badness <= Fill(width, words).badness
  {
    if k < |words| {
      var prefix := words[..|words| - 1];
      assert prefix[..k] == words[..k];
      FillBadnessGrows(width, prefix, k);
      StepBadnessGrows(Fill(width, prefix), width, words[|words| - 1]);
    } else {
      assert words[..k] == words;
    }
  }

  /**
   * The break rule, stated on the result: every line after the first starts a
   * break that was forced (the previous width plus the first word reaches
   * `width`), and every word after the first on a line was added because the
   * width before it plus its length stayed below `width`.
   */
  ghost predicate BreakRule(width: int, lines: seq<Line>)
  {
    && (forall i :: 1 <= i < |lines| ==> lines[i].words != [] && lines[i - 1].width + |lines[i].words[0]| >= width)
    && (forall i, j :: 0 <= i < |lines| && 1 <= j < |lines[i].words| ==>
          RenderWidth(lines[i].words[..j]) + |lines[i].words[j]| < width)
  }

  lemma {:induction false} FillBreakRule(width: int, words: seq<string>)
    ensures BreakRule(width, Fill(width, words).lines)
  {
    if words != [] {
      var prefix, w := words[..|words| - 1], words[|words| - 1];
      var q := Fill(width, prefix);
      FillBreakRule(width, prefix);
      FillWords(width, prefix);
      if BreaksBefore(q, width, w) {
        BreakKeepsRule(q, width, w);
      } else {
        AddKeepsRule(q, width, w);
      }
    }
  }

  lemma BreakKeepsRule(q: Para, width: int, w: string)
    requires WellFormed(q.lines) && BreakRule(width, q.lines) && BreaksBefore(q, width, w)
    ensures BreakRule(width, Step(q, width, w).lines)
  {
    var r := Step(q, width, w);
    var n := |q.lines|;
    assert (q.lines + [NewLine()])[..n] == q.lines;
    assert [] + [w] == [w];
    assert r.lines == q.lines + [Line([w], |w|)];
    forall i | 1 <= i < |r.lines|
      ensures r.lines[i].words != [] && r.lines[i - 1].width + |r.lines[i].words[0]| >= width
    {
      if i < n { assert r.lines[i] == q.lines[i] && r.lines[i - 1] == q.lines[i - 1]; }
    }
    forall i, j | 0 <= i < |r.lines| && 1 <= j < |r.lines[i].words|
      ensures RenderWidth(r.lines[i].words[..j]) + |r.lines[i].words[j]| < width
    {
      assert i < n && r.lines[i] == q.lines[i];
    }
  }

  lemma AddKeepsRule(q: Para, width: int, w: string)
    requires WellFormed(q.lines) && BreakRule(width, q.lines) && !BreaksBefore(q, width, w)
    ensures BreakRule(width, Step(q, width, w).lines)
  {
    var r := Step(q, width, w);
    var n := |q.lines|;
    var l := Last(q);
    assert r.lines[..n - 1] == q.lines[..n - 1];
    assert r.lines[n - 1].words == l.words + [w];
    forall i | 1 <= i < |r.lines|
      ensures r.lines[i].words != [] && r.lines[i - 1].width + |r.lines[i].words[0]| >= width
    {
      assert r.lines[i - 1] == q.lines[..n - 1][i - 1];
      if i < n - 1 {
        assert r.lines[i] == q.lines[..n - 1][i];
      } else {
        assert q.lines[i].words != [];
        assert r.lines[i].words[0] == q.lines[i].words[0];
      }
    }
    forall i, j | 0 <= i < |r.lines| && 1 <= j < |r.lines[i].words|
      ensures RenderWidth(r.lines[i].words[..j]) + |r.lines[i].words[j]| < width
    {
      if i < n - 1 {
        assert r.lines[i] == q.lines[..n - 1][i];
      } else if j < |l.words| {
        assert r.lines[i].words[..j] == l.words[..j];
        assert r.lines[i].words[j] == l.words[j];
      } else {
        assert r.lines[i].words[..j] == l.words;
      }
    }
  }

  /**
   * The first line is left empty exactly when the first word alone reaches
   * `width`: the break test runs even on an empty line, and the empty line is
   * then closed and kept.
   */
  lemma {:induction false} FirstLineQuirk(width: int, words: seq<string>)
    requires words != []
    ensures Fill(width, words).lines[0].words == [] <==> |words[0]| >= width
    ensures |words[0]| >= width ==> |Fill(width, words).lines| >= 2
  {
    var prefix, w := words[..|words| - 1], words[|words| - 1];
    if prefix == [] {
      assert words == [w];
      if BreaksBefore(NewPara(), width, w) {
        BreakAndAddShape(NewPara(), width, w);
      }
    } else {
      FirstLineQuirk(width, prefix);
      assert prefix[0] == words[0];
      StepKeepsFirst(Fill(width, prefix), width, w);
    }
  }

  /** A greedy step never touches the first line once a second exists, and never empties it. */
  lemma StepKeepsFirst(p: Para, width: int, w: string)
    requires p.lines != []
    ensures |Step(p, width, w).lines| >= |p.lines|
    ensures |p.lines| >= 2 ==> Step(p, width, w).lines[0] == p.lines[0]
    ensures p.lines[0].words != [] ==> Step(p, width, w).lines[0].words != []
  {
    var n := |p.lines|;
    if BreaksBefore(p, width, w) {
      BreakAndAddShape(p, width, w);
    } else if n >= 2 {
      assert Step(p, width, w).lines[0] == p.lines[..n - 1][0];
    }
  }

  /** The greedy fill of `words + [w]` is one step after that of `words`. */
  lemma FillSnoc(width: int, words: seq<string>, w: string)
    ensures Fill(width, words + [w]) == Step(Fill(width, words), width, w)
  {
    assert (words + [w])[..|words|] == words;
  }
}
