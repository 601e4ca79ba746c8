/**
 * Value model of the paragraph filler's data (fill.go).
 *
 * A line is its words and its rendered width; the contents of a candidate are
 * its badness and its lines. The updates that `addWord` and `breakAndAdd`
 * perform in place are given here as functions on values, and the invariant
 * that `fidelity` checks is the predicate `Faithful`. The class in module
 * Candidates performs the same updates in place and is specified by these
 * functions.
 */
module Paragraphs {

  /** The badness a candidate records once one of its lines is wider than the target. */
  const Sentinel: int := 2147483647

  /** A line: its words and its width, kept up to date word by word. */
  datatype Line = Line(words: seq<string>, width: int)

  /** The contents of a candidate: its badness and its lines, in order. */
  datatype Para = Para(badness: int, lines: seq<Line>)

  /** Sum of the lengths of `ws`. */
  function TotalLength(ws: seq<string>): nat
  {
    if ws == [] then 0 else TotalLength(ws[..|ws| - 1]) + |ws[|ws| - 1]|
  }

  /** Width of `ws` joined by single spaces: the lengths plus one per gap. */
  function RenderWidth(ws: seq<string>): nat
  {
    if ws == [] then 0 else TotalLength(ws) + |ws| - 1
  }

  /** A non-empty sequence is its prefix followed by its last element. */
  lemma SplitLast<T>(s: seq<T>)
    requires s != []
    ensures s[..|s| - 1] + [s[|s| - 1]] == s
  {
  }

  lemma RenderWidthAppend(ws: seq<string>, w: string)
    ensures RenderWidth(ws + [w]) == RenderWidth(ws) + |w| + (if ws == [] then 0 else 1)
  {
    assert (ws + [w])[..|ws|] == ws;
    assert TotalLength(ws + [w]) == TotalLength(ws) + |w|;
  }

  /** The squared slack of a line against the target width. */
  function Cost(l: Line, target: int): (c: int)
    ensures c >= 0
    ensures c == 0 <==> l.width == target
  {
    var d := target - l.width;
    assert d != 0 ==> d * d > 0 by {
      if d > 0 { assert d * d >= d; } else if d < 0 { assert d * d >= -d; }
    }
    d * d
  }

  /** Sum of the costs of all of `lines`. */
  function Ragged(lines: seq<Line>, target: int): (r: int)
    ensures r >= 0
  {
    if lines == [] then 0 else Ragged(lines[..|lines| - 1], target) + Cost(lines[|lines| - 1], target)
  }

  /** Every line is at most `target` wide. */
  predicate Fits(lines: seq<Line>, target: int)
  {
    forall i :: 0 <= i < |lines| ==> lines[i].width <= target
  }

  /**
   * The badness a candidate with these lines should record: the sentinel if any
   * line is wider than the target, and otherwise the costs of all lines but the
   * last, which may be short at no cost.
   */
  function Badness(lines: seq<Line>, target: int): int
  {
    if !Fits(lines, target) then Sentinel
    else if lines == [] then 0
    else Ragged(lines[..|lines| - 1], target)
  }

  /** A candidate has at least one line, and each line's width is the rendered width of its words. */
  predicate WellFormed(lines: seq<Line>)
  {
    lines != [] && forall i :: 0 <= i < |lines| ==> lines[i].width == RenderWidth(lines[i].words)
  }

  /** The invariant the incremental updates keep: widths and badness agree with a recomputation. */
  predicate Faithful(p: Para, target: int)
  {
    WellFormed(p.lines) && p.badness == Badness(p.lines, target)
  }

  /** The words of `lines`, in order. */
  function Words(lines: seq<Line>): seq<string>
  {
    if lines == [] then [] else Words(lines[..|lines| - 1]) + lines[|lines| - 1].words
  }

  /** `newLine`: a line with no words. */
  function NewLine(): (l: Line)
    ensures l.words == [] && l.width == RenderWidth(l.words)
  {
    Line([], 0)
  }

  /** `newCandidate`: badness 0 and a single empty line. */
  function NewPara(): Para
  {
    Para(0, [NewLine()])
  }

  function Last(p: Para): Line
    requires p.lines != []
  {
    p.lines[|p.lines| - 1]
  }

  /**
   * `addWord`: append `w` to the last line, charging one column for the gap when
   * the line already has words, and record the sentinel if the line now
   * overflows.
   */
  function AddWordTo(p: Para, target: int, w: string): (r: Para)
    requires p.lines != []
    ensures |r.lines| == |p.lines|
  {
    var l := Last(p);
    var width := l.width + |w| + (if l.words == [] then 0 else 1);
    Para(if width > target then Sentinel else p.badness,
         p.lines[..|p.lines| - 1] + [Line(l.words + [w], width)])
  }

  /** The first half of `breakAndAdd`: charge the last line's cost and open an empty line. */
  function CloseLine(p: Para, target: int): (r: Para)
    requires p.lines != []
    ensures |r.lines| == |p.lines| + 1 && r.lines[..|p.lines|] == p.lines && r.lines[|p.lines|].words == []
    ensures Words(r.lines) == Words(p.lines)
    ensures r.badness >= p.badness && (r.badness == p.badness <==> Last(p).width == target)
  {
    var lines := p.lines + [NewLine()];
    assert lines[..|p.lines|] == p.lines;
    Para(p.badness + Cost(Last(p), target), lines)
  }

  /** `breakAndAdd`: close the last line and put `w` on a new one. */
  function BreakAndAddTo(p: Para, target: int, w: string): (r: Para)
    requires p.lines != []
    ensures |r.lines| == |p.lines| + 1
  {
    AddWordTo(CloseLine(p, target), target, w)
  }

  lemma NewParaFaithful(target: int)
    requires 0 <= target
    ensures Faithful(NewPara(), target) && NewPara().badness == 0
    ensures Words(NewPara().lines) == []
  {
    assert [NewLine()][..0] == [];
  }

  /** `addWord` keeps the invariant, whatever the word and whether or not the candidate is feasible. */
  lemma {:induction false} AddWordKeepsFaithful(p: Para, target: int, w: string)
    requires Faithful(p, target)
    ensures Faithful(AddWordTo(p, target, w), target)
  {
    var n := |p.lines|;
    var l := Last(p);
    var r := AddWordTo(p, target, w);
    var l' := r.lines[n - 1];
    RenderWidthAppend(l.words, w);
    assert r.lines[..n - 1] == p.lines[..n - 1];
    assert l'.width >= l.width;
    if l'.width <= target {
      assert Fits(r.lines, target) <==> Fits(p.lines, target) by {
        if Fits(p.lines, target) {
          forall i | 0 <= i < n ensures r.lines[i].width <= target {
            if i < n - 1 { assert r.lines[i] == r.lines[..n - 1][i]; }
          }
        } else {
          var i :| 0 <= i < n && p.lines[i].width > target;
          assert i < n - 1 && r.lines[i] == p.lines[..n - 1][i];
        }
      }
    }
    forall i | 0 <= i < n ensures r.lines[i].width == RenderWidth(r.lines[i].words) {
      if i < n - 1 { assert r.lines[i] == r.lines[..n - 1][i] == p.lines[i]; }
    }
  }

  /**
   * Closing the last line keeps the invariant exactly when the candidate is
   * feasible or its last line is exactly full; otherwise the sentinel grows by
   * a positive cost and the recomputation no longer matches (the check at the
   * start of the following `addWord` fails).
   */
  lemma {:induction false} CloseLineFaithful(p: Para, target: int)
    requires Faithful(p, target)
    ensures Faithful(CloseLine(p, target), target) <==> Fits(p.lines, target) || Last(p).width == target
  {
    var n := |p.lines|;
    var c := CloseLine(p, target);
    assert c.lines[..n] == p.lines;
    assert WellFormed(c.lines) by {
      forall i | 0 <= i < n + 1 ensures c.lines[i].width == RenderWidth(c.lines[i].words) {
        if i < n { assert c.lines[i] == p.lines[i]; }
      }
    }
    assert p.lines == p.lines[..n - 1] + [Last(p)];
    assert Ragged(p.lines, target) == Ragged(p.lines[..n - 1], target) + Cost(Last(p), target);
    assert Fits(c.lines, target) <==> Fits(p.lines, target) by {
      if Fits(p.lines, target) {
        assert 0 <= p.lines[0].width <= target;
        forall i | 0 <= i < n + 1 ensures c.lines[i].width <= target {
          if i < n { assert c.lines[i] == p.lines[i]; }
        }
      } else {
        var i :| 0 <= i < n && p.lines[i].width > target;
        assert c.lines[i] == p.lines[i];
      }
    }
  }

  /**
   * `breakAndAdd` keeps every line and appends one holding only `w`; it charges
   * the cost of the line it closes, or records the sentinel when `w` alone is
   * too wide.
   */
  lemma BreakAndAddShape(p: Para, target: int, w: string)
    requires p.lines != []
    ensures BreakAndAddTo(p, target, w).lines == p.lines + [Line([w], |w|)]
    ensures BreakAndAddTo(p, target, w).badness
         == if |w| > target then Sentinel else p.badness + Cost(Last(p), target)
  {
    var c := CloseLine(p, target);
    assert c.lines[..|c.lines| - 1] == p.lines;
    assert [] + [w] == [w];
  }

  /** `breakAndAdd` keeps the invariant on a feasible candidate or one whose last line is exactly full. */
  lemma BreakAndAddKeepsFaithful(p: Para, target: int, w: string)
    requires Faithful(p, target)
    requires Fits(p.lines, target) || Last(p).width == target
    ensures Faithful(BreakAndAddTo(p, target, w), target)
  {
    CloseLineFaithful(p, target);
    AddWordKeepsFaithful(CloseLine(p, target), target, w);
  }

  /** Once a line is too wide, `addWord` keeps the sentinel; so does `breakAndAdd` where it is allowed. */
  lemma InfeasibleSticks(p: Para, target: int, w: string)
    requires Faithful(p, target) && !Fits(p.lines, target)
    ensures AddWordTo(p, target, w).badness == Sentinel
    ensures Last(p).width == target ==> BreakAndAddTo(p, target, w).badness == Sentinel
  {
    AddWordKeepsFaithful(p, target, w);
    var n := |p.lines|;
    var r := AddWordTo(p, target, w);
    var i :| 0 <= i < n && p.lines[i].width > target;
    if i < n - 1 {
      assert r.lines[i] == p.lines[..n - 1][i];
    } else {
      assert r.lines[i].width >= p.lines[i].width;
    }
    assert !Fits(r.lines, target);
  }

  /** `addWord` appends its word to the words of the candidate. */
  lemma AddWordAppendsWord(p: Para, target: int, w: string)
    requires p.lines != []
    ensures Words(AddWordTo(p, target, w).lines) == Words(p.lines) + [w]
  {
    var n := |p.lines|;
    var r := AddWordTo(p, target, w);
    assert r.lines[..n - 1] == p.lines[..n - 1];
    assert p.lines == p.lines[..n - 1] + [Last(p)];
  }

  /** `breakAndAdd` appends its word to the words of the candidate. */
  lemma BreakAndAddAppendsWord(p: Para, target: int, w: string)
    requires p.lines != []
    ensures Words(BreakAndAddTo(p, target, w).lines) == Words(p.lines) + [w]
  {
    var c := CloseLine(p, target);
    assert c.lines[..|p.lines|] == p.lines;
    assert Words(c.lines) == Words(p.lines);
    AddWordAppendsWord(c, target, w);
  }

  /** `addWord` keeps every width exact. */
  lemma AddWordWellFormed(p: Para, target: int, w: string)
    requires WellFormed(p.lines)
    ensures WellFormed(AddWordTo(p, target, w).lines)
  {
    var p' := Para(Badness(p.lines, target), p.lines);
    AddWordKeepsFaithful(p', target, w);
    assert AddWordTo(p', target, w).lines == AddWordTo(p, target, w).lines;
  }

  /** `breakAndAdd` keeps every width exact. */
  lemma BreakAndAddWellFormed(p: Para, target: int, w: string)
    requires WellFormed(p.lines)
    ensures WellFormed(BreakAndAddTo(p, target, w).lines)
  {
    var c := CloseLine(p, target);
    assert c.lines[..|p.lines|] == p.lines;
    assert WellFormed(c.lines) by {
      forall i | 0 <= i < |c.lines| ensures c.lines[i].width == RenderWidth(c.lines[i].words) {
        if i < |p.lines| { assert c.lines[i] == p.lines[i]; }
      }
    }
    AddWordWellFormed(c, target, w);
  }

  /** The cost of the last line, 0 when there is none. */
  function LastCost(lines: seq<Line>, target: int): int
  {
    if lines == [] then 0 else Cost(lines[|lines| - 1], target)
  }

  /**
   * The badness `fidelity` recomputes, as written: the sentinel if some line is
   * too wide; otherwise the costs of all lines, minus the last line's cost
   * unless that total equals the sentinel value.
   */
  function FidelityBadness(lines: seq<Line>, target: int): int
  {
    if !Fits(lines, target) then Sentinel
    else if Ragged(lines, target) == Sentinel then Sentinel
    else Ragged(lines, target) - LastCost(lines, target)
  }

  /**
   * The check in `fidelity` agrees with the intended badness except when every
   * line fits, the costs of all lines add up to exactly the sentinel value and
   * the last line is not full.
   */
  lemma FidelityAgrees(lines: seq<Line>, target: int)
    ensures FidelityBadness(lines, target) == Badness(lines, target)
        <==> !Fits(lines, target) || Ragged(lines, target) != Sentinel || LastCost(lines, target) == 0
  {
    if lines != [] {
      assert lines == lines[..|lines| - 1] + [lines[|lines| - 1]];
    }
  }

  /** `addWord` on a candidate whose last line is `l`. */
  lemma AddOnto(b: int, init: seq<Line>, l: Line, target: int, w: string)
    ensures AddWordTo(Para(b, init + [l]), target, w)
         == (var width := l.width + |w| + (if l.words == [] then 0 else 1);
             Para(if width > target then Sentinel else b, init + [Line(l.words + [w], width)]))
  {
    assert (init + [l])[..|init|] == init;
  }

  /** `breakAndAdd` on a candidate whose last line is `l`. */
  lemma BreakOnto(b: int, init: seq<Line>, l: Line, target: int, w: string)
    ensures BreakAndAddTo(Para(b, init + [l]), target, w)
         == Para(if |w| > target then Sentinel else b + Cost(l, target), init + [l, Line([w], |w|)])
  {
    BreakAndAddShape(Para(b, init + [l]), target, w);
  }
}
