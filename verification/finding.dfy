/**
 * A feasible paragraph that `fidelity` rejects (fill.go, `fidelity`).
 *
 * `fidelity` uses the value 2147483647 both as the badness of an infeasible
 * candidate and as a flag meaning "a line was too wide": when every line fits
 * and the costs of all the lines, the last included, add up to exactly that
 * value, it skips subtracting the last line's cost and compares the full
 * total with the recorded badness, which correctly leaves the last line out.
 * The greedy fill below reaches such a state on its last word.
 */
module SentinelClash {
  import opened Paragraphs
  import opened Greedy

  /** One line per word, each holding only that word. */
  function Singles(ws: seq<string>): (r: seq<Line>)
    ensures |r| == |ws|
  {
    if ws == [] then [] else Singles(ws[..|ws| - 1]) + [Line([ws[|ws| - 1]], |ws[|ws| - 1]|)]
  }

  lemma {:induction false} SinglesAt(ws: seq<string>, i: nat)
    requires i < |ws|
    ensures Singles(ws)[i] == Line([ws[i]], |ws[i]|)
  {
    if i < |ws| - 1 {
      SinglesAt(ws[..|ws| - 1], i);
    }
  }

  /** Every greedy step breaks: the first word reaches `width` alone, and so does each word after the one before it. */
  predicate EachBreaks(width: int, ws: seq<string>)
  {
    && (ws != [] ==> |ws[0]| >= width)
    && forall i :: 1 <= i < |ws| ==> |ws[i - 1]| + |ws[i]| >= width
  }

  lemma RaggedSnoc(lines: seq<Line>, target: int, k: nat)
    requires k < |lines|
    ensures Ragged(lines[..k + 1], target) == Ragged(lines[..k], target) + Cost(lines[k], target)
  {
    assert lines[..k + 1][..k] == lines[..k];
  }

  /** When every step breaks, the greedy fill is an empty line followed by one line per word. */
  lemma {:induction false} FillBreaksEach(width: int, ws: seq<string>)
    requires EachBreaks(width, ws) && AllFit(width, ws)
    ensures Fill(width, ws).lines == [NewLine()] + Singles(ws)
    ensures Fill(width, ws).badness == Ragged(([NewLine()] + Singles(ws))[..|ws|], width)
  {
    if ws != [] {
      var n := |ws| - 1;
      var prefix, w := ws[..n], ws[n];
      assert EachBreaks(width, prefix) && AllFit(width, prefix);
      FillBreaksEach(width, prefix);
      var q := Fill(width, prefix);
      var ls := [NewLine()] + Singles(ws);
      SinglesSnoc(ws);
      BreakStep(q, width, w, ls, n);
    }
  }

  /** The lines after all of `ws` are those after all but the last word, plus one line for it. */
  lemma SinglesSnoc(ws: seq<string>)
    requires ws != []
    ensures [NewLine()] + Singles(ws) == [NewLine()] + Singles(ws[..|ws| - 1]) + [Line([ws[|ws| - 1]], |ws[|ws| - 1]|)]
    ensures ([NewLine()] + Singles(ws))[..|ws|] == [NewLine()] + Singles(ws[..|ws| - 1])
  {
    Assoc([NewLine()], Singles(ws[..|ws| - 1]), [Line([ws[|ws| - 1]], |ws[|ws| - 1]|)]);
  }

  lemma Assoc<T>(a: seq<T>, b: seq<T>, c: seq<T>)
    ensures a + (b + c) == a + b + c
  {
  }

  /** A breaking step appends a line holding only `w` and charges the cost of the line it closes. */
  lemma BreakStep(q: Para, width: int, w: string, ls: seq<Line>, n: nat)
    requires n < |ls| && q.lines == ls[..n + 1] && ls == q.lines + [Line([w], |w|)]
    requires q.badness == Ragged(q.lines[..n], width)
    requires BreaksBefore(q, width, w) && |w| <= width
    ensures Step(q, width, w).lines == ls
    ensures Step(q, width, w).badness == Ragged(ls[..n + 1], width)
  {
    assert q.lines[..n] == ls[..n];
    BreakAndAddShape(q, width, w);
    RaggedSnoc(ls, width, n);
  }

  /** A word of `n` letters. */
  function Filler(n: nat): (s: string)
    ensures |s| == n
  {
    seq(n, _ => 'x')
  }

  const ClashWidth: int := 46340

  /** Seven words, each too long to share a line with its neighbour at width 46340. */
  function ClashWords(): (ws: seq<string>)
    ensures |ws| == 7
    ensures |ws[0]| == 46340 && |ws[1]| == 46044 && |ws[2]| == 46320 && |ws[3]| == 46335
    ensures |ws[4]| == 46338 && |ws[5]| == 46339 && |ws[6]| == 46339
  {
    [Filler(46340), Filler(46044), Filler(46320), Filler(46335), Filler(46338), Filler(46339), Filler(46339)]
  }

  /**
   * The greedy fill of these words is feasible and keeps the intended
   * invariant with badness 2147483646, yet the badness `fidelity` recomputes
   * for it is 2147483647: the source panics at the check that ends the
   * `addWord` placing the last word.
   */
  lemma FidelityRejectsFeasible()
    ensures Faithful(Fill(ClashWidth, ClashWords()), ClashWidth)
    ensures Fits(Fill(ClashWidth, ClashWords()).lines, ClashWidth)
    ensures Fill(ClashWidth, ClashWords()).badness == Sentinel - 1
    ensures FidelityBadness(Fill(ClashWidth, ClashWords()).lines, ClashWidth) == Sentinel
  {
    var ws := ClashWords();
    assert NonLastFit(ClashWidth, ws) && AllFit(ClashWidth, ws);
    FillFaithful(ClashWidth, ws);
    FillFits(ClashWidth, ws);
    FillBreaksEach(ClashWidth, ws);
    var lines := [NewLine()] + Singles(ws);
    SinglesAt(ws, 0); SinglesAt(ws, 1); SinglesAt(ws, 2); SinglesAt(ws, 3);
    SinglesAt(ws, 4); SinglesAt(ws, 5); SinglesAt(ws, 6);
    assert lines[0].width == 0 && lines[1].width == 46340 && lines[2].width == 46044 && lines[3].width == 46320;
    assert lines[4].width == 46335 && lines[5].width == 46338 && lines[6].width == 46339 && lines[7].width == 46339;
    ClashCosts(lines);
  }

  /** The costs of the eight lines at width 46340: all but the last add up to 2147483646, all of them to 2147483647. */
  lemma ClashCosts(lines: seq<Line>)
    requires |lines| == 8
    requires lines[0].width == 0 && lines[1].width == 46340 && lines[2].width == 46044 && lines[3].width == 46320
    requires lines[4].width == 46335 && lines[5].width == 46338 && lines[6].width == 46339 && lines[7].width == 46339
    ensures Ragged(lines[..7], ClashWidth) == Sentinel - 1
    ensures Ragged(lines, ClashWidth) == Sentinel
  {
    assert Cost(lines[0], ClashWidth) == 2147395600;
    assert Cost(lines[1], ClashWidth) == 0;
    assert Cost(lines[2], ClashWidth) == 87616;
    assert Cost(lines[3], ClashWidth) == 400;
    assert Cost(lines[4], ClashWidth) == 25;
    assert Cost(lines[5], ClashWidth) == 4;
    assert Cost(lines[6], ClashWidth) == 1;
    assert Cost(lines[7], ClashWidth) == 1;
    assert lines[..0] == [];
    assert lines[..8] == lines;
    RaggedSnoc(lines, ClashWidth, 0);
    RaggedSnoc(lines, ClashWidth, 1);
    RaggedSnoc(lines, ClashWidth, 2);
    RaggedSnoc(lines, ClashWidth, 3);
    RaggedSnoc(lines, ClashWidth, 4);
    RaggedSnoc(lines, ClashWidth, 5);
    RaggedSnoc(lines, ClashWidth, 6);
    RaggedSnoc(lines, ClashWidth, 7);
  }
}
