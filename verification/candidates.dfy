/**
 * A candidate line-breaking, updated in place as words are placed (fill.go,
 * type `candidate` and its methods). The candidate owns its lines outright, so
 * they are held as values in a sequence the methods reassign.
 */
module Candidates {
  import opened Paragraphs

  class Candidate {
    var badness: int
    var paragraph: seq<Line>

    /** The current contents of the candidate, as a value. */
    function View(): Para
      reads this
    {
      Para(badness, paragraph)
    }

    /** The object invariant: the widths and the badness agree with a recomputation against `target`. */
    ghost predicate Valid(target: int)
      reads this
    {
      Faithful(View(), target)
    }

    /** `newCandidate`: badness 0 and one empty line. */
    constructor ()
      ensures View() == NewPara()
      ensures badness == 0 && paragraph == [Line([], 0)]
    {
      badness := 0;
      paragraph := [NewLine()];
    }

    /** `copy`: a new candidate with the same badness and the same lines, sharing nothing with this one. */
    method Copy() returns (cpy: Candidate)
      ensures fresh(cpy)
      ensures cpy.View() == View()
    {
      cpy := new Candidate();
      cpy.badness := badness;
      var lines: seq<Line> := [];
      for i := 0 to |paragraph|
        invariant lines == paragraph[..i]
      {
        lines := lines + [Line(paragraph[i].words, paragraph[i].width)];
      }
      cpy.paragraph := lines;
    }

    /**
     * `fidelity`: recompute the badness from the line widths and compare it with
     * the recorded one; `ok` is false exactly where the source panics.
     */
    method Fidelity(target: int) returns (ok: bool)
      ensures ok <==> badness == FidelityBadness(paragraph, target)
    {
      var sum := 0;
      var delta := 0;
      var i := 0;
      while i < |paragraph|
        invariant 0 <= i <= |paragraph|
        invariant Fits(paragraph[..i], target)
        invariant sum == Ragged(paragraph[..i], target)
        invariant delta * delta == LastCost(paragraph[..i], target)
      {
        var l := paragraph[i];
        if l.width > target {
          if badness < Sentinel {
            return false;
          }
          sum := Sentinel;
          break;
        }
        assert paragraph[..i + 1][..i] == paragraph[..i];
        delta := target - l.width;
        sum := sum + delta * delta;
        i := i + 1;
      }
      assert i == |paragraph| ==> paragraph[..i] == paragraph;
      if sum != Sentinel {
        sum := sum - delta * delta;
      }
      ok := sum == badness;
    }

    /**
     * The check `fidelity` evidently intends: the sentinel is recognised only
     * when a line is too wide, and otherwise the last line's cost is always
     * left out.
     */
    method IntendedFidelity(target: int) returns (ok: bool)
      ensures ok <==> badness == Badness(paragraph, target)
    {
      var sum := 0;
      var delta := 0;
      for i := 0 to |paragraph|
        invariant Fits(paragraph[..i], target)
        invariant sum == Ragged(paragraph[..i], target)
        invariant delta * delta == LastCost(paragraph[..i], target)
      {
        var l := paragraph[i];
        if l.width > target {
          return badness == Sentinel;
        }
        assert paragraph[..i + 1][..i] == paragraph[..i];
        delta := target - l.width;
        sum := sum + delta * delta;
      }
      assert paragraph[..|paragraph|] == paragraph;
      ok := sum - delta * delta == badness;
    }

    /**
     * `addWord`: `w` joins the last line, whose width grows by its length plus
     * one for the gap if the line had words; the badness becomes the sentinel if
     * that line is now too wide and is otherwise unchanged. Earlier lines are
     * untouched.
     */
    method AddWord(target: int, w: string)
      requires Valid(target)
      modifies this
      ensures Valid(target)
      ensures View() == AddWordTo(old(View()), target, w)
      ensures |paragraph| == old(|paragraph|)
      ensures paragraph[..|paragraph| - 1] == old(paragraph[..|paragraph| - 1])
      ensures paragraph[|paragraph| - 1].words == old(paragraph[|paragraph| - 1].words) + [w]
      ensures paragraph[|paragraph| - 1].width
           == old(paragraph[|paragraph| - 1].width) + |w| + (if old(paragraph[|paragraph| - 1].words) == [] then 0 else 1)
      ensures badness == if paragraph[|paragraph| - 1].width > target then Sentinel else old(badness)
    {
      AddWordKeepsFaithful(View(), target, w);
      var n := |paragraph| - 1;
      var l := paragraph[n];
      var width := l.width + |w|;
      if |l.words| != 0 {
        width := width + 1;
      }
      paragraph := paragraph[..n] + [Line(l.words + [w], width)];
      if width > target {
        badness := Sentinel;
      }
    }

    /**
     * `breakAndAdd`: the last line's cost is added to the badness, the lines so
     * far are kept and one new line holding only `w` is appended; the badness
     * becomes the sentinel if `w` alone is too wide. The source panics (at the
     * check on entry to the `addWord` it calls) unless the candidate is
     * feasible or its last line is exactly full.
     */
    method BreakAndAdd(target: int, w: string)
      requires Valid(target)
      requires Fits(paragraph, target) || paragraph[|paragraph| - 1].width == target
      modifies this
      ensures Valid(target)
      ensures View() == BreakAndAddTo(old(View()), target, w)
      ensures paragraph == old(paragraph) + [Line([w], |w|)]
      ensures badness == if |w| > target then Sentinel
                         else old(badness + Cost(paragraph[|paragraph| - 1], target))
    {
      CloseLineFaithful(View(), target);
      var delta := target - paragraph[|paragraph| - 1].width;
      badness := badness + delta * delta;
      paragraph := paragraph + [NewLine()];
      assert View() == CloseLine(old(View()), target);
      AddWord(target, w);
      BreakAndAddShape(old(View()), target, w);
    }
  }
}
