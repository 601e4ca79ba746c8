/**
 * Minimum-raggedness filling (fill.go, `prettyFill`): a branch-and-bound search
 * over break choices, bounded by the greedy badness. For each word every
 * candidate within the bound takes the word on its last line in place, and a
 * copy that breaks before the word is appended to the list; candidates above
 * the bound stay in the list unchanged. The last candidate of least badness is
 * returned.
 */
module Pretty {
  import opened Paragraphs
  import opened Candidates
  import opened Greedy

  /** Every candidate has at least one line. */
  predicate HasLines(vs: seq<Para>)
  {
    forall i :: 0 <= i < |vs| ==> vs[i].lines != []
  }

  /** What the pass for `w` does to a candidate in place: nothing above the bound, `addWord` otherwise. */
  function Grow(v: Para, width: int, w: string, bound: int): (r: Para)
    requires v.lines != []
    ensures |r.lines| == |v.lines|
  {
    if v.badness > bound then v else AddWordTo(v, width, w)
  }

  /** The candidates after the pass for `w` updated them in place, position by position. */
  function Grown(vs: seq<Para>, width: int, w: string, bound: int): (r: seq<Para>)
    requires HasLines(vs)
  {
    seq(|vs|, i requires 0 <= i < |vs| => Grow(vs[i], width, w, bound))
  }

  /** The copies the pass for `w` appends: `breakAndAdd` of each candidate within the bound, in order. */
  function Forks(vs: seq<Para>, width: int, w: string, bound: int): (r: seq<Para>)
    requires HasLines(vs)
    ensures HasLines(r) && |r| <= |vs|
  {
    if vs == [] then []
    else Forks(vs[..|vs| - 1], width, w, bound)
         + (if vs[|vs| - 1].badness > bound then [] else [BreakAndAddTo(vs[|vs| - 1], width, w)])
  }

  /** The list of candidates after the pass for one word. */
  function Pass(vs: seq<Para>, width: int, w: string, bound: int): (r: seq<Para>)
    requires HasLines(vs)
    ensures HasLines(r) && |vs| <= |r| <= 2 * |vs|
  {
    Grown(vs, width, w, bound) + Forks(vs, width, w, bound)
  }

  /** The list of candidates after the passes for all of `words`, starting from one new candidate. */
  function Search(width: int, words: seq<string>, bound: int): (r: seq<Para>)
    ensures r != [] && HasLines(r)
  {
    if words == [] then [NewPara()]
    else Pass(Search(width, words[..|words| - 1], bound), width, words[|words| - 1], bound)
  }

  /** The list `prettyFill` ends with: the search bounded by the greedy badness. */
  function Explored(width: int, words: seq<string>): seq<Para>
  {
    Search(width, words, Fill(width, words).badness)
  }

  /** Every copy appended by a pass is the break of a candidate within the bound: `j` names it. */
  lemma {:induction false} ForkSource(vs: seq<Para>, width: int, w: string, bound: int, i: nat) returns (j: nat)
    requires HasLines(vs) && i < |Forks(vs, width, w, bound)|
    ensures j < |vs| && vs[j].badness <= bound && Forks(vs, width, w, bound)[i] == BreakAndAddTo(vs[j], width, w)
  {
    var init := vs[..|vs| - 1];
    var f' := Forks(init, width, w, bound);
    if i < |f'| {
      j := ForkSource(init, width, w, bound, i);
      assert vs[j] == init[j];
      assert Forks(vs, width, w, bound)[i] == f'[i];
    } else {
      j := |vs| - 1;
    }
  }

  /**
   * Every candidate after a pass comes from the candidate `j` before it: it is
   * that candidate grown in place (`forked` false, same position) or its break
   * (`forked` true, and then the candidate was within the bound).
   */
  lemma PassSource(vs: seq<Para>, width: int, w: string, bound: int, i: nat) returns (j: nat, forked: bool)
    requires HasLines(vs) && i < |Pass(vs, width, w, bound)|
    ensures j < |vs|
    ensures !forked ==> j == i && Pass(vs, width, w, bound)[i] == Grow(vs[j], width, w, bound)
    ensures forked ==> vs[j].badness <= bound && Pass(vs, width, w, bound)[i] == BreakAndAddTo(vs[j], width, w)
  {
    if i < |vs| {
      j, forked := i, false;
    } else {
      j := ForkSource(vs, width, w, bound, i - |vs|);
      forked := true;
    }
  }

  /** Every candidate within the bound has its break among the copies a pass appends. */
  lemma {:induction false} ForksContain(vs: seq<Para>, width: int, w: string, bound: int, j: nat)
    requires HasLines(vs)
    requires j < |vs| && vs[j].badness <= bound
    ensures BreakAndAddTo(vs[j], width, w) in Forks(vs, width, w, bound)
  {
    var init := vs[..|vs| - 1];
    if j < |vs| - 1 {
      assert vs[j] == init[j];
      ForksContain(init, width, w, bound, j);
    }
  }

  /**
   * What every candidate of the search satisfies: exact widths, a prefix of the
   * words, and all of the words when its badness is within the bound.
   */
  ghost predicate HoldsPrefix(v: Para, words: seq<string>, bound: int)
  {
    && WellFormed(v.lines)
    && |Words(v.lines)| <= |words| && Words(v.lines) == words[..|Words(v.lines)|]
    && (v.badness <= bound ==> Words(v.lines) == words)
  }

  lemma GrowHolds(u: Para, prefix: seq<string>, width: int, w: string, bound: int)
    requires HoldsPrefix(u, prefix, bound)
    ensures HoldsPrefix(Grow(u, width, w, bound), prefix + [w], bound)
  {
    if u.badness > bound {
      assert (prefix + [w])[..|Words(u.lines)|] == prefix[..|Words(u.lines)|];
    } else {
      AddWordAppendsWord(u, width, w);
      AddWordWellFormed(u, width, w);
    }
  }

  lemma ForkHolds(u: Para, prefix: seq<string>, width: int, w: string, bound: int)
    requires HoldsPrefix(u, prefix, bound) && u.badness <= bound
    ensures HoldsPrefix(BreakAndAddTo(u, width, w), prefix + [w], bound)
  {
    BreakAndAddAppendsWord(u, width, w);
    BreakAndAddWellFormed(u, width, w);
  }

  /**
   * Every candidate of the search keeps its widths exact and holds a prefix of
   * the words; every candidate within the bound holds all of them, in order.
   */
  lemma {:induction false} SearchWords(width: int, words: seq<string>, bound: int)
    ensures forall i :: 0 <= i < |Search(width, words, bound)| ==> HoldsPrefix(Search(width, words, bound)[i], words, bound)
  {
    if words == [] {
      NewParaFaithful(0);
    } else {
      var prefix, w := words[..|words| - 1], words[|words| - 1];
      SplitLast(words);
      var vs := Search(width, prefix, bound);
      SearchWords(width, prefix, bound);
      var r := Search(width, words, bound);
      assert r == Pass(vs, width, w, bound);
      forall i | 0 <= i < |r| ensures HoldsPrefix(r[i], words, bound) {
        var j, forked := PassSource(vs, width, w, bound, i);
        if forked {
          ForkHolds(vs[j], prefix, width, w, bound);
        } else {
          GrowHolds(vs[j], prefix, width, w, bound);
        }
      }
    }
  }

  /**
   * With a bound below the sentinel every candidate of the search keeps the
   * invariant that `fidelity` checks: a candidate is only extended while its
   * badness is within the bound, so only feasible candidates are broken.
   */
  lemma {:induction false} SearchFaithful(width: int, words: seq<string>, bound: int)
    requires 0 <= width && bound < Sentinel
    ensures forall i :: 0 <= i < |Search(width, words, bound)| ==> Faithful(Search(width, words, bound)[i], width)
  {
    if words == [] {
      NewParaFaithful(width);
    } else {
      var prefix, w := words[..|words| - 1], words[|words| - 1];
      var vs := Search(width, prefix, bound);
      SearchFaithful(width, prefix, bound);
      var r := Search(width, words, bound);
      assert r == Pass(vs, width, w, bound);
      forall i | 0 <= i < |r| ensures Faithful(r[i], width) {
        var j, forked := PassSource(vs, width, w, bound, i);
        if forked {
          BreakAndAddKeepsFaithful(vs[j], width, w);
        } else if vs[j].badness <= bound {
          AddWordKeepsFaithful(vs[j], width, w);
        }
      }
    }
  }

  /**
   * The greedy decision path is never pruned: when every word fits and the
   * greedy badness is within the bound, the greedy candidate is in the list.
   */
  lemma {:induction false} GreedyInSearch(width: int, words: seq<string>, bound: int)
    requires AllFit(width, words)
    requires Fill(width, words).badness <= bound
    ensures Fill(width, words) in Search(width, words, bound)
  {
    if words != [] {
      var prefix, w := words[..|words| - 1], words[|words| - 1];
      var q := Fill(width, prefix);
      assert AllFit(width, prefix);
      FillBadnessGrows(width, words, |words| - 1);
      GreedyInSearch(width, prefix, bound);
      var vs := Search(width, prefix, bound);
      assert Fill(width, words) == Step(q, width, w);
      assert Search(width, words, bound) == Pass(vs, width, w, bound);
      StepInPass(vs, q, width, w, bound);
    }
  }

  /** A candidate within the bound keeps its greedy step in the next list. */
  lemma StepInPass(vs: seq<Para>, q: Para, width: int, w: string, bound: int)
    requires HasLines(vs) && q in vs && q.badness <= bound
    ensures Step(q, width, w) in Pass(vs, width, w, bound)
  {
    var j :| 0 <= j < |vs| && vs[j] == q;
    if BreaksBefore(q, width, w) {
      ForksContain(vs, width, w, bound, j);
    } else {
      assert Pass(vs, width, w, bound)[j] == Grown(vs, width, w, bound)[j];
    }
  }

  /**
   * The list `prettyFill` ends with holds a candidate within the greedy badness
   * (the greedy one), and every candidate within it keeps the invariant, fits
   * the width and holds all the words in order. The greedy badness must be
   * below the sentinel: `SentinelRank.OverWideChosen` gives a list where,
   * above it, an over-wide candidate is within the bound.
   */
  lemma ExploredComplete(width: int, words: seq<string>) returns (g: nat)
    requires 0 < width && AllFit(width, words) && Fill(width, words).badness < Sentinel
    ensures g < |Explored(width, words)| && Explored(width, words)[g] == Fill(width, words)
    ensures forall v :: v in Explored(width, words) && v.badness <= Fill(width, words).badness ==>
      Faithful(v, width) && Fits(v.lines, width) && Words(v.lines) == words
  {
    var bound := Fill(width, words).badness;
    var explored := Explored(width, words);
    SearchFaithful(width, words, bound);
    SearchWords(width, words, bound);
    GreedyInSearch(width, words, bound);
    g :| 0 <= g < |explored| && explored[g] == Fill(width, words);
    forall v | v in explored && v.badness <= bound
      ensures Faithful(v, width) && Fits(v.lines, width) && Words(v.lines) == words
    {
      var i :| 0 <= i < |explored| && explored[i] == v;
      assert HoldsPrefix(explored[i], words, bound);
    }
  }

  /**
   * The final scan: the last candidate whose badness is least and within
   * `bound`, or null when every badness is above `bound`.
   */
  method SelectBest(candidates: seq<Candidate>, bound: int) returns (best: Candidate?, ghost at: int)
    ensures best == null <==> forall j :: 0 <= j < |candidates| ==> candidates[j].badness > bound
    ensures best != null ==> 0 <= at < |candidates| && candidates[at] == best && best.badness <= bound
    ensures best != null ==> forall j :: 0 <= j < |candidates| ==> best.badness <= candidates[j].badness
    ensures best != null ==> forall j :: at < j < |candidates| ==> best.badness < candidates[j].badness
  {
    var minBadness := bound;
    best, at := null, -1;
    for i := 0 to |candidates|
      invariant best == null <==> forall j :: 0 <= j < i ==> candidates[j].badness > bound
      invariant best == null ==> minBadness == bound && at == -1
      invariant best != null ==> 0 <= at < i && candidates[at] == best && minBadness == best.badness <= bound
      invariant forall j :: 0 <= j < i ==> minBadness <= candidates[j].badness
      invariant forall j :: at < j < i ==> minBadness < candidates[j].badness
    {
      var c := candidates[i];
      if c.badness <= minBadness {
        best, at := c, i;
        minBadness := c.badness;
      }
    }
  }

  /** No candidate object appears twice. */
  predicate Distinct(cs: seq<Candidate>)
  {
    forall a, b :: 0 <= a < b < |cs| ==> cs[a] != cs[b]
  }

  lemma DistinctAppend(cs: seq<Candidate>, c: Candidate)
    requires Distinct(cs) && c !in cs
    ensures Distinct(cs + [c])
  {
  }

  /**
   * The list part-way through the pass for `w`: the first `i` candidates have
   * been handled in place, one at a time, each appending its break when it is
   * within the bound.
   */
  function Midway(vs: seq<Para>, width: int, w: string, bound: int, i: nat): (r: seq<Para>)
    requires HasLines(vs) && i <= |vs|
    ensures |vs| <= |r| && forall j :: i <= j < |vs| ==> r[j] == vs[j]
  {
    if i == 0 then vs
    else
      Midway(vs, width, w, bound, i - 1)[i - 1 := Grow(vs[i - 1], width, w, bound)]
      + (if vs[i - 1].badness > bound then [] else [BreakAndAddTo(vs[i - 1], width, w)])
  }

  /** Handling the candidates one at a time ends with the list the pass describes. */
  lemma {:induction false} MidwayIsPass(vs: seq<Para>, width: int, w: string, bound: int, i: nat)
    requires HasLines(vs) && i <= |vs|
    ensures Midway(vs, width, w, bound, i) == Grown(vs[..i], width, w, bound) + vs[i..] + Forks(vs[..i], width, w, bound)
  {
    if i == 0 {
      assert vs[..0] == [] && vs[0..] == vs;
    } else {
      var k := i - 1;
      MidwayIsPass(vs, width, w, bound, k);
      ForksSnoc(vs, width, w, bound, k);
      GrownSnoc(vs, width, w, bound, k);
      assert vs[k..] == [vs[k]] + vs[i..];
      Regroup(Midway(vs, width, w, bound, k), Midway(vs, width, w, bound, i),
              Grown(vs[..k], width, w, bound), Grown(vs[..i], width, w, bound),
              vs[k..], vs[k], vs[i..],
              Forks(vs[..k], width, w, bound), Forks(vs[..i], width, w, bound),
              Grow(vs[k], width, w, bound),
              if vs[k].badness > bound then [] else [BreakAndAddTo(vs[k], width, w)]);
    }
  }

  lemma GrownSnoc(vs: seq<Para>, width: int, w: string, bound: int, k: nat)
    requires HasLines(vs) && k < |vs|
    ensures Grown(vs[..k + 1], width, w, bound) == Grown(vs[..k], width, w, bound) + [Grow(vs[k], width, w, bound)]
  {
  }

  lemma ForksSnoc(vs: seq<Para>, width: int, w: string, bound: int, k: nat)
    requires HasLines(vs) && k < |vs|
    ensures Forks(vs[..k + 1], width, w, bound)
         == Forks(vs[..k], width, w, bound) + (if vs[k].badness > bound then [] else [BreakAndAddTo(vs[k], width, w)])
  {
    assert vs[..k + 1][..k] == vs[..k];
  }

  /** Replacing the element just after `g` in `m` and appending `tail`, regrouped. */
  lemma Regroup<T>(m: seq<T>, m': seq<T>, g: seq<T>, g': seq<T>, b': seq<T>, y: T, b: seq<T>,
                   f: seq<T>, f': seq<T>, x: T, tail: seq<T>)
    requires m == g + b' + f && b' == [y] + b
    requires |g| < |m| && m' == m[|g| := x] + tail
    requires g' == g + [x] && f' == f + tail
    ensures m' == g' + b + f'
  {
    assert m == g + [y] + b + f;
    assert m[|g| := x] == g + [x] + b + f;
  }

  lemma MidwayEnds(vs: seq<Para>, width: int, w: string, bound: int)
    requires HasLines(vs)
    ensures Midway(vs, width, w, bound, |vs|) == Pass(vs, width, w, bound)
  {
    MidwayIsPass(vs, width, w, bound, |vs|);
    assert vs[..|vs|] == vs && vs[|vs|..] == [];
  }

  /**
   * The two ways a feasible candidate takes the next word: the candidate at
   * `i` takes `w` in place on its last line, and a copy that breaks before `w`
   * is appended.
   */
  method ForkAt(extended: seq<Candidate>, i: nat, width: int, w: string, ghost cur: seq<Para>)
    returns (lineBreakC: Candidate)
    requires i < |extended| == |cur|
    requires forall j :: 0 <= j < |extended| ==> extended[j].View() == cur[j]
    requires Distinct(extended)
    requires Faithful(cur[i], width) && cur[i].badness < Sentinel
    modifies extended[i]
    ensures fresh(lineBreakC)
    ensures forall j :: 0 <= j < |extended| ==> extended[j].View() == cur[i := AddWordTo(cur[i], width, w)][j]
    ensures lineBreakC.View() == BreakAndAddTo(cur[i], width, w)
  {
    var appendC := extended[i];
    lineBreakC := appendC.Copy();
    appendC.AddWord(width, w);
    lineBreakC.BreakAndAdd(width, w);
    forall j | 0 <= j < |extended| && j != i
      ensures extended[j].View() == old(extended[j].View())
    {
      assert extended[j] != appendC;
    }
  }

  /**
   * The state of the pass for `w` after `i` candidates: the objects it started
   * with are still first, all objects are distinct, and they hold, position by
   * position, the contents `Midway` describes.
   */
  ghost predicate Reached(extended: seq<Candidate>, candidates: seq<Candidate>, before: seq<Para>,
                          width: int, w: string, bound: int, i: nat)
    requires HasLines(before) && i <= |before|
    reads set j | 0 <= j < |extended| :: extended[j]
  {
    && |candidates| <= |extended| && extended[..|candidates|] == candidates
    && Distinct(extended)
    && |extended| == |Midway(before, width, w, bound, i)|
    && forall j :: 0 <= j < |extended| ==> extended[j].View() == Midway(before, width, w, bound, i)[j]
  }

  /**
   * One step of the pass: the candidate at `i`, when within the bound, takes
   * `w` in place and a copy of it, broken before `w`, is appended.
   */
  method ExtendAt(extended: seq<Candidate>, candidates: seq<Candidate>, i: nat, width: int, w: string, bound: int,
                  ghost before: seq<Para>)
    returns (ext: seq<Candidate>)
    requires bound < Sentinel
    requires HasLines(before) && i < |before| == |candidates| && Faithful(before[i], width)
    requires Reached(extended, candidates, before, width, w, bound, i)
    modifies candidates[i]
    ensures Reached(ext, candidates, before, width, w, bound, i + 1)
    ensures |extended| <= |ext| && ext[..|extended|] == extended
    ensures forall j :: |extended| <= j < |ext| ==> fresh(ext[j])
  {
    ext := extended;
    assert extended[i] == candidates[i];
    ghost var cur := Midway(before, width, w, bound, i);
    ghost var next := Midway(before, width, w, bound, i + 1);
    assert cur[i] == before[i];
    assert next == cur[i := Grow(cur[i], width, w, bound)] + (if cur[i].badness > bound then [] else [BreakAndAddTo(cur[i], width, w)]);
    if extended[i].badness <= bound {
      var lineBreakC := ForkAt(extended, i, width, w, cur);
      assert lineBreakC !in extended;
      DistinctAppend(extended, lineBreakC);
      ext := extended + [lineBreakC];
      assert ext[..|extended|] == extended;
      assert ext[..|candidates|] == candidates;
      forall j | 0 <= j < |ext| ensures ext[j].View() == next[j] {
        if j < |extended| {
          assert ext[j] == extended[j];
        }
      }
    } else {
      assert next == cur;
    }
  }

  /**
   * The pass of `prettyFill` for one word: the number of candidates is fixed
   * when it starts; each candidate within the bound is copied, takes `w` in
   * place, and the copy, broken before `w`, is appended.
   */
  method ExtendAll(candidates: seq<Candidate>, width: int, w: string, bound: int, ghost before: seq<Para>)
    returns (extended: seq<Candidate>)
    requires bound < Sentinel
    requires |before| == |candidates|
    requires forall j :: 0 <= j < |candidates| ==> candidates[j].View() == before[j]
    requires forall j :: 0 <= j < |before| ==> Faithful(before[j], width)
    requires HasLines(before)
    requires Distinct(candidates)
    modifies candidates
    ensures |candidates| <= |extended| && extended[..|candidates|] == candidates
    ensures forall j :: |candidates| <= j < |extended| ==> fresh(extended[j])
    ensures Distinct(extended)
    ensures |extended| == |Pass(before, width, w, bound)|
    ensures forall j :: 0 <= j < |extended| ==> extended[j].View() == Pass(before, width, w, bound)[j]
  {
    extended := candidates;
    var n := |candidates|;
    for i := 0 to n
      invariant Reached(extended, candidates, before, width, w, bound, i)
      invariant forall j :: n <= j < |extended| ==> fresh(extended[j])
    {
      extended := ExtendAt(extended, candidates, i, width, w, bound, before);
    }
    MidwayEnds(before, width, w, bound);
  }

  /**
   * The passes of `prettyFill` over all the words, from one new candidate, with
   * `bound` as the pruning threshold.
   */
  method SearchAll(width: int, words: seq<string>, bound: int) returns (candidates: seq<Candidate>)
    requires 0 <= width && bound < Sentinel
    ensures |candidates| == |Search(width, words, bound)|
    ensures forall j :: 0 <= j < |candidates| ==> candidates[j].View() == Search(width, words, bound)[j]
    ensures forall j :: 0 <= j < |candidates| ==> fresh(candidates[j])
    ensures Distinct(candidates)
  {
    var first := new Candidate();
    candidates := [first];
    assert words[..0] == [];
    for k := 0 to |words|
      invariant |candidates| == |Search(width, words[..k], bound)|
      invariant forall j :: 0 <= j < |candidates| ==> candidates[j].View() == Search(width, words[..k], bound)[j]
      invariant forall j :: 0 <= j < |candidates| ==> fresh(candidates[j])
      invariant Distinct(candidates)
    {
      SearchFaithful(width, words[..k], bound);
      assert words[..k + 1][..k] == words[..k];
      candidates := ExtendAll(candidates, width, words[k], bound, Search(width, words[..k], bound));
    }
    assert words[..|words|] == words;
  }

  /**
   * `prettyFill`: the returned candidate keeps the invariant, fits the width,
   * holds all the words in order, is no worse than the greedy candidate, and is
   * the last of least badness in the final list. With a greedy badness at or
   * above the sentinel the code can return an over-wide candidate
   * (`SentinelRank.OverWideChosen`); `PrettyFillClamped` is the corrected form.
   */
  method PrettyFill(width: int, words: seq<string>) returns (best: Candidate, ghost at: nat)
    requires 0 < width
    requires AllFit(width, words)
    requires Fill(width, words).badness < Sentinel
    ensures best.Valid(width) && Fits(best.paragraph, width)
    ensures Words(best.paragraph) == words
    ensures best.badness <= Fill(width, words).badness
    ensures at < |Explored(width, words)| && best.View() == Explored(width, words)[at]
    ensures forall j :: 0 <= j < |Explored(width, words)| ==> best.badness <= Explored(width, words)[j].badness
    ensures forall j :: at < j < |Explored(width, words)| ==> best.badness < Explored(width, words)[j].badness
  {
    var greedy := GreedyFill(width, words);
    var badnessMax := greedy.badness;
    var candidates := SearchAll(width, words, badnessMax);
    ghost var explored := Explored(width, words);
    ghost var g := ExploredComplete(width, words);
    var b: Candidate?;
    ghost var a: int;
    b, a := SelectBest(candidates, badnessMax);
    assert candidates[g].badness <= badnessMax;
    best, at := b, a;
    assert best.View() == explored[at];
    assert explored[at] in explored;
  }

  /**
   * The pruning bound the search evidently intends: the greedy badness, held
   * below the sentinel so that no over-wide candidate is ever within it.
   */
  function ClampBound(b: int): (r: int)
    ensures r < Sentinel && r <= b
    ensures b < Sentinel ==> r == b
  {
    if b < Sentinel then b else Sentinel - 1
  }

  /**
   * `prettyFill` with the bound clamped below the sentinel, falling back to the
   * greedy candidate when no candidate is within the bound. Whenever every word
   * fits, the result fits the width and holds all the words, also when the
   * greedy badness is above the sentinel; below it, the result is one that
   * `prettyFill` itself could return.
   */
  method PrettyFillClamped(width: int, words: seq<string>) returns (best: Candidate)
    requires 0 < width
    requires AllFit(width, words)
    ensures best.Valid(width) && Fits(best.paragraph, width)
    ensures Words(best.paragraph) == words
    ensures best.badness <= Fill(width, words).badness
    ensures forall j :: 0 <= j < |Search(width, words, ClampBound(Fill(width, words).badness))| ==>
      (Search(width, words, ClampBound(Fill(width, words).badness))[j].badness <= ClampBound(Fill(width, words).badness) ==>
       best.badness <= Search(width, words, ClampBound(Fill(width, words).badness))[j].badness)
    ensures Fill(width, words).badness < Sentinel ==> best.View() in Explored(width, words)
  {
    var greedy := GreedyFill(width, words);
    var bound := ClampBound(greedy.badness);
    var candidates := SearchAll(width, words, bound);
    ghost var explored := Search(width, words, bound);
    SearchFaithful(width, words, bound);
    SearchWords(width, words, bound);
    FillFits(width, words);
    FillWords(width, words);
    if greedy.badness < Sentinel {
      GreedyInSearch(width, words, bound);
    }
    var b: Candidate?;
    ghost var at: int;
    b, at := SelectBest(candidates, bound);
    if b == null {
      best := greedy;
    } else {
      best := b;
      assert best.View() == explored[at];
      assert HoldsPrefix(explored[at], words, bound);
    }
  }

  /** The search over `words + [w]` is one pass after that over `words`. */
  lemma SearchSnoc(width: int, words: seq<string>, w: string, bound: int)
    ensures Search(width, words + [w], bound) == Pass(Search(width, words, bound), width, w, bound)
  {
    assert (words + [w])[..|words|] == words;
  }

  /** A pass, given the grown candidates position by position and the appended breaks. */
  lemma PassIs(vs: seq<Para>, width: int, w: string, bound: int, grown: seq<Para>, forks: seq<Para>)
    requires HasLines(vs)
    requires |grown| == |vs| && forall i :: 0 <= i < |vs| ==> grown[i] == Grow(vs[i], width, w, bound)
    requires forks == Forks(vs, width, w, bound)
    ensures Pass(vs, width, w, bound) == grown + forks
  {
  }

  /** A candidate above the bound appends no break. */
  lemma ForksSkip(vs: seq<Para>, v: Para, width: int, w: string, bound: int)
    requires HasLines(vs) && v.lines != [] && v.badness > bound
    ensures HasLines(vs + [v])
    ensures Forks(vs + [v], width, w, bound) == Forks(vs, width, w, bound)
  {
    assert (vs + [v])[..|vs|] == vs;
  }

  /** A candidate within the bound appends its break `r`. */
  lemma ForksKeep(vs: seq<Para>, v: Para, width: int, w: string, bound: int, r: Para)
    requires HasLines(vs) && v.lines != [] && v.badness <= bound && BreakAndAddTo(v, width, w) == r
    ensures HasLines(vs + [v])
    ensures Forks(vs + [v], width, w, bound) == Forks(vs, width, w, bound) + [r]
  {
    assert (vs + [v])[..|vs|] == vs;
  }
}
