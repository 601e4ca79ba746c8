/**
 * The small cases of fill_test.go, stated on the model: the candidate
 * operations on width 4, and both fills of "aaa bb cc ddddd" at width 6 and
 * of "aaaa" at width 8. Each result is given as the lines that the source's
 * `render` joins into the expected text.
 */
module Examples {
  import opened Paragraphs
  import opened Candidates
  import opened Greedy
  import opened Pretty

  const A1 := Para(0, [Line(["a"], 1)])
  const A2 := Para(0, [Line(["a", "b"], 3)])
  const A3 := Para(Sentinel, [Line(["a", "b", "cc"], 6)])

  lemma Add1() ensures AddWordTo(NewPara(), 4, "a") == A1 && Fits(A1.lines, 4) {
    assert NewPara() == Para(0, [] + [NewLine()]) && [] + ["a"] == ["a"];
    AddOnto(0, [], NewLine(), 4, "a");
  }
  lemma Add2() ensures AddWordTo(A1, 4, "b") == A2 && Fits(A2.lines, 4) {
    assert A1 == Para(0, [] + [Line(["a"], 1)]) && ["a"] + ["b"] == ["a", "b"];
    AddOnto(0, [], Line(["a"], 1), 4, "b");
  }
  lemma Add3() ensures AddWordTo(A2, 4, "cc") == A3 && !Fits(A3.lines, 4) {
    assert A2 == Para(0, [] + [Line(["a", "b"], 3)]) && ["a", "b"] + ["cc"] == ["a", "b", "cc"];
    AddOnto(0, [], Line(["a", "b"], 3), 4, "cc");
    assert A3.lines[0].width > 4;
  }

  /** `addWord` at width 4: "a", then "b" after a gap, then "cc" overruns and sets the sentinel. */
  method AddWordTrace() returns (c: Candidate)
    ensures c.badness == Sentinel && c.paragraph == [Line(["a", "b", "cc"], 6)]
  {
    c := new Candidate();
    NewParaFaithful(4);
    c.AddWord(4, "a");
    Add1();
    c.AddWord(4, "b");
    Add2();
    c.AddWord(4, "cc");
    Add3();
  }

  const B1 := Para(16, [Line([], 0), Line(["a"], 1)])
  const B2 := Para(25, [Line([], 0), Line(["a"], 1), Line(["b"], 1)])
  const B3 := Para(34, [Line([], 0), Line(["a"], 1), Line(["b"], 1), Line(["cc"], 2)])
  const B4 := Para(38, [Line([], 0), Line(["a"], 1), Line(["b"], 1), Line(["cc"], 2), Line(["dddd"], 4)])
  const B5 := Para(Sentinel, [Line([], 0), Line(["a"], 1), Line(["b"], 1), Line(["cc"], 2), Line(["dddd"], 4), Line(["eeeee"], 5)])

  lemma Break1() ensures BreakAndAddTo(NewPara(), 4, "a") == B1 && Fits(B1.lines, 4) {
    BreakAndAddShape(NewPara(), 4, "a");
  }
  lemma Break2() ensures BreakAndAddTo(B1, 4, "b") == B2 && Fits(B2.lines, 4) {
    BreakAndAddShape(B1, 4, "b");
  }
  lemma Break3() ensures BreakAndAddTo(B2, 4, "cc") == B3 && Fits(B3.lines, 4) {
    BreakAndAddShape(B2, 4, "cc");
  }
  lemma Break4() ensures BreakAndAddTo(B3, 4, "dddd") == B4 && Fits(B4.lines, 4) {
    BreakAndAddShape(B3, 4, "dddd");
  }
  lemma Break5() ensures BreakAndAddTo(B4, 4, "eeeee") == B5 {
    BreakAndAddShape(B4, 4, "eeeee");
  }

  /** `breakAndAdd` at width 4: each break charges the closed line's cost; "eeeee" alone overruns. */
  method BreakAndAddTrace() returns (c: Candidate)
    ensures c.badness == Sentinel
    ensures c.paragraph == [Line([], 0), Line(["a"], 1), Line(["b"], 1), Line(["cc"], 2), Line(["dddd"], 4), Line(["eeeee"], 5)]
  {
    c := new Candidate();
    NewParaFaithful(4);
    c.BreakAndAdd(4, "a");
    Break1();
    c.BreakAndAdd(4, "b");
    Break2();
    c.BreakAndAdd(4, "cc");
    Break3();
    c.BreakAndAdd(4, "dddd");
    Break4();
    c.BreakAndAdd(4, "eeeee");
    Break5();
  }

  const P1a := Para(0, [Line(["aaa"], 3)])
  const P1b := Para(36, [Line([], 0), Line(["aaa"], 3)])
  const P2a := Para(0, [Line(["aaa", "bb"], 6)])
  const P2c := Para(9, [Line(["aaa"], 3), Line(["bb"], 2)])
  const P3a := Para(Sentinel, [Line(["aaa", "bb", "cc"], 9)])
  const P3c := Para(9, [Line(["aaa"], 3), Line(["bb", "cc"], 5)])
  const P3d := Para(0, [Line(["aaa", "bb"], 6), Line(["cc"], 2)])
  const P3e := Para(25, [Line(["aaa"], 3), Line(["bb"], 2), Line(["cc"], 2)])
  const P4c := Para(Sentinel, [Line(["aaa"], 3), Line(["bb", "cc", "ddddd"], 11)])
  const P4d := Para(Sentinel, [Line(["aaa", "bb"], 6), Line(["cc", "ddddd"], 8)])
  const P4f := Para(10, [Line(["aaa"], 3), Line(["bb", "cc"], 5), Line(["ddddd"], 5)])
  const P4g := Para(16, [Line(["aaa", "bb"], 6), Line(["cc"], 2), Line(["ddddd"], 5)])

  // Each candidate of the small search, from the one it grew or broke from.

  lemma Grow1a() ensures AddWordTo(NewPara(), 6, "aaa") == P1a {
    assert [NewLine()][..0] == [] && [] + ["aaa"] == ["aaa"];
  }
  lemma Fork1b() ensures BreakAndAddTo(NewPara(), 6, "aaa") == P1b {
    BreakAndAddShape(NewPara(), 6, "aaa");
  }
  lemma Grow2a() ensures AddWordTo(P1a, 6, "bb") == P2a {
    assert P1a.lines[..0] == [] && ["aaa"] + ["bb"] == ["aaa", "bb"];
  }
  lemma Fork2c() ensures BreakAndAddTo(P1a, 6, "bb") == P2c {
    BreakAndAddShape(P1a, 6, "bb");
  }
  lemma Grow3a() ensures AddWordTo(P2a, 6, "cc") == P3a {
    assert P2a.lines[..0] == [] && ["aaa", "bb"] + ["cc"] == ["aaa", "bb", "cc"];
  }
  lemma Fork3d() ensures BreakAndAddTo(P2a, 6, "cc") == P3d {
    BreakAndAddShape(P2a, 6, "cc");
  }
  lemma Grow3c() ensures AddWordTo(P2c, 6, "cc") == P3c {
    assert P2c.lines[..1] == [Line(["aaa"], 3)] && ["bb"] + ["cc"] == ["bb", "cc"];
  }
  lemma Fork3e() ensures BreakAndAddTo(P2c, 6, "cc") == P3e {
    BreakAndAddShape(P2c, 6, "cc");
  }
  lemma Grow4c() ensures AddWordTo(P3c, 6, "ddddd") == P4c {
    assert P3c.lines[..1] == [Line(["aaa"], 3)] && ["bb", "cc"] + ["ddddd"] == ["bb", "cc", "ddddd"];
  }
  lemma Fork4f() ensures BreakAndAddTo(P3c, 6, "ddddd") == P4f {
    BreakAndAddShape(P3c, 6, "ddddd");
  }
  lemma Grow4d() ensures AddWordTo(P3d, 6, "ddddd") == P4d {
    assert P3d.lines[..1] == [Line(["aaa", "bb"], 6)] && ["cc"] + ["ddddd"] == ["cc", "ddddd"];
  }
  lemma Fork4g() ensures BreakAndAddTo(P3d, 6, "ddddd") == P4g {
    BreakAndAddShape(P3d, 6, "ddddd");
  }

  lemma SmallSearch1()
    ensures Search(6, ["aaa"], 16) == [P1a, P1b]
  {
    SearchSnoc(6, [], "aaa", 16);
    assert [] + ["aaa"] == ["aaa"];
    Pass1();
  }

  lemma Pass1()
    ensures Pass([NewPara()], 6, "aaa", 16) == [P1a, P1b]
  {
    Grow1a();
    Fork1b();
    ForksKeep([], NewPara(), 6, "aaa", 16, P1b);
    assert [] + [NewPara()] == [NewPara()];
    PassIs([NewPara()], 6, "aaa", 16, [P1a], [P1b]);
  }

  lemma Pass2()
    ensures Pass([P1a, P1b], 6, "bb", 16) == [P2a, P1b, P2c]
  {
    Grow2a();
    Fork2c();
    ForksKeep([], P1a, 6, "bb", 16, P2c);
    ForksSkip([P1a], P1b, 6, "bb", 16);
    assert [] + [P1a] == [P1a] && [P1a] + [P1b] == [P1a, P1b];
    PassIs([P1a, P1b], 6, "bb", 16, [P2a, P1b], [P2c]);
  }

  lemma SmallSearch2()
    ensures Search(6, ["aaa", "bb"], 16) == [P2a, P1b, P2c]
  {
    SmallSearch1();
    SearchSnoc(6, ["aaa"], "bb", 16);
    assert ["aaa"] + ["bb"] == ["aaa", "bb"];
    Pass2();
  }

  lemma Pass3()
    ensures Pass([P2a, P1b, P2c], 6, "cc", 16) == [P3a, P1b, P3c, P3d, P3e]
  {
    Grow3a();
    Grow3c();
    assert Grown([P2a, P1b, P2c], 6, "cc", 16) == [P3a, P1b, P3c];
    Forks3();
    assert [P3a, P1b, P3c] + [P3d, P3e] == [P3a, P1b, P3c, P3d, P3e];
  }

  lemma Forks3()
    ensures Forks([P2a, P1b, P2c], 6, "cc", 16) == [P3d, P3e]
  {
    Fork3d();
    Fork3e();
    ForksKeep([], P2a, 6, "cc", 16, P3d);
    ForksSkip([P2a], P1b, 6, "cc", 16);
    ForksKeep([P2a, P1b], P2c, 6, "cc", 16, P3e);
    assert [] + [P2a] == [P2a] && [P2a] + [P1b] == [P2a, P1b] && [P2a, P1b] + [P2c] == [P2a, P1b, P2c];
    assert [P3d] + [P3e] == [P3d, P3e];
  }

  lemma SmallSearch3()
    ensures Search(6, ["aaa", "bb", "cc"], 16) == [P3a, P1b, P3c, P3d, P3e]
  {
    SmallSearch2();
    SearchSnoc(6, ["aaa", "bb"], "cc", 16);
    assert ["aaa", "bb"] + ["cc"] == ["aaa", "bb", "cc"];
    Pass3();
  }

  lemma Pass4()
    ensures Pass([P3a, P1b, P3c, P3d, P3e], 6, "ddddd", 16) == [P3a, P1b, P4c, P4d, P3e, P4f, P4g]
  {
    Grow4c();
    Grow4d();
    assert Grown([P3a, P1b, P3c, P3d, P3e], 6, "ddddd", 16) == [P3a, P1b, P4c, P4d, P3e];
    Forks4();
    assert [P3a, P1b, P4c, P4d, P3e] + [P4f, P4g] == [P3a, P1b, P4c, P4d, P3e, P4f, P4g];
  }

  lemma Forks4a()
    ensures Forks([P3a, P1b, P3c], 6, "ddddd", 16) == [P4f]
  {
    Fork4f();
    ForksSkip([], P3a, 6, "ddddd", 16);
    ForksSkip([P3a], P1b, 6, "ddddd", 16);
    ForksKeep([P3a, P1b], P3c, 6, "ddddd", 16, P4f);
    assert [] + [P3a] == [P3a] && [P3a] + [P1b] == [P3a, P1b] && [P3a, P1b] + [P3c] == [P3a, P1b, P3c];
  }

  lemma Forks4()
    ensures Forks([P3a, P1b, P3c, P3d, P3e], 6, "ddddd", 16) == [P4f, P4g]
  {
    Forks4a();
    Fork4g();
    ForksKeep([P3a, P1b, P3c], P3d, 6, "ddddd", 16, P4g);
    ForksSkip([P3a, P1b, P3c, P3d], P3e, 6, "ddddd", 16);
    assert [P3a, P1b, P3c] + [P3d] == [P3a, P1b, P3c, P3d] && [P3a, P1b, P3c, P3d] + [P3e] == [P3a, P1b, P3c, P3d, P3e];
    assert [P4f] + [P4g] == [P4f, P4g];
  }

  lemma SmallSearch4()
    ensures Search(6, ["aaa", "bb", "cc", "ddddd"], 16) == [P3a, P1b, P4c, P4d, P3e, P4f, P4g]
  {
    SmallSearch3();
    SearchSnoc(6, ["aaa", "bb", "cc"], "ddddd", 16);
    assert ["aaa", "bb", "cc"] + ["ddddd"] == ["aaa", "bb", "cc", "ddddd"];
    Pass4();
  }

  /** The list the search for "aaa bb cc ddddd" at width 6 ends with, bounded by the greedy badness 16. */
  lemma SmallExplored()
    ensures Fill(6, ["aaa", "bb", "cc", "ddddd"]).badness == 16
    ensures Explored(6, ["aaa", "bb", "cc", "ddddd"]) == [P3a, P1b, P4c, P4d, P3e, P4f, P4g]
  {
    SmallGreedy();
    SmallSearch4();
  }

  /** The greedy fill of "aaa bb cc ddddd" at width 6 renders as "aaa bb", "cc", "ddddd". */
  method GreedySmall() returns (greedy: Candidate)
    ensures greedy.badness == 16 && greedy.paragraph == [Line(["aaa", "bb"], 6), Line(["cc"], 2), Line(["ddddd"], 5)]
  {
    SmallGreedy();
    greedy := GreedyFill(6, ["aaa", "bb", "cc", "ddddd"]);
  }

  /** The pretty fill of "aaa bb cc ddddd" at width 6 renders as "aaa", "bb cc", "ddddd", badness 10. */
  method PrettySmall() returns (pretty: Candidate)
    ensures pretty.badness == 10 && pretty.paragraph == [Line(["aaa"], 3), Line(["bb", "cc"], 5), Line(["ddddd"], 5)]
  {
    SmallReady();
    ghost var at: nat;
    pretty, at := PrettyFill(6, ["aaa", "bb", "cc", "ddddd"]);
    SmallPick(at, pretty.View());
  }

  /** The small case meets what `PrettyFill` asks of its caller. */
  lemma SmallReady()
    ensures AllFit(6, ["aaa", "bb", "cc", "ddddd"]) && Fill(6, ["aaa", "bb", "cc", "ddddd"]).badness < Sentinel
  {
    SmallGreedy();
  }

  /** The only candidate of least badness in the small search is the sixth. */
  lemma SmallPick(at: nat, best: Para)
    requires at < |Explored(6, ["aaa", "bb", "cc", "ddddd"])| && best == Explored(6, ["aaa", "bb", "cc", "ddddd"])[at]
    requires forall j :: 0 <= j < |Explored(6, ["aaa", "bb", "cc", "ddddd"])| ==>
      best.badness <= Explored(6, ["aaa", "bb", "cc", "ddddd"])[j].badness
    ensures best == P4f
  {
    SmallExplored();
    assert best.badness <= Explored(6, ["aaa", "bb", "cc", "ddddd"])[5].badness;
    SmallBest(at, best);
  }

  /** Only the sixth candidate of the small search has badness 10 or less. */
  lemma SmallBest(at: nat, best: Para)
    requires at < 7 && best == [P3a, P1b, P4c, P4d, P3e, P4f, P4g][at]
    requires best.badness <= P4f.badness
    ensures best == P4f
  {
  }

  lemma DegenerateFill()
    ensures Fill(8, ["aaaa"]) == Para(0, [Line(["aaaa"], 4)])
  {
    FillSnoc(8, [], "aaaa");
    assert [] + ["aaaa"] == ["aaaa"];
    assert [NewLine()][..0] == [] && [] + ["aaaa"] == ["aaaa"];
  }

  lemma DegenerateExplored()
    ensures Explored(8, ["aaaa"]) == [Para(0, [Line(["aaaa"], 4)]), Para(64, [Line([], 0), Line(["aaaa"], 4)])]
  {
    DegenerateFill();
    SearchSnoc(8, [], "aaaa", 0);
    assert [] + ["aaaa"] == ["aaaa"];
    assert [NewLine()][..0] == [];
    BreakAndAddShape(NewPara(), 8, "aaaa");
    ForksKeep([], NewPara(), 8, "aaaa", 0, Para(64, [Line([], 0), Line(["aaaa"], 4)]));
    assert [] + [NewPara()] == [NewPara()];
    PassIs([NewPara()], 8, "aaaa", 0, [Para(0, [Line(["aaaa"], 4)])], [Para(64, [Line([], 0), Line(["aaaa"], 4)])]);
  }

  /** A single word shorter than the width: both fills give the one line "aaaa". */
  method Degenerate() returns (pretty: Candidate, greedy: Candidate)
    ensures greedy.paragraph == [Line(["aaaa"], 4)]
    ensures pretty.paragraph == [Line(["aaaa"], 4)]
  {
    var words := ["aaaa"];
    DegenerateFill();
    DegenerateExplored();
    greedy := GreedyFill(8, words);
    ghost var at: nat;
    pretty, at := PrettyFill(8, words);
  }

  lemma SmallGreedy2()
    ensures Fill(6, ["aaa", "bb"]) == P2a
  {
    FillSnoc(6, [], "aaa");
    assert [] + ["aaa"] == ["aaa"];
    Grow1a();
    FillSnoc(6, ["aaa"], "bb");
    assert ["aaa"] + ["bb"] == ["aaa", "bb"];
    Grow2a();
  }

  /** The greedy fill of "aaa bb cc ddddd" at width 6: "aaa bb", "cc", "ddddd", badness 16. */
  lemma SmallGreedy()
    ensures Fill(6, ["aaa", "bb", "cc", "ddddd"]) == P4g
  {
    SmallGreedy2();
    FillSnoc(6, ["aaa", "bb"], "cc");
    assert ["aaa", "bb"] + ["cc"] == ["aaa", "bb", "cc"];
    Fork3d();
    FillSnoc(6, ["aaa", "bb", "cc"], "ddddd");
    assert ["aaa", "bb", "cc"] + ["ddddd"] == ["aaa", "bb", "cc", "ddddd"];
    Fork4g();
  }

  /** "a" alone at width 2. */
  const SingleA := Para(0, [Line(["a"], 1)])
  /** "a a" at width 2: the in-place candidate of the search once both "a" are placed. */
  const Crowded := Para(Sentinel, [Line(["a", "a"], 3)])

  lemma CrowdedFill1()
    ensures Fill(2, ["a"]) == SingleA && AddWordTo(NewPara(), 2, "a") == SingleA
  {
    FillSnoc(2, [], "a");
    assert [] + ["a"] == ["a"];
    assert NewPara() == Para(0, [] + [NewLine()]);
    AddOnto(0, [], NewLine(), 2, "a");
  }

  lemma CrowdedFill2()
    ensures Fill(2, ["a", "a"]) == Para(1, [Line(["a"], 1), Line(["a"], 1)])
  {
    CrowdedFill1();
    FillSnoc(2, ["a"], "a");
    assert ["a"] + ["a"] == ["a", "a"];
    assert Step(SingleA, 2, "a") == BreakAndAddTo(SingleA, 2, "a");
    assert SingleA == Para(0, [] + [Line(["a"], 1)]);
    assert Cost(Line(["a"], 1), 2) == 1;
    BreakOnto(0, [], Line(["a"], 1), 2, "a");
    assert [] + [Line(["a"], 1), Line(["a"], 1)] == [Line(["a"], 1), Line(["a"], 1)];
  }

  lemma CrowdedFill()
    ensures Fill(2, ["a", "a", "aaa"]) == Para(Sentinel, [Line(["a"], 1), Line(["a"], 1), Line(["aaa"], 3)])
  {
    CrowdedFill2();
    FillSnoc(2, ["a", "a"], "aaa");
    assert ["a", "a"] + ["aaa"] == ["a", "a", "aaa"];
    var two := Para(1, [Line(["a"], 1), Line(["a"], 1)]);
    assert Step(two, 2, "aaa") == BreakAndAddTo(two, 2, "aaa");
    assert two == Para(1, [Line(["a"], 1)] + [Line(["a"], 1)]);
    BreakOnto(1, [Line(["a"], 1)], Line(["a"], 1), 2, "aaa");
    assert [Line(["a"], 1)] + [Line(["a"], 1), Line(["aaa"], 3)] == [Line(["a"], 1), Line(["a"], 1), Line(["aaa"], 3)];
  }

  lemma CrowdedSearch1()
    ensures Search(2, ["a"], Sentinel)[0] == SingleA
  {
    SearchSnoc(2, [], "a", Sentinel);
    assert [] + ["a"] == ["a"];
    CrowdedFill1();
    assert Search(2, ["a"], Sentinel)[0] == Grown([NewPara()], 2, "a", Sentinel)[0];
  }

  lemma CrowdedSearch()
    ensures Search(2, ["a", "a"], Sentinel)[0] == Crowded
  {
    CrowdedSearch1();
    SearchSnoc(2, ["a"], "a", Sentinel);
    assert ["a"] + ["a"] == ["a", "a"];
    var vs := Search(2, ["a"], Sentinel);
    assert Search(2, ["a", "a"], Sentinel)[0] == Grown(vs, 2, "a", Sentinel)[0];
    assert SingleA == Para(0, [] + [Line(["a"], 1)]);
    AddOnto(0, [], Line(["a"], 1), 2, "a");
  }

  /**
   * An input outside `PrettyFill`'s precondition where the code panics: at
   * width 2, "a a aaa" has only its last word too wide, so the greedy badness,
   * and with it the bound, is the sentinel. The in-place candidate "a a" is
   * over-wide yet within that bound, and breaking it before "aaa" breaks the
   * invariant that the `fidelity` check on entry to `addWord` enforces.
   */
  lemma CrowdedPanics()
    ensures Fill(2, ["a", "a", "aaa"]).badness == Sentinel
    ensures Search(2, ["a", "a"], Sentinel)[0] == Crowded && Crowded.badness <= Sentinel
    ensures Faithful(Crowded, 2) && !Faithful(CloseLine(Crowded, 2), 2)
  {
    CrowdedFill();
    CrowdedSearch();
    assert Crowded.lines[0].width > 2;
    assert Crowded.lines == [] + [Line(["a", "a"], 3)];
    CloseLineFaithful(Crowded, 2);
  }
}
