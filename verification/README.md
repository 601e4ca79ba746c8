# Paragraph filling in fdr/varg, modelled in Dafny

The Go package `varg` fills a paragraph: it breaks a sequence of words into
lines no wider than a target width. Its core, `fill.go`, has three parts.

- **The candidate model.** A `line` holds its words and its width. The width is
  kept up to date word by word: the word lengths plus one column per gap. A
  `candidate` holds its lines and a `badness`: the sum of
  `(target - width)^2` over every line but the last. Once any line is wider
  than the target, the badness is the sentinel 2147483647. `addWord` and
  `breakAndAdd` update a candidate in place, and `copy` duplicates it. The
  method `fidelity` recomputes the badness and panics on a mismatch.
- **`greedyFill`** makes one pass over the words. It breaks before a word when
  the last line's width plus the word's length reaches the target.
- **`prettyFill`** is a branch-and-bound search whose bound is the greedy
  badness. For each word, every candidate within the bound takes the word on
  its last line in place. A copy of it that breaks before the word is appended
  to the list. Candidates above the bound stay in the list and are never
  extended. The last candidate of least badness is returned.

The project has one module per part, plus two more.

- `paragraphs.dfy` (module `Paragraphs`): lines and candidate contents as
  values. It defines the updates as functions, and the invariant `fidelity`
  checks as the predicate `Faithful`. `FidelityBadness` is the recomputation
  exactly as the code does it.
- `candidates.dfy` (module `Candidates`): the class `Candidate`. It has the
  fields `badness` and `paragraph`, and the methods `Copy`, `Fidelity`,
  `AddWord` and `BreakAndAdd`, which update the object in place. Each method
  is specified by the functions of `Paragraphs`. `IntendedFidelity` is the
  corrected check described under "Findings".
- `greedy.dfy` (module `Greedy`): `Fill` specifies the greedy pass, and the
  method `GreedyFill` performs it on a candidate object. The lemmas cover word
  placement, the width bound, the invariant, the break rule, the empty-first-line
  quirk and the monotone badness.
- `pretty.dfy` (module `Pretty`): `Search` specifies the list of candidates
  after each word. The methods `ExtendAll`, `SearchAll`, `SelectBest` and
  `PrettyFill` perform the search on a list of distinct candidate objects,
  updating them in place. They keep the number of candidates fixed when a
  word's pass starts, as the Go `range` does.
- `finding.dfy` (module `SentinelClash`) and `rank.dfy` (module
  `SentinelRank`): the two discrepancies under "Findings". The corrected
  search, `PrettyFillClamped`, is in `pretty.dfy`.
- `examples.dfy` (module `Examples`): the small cases of `fill_test.go`, stated
  on the model.

Three behaviours of the code shape the model. The package's doc comment says
that costlier candidates "are eliminated" (fill.go:142-146), but the code
does otherwise, and the model does what the code does.

- **Ties in the final scan.** The scan compares with `<=`, so the *last*
  candidate of least badness wins (fill.go:175).
- **Pruned candidates.** They are not removed. They stay in the list unchanged
  and take part in the final scan (fill.go:157-159).
- **Empty words.** These are allowed; they occur where the input has two
  spaces.

## Model

| member | source | states |
|---|---|---|
| Candidates.Candidate.constructor | fill.go:114-121 | `newCandidate`: badness 0 and exactly one line, which is empty and of width 0 |
| Candidates.Candidate.Copy | fill.go:16-30 | the copy is a fresh object with the same badness and the same lines (words and widths) as the original |
| Candidates.Candidate.Fidelity | fill.go:32-65 | the check succeeds exactly when the recorded badness equals the recomputation as written (`FidelityBadness`); it fails where the code panics, including on an over-wide line while the badness is below the sentinel |
| Candidates.Candidate.IntendedFidelity | fill.go:32-65 | the corrected check succeeds exactly when the recorded badness is the intended one: the sentinel if a line is too wide, otherwise the cost of every line but the last |
| Candidates.Candidate.AddWord | fill.go:67-91 | the word is appended to the last line only; that width grows by the word's length, plus one if the line had words; the badness is unchanged unless the line now overflows, when it becomes the sentinel; the invariant is kept |
| Candidates.Candidate.BreakAndAdd | fill.go:93-104 | the last line's squared slack is added to the badness, every line is kept and one line holding only the word is appended; the sentinel is set if the word alone is too wide; the invariant is kept; it requires a feasible candidate or a full last line, the exact condition under which the code does not panic, apart from the sentinel clash under "Findings" |
| Paragraphs.NewLine | fill.go:106-112 | `newLine`: a line with no words, whose width is the rendered width of no words |
| Paragraphs.AddWordTo | fill.go:67-91 | `addWord` on candidate contents; its contract says only that no line is added or removed, and the lemmas below state what it does to the words, widths and badness |
| Paragraphs.CloseLine | fill.go:93-99 | the first half of `breakAndAdd`: the lines are kept and one empty line is appended, so the words are unchanged; the badness never drops, and stays the same exactly when the closed line was exactly full |
| Paragraphs.BreakAndAddTo | fill.go:93-104 | `breakAndAdd` on candidate contents: exactly one line is added (`BreakAndAddShape` states what it holds) |
| Paragraphs.NewParaFaithful | fill.go:114-121 | a new candidate satisfies the invariant checked by `fidelity`, and holds no words |
| Paragraphs.AddWordKeepsFaithful | fill.go:67-91 | `addWord` keeps the invariant on every candidate, feasible or not |
| Paragraphs.CloseLineFaithful | fill.go:93-101 | closing the last line keeps the invariant if and only if the candidate is feasible or its last line is exactly full; otherwise the `fidelity` call in the following `addWord` panics |
| Paragraphs.BreakAndAddKeepsFaithful | fill.go:93-104 | `breakAndAdd` keeps the invariant on a feasible candidate or one with a full last line |
| Paragraphs.BreakAndAddShape | fill.go:93-104 | `breakAndAdd` keeps every line, appends one line holding only the word with the word's length as its width, and charges the closed line's cost, or sets the sentinel when the word is too wide |
| Paragraphs.InfeasibleSticks | fill.go:86-88 | once a line is too wide, `addWord` keeps the sentinel, and so does `breakAndAdd` where it may run |
| Paragraphs.AddWordAppendsWord | fill.go:67-91 | the words of the candidate after `addWord` are its words before, followed by the new word |
| Paragraphs.BreakAndAddAppendsWord | fill.go:93-104 | the words of the candidate after `breakAndAdd` are its words before, followed by the new word |
| Paragraphs.AddWordWellFormed | fill.go:72-81 | every line width stays the rendered width of its words |
| Paragraphs.BreakAndAddWellFormed | fill.go:96-101 | every line width stays the rendered width of its words |
| Paragraphs.FidelityAgrees | fill.go:32-65 | the recomputation in `fidelity` equals the intended badness if and only if some line is too wide, or the total cost of all lines is not exactly the sentinel, or the last line is full |
| Greedy.Step | fill.go:132-136 | one iteration of the greedy loop, `breakAndAdd` when the last line's width plus the word's length reaches the target and `addWord` otherwise; its contract says only that the result has a line, and the lemmas below state the rest |
| Greedy.Fill | fill.go:128-140 | the candidate the greedy loop builds, one `Step` per word from a new candidate; its contract says only that it has a line, and the lemmas below state the rest |
| Greedy.GreedyFill | fill.go:128-140 | the greedy pass, performed on a fresh candidate object, yields the candidate `Fill` describes and keeps the invariant |
| Greedy.FillWords | fill.go:131-137 | the greedy result holds every word exactly once, in input order, and each line's width is the rendered width of its words |
| Greedy.FillFits | fill.go:131-137 | when every word fits, no line of the greedy result is wider than the target |
| Greedy.StepFits | fill.go:132-136 | a greedy step with a word that fits keeps every line within the target |
| Greedy.FillFaithful | fill.go:128-140 | the greedy result keeps the invariant when every word but the last fits |
| Greedy.FillBadnessGrows | fill.go:131-137 | when every word fits, the greedy badness after any prefix of the words is at most the final greedy badness |
| Greedy.FillBreakRule | fill.go:132 | each line after the first starts with a word for which the previous line's width plus its length reaches the target; each later word on a line was added because the width before it plus its length stayed below the target |
| Greedy.FirstLineQuirk | fill.go:132 | the first line is left empty if and only if the first word alone is at least as long as the target |
| Greedy.StepKeepsFirst | fill.go:131-137 | a greedy step never removes a line, never changes the first line once a second exists, and never empties it |
| Pretty.Grow | fill.go:156-162 | what one inner iteration does in place to the candidate it visits: nothing above the bound, `addWord` otherwise; the number of lines is unchanged |
| Pretty.Forks | fill.go:157-165 | the copies one pass appends, in order: at most one per candidate, each with a line |
| Pretty.Pass | fill.go:153-166 | the list after the pass for one word, the candidates grown in place followed by the appended copies: each candidate has a line, and the list keeps at least its length and at most doubles |
| Pretty.Search | fill.go:149-167 | the list after the passes for all the words, from one new candidate: never empty, and each candidate has a line |
| Pretty.ForkSource | fill.go:157-165 | every copy a pass appends is `breakAndAdd` of a candidate of the list that was within the bound |
| Pretty.PassSource | fill.go:153-165 | every candidate after a pass is either the candidate at the same position grown in place, or the break of a candidate within the bound |
| Pretty.ForksContain | fill.go:157-165 | every candidate within the bound has its break among the copies the pass appends |
| Pretty.SearchWords | fill.go:152-167 | every candidate of the search has exact widths and holds a prefix of the words; every candidate within the bound holds all of them, in order |
| Pretty.SearchFaithful | fill.go:152-167 | with a bound below the sentinel, every candidate of the search keeps the invariant checked by `fidelity` |
| Pretty.GreedyInSearch | fill.go:147-167 | when every word fits, the greedy candidate is in the search bounded by its badness; the greedy decision path is never pruned |
| Pretty.StepInPass | fill.go:157-165 | a candidate within the bound has its greedy step (grown in place or broken) in the next list |
| Pretty.ExploredComplete | fill.go:147-167 | the final list holds the greedy candidate; every candidate within the greedy badness keeps the invariant, fits the width and holds all the words in order |
| Pretty.MidwayIsPass | fill.go:153-166 | handling the first `i` candidates one at a time, each appending its break, gives those candidates grown in place, then the rest unchanged, then their breaks |
| Pretty.ForkAt | fill.go:161-163 | copy, `addWord` in place and `breakAndAdd` on the copy: the candidate at `i` takes the word, every other object is unchanged, and the fresh copy holds the break |
| Pretty.ExtendAt | fill.go:154-165 | one inner iteration, from the state after `i` candidates to the state after `i + 1` (`Reached`): the candidate at `i` grows in place if within the bound, and its break is appended as a fresh, distinct object; the objects the pass started with stay first |
| Pretty.ExtendAll | fill.go:153-166 | the inner loop over the candidates present when it starts: the objects already in the list are kept in place, new ones are fresh and distinct, and the contents are those `Pass` describes |
| Pretty.SearchAll | fill.go:149-167 | after the loops, the list of fresh, distinct candidate objects has the contents `Search` describes |
| Pretty.SelectBest | fill.go:169-181 | the scan returns nothing exactly when every badness is above the bound; otherwise it returns the candidate at `at`, within the bound and of least badness, with every later candidate strictly worse |
| Pretty.PrettyFill | fill.go:147-182 | the result keeps the invariant, fits the width and holds all the words in order; its badness is at most the greedy badness; it is the last candidate of least badness in the final list |
| Pretty.ClampBound | fill.go:148 | the corrected bound is below the sentinel and never above the greedy badness, and equals the greedy badness whenever that is below the sentinel |
| Pretty.PrettyFillClamped | fill.go:147-182 | the corrected `prettyFill` (see "Findings"): whenever the width is positive and every word fits, the result keeps the invariant, fits the width, holds all the words in order and is no worse than the greedy candidate, also when the greedy badness is above the sentinel; no candidate of the search within the clamped bound is better; below the sentinel, the result is in the list `prettyFill` ends with |
| SentinelClash.FillBreaksEach | fill.go:131-137 | when each word reaches the target with the one before it, the greedy result is an empty line followed by one line per word, and its badness is the cost of all lines but the last |
| SentinelClash.FidelityRejectsFeasible | fill.go:57-64 | a greedy fill that keeps the invariant, with every line fitting and badness 2147483646, for which the recomputation in `fidelity` yields 2147483647 |
| SentinelClash.ClashCosts | fill.go:51-52 | the line costs of that fill add up to 2147483646 without the last line and to 2147483647 with it |
| Examples.Add1 | fill_test.go:120-121 | at width 4, `addWord` of "a" on a new candidate gives the line "a" of width 1, badness 0 |
| Examples.Add2 | fill_test.go:122-123 | then "b" gives the line "a b" of width 3, badness 0 |
| Examples.Add3 | fill_test.go:125-127 | then "cc" gives the line "a b cc" of width 6, which overruns and sets the sentinel |
| Examples.AddWordTrace | fill_test.go:116-128 | the same three calls on a candidate object end with the sentinel and the single line "a b cc" of width 6 |
| Examples.Break1 | fill_test.go:134-135 | at width 4, `breakAndAdd` of "a" on a new candidate gives badness 16 and the lines "" and "a" |
| Examples.Break2 | fill_test.go:136-137 | then "b" gives badness 25 |
| Examples.Break3 | fill_test.go:138-139 | then "cc" gives badness 34 |
| Examples.Break4 | fill_test.go:140-141 | then "dddd" gives badness 38 |
| Examples.Break5 | fill_test.go:143-145 | then "eeeee" overruns and sets the sentinel |
| Examples.BreakAndAddTrace | fill_test.go:130-146 | at width 4, breaking before "a", "b", "cc" and "dddd" gives badness 16, 25, 34 and 38; "eeeee" sets the sentinel; the lines are as the test prints them |
| Examples.SmallGreedy | fill_test.go:88-90 | the greedy fill of "aaa bb cc ddddd" at width 6 is "aaa bb" / "cc" / "ddddd", with badness 16 |
| Examples.SmallExplored | fill.go:147-167 | the search for that input bounded by 16 ends with seven candidates, in a fixed order |
| Examples.GreedySmall | fill_test.go:76-99 | the greedy method on that input gives the lines "aaa bb" / "cc" / "ddddd" |
| Examples.PrettySmall | fill_test.go:76-99 | the pretty method on that input gives the lines "aaa" / "bb cc" / "ddddd", with badness 10 |
| Examples.DegenerateExplored | fill.go:147-167 | for the single word "aaaa" at width 8, the search ends with the one-line candidate followed by its break |
| Examples.Degenerate | fill_test.go:59-74 | both fills of "aaaa" at width 8 give the single line "aaaa" |
| Examples.CrowdedPanics | fill.go:147-167 | at width 2, "a a aaa" has greedy badness 2147483647; the search's in-place candidate "a a" is over-wide yet within that bound, and closing its line breaks the invariant that `fidelity` checks (fill.go:32-65), so breaking it before "aaa" panics |
| SentinelRank.OverWideChosen | fill.go:147-181 | at width 50000 with "a" and a 49999-letter word, the greedy fill fits, holds both words and has badness 2499900001, above the sentinel; the final list is the over-wide line "a x" (badness 2147483647), the break before "a" and the greedy fill, and the over-wide one is within the bound and strictly better than the other two |

## Left out

- `render` and the width-72 golden tests (fill_test.go:20-57) are not modelled. Their expected line splits could be stated as values. On 60 and more words, however, the list `Explored` that `prettyFill` scans doubles with nearly every word, and evaluating it is beyond the verifier. `render` joins strings; the small examples state the lines it would join.
- The text of the panic messages is not modelled. A panic in `fidelity` is `Fidelity` returning false. In `addWord` and `breakAndAdd`, it is a precondition or the invariant `Valid`.
- Candidates.Candidate.AddWord: the `fidelity` check on entry is the precondition `Valid(target)`, and the check on exit is the postcondition `Valid(target)`. This is the intended invariant. The check as written can fail even where that invariant holds; see "Findings".
- Candidates.Candidate.BreakAndAdd: the `fidelity` checks on entry and exit are stated the same way.
- Go slice mechanics are not modelled: capacities (`make(..., 1, 30)`, `make(..., 0, len(words))`), the struct copy made by `append(candidates, *lineBreakC)`, and a returned pointer into the slice. Candidates are distinct objects held in a sequence, and a line is a value, so no two candidates share one.
- Platform `int` width and overflow are not modelled. Integers are unbounded, and the sentinel is the constant 2147483647.
- Word length is the length of a character sequence. The difference between bytes and characters in Go `len(string)` is not modelled.
- Greedy.GreedyFill: requires a positive width and every word but the last to fit. An empty word list never panics. A negative width panics at the first word, because the empty first line is already too wide. A width of 0 panics at the first word that follows a non-empty word; `greedyFill(0, ["a"])` returns an empty line followed by "a". At a positive width, a word other than the last that is too wide panics at the next word, because `breakAndAdd` then closes an over-wide line.
- Pretty.PrettyFill: requires a positive width, every word to fit, and a greedy badness below the sentinel. What the code does on other inputs is not modelled. Where `greedyFill` panics (see the line above), `prettyFill` panics too. When only the last word is too wide, the greedy badness is the sentinel, so over-wide candidates are within the bound. `prettyFill(3, ["aaaa"])` returns an empty line followed by "aaaa" without a panic. `prettyFill(2, ["a", "a", "aaa"])` panics: the in-place candidate "a a" is 3 wide, within the bound, and its copy is broken before "aaa", after which the `fidelity` check on entry to `addWord` fails (`Examples.CrowdedPanics`). When the greedy badness is above the sentinel, the same holds: breaking an over-wide candidate makes the code panic unless its last line is exactly full. Where no such break happens, the scan can return an over-wide candidate although a feasible one exists (see "Findings"). `Pretty.PrettyFillClamped` covers every input whose words fit.
- Pretty.SearchAll: requires a bound below the sentinel. With a larger bound, over-wide candidates are extended too. `addWord` on one runs, but breaking one makes `breakAndAdd` panic unless its last line is exactly full.
- Pretty.SearchFaithful: requires a bound below the sentinel, for the same reason as `SearchAll`.
- Pretty.ExploredComplete: requires a greedy badness below the sentinel. Above it, the final list can hold an over-wide candidate within the bound (`SentinelRank.OverWideChosen`).
- The exponential growth of the candidate list is a cost, not a property, and is not modelled.

## Findings

| source | as written | input that shows it | evidently intended | confidence | as-written member | corrected member |
|---|---|---|---|---|---|---|
| fill.go:57-64 | `fidelity` treats a recomputed total equal to 2147483647 as the flag for an over-wide line. It then skips subtracting the last line's cost. | `greedyFill` at width 46340 with words of lengths 46340, 46044, 46320, 46335, 46338, 46339, 46339. Every line fits, the line costs are 2147395600, 0, 87616, 400, 25, 4, 1 and 1, and the stored badness is 2147483646. The check at the end of the last `addWord` recomputes 2147483647 and panics. | The sentinel is recognised only when a line is too wide. The recomputation is then always the cost of every line but the last. | not executed | SentinelClash.FidelityRejectsFeasible | Candidates.Candidate.IntendedFidelity |
| fill.go:147-181 | `prettyFill` bounds the search by the greedy badness and keeps the least badness, while `addWord` (fill.go:86-88) gives an over-wide candidate the badness 2147483647. Once the greedy badness exceeds that value, over-wide candidates rank above feasible ones. | Width 50000, words "a" and a word of 49999 letters. The greedy fill breaks between them and has badness 49999 * 49999 = 2499900001. The line "a" plus the long word is 50001 columns wide, with badness 2147483647. The final scan returns that over-wide line. | A candidate with a line that is too wide is never preferred to a feasible one. | not executed | SentinelRank.OverWideChosen | Pretty.PrettyFillClamped |
