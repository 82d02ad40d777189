# Largest communicating class of players who see each other

The program reads a text file with one line per player. Each line is a
comma-separated list of names. The first field names the player. The other
fields name the players that this player can see. Two players
*communicate* when each sees the other. The program reports the size of the
largest class of players joined by such mutual sight.

It does this in four stages, run one after the other by
`markovModelSolution`:

1. `readText` (module `GraphBuilder`) makes two passes over the lines.
   - The first pass gives each first field the next index (0, 1, 2, ... in
     line order). A first field that repeats an earlier one raises
     `ValueError`.
   - The second pass fills an n x n matrix: cell [i][j] is set when line i
     lists player j.
   - With exactly one player it sets cell [0][0] and never looks at the
     seen names.
   - A seen name that is no line's first field raises `KeyError`.
   - The comma split and whitespace strip of each line are modelled in
     module `Text`.
2. `findCommunicatingClasses` (module `MutualEdges`) scans i and j. It
   appends j to i's list exactly when both [i][j] and [j][i] are set.
3. `fullCommClasses` (module `ClassClosure`) starts from a deep copy `d3`
   of that map. For each player in file order, and each partner in the
   player's original list, it merges the partner's *current* `d3` value into
   the player's.
   - This is one pass whose result depends on the order; it is not a
     transitive closure.
   - `LineOfFourUnderCounts` proves this on a chain p0-p1-p2-p3. p3 can be
     reached from p0, yet p0's final class is {p0, p1, p2}.
   - The model keeps this single-pass behaviour exactly.
4. `findMaximumLengthClass` (module `MaximumFinder`) keeps a running
   maximum of the class sizes, starting at 1.

Module `Pipeline` composes the stages, and module `SmallFiles` works out
the answers for a few small files. Python dictionaries are modelled as
`Collections.Dict`: the key order as a sequence, plus a map. Lists that
pass through `set(...)` are modelled as sets. Every loop of the source is
a `method` with a loop. Four methods are proved equal to a recursive
specification function that follows the loop step by step:
`ScanRow`, `FindCommunicatingClasses`, `FullCommClasses` and
`FindMaximumLengthClass`; `MarkovModelSolution` is proved equal to the
function `Solution`. The others are characterised directly:
`IndexSources` by the name-index predicate `IsPositions` and distinct first
fields, `FillRow` and `FillRows` by the predicate `RowsDone` (which rows of
the matrix are complete), and `FillMatrix` by the matrix `SeesMatrix`
describes; `ReadText` combines these. The properties are lemmas about
these functions and predicates.

## Model

| member | source | states |
|---|---|---|
| Text.Split | markov_chain_classes_algorithm.py:23 | `line.split(',')` yields at least one piece, and no piece contains a comma |
| Text.JoinSplit | markov_chain_classes_algorithm.py:23 | joining the pieces of a split with commas gives back the line |
| Text.SplitJoin | markov_chain_classes_algorithm.py:23 | splitting comma-free pieces joined by commas gives back exactly those pieces |
| Text.Strip | markov_chain_classes_algorithm.py:23 | `x.strip()` is a contiguous slice of x with only whitespace cut on both sides, and it neither starts nor ends with whitespace |
| Text.StripUnspaced | markov_chain_classes_algorithm.py:23 | a field that neither starts nor ends with whitespace is left unchanged by `strip` |
| Text.ParseLine | markov_chain_classes_algorithm.py:23 | every line gives at least one field; each field is the matching comma piece of the line, stripped (`Text.ParseLineMeaning`) |
| Text.ParseLineMeaning | markov_chain_classes_algorithm.py:23 | a line's fields correspond one to one to comma-free pieces that, joined with commas, give back the line; each field is its piece with the surrounding whitespace cut off |
| Text.ParseUnspaced | markov_chain_classes_algorithm.py:23 | a line made by joining comma-free names without surrounding whitespace yields exactly those names |
| GraphBuilder.FirstRepeatMeaning | markov_chain_classes_algorithm.py:24-25 | no repeat is reported exactly when the names are distinct; a reported name occurs at two positions |
| GraphBuilder.IndexSources | markov_chain_classes_algorithm.py:18-27 | on a repeated first field the result is the ValueError, to which the model attaches the first repeated name in line order; otherwise the first fields are distinct, each line's first field maps to its line number, and the player count is the number of lines |
| GraphBuilder.DuplicateSourceMeaning | markov_chain_classes_algorithm.py:24-25 | the ValueError is raised exactly when some first field occurs on two lines, and the reported name is such a field |
| GraphBuilder.FirstMissingMeaning | markov_chain_classes_algorithm.py:40-43 | within one line, nothing is reported exactly when every seen name is declared; a reported name is seen on that line and is undeclared |
| GraphBuilder.FirstUnknownRowsMeaning | markov_chain_classes_algorithm.py:33-43 | across the lines, nothing is reported exactly when every seen name is declared; a reported name is undeclared and is seen on some line |
| GraphBuilder.FillRow | markov_chain_classes_algorithm.py:40-43 | one line's seen names set that line's row, given earlier rows complete and later rows zero; the first undeclared name is the KeyError |
| GraphBuilder.FillRows | markov_chain_classes_algorithm.py:33-43 | the second pass reports exactly the first undeclared seen name, ignored for a single player; on success every row says who sees whom |
| GraphBuilder.FillMatrix | markov_chain_classes_algorithm.py:30-43 | starting from the zero matrix: the KeyError for the first undeclared seen name, or an n x n matrix equal to the sight relation |
| GraphBuilder.CellsAreSees | markov_chain_classes_algorithm.py:40-43 | a matrix whose cells all agree with the sight relation is the matrix `SeesMatrix` describes |
| GraphBuilder.SeesMatrix | markov_chain_classes_algorithm.py:30-43 | the finished matrix is n x n, and cell [i][j] is set exactly when line i lists player j (always, for a single player) |
| GraphBuilder.OnePlayerMatrix | markov_chain_classes_algorithm.py:36-38 | a one-line file is always accepted, and its matrix is the 1 x 1 matrix with its cell set, whatever the line lists |
| GraphBuilder.ReadText | markov_chain_classes_algorithm.py:18-45 | the result is the ValueError if some first field repeats, else the KeyError if some seen name is undeclared, else the index, the player count and the sight matrix |
| GraphBuilder.UnknownSeenMeaning | markov_chain_classes_algorithm.py:36-43 | the KeyError is raised exactly when there are several players and some line lists an undeclared name, and the reported name is such a name |
| MutualEdges.EmptyLists | markov_chain_classes_algorithm.py:61 | d2 starts with exactly the player names as keys, in index order, each mapped to an empty list |
| MutualEdges.Inverse | markov_chain_classes_algorithm.py:62 | `inv_map` maps every index to the player name that has it |
| MutualEdges.ScanRow | markov_chain_classes_algorithm.py:64-67 | the j scan completes row i of d2 and changes no other row |
| MutualEdges.FindCommunicatingClasses | markov_chain_classes_algorithm.py:61-69 | d2 is the mutual map of the matrix: the player names as keys, in index order, each with its mutual row |
| MutualEdges.MutualMapUpToDomain | markov_chain_classes_algorithm.py:61 | every player keeps an entry throughout the scan |
| MutualEdges.MutualMapUpToAt | markov_chain_classes_algorithm.py:61-67 | a row the scan has passed holds its full mutual list; a row it has not yet reached is still the empty list |
| MutualEdges.MutualRowMembers | markov_chain_classes_algorithm.py:63-67 | j is in i's list exactly when both [i][j] and [j][i] are set, and the list holds only player names |
| MutualEdges.MutualRowIncreasing | markov_chain_classes_algorithm.py:63-67 | each list is in strictly increasing index order and has no duplicates |
| MutualEdges.MutualMapMembers | markov_chain_classes_algorithm.py:61-67 | d2 is a well-formed dictionary over the players; j is in i's list exactly when both cells are set; every listed name is a player |
| MutualEdges.MutualMapMeaning | markov_chain_classes_algorithm.py:61-67 | as above, and the relation is symmetric: j is in i's list exactly when i is in j's |
| MutualEdges.MutualMapEmpty | markov_chain_classes_algorithm.py:63-67 | when no two players (nor a player and itself) see each other, every list is empty |
| ClassClosure.DeepCopy | markov_chain_classes_algorithm.py:81 | d3 starts with the keys of d2 in the same order, and each d3[key] has the same members as d2[key] |
| ClassClosure.ExtendStep | markov_chain_classes_algorithm.py:86-90 | both branches of one step make d3[key] exactly the union of d3[key] and the current d3[val], so it only grows; no other entry changes |
| ClassClosure.FullCommClasses | markov_chain_classes_algorithm.py:81-92 | d3 is what the single pass over the keys in file order yields |
| ClassClosure.ExtendPartnersGrows | markov_chain_classes_algorithm.py:85-90 | the inner loop only grows values, and changes none but the key's |
| ClassClosure.ExtendPartnersAbsorbs | markov_chain_classes_algorithm.py:85-90 | after the inner loop, d3[key] contains the value each visited partner had at the start of the loop |
| ClassClosure.ClosureUpToGrows | markov_chain_classes_algorithm.py:83-90 | across the outer loop every value only grows, and a key with an empty d2 list keeps its value |
| ClassClosure.ClosureContainsTwoSteps | markov_chain_classes_algorithm.py:81-90 | d3[key] ends as a superset of d2[key] and of d2[p] for each partner p |
| ClassClosure.ClosureKeepsEmpty | markov_chain_classes_algorithm.py:81-84 | a key whose d2 list is empty ends with an empty d3 value |
| ClassClosure.ClosureAllEmpty | markov_chain_classes_algorithm.py:81-84 | when every d2 list is empty, every d3 value is empty |
| ClassClosure.ClosureNeighbours | markov_chain_classes_algorithm.py:81-90 | when a and b are partners of h and h is a partner of a, h's final class contains a, h and b, so its size is at least the number of distinct ones among them |
| ClassClosure.ClosureWithinKeys | markov_chain_classes_algorithm.py:83-90 | every d3 value holds only player names |
| ClassClosure.ClosureSizeBound | markov_chain_classes_algorithm.py:83-90 | no class is larger than the number of players |
| ClassClosure.ClosureKeepsFinal | markov_chain_classes_algorithm.py:83-90 | once the outer loop has processed a key, that key's value never changes again |
| ClassClosure.ClosureSound | markov_chain_classes_algorithm.py:81-90 | every member of d3[key] is reachable from the key along mutual edges |
| ClassClosure.LineOfFourFirstKey | markov_chain_classes_algorithm.py:83-90 | on the chain p0-p1-p2-p3, processing p0 gives {p0, p1, p2} |
| ClassClosure.LineOfFourUnderCounts | markov_chain_classes_algorithm.py:81-92 | on that chain p3 is reachable from p0, but p0's final class is {p0, p1, p2}: one pass is not the transitive closure |
| MaximumFinder.MaxUpToMeaning | markov_chain_classes_algorithm.py:104-108 | after k iterations the running maximum is at least 1 and at least each size seen, and is 1 or one of those sizes |
| MaximumFinder.MaxClassMeaning | markov_chain_classes_algorithm.py:103-109 | the maximum is at least 1 and at least every class size; it is 1 or the size of some class; an empty map gives 1 |
| MaximumFinder.FindMaximumLengthClass | markov_chain_classes_algorithm.py:103-109 | the loop returns that maximum, with the same three properties |
| MaximumFinder.MaxClassAllEmpty | markov_chain_classes_algorithm.py:103-109 | when every class is empty the answer is the floor 1 |
| Pipeline.ParseLines | markov_chain_classes_algorithm.py:22-23 | the file gives one record per line |
| Pipeline.ParseLinesMeaning | markov_chain_classes_algorithm.py:22-23 | record i holds the fields of line i, as `Text.ParseLineMeaning` describes them |
| Pipeline.Solution | markov_chain_classes_algorithm.py:119-123 | the run succeeds exactly when the first fields are distinct and every seen name is declared (or there is one player); a successful answer is at least 1 |
| Pipeline.MutualOf | markov_chain_classes_algorithm.py:61-67 | for distinct first fields, the mutual map of the sight matrix is well-formed for the closure and keyed by the players in file order |
| Pipeline.MarkovModelSolution | markov_chain_classes_algorithm.py:119-123 | the four stages run in turn give exactly `Solution` of the parsed lines, errors included |
| Pipeline.SolutionFails | markov_chain_classes_algorithm.py:24-43 | the run fails exactly on a repeated first field, or on an undeclared seen name when there are several players; a repeat is reported before an unknown name |
| Pipeline.MutualOfMeaning | markov_chain_classes_algorithm.py:61-67 | in terms of the file: j is in i's list exactly when line i lists j and line j lists i |
| Pipeline.SolutionBounds | markov_chain_classes_algorithm.py:104-109 | the answer is between 1 and the number of players (1 for an empty file) |
| Pipeline.SolutionMutualPair | markov_chain_classes_algorithm.py:119-123 | two distinct players who see each other make the answer at least 2 |
| Pipeline.SolutionTwoSteps | markov_chain_classes_algorithm.py:119-123 | three distinct players, where the middle one and each end see each other, make the answer at least 3 |
| Pipeline.SolutionWithoutMutualSight | markov_chain_classes_algorithm.py:119-123 | when no two players (nor a player and itself) see each other, the answer is 1 |
| SmallFiles.SinglePlayerExample | markov_chain_classes_algorithm.py:36-38 | the records `[A]` give 1 |
| SmallFiles.OneWayIsAccepted | markov_chain_classes_algorithm.py:24-43 | the records `[A, B]` / `[B]` raise no error |
| SmallFiles.OneWayExample | markov_chain_classes_algorithm.py:119-123 | the records `[A, B]` / `[B]` give 1: sight in one direction forms no class |
| SmallFiles.MutualPairIsAccepted | markov_chain_classes_algorithm.py:24-43 | the records `[A, B]` / `[B, A]` raise no error |
| SmallFiles.MutualPairExample | markov_chain_classes_algorithm.py:119-123 | the records `[A, B]` / `[B, A]` give 2 |
| SmallFiles.ThreeInLineIsAccepted | markov_chain_classes_algorithm.py:24-43 | the records `[A, B]` / `[B, A, C]` / `[C, B]` raise no error |
| SmallFiles.ThreeInLineExample | markov_chain_classes_algorithm.py:119-123 | the records `[A, B]` / `[B, A, C]` / `[C, B]` give 3 |
| SmallFiles.CliqueOfThreeIsAccepted | markov_chain_classes_algorithm.py:24-43 | the records `[A, B, C]` / `[B, A, C]` / `[C, A, B]` raise no error |
| SmallFiles.CliqueOfThreeExample | markov_chain_classes_algorithm.py:119-123 | the records `[A, B, C]` / `[B, A, C]` / `[C, A, B]` give 3 |
| SmallFiles.DuplicateSourceExample | markov_chain_classes_algorithm.py:24-25 | the records `[A]` / `[A]` raise the ValueError; the model reports `A` with it |
| SmallFiles.UnknownSeenExample | markov_chain_classes_algorithm.py:40-43 | the records `[A, X]` / `[B]` raise the KeyError for `X` |
| SmallFiles.LetterLines | markov_chain_classes_algorithm.py:22-23 | lines of one-letter names joined by commas parse into exactly those names, line by line |
| SmallFiles.SinglePlayerFile | markov_chain_classes_algorithm.py:18-123 | the file `A` gives 1 |
| SmallFiles.OneWayFile | markov_chain_classes_algorithm.py:18-123 | the file `A,B` / `B` gives 1 |
| SmallFiles.MutualPairFile | markov_chain_classes_algorithm.py:18-123 | the file `A,B` / `B,A` gives 2 |
| SmallFiles.ThreeInLineFile | markov_chain_classes_algorithm.py:18-123 | the file `A,B` / `B,A,C` / `C,B` gives 3 |
| SmallFiles.CliqueOfThreeFile | markov_chain_classes_algorithm.py:18-123 | the file `A,B,C` / `B,A,C` / `C,A,B` gives 3 |
| SmallFiles.DuplicateSourceFile | markov_chain_classes_algorithm.py:18-27 | the file `A` / `A` raises the ValueError; the model reports `A` with it |
| SmallFiles.UnknownSeenFile | markov_chain_classes_algorithm.py:18-43 | the file `A,X` / `B` raises the KeyError for `X` |

## Left out

- Opening and reading the file (lines 21-22, 32-33) is left out, because it is I/O. The model takes the lines of the file as a sequence of strings. `readlines` keeps each line's newline, and `strip` removes it, so the model's lines may carry it or not.
- The second pass reads the file a second time. The model assumes the file is unchanged between the two reads and uses the same lines for both.
- The `__main__` block (lines 125-134) is left out: the argument check, the `.txt` test and the `print` are command-line plumbing.
- numpy's float matrix is modelled as booleans: `np.zeros` gives false, and a cell set to 1 gives true. The product test `m[i][j] * m[j][i] > 0` at line 65 is therefore a conjunction.
- The element order that `list(set(...))` produces at lines 88 and 90 is not modelled, because Python leaves it unspecified. `d3` values are sets, and `d4` (line 103) is then `d3` itself.
- `d2` is an immutable value in the model, so "fullCommClasses does not change d2" holds by construction. The aliasing that `copy.deepcopy` avoids cannot arise either.
- Running the pipeline twice on the same lines yields the same answer, because `Solution` is a function. No separate lemma states this.
- GraphBuilder.FillRows: when a seen name is undeclared, the contract does not describe the partly filled matrix. Python raises `KeyError` and discards the matrix.
- ClassClosure.FullCommClasses: requires every listed partner to be a key of `d2`. For any other `d2`, Python raises `KeyError` at `d3[val]`. `findCommunicatingClasses` always produces such a `d2`, and the pipeline proves it (`Pipeline.MutualOf`).
- MutualEdges.FindCommunicatingClasses: requires `d` to be a dense name index (the names in insertion order, each mapped to its position) and the matrix to be n x n, as `readText` delivers them. `readText` is the only producer of `d`, and the model does not cover other inputs.
- MaximumFinder.FindMaximumLengthClass: requires the dictionary to be well-formed (distinct keys, one entry per key), as every Python dictionary is.
- GraphBuilder.IndexSources: the `DuplicateSource` error carries the first repeated name. This name is added by the model. Python's `ValueError` at line 25 has a fixed message that names no player. The name in `UnknownSeen` does match Python's `KeyError`, which carries the missing key.
