/**
 * markovModelSolution: the four stages run one after the other on the
 * lines of the input file, and the result is the size of the largest
 * communicating class found; a malformed file ends in the error the parser
 * raises.
 */
module Pipeline {
  import opened Collections
  import opened Text
  import opened GraphBuilder
  import opened MutualEdges
  import opened ClassClosure
  import opened MaximumFinder

  /** Every line of the file as its list of stripped fields (lines 22-23), in line order. */
  function ParseLines(lines: seq<string>): (records: seq<Record>)
    ensures |records| == |lines|
  {
    if lines == [] then [] else [ParseLine(lines[0])] + ParseLines(lines[1..])
  }

  /** Record i holds the stripped comma-separated fields of line i. */
  lemma {:induction false} ParseLinesMeaning(lines: seq<string>)
    ensures forall i :: 0 <= i < |lines| ==> FieldsOf(lines[i], ParseLines(lines)[i])
  {
    if lines != [] {
      ParseLinesMeaning(lines[1..]);
      ParseLineMeaning(lines[0]);
      forall i | 0 < i < |lines| ensures FieldsOf(lines[i], ParseLines(lines)[i]) {
        assert lines[i] == lines[1..][i - 1];
        assert ParseLines(lines)[i] == ParseLines(lines[1..])[i - 1];
      }
    }
  }

  /** The mutual map of a file whose first fields are distinct. */
  function MutualOf(records: seq<Record>): (d2: Dict<seq<string>>)
    requires Distinct(Sources(records))
    ensures WellFormed(d2) && d2.keys == Sources(records)
  {
    MutualMapMeaning(SeesMatrix(records), Sources(records));
    MutualMap(SeesMatrix(records), Sources(records))
  }

  /**
   * What markovModelSolution computes from the records of the file: it
   * succeeds exactly when the first fields are distinct and every seen name
   * is declared (or there is a single player), and then answers at least 1.
   */
  function Solution(records: seq<Record>): (r: Result<nat>)
    ensures r.Ok? <==> Distinct(Sources(records)) && FirstUnknown(records).None?
    ensures r.Ok? ==> r.value >= 1
  {
    DuplicateSourceMeaning(records);
    if FirstDuplicate(records).Some? then Err(DuplicateSource(FirstDuplicate(records).value))
    else if FirstUnknown(records).Some? then Err(UnknownSeen(FirstUnknown(records).value))
    else
      MaxClassMeaning(Closure(MutualOf(records)));
      Ok(MaxClass(Closure(MutualOf(records))))
  }

  /** markovModelSolution: readText, findCommunicatingClasses, fullCommClasses, findMaximumLengthClass. */
  method MarkovModelSolution(lines: seq<string>) returns (r: Result<nat>)
    ensures r == Solution(ParseLines(lines))
  {
    var records := ParseLines(lines);
    var graph := ReadText(records);
    if graph.Err? {
      return Err(graph.error);
    }
    var Graph(matrix, d, playerNumber) := graph.value;
    var d2 := FindCommunicatingClasses(d, matrix, playerNumber);
    assert d2 == MutualOf(records);
    var d3 := FullCommClasses(d2);
    var maximum := FindMaximumLengthClass(d3);
    r := Ok(maximum);
  }

  // ----- What the pipeline promises -----

  /**
   * The pipeline fails exactly when a first field repeats, or when there
   * are several players and a line lists a name that is no line's first
   * field; the repeat is reported before the unknown name.
   */
  lemma SolutionFails(records: seq<Record>)
    ensures Solution(records).Err? <==>
      || !Distinct(Sources(records))
      || (&& |records| > 1
          && exists a, t :: 0 <= a < |records| && 0 <= t < |Seen(records[a])| && Seen(records[a])[t] !in Sources(records))
    ensures !Distinct(Sources(records)) ==> Solution(records).Err? && Solution(records).error.DuplicateSource?
    ensures Solution(records).Err? && Solution(records).error.UnknownSeen? ==>
      Distinct(Sources(records)) && Solution(records).error.name !in Sources(records)
  {
    DuplicateSourceMeaning(records);
    UnknownSeenMeaning(records);
  }

  /** The mutual map of the records in terms of who sees whom. */
  lemma MutualOfMeaning(records: seq<Record>)
    requires Distinct(Sources(records))
    ensures var d2, names := MutualOf(records), Sources(records);
      && (forall i, j :: 0 <= i < |records| && 0 <= j < |records| ==>
            (names[j] in d2.entries[names[i]] <==> Sees(records, i, j) && Sees(records, j, i)))
      && (forall k :: k in d2.entries <==> k in names)
  {
    MutualMapMeaning(SeesMatrix(records), Sources(records));
  }

  /** A successful run returns the maximum over the classes of the mutual map. */
  lemma SolutionValue(records: seq<Record>)
    requires Solution(records).Ok?
    ensures Distinct(Sources(records))
    ensures Solution(records).value == MaxClass(Closure(MutualOf(records)))
  {
    DuplicateSourceMeaning(records);
  }

  /** The answer is at least 1 and at most the number of players (or 1 for an empty file). */
  lemma SolutionBounds(records: seq<Record>)
    requires Solution(records).Ok?
    ensures 1 <= Solution(records).value
    ensures Solution(records).value <= if |records| == 0 then 1 else |records|
  {
    SolutionValue(records);
    var d2 := MutualOf(records);
    var d3 := Closure(d2);
    MaxClassMeaning(d3);
    ClosureSizeBound(d2);
  }

  /** Two players who see each other make the answer at least 2. */
  lemma SolutionMutualPair(records: seq<Record>, i: nat, j: nat)
    requires Solution(records).Ok?
    requires i < |records| && j < |records| && i != j
    requires Sees(records, i, j) && Sees(records, j, i)
    ensures Solution(records).value >= 2
  {
    SolutionValue(records);
    MutualOfMeaning(records);
    var names := Sources(records);
    var d2 := MutualOf(records);
    assert names[j] in d2.entries[names[i]] && names[i] in d2.entries[names[j]];
    ClosureNeighbours(d2, names[j], names[i], names[j], 2);
    MaxClassMeaning(Closure(d2));
  }

  /** Three players where the middle one and each end see each other make the answer at least 3. */
  lemma SolutionTwoSteps(records: seq<Record>, i: nat, h: nat, j: nat)
    requires Solution(records).Ok?
    requires i < |records| && h < |records| && j < |records| && i != h && h != j && i != j
    requires Sees(records, i, h) && Sees(records, h, i) && Sees(records, h, j) && Sees(records, j, h)
    ensures Solution(records).value >= 3
  {
    SolutionValue(records);
    MutualOfMeaning(records);
    var names := Sources(records);
    var d2 := MutualOf(records);
    assert names[i] in d2.entries[names[h]] && names[j] in d2.entries[names[h]];
    assert names[h] in d2.entries[names[i]];
    ClosureNeighbours(d2, names[i], names[h], names[j], 3);
    MaxClassMeaning(Closure(d2));
  }

  /** When no two players (nor a player and itself) see each other, the answer is 1. */
  lemma SolutionWithoutMutualSight(records: seq<Record>)
    requires Solution(records).Ok?
    requires forall i, j :: 0 <= i < |records| && 0 <= j < |records| ==> !(Sees(records, i, j) && Sees(records, j, i))
    ensures Solution(records).value == 1
  {
    SolutionValue(records);
    MutualMapEmpty(SeesMatrix(records), Sources(records));
    var d2 := MutualOf(records);
    ClosureAllEmpty(d2);
    MaxClassAllEmpty(Closure(d2));
  }
}
