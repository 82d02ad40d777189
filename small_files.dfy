/** Small input files and the answers markovModelSolution gives for them. */
module SmallFiles {
  import opened Collections
  import opened Text
  import opened GraphBuilder
  import opened Pipeline

  // ----- What markovModelSolution answers for the records of small files -----

  /** A file with one line and no seen players: a class of one. */
  lemma SinglePlayerExample()
    ensures Solution([["A"]]) == Ok(1)
  {
    var records: seq<Record> := [["A"]];
    assert Sources(records) == ["A"];
    assert FirstRepeat(["A"], 1) == None;
    var r := Solution(records);
    assert r.Ok?;
    SolutionBounds(records);
    assert r.value == 1;
  }

  lemma OneWayIsAccepted()
    ensures FirstDuplicate([["A", "B"], ["B"]]) == None
    ensures FirstUnknown([["A", "B"], ["B"]]) == None
  {
    var records: seq<Record> := [["A", "B"], ["B"]];
    assert Sources(records) == ["A", "B"];
    assert FirstRepeat(["A", "B"], 1) == None;
    assert FirstRepeat(["A", "B"], 2) == None;
    assert Seen(records[0]) == ["B"] && Seen(records[1]) == [];
    assert FirstMissing(["B"], ["A", "B"], 1) == None;
    assert FirstUnknownRows(records, 2) == None;
  }

  /** A sees B but B sees nobody: no one communicates, the answer is 1. */
  lemma OneWayExample()
    ensures Solution([["A", "B"], ["B"]]) == Ok(1)
  {
    var records: seq<Record> := [["A", "B"], ["B"]];
    OneWayIsAccepted();
    var r := Solution(records);
    assert r.Ok?;
    assert Seen(records[0]) == ["B"] && Seen(records[1]) == [];
    assert !Sees(records, 0, 0) && !Sees(records, 1, 0) && !Sees(records, 1, 1);
    SolutionWithoutMutualSight(records);
    assert r.value == 1;
  }

  lemma MutualPairIsAccepted()
    ensures FirstDuplicate([["A", "B"], ["B", "A"]]) == None
    ensures FirstUnknown([["A", "B"], ["B", "A"]]) == None
  {
    var records: seq<Record> := [["A", "B"], ["B", "A"]];
    assert Sources(records) == ["A", "B"];
    assert FirstRepeat(["A", "B"], 1) == None;
    assert FirstRepeat(["A", "B"], 2) == None;
    assert Seen(records[0]) == ["B"] && Seen(records[1]) == ["A"];
    assert FirstMissing(["B"], ["A", "B"], 1) == None;
    assert FirstMissing(["A"], ["A", "B"], 1) == None;
    assert FirstUnknownRows(records, 2) == None;
  }

  /** A and B see each other: one class of two. */
  lemma MutualPairExample()
    ensures Solution([["A", "B"], ["B", "A"]]) == Ok(2)
  {
    var records: seq<Record> := [["A", "B"], ["B", "A"]];
    MutualPairIsAccepted();
    var r := Solution(records);
    assert r.Ok?;
    assert Seen(records[0]) == ["B"] && Seen(records[1]) == ["A"];
    assert Sees(records, 0, 1) && Sees(records, 1, 0);
    SolutionMutualPair(records, 0, 1);
    SolutionBounds(records);
    assert r.value == 2;
  }

  lemma ThreeInLineIsAccepted()
    ensures FirstDuplicate([["A", "B"], ["B", "A", "C"], ["C", "B"]]) == None
    ensures FirstUnknown([["A", "B"], ["B", "A", "C"], ["C", "B"]]) == None
  {
    var records: seq<Record> := [["A", "B"], ["B", "A", "C"], ["C", "B"]];
    assert Sources(records) == ["A", "B", "C"];
    assert FirstRepeat(["A", "B", "C"], 1) == None;
    assert FirstRepeat(["A", "B", "C"], 2) == None;
    assert FirstRepeat(["A", "B", "C"], 3) == None;
    assert Seen(records[0]) == ["B"] && Seen(records[1]) == ["A", "C"] && Seen(records[2]) == ["B"];
    assert FirstMissing(["B"], ["A", "B", "C"], 1) == None;
    assert FirstMissing(["A", "C"], ["A", "B", "C"], 1) == None;
    assert FirstMissing(["A", "C"], ["A", "B", "C"], 2) == None;
    assert FirstUnknownRows(records, 3) == None;
  }

  /** B sees and is seen by both A and C: one class of three. */
  lemma ThreeInLineExample()
    ensures Solution([["A", "B"], ["B", "A", "C"], ["C", "B"]]) == Ok(3)
  {
    var records: seq<Record> := [["A", "B"], ["B", "A", "C"], ["C", "B"]];
    ThreeInLineIsAccepted();
    var r := Solution(records);
    assert r.Ok?;
    assert Seen(records[0]) == ["B"] && Seen(records[1]) == ["A", "C"] && Seen(records[2]) == ["B"];
    assert Sees(records, 0, 1) && Sees(records, 1, 0) && Sees(records, 1, 2) && Sees(records, 2, 1);
    SolutionTwoSteps(records, 0, 1, 2);
    SolutionBounds(records);
    assert r.value == 3;
  }

  lemma CliqueOfThreeIsAccepted()
    ensures FirstDuplicate([["A", "B", "C"], ["B", "A", "C"], ["C", "A", "B"]]) == None
    ensures FirstUnknown([["A", "B", "C"], ["B", "A", "C"], ["C", "A", "B"]]) == None
  {
    var records: seq<Record> := [["A", "B", "C"], ["B", "A", "C"], ["C", "A", "B"]];
    assert Sources(records) == ["A", "B", "C"];
    assert FirstRepeat(["A", "B", "C"], 1) == None;
    assert FirstRepeat(["A", "B", "C"], 2) == None;
    assert FirstRepeat(["A", "B", "C"], 3) == None;
    assert Seen(records[0]) == ["B", "C"] && Seen(records[1]) == ["A", "C"] && Seen(records[2]) == ["A", "B"];
    assert FirstMissing(["B", "C"], ["A", "B", "C"], 2) == None;
    assert FirstMissing(["A", "C"], ["A", "B", "C"], 2) == None;
    assert FirstMissing(["A", "B"], ["A", "B", "C"], 2) == None;
    assert FirstUnknownRows(records, 3) == None;
  }

  /** Three players who all see each other: one class of three. */
  lemma CliqueOfThreeExample()
    ensures Solution([["A", "B", "C"], ["B", "A", "C"], ["C", "A", "B"]]) == Ok(3)
  {
    var records: seq<Record> := [["A", "B", "C"], ["B", "A", "C"], ["C", "A", "B"]];
    CliqueOfThreeIsAccepted();
    var r := Solution(records);
    assert r.Ok?;
    assert Seen(records[0]) == ["B", "C"] && Seen(records[1]) == ["A", "C"] && Seen(records[2]) == ["A", "B"];
    assert Sees(records, 0, 1) && Sees(records, 1, 0) && Sees(records, 1, 2) && Sees(records, 2, 1);
    SolutionTwoSteps(records, 0, 1, 2);
    SolutionBounds(records);
    assert r.value == 3;
  }

  /** A first field that repeats is reported. */
  lemma DuplicateSourceExample()
    ensures Solution([["A"], ["A"]]) == Err(DuplicateSource("A"))
  {
    var records: seq<Record> := [["A"], ["A"]];
    assert Sources(records) == ["A", "A"];
    assert FirstRepeat(["A", "A"], 1) == None;
    assert FirstRepeat(["A", "A"], 2) == Some("A");
  }

  /** A seen name that is no line's first field is reported. */
  lemma UnknownSeenExample()
    ensures Solution([["A", "X"], ["B"]]) == Err(UnknownSeen("X"))
  {
    var records: seq<Record> := [["A", "X"], ["B"]];
    assert Sources(records) == ["A", "B"];
    assert FirstRepeat(["A", "B"], 1) == None;
    assert FirstRepeat(["A", "B"], 2) == None;
    assert Seen(records[0]) == ["X"];
    assert FirstMissing(["X"], ["A", "B"], 1) == Some("X");
    assert FirstUnknownRows(records, 1) == Some("X");
    FirstUnknownRowsStable(records, 1, 2);
  }

  // ----- The same files as text, through the field splitting of readText -----

  /** A line of one-letter names, joined by commas without spaces. */
  ghost predicate LetterLine(line: string, names: seq<string>) {
    && |names| >= 1 && line == Join(names, ',')
    && forall i :: 0 <= i < |names| ==> |names[i]| == 1 && 'A' <= names[i][0] <= 'Z'
  }

  /** A file of such lines parses into the names of each line. */
  lemma {:induction false} LetterLines(lines: seq<string>, records: seq<Record>)
    requires |lines| == |records|
    requires forall j :: 0 <= j < |lines| ==> LetterLine(lines[j], records[j])
    ensures ParseLines(lines) == records
  {
    if lines != [] {
      ParseUnspaced(records[0]);
      LetterLines(lines[1..], records[1..]);
    }
  }

  /** The file of the record example SinglePlayerExample, line by line. */
  lemma SinglePlayerFile()
    ensures Solution(ParseLines(["A"])) == Ok(1)
  {
    LetterLines(["A"], [["A"]]);
    SinglePlayerExample();
  }

  /** The file of the record example OneWayExample, line by line. */
  lemma OneWayFile()
    ensures Solution(ParseLines(["A,B", "B"])) == Ok(1)
  {
    LetterLines(["A,B", "B"], [["A", "B"], ["B"]]);
    OneWayExample();
  }

  /** The file of the record example MutualPairExample, line by line. */
  lemma MutualPairFile()
    ensures Solution(ParseLines(["A,B", "B,A"])) == Ok(2)
  {
    LetterLines(["A,B", "B,A"], [["A", "B"], ["B", "A"]]);
    MutualPairExample();
  }

  /** The file of the record example ThreeInLineExample, line by line. */
  lemma ThreeInLineFile()
    ensures Solution(ParseLines(["A,B", "B,A,C", "C,B"])) == Ok(3)
  {
    LetterLines(["A,B", "B,A,C", "C,B"], [["A", "B"], ["B", "A", "C"], ["C", "B"]]);
    ThreeInLineExample();
  }

  /** The file of the record example CliqueOfThreeExample, line by line. */
  lemma CliqueOfThreeFile()
    ensures Solution(ParseLines(["A,B,C", "B,A,C", "C,A,B"])) == Ok(3)
  {
    LetterLines(["A,B,C", "B,A,C", "C,A,B"], [["A", "B", "C"], ["B", "A", "C"], ["C", "A", "B"]]);
    CliqueOfThreeExample();
  }

  /** The file of the record example DuplicateSourceExample, line by line. */
  lemma DuplicateSourceFile()
    ensures Solution(ParseLines(["A", "A"])) == Err(DuplicateSource("A"))
  {
    LetterLines(["A", "A"], [["A"], ["A"]]);
    DuplicateSourceExample();
  }

  /** The file of the record example UnknownSeenExample, line by line. */
  lemma UnknownSeenFile()
    ensures Solution(ParseLines(["A,X", "B"])) == Err(UnknownSeen("X"))
  {
    LetterLines(["A,X", "B"], [["A", "X"], ["B"]]);
    UnknownSeenExample();
  }
}
