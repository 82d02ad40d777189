/**
 * The graph builder (readText): two passes over the records of the input
 * file. The first gives every source name a dense index in line order and
 * rejects a repeated source; the second fills the n x n visibility matrix.
 */
module GraphBuilder {
  import opened Collections

  /**
   * The two ways parsing fails: Python's ValueError and KeyError. The name in
   * DuplicateSource is added by the model; the ValueError's message names no player.
   */
  datatype ParseError =
    | DuplicateSource(name: string)  // a first field that an earlier line already has
    | UnknownSeen(name: string)      // a seen name that no line has as its first field

  datatype Result<T> = Ok(value: T) | Err(error: ParseError)

  /** A split line: str.split never returns an empty list. */
  type Record = r: seq<string> | |r| > 0 witness [""]

  /** The visibility matrix as a value: M[i][j] means player i sees player j. */
  type Matrix = seq<seq<bool>>

  /** What readText returns: the matrix, the name index d and the player count. */
  datatype Graph = Graph(matrix: array2<bool>, d: Dict<nat>, playerNumber: nat)

  ghost function Cells(m: array2<bool>): (M: Matrix)
    reads m
    ensures |M| == m.Length0
    ensures forall i :: 0 <= i < m.Length0 ==>
      |M[i]| == m.Length1 && forall j :: 0 <= j < m.Length1 ==> M[i][j] == m[i, j]
  {
    seq(m.Length0, i reads m requires 0 <= i < m.Length0 =>
      seq(m.Length1, j reads m requires 0 <= j < m.Length1 => m[i, j]))
  }

  /** The first field of every record, in line order. */
  function Sources(records: seq<Record>): (names: seq<string>)
    ensures |names| == |records|
    ensures forall i :: 0 <= i < |records| ==> names[i] == records[i][0]
  {
    seq(|records|, i requires 0 <= i < |records| => records[i][0])
  }

  /** The first name among names[..k] that repeats an earlier one. */
  function FirstRepeat(names: seq<string>, k: nat): Option<string>
    requires k <= |names|
  {
    if k == 0 then None
    else
      var prev := FirstRepeat(names, k - 1);
      if prev.Some? then prev
      else if names[k - 1] in names[..k - 1] then Some(names[k - 1])
      else None
  }

  /**
   * No repeat is reported exactly when the names are distinct, and a
   * reported name does occur at two positions.
   */
  lemma {:induction false} FirstRepeatMeaning(names: seq<string>, k: nat)
    requires k <= |names|
    ensures FirstRepeat(names, k) == None <==> Distinct(names[..k])
    ensures FirstRepeat(names, k).Some? ==>
      exists a, b :: 0 <= a < b < k && names[a] == names[b] == FirstRepeat(names, k).value
  {
    if k > 0 {
      FirstRepeatMeaning(names, k - 1);
      var prev := FirstRepeat(names, k - 1);
      if prev.Some? {
        var a, b :| 0 <= a < b < k - 1 && names[a] == names[b] == prev.value;
        assert names[..k][a] == names[..k][b];
      } else if names[k - 1] in names[..k - 1] {
        var a :| 0 <= a < k - 1 && names[..k - 1][a] == names[k - 1];
        assert names[..k][a] == names[..k][k - 1];
      } else {
        forall a, b | 0 <= a < b < k ensures names[..k][a] != names[..k][b] {
          if b == k - 1 {
            assert names[..k][a] == names[..k - 1][a];
          } else {
            assert names[..k][a] == names[..k - 1][a] && names[..k][b] == names[..k - 1][b];
          }
        }
      }
    }
  }

  /** The repeated first field the model attaches to the ValueError of line 25: the first, in line order. */
  function FirstDuplicate(records: seq<Record>): Option<string> {
    FirstRepeat(Sources(records), |records|)
  }

  /** Once a prefix has a repeat, every longer prefix reports the same one. */
  lemma {:induction false} FirstRepeatStable(names: seq<string>, k: nat, k': nat)
    requires k <= k' <= |names| && FirstRepeat(names, k).Some?
    ensures FirstRepeat(names, k') == FirstRepeat(names, k)
  {
    if k < k' {
      FirstRepeatStable(names, k, k' - 1);
    }
  }

  /** The first name of seen[..k] that is not among declared. */
  function FirstMissing(seen: seq<string>, declared: seq<string>, k: nat): Option<string>
    requires k <= |seen|
  {
    if k == 0 then None
    else
      var prev := FirstMissing(seen, declared, k - 1);
      if prev.Some? then prev
      else if seen[k - 1] !in declared then Some(seen[k - 1])
      else None
  }

  /** Nothing is missing exactly when all of seen[..k] is declared. */
  lemma {:induction false} FirstMissingMeaning(seen: seq<string>, declared: seq<string>, k: nat)
    requires k <= |seen|
    ensures FirstMissing(seen, declared, k) == None <==> forall t :: 0 <= t < k ==> seen[t] in declared
    ensures FirstMissing(seen, declared, k).Some? ==>
      FirstMissing(seen, declared, k).value in seen[..k] && FirstMissing(seen, declared, k).value !in declared
  {
    if k > 0 {
      FirstMissingMeaning(seen, declared, k - 1);
      assert seen[..k] == seen[..k - 1] + [seen[k - 1]];
    }
  }

  lemma {:induction false} FirstMissingStable(seen: seq<string>, declared: seq<string>, k: nat, k': nat)
    requires k <= k' <= |seen| && FirstMissing(seen, declared, k).Some?
    ensures FirstMissing(seen, declared, k') == FirstMissing(seen, declared, k)
  {
    if k < k' {
      FirstMissingStable(seen, declared, k, k' - 1);
    }
  }

  /** The seen names of a record: every field after the first. */
  function Seen(r: Record): seq<string> {
    r[1..]
  }

  /** The first undeclared seen name in records[..k], row by row. */
  function FirstUnknownRows(records: seq<Record>, k: nat): Option<string>
    requires k <= |records|
  {
    if k == 0 then None
    else
      var prev := FirstUnknownRows(records, k - 1);
      if prev.Some? then prev
      else
        var seen := Seen(records[k - 1]);
        FirstMissing(seen, Sources(records), |seen|)
  }

  /** Nothing is reported exactly when every seen name in records[..k] is declared. */
  lemma {:induction false} FirstUnknownRowsMeaning(records: seq<Record>, k: nat)
    requires k <= |records|
    ensures FirstUnknownRows(records, k) == None <==>
      forall a, t :: 0 <= a < k && 0 <= t < |Seen(records[a])| ==> Seen(records[a])[t] in Sources(records)
    ensures FirstUnknownRows(records, k).Some? ==>
      && FirstUnknownRows(records, k).value !in Sources(records)
      && exists a :: 0 <= a < k && FirstUnknownRows(records, k).value in Seen(records[a])
  {
    if k > 0 {
      FirstUnknownRowsMeaning(records, k - 1);
      var seen := Seen(records[k - 1]);
      FirstMissingMeaning(seen, Sources(records), |seen|);
      assert seen[..|seen|] == seen;
    }
  }

  lemma {:induction false} FirstUnknownRowsStable(records: seq<Record>, k: nat, k': nat)
    requires k <= k' <= |records| && FirstUnknownRows(records, k).Some?
    ensures FirstUnknownRows(records, k') == FirstUnknownRows(records, k)
  {
    if k < k' {
      FirstUnknownRowsStable(records, k, k' - 1);
    }
  }

  /**
   * The unknown seen name line 43 reports, if any. With a single player the
   * seen names are never looked up.
   */
  function FirstUnknown(records: seq<Record>): Option<string> {
    if |records| == 1 then None else FirstUnknownRows(records, |records|)
  }

  /** Whether the finished matrix has cell [i][j] set. */
  predicate Sees(records: seq<Record>, i: nat, j: nat)
    requires i < |records| && j < |records|
  {
    if |records| == 1 then true else records[j][0] in Seen(records[i])
  }

  function SeesMatrix(records: seq<Record>): (M: Matrix)
    ensures |M| == |records|
    ensures forall i :: 0 <= i < |records| ==>
      |M[i]| == |records| && forall j :: 0 <= j < |records| ==> M[i][j] == Sees(records, i, j)
  {
    seq(|records|, i requires 0 <= i < |records| =>
      seq(|records|, j requires 0 <= j < |records| => Sees(records, i, j)))
  }

  /**
   * The first pass of readText: every source name gets the next index; a
   * source that is already in the index is rejected.
   */
  method IndexSources(records: seq<Record>) returns (r: Result<Dict<nat>>, playerNumber: nat)
    ensures FirstDuplicate(records).Some? ==> r == Err(DuplicateSource(FirstDuplicate(records).value))
    ensures FirstDuplicate(records).None? ==>
      && Distinct(Sources(records))
      && r.Ok? && IsPositions(r.value) && r.value.keys == Sources(records)
      && playerNumber == |records|
  {
    ghost var names := Sources(records);
    assert names[..|records|] == names;
    var d: Dict<nat> := Dict([], map[]);
    playerNumber := 0;
    var i := 0;
    while i < |records|
      invariant 0 <= i <= |records| && playerNumber == i
      invariant FirstRepeat(names, i) == None
      invariant IsPositions(d) && d.keys == names[..i]
    {
      var source := records[i][0];
      if source in d.entries {
        assert source in names[..i];
        FirstRepeatStable(names, i + 1, |records|);
        return Err(DuplicateSource(source)), playerNumber;
      }
      assert names[..i + 1] == names[..i] + [source];
      d := Dict(d.keys + [source], d.entries[source := playerNumber]);
      playerNumber := playerNumber + 1;
      i := i + 1;
    }
    assert names[..i] == names;
    PositionsValid(d);
    r := Ok(d);
  }

  /** Rows 0 .. i-1 of m say who sees whom; the other rows are still zero. */
  ghost predicate RowsDone(records: seq<Record>, m: array2<bool>, i: nat)
    requires m.Length0 == m.Length1 == |records|
    reads m
  {
    forall a, b :: 0 <= a < |records| && 0 <= b < |records| ==> m[a, b] == (a < i && Sees(records, a, b))
  }

  /**
   * One line of the second pass of readText (lines 40-43), on a matrix whose
   * rows before i are complete and the rest still zero: every seen name
   * sets cell [i][index of that name]; the first name missing from the
   * index is the KeyError.
   */
  method FillRow(records: seq<Record>, d: Dict<nat>, m: array2<bool>, i: nat) returns (missing: Option<string>)
    requires IsPositions(d) && d.keys == Sources(records)
    requires 1 < |records| && i < |records| && m.Length0 == m.Length1 == |records|
    requires RowsDone(records, m, i)
    modifies m
    ensures missing == FirstMissing(Seen(records[i]), Sources(records), |Seen(records[i])|)
    ensures missing.None? ==> RowsDone(records, m, i + 1)
  {
    ghost var names := Sources(records);
    var seen := Seen(records[i]);
    var k := 0;
    while k < |seen|
      invariant 0 <= k <= |seen|
      invariant FirstMissing(seen, names, k) == None
      invariant forall a, b :: 0 <= a < |records| && 0 <= b < |records| ==>
        m[a, b] == ((a < i && Sees(records, a, b)) || (a == i && names[b] in seen[..k]))
    {
      var player := seen[k];
      if player !in d.entries {
        FirstMissingStable(seen, names, k + 1, |seen|);
        return Some(player);
      }
      var row := d.entries[records[i][0]];
      var col := d.entries[player];
      assert seen[..k + 1] == seen[..k] + [player];
      m[row, col] := true;
      k := k + 1;
    }
    assert seen[..k] == seen;
    missing := None;
  }

  /**
   * The second pass of readText (lines 33-43) on the zeroed matrix m. With
   * one player only cell [0][0] is set and the seen names are not looked
   * up; otherwise every line fills its row, and the first undeclared seen
   * name stops the pass.
   */
  method FillRows(records: seq<Record>, d: Dict<nat>, m: array2<bool>) returns (missing: Option<string>)
    requires IsPositions(d) && d.keys == Sources(records)
    requires m.Length0 == m.Length1 == |records| && RowsDone(records, m, 0)
    modifies m
    ensures missing == FirstUnknown(records)
    ensures missing.None? ==> RowsDone(records, m, |records|)
  {
    var n := |records|;
    var i := 0;
    while i < |records|
      invariant 0 <= i <= n
      invariant n == 1 ==> i == 0
      invariant FirstUnknownRows(records, i) == None
      invariant RowsDone(records, m, i)
    {
      if n == 1 {
        m[0, 0] := true;
        OnePlayerDone(records, m);
        break;
      }
      missing := FillRow(records, d, m, i);
      if missing.Some? {
        FirstUnknownRowsStable(records, i + 1, |records|);
        return;
      }
      i := i + 1;
    }
    missing := None;
  }

  /** With a single player, setting cell [0][0] completes the matrix. */
  lemma OnePlayerDone(records: seq<Record>, m: array2<bool>)
    requires |records| == 1 && m.Length0 == m.Length1 == 1 && m[0, 0]
    ensures RowsDone(records, m, 1)
  {
  }

  /** The matrix of line 30, filled by the second pass. */
  method FillMatrix(records: seq<Record>, d: Dict<nat>, playerNumber: nat) returns (r: Result<array2<bool>>)
    requires IsPositions(d) && d.keys == Sources(records)
    requires playerNumber == |records|
    ensures FirstUnknown(records).Some? ==> r == Err(UnknownSeen(FirstUnknown(records).value))
    ensures FirstUnknown(records).None? ==>
      r.Ok? && r.value.Length0 == r.value.Length1 == |records| && Cells(r.value) == SeesMatrix(records)
  {
    var m := new bool[playerNumber, playerNumber]((_, _) => false);
    assert RowsDone(records, m, 0);
    var missing := FillRows(records, d, m);
    if missing.Some? {
      return Err(UnknownSeen(missing.value));
    }
    CellsAreSees(records, m);
    r := Ok(m);
  }

  /** A matrix whose every cell says who sees whom is the matrix SeesMatrix describes. */
  lemma CellsAreSees(records: seq<Record>, m: array2<bool>)
    requires m.Length0 == m.Length1 == |records| && RowsDone(records, m, |records|)
    ensures Cells(m) == SeesMatrix(records)
  {
    forall a | 0 <= a < |records| ensures Cells(m)[a] == SeesMatrix(records)[a] {
    }
  }

  /**
   * readText without the file access: the records are the split lines of
   * the file, in order. A repeated source stops the first pass; no matrix is
   * built then.
   */
  method ReadText(records: seq<Record>) returns (r: Result<Graph>)
    ensures FirstDuplicate(records).Some? ==> r == Err(DuplicateSource(FirstDuplicate(records).value))
    ensures FirstDuplicate(records).None? && FirstUnknown(records).Some? ==>
      r == Err(UnknownSeen(FirstUnknown(records).value))
    ensures r.Ok? <==> FirstDuplicate(records).None? && FirstUnknown(records).None?
    ensures r.Ok? ==>
      && Distinct(Sources(records))
      && IsPositions(r.value.d) && r.value.d.keys == Sources(records)
      && r.value.playerNumber == |records|
      && r.value.matrix.Length0 == r.value.matrix.Length1 == |records|
      && Cells(r.value.matrix) == SeesMatrix(records)
  {
    var index, playerNumber := IndexSources(records);
    if index.Err? {
      return Err(index.error);
    }
    var d := index.value;
    var matrix := FillMatrix(records, d, playerNumber);
    if matrix.Err? {
      return Err(matrix.error);
    }
    r := Ok(Graph(matrix.value, d, playerNumber));
  }

  /**
   * A repeated first field is reported exactly when the sources are not
   * distinct, and the reported name is the first field of two lines.
   */
  lemma DuplicateSourceMeaning(records: seq<Record>)
    ensures FirstDuplicate(records) == None <==> Distinct(Sources(records))
    ensures FirstDuplicate(records).Some? ==>
      exists a, b :: 0 <= a < b < |records| && records[a][0] == records[b][0] == FirstDuplicate(records).value
  {
    FirstRepeatMeaning(Sources(records), |records|);
    assert Sources(records)[..|records|] == Sources(records);
  }

  /**
   * An unknown seen name is reported exactly when there are several players
   * and some line lists a name that is no line's first field; the reported
   * name is such a name.
   */
  lemma UnknownSeenMeaning(records: seq<Record>)
    ensures FirstUnknown(records) == None <==>
      || |records| == 1
      || forall a, t :: 0 <= a < |records| && 0 <= t < |Seen(records[a])| ==> Seen(records[a])[t] in Sources(records)
    ensures FirstUnknown(records).Some? ==>
      && |records| > 1
      && FirstUnknown(records).value !in Sources(records)
      && exists a :: 0 <= a < |records| && FirstUnknown(records).value in Seen(records[a])
  {
    FirstUnknownRowsMeaning(records, |records|);
  }

  /**
   * With a single player the file is always accepted and the matrix is the
   * 1 x 1 matrix with its one cell set, whatever that line lists.
   */
  lemma OnePlayerMatrix(records: seq<Record>)
    requires |records| == 1
    ensures FirstDuplicate(records) == None && FirstUnknown(records) == None
    ensures SeesMatrix(records) == [[true]]
  {
    assert Sources(records)[..0] == [];
    assert FirstRepeat(Sources(records), 1) == None;
    assert SeesMatrix(records)[0] == [true];
  }
}
