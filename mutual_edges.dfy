/**
 * The mutual-edge extractor (findCommunicatingClasses): for every player i
 * the list of players j, in increasing index order, such that i sees j and
 * j sees i.
 */
module MutualEdges {
  import opened Collections
  import opened GraphBuilder

  ghost predicate IsSquare(M: Matrix, n: nat) {
    |M| == n && forall i :: 0 <= i < n ==> |M[i]| == n
  }

  /** The names of the players j < k with M[i][j] and M[j][i], in index order. */
  function MutualRow(M: Matrix, names: seq<string>, i: nat, k: nat): seq<string>
    requires IsSquare(M, |names|) && i < |names| && k <= |names|
  {
    if k == 0 then []
    else MutualRow(M, names, i, k - 1) + (if M[i][k - 1] && M[k - 1][i] then [names[k - 1]] else [])
  }

  /** d2 with an empty list for every player (line 61). */
  function EmptyLists(names: seq<string>): (d: Dict<seq<string>>)
    ensures d.keys == names
    ensures forall k :: k in d.entries <==> k in names
    ensures forall k :: k in d.entries ==> d.entries[k] == []
  {
    Dict(names, map y | y in names :: [])
  }

  /** d2 once the rows of players 0 .. i-1 are complete. */
  function MutualMapUpTo(M: Matrix, names: seq<string>, i: nat): Dict<seq<string>>
    requires IsSquare(M, |names|) && i <= |names|
  {
    if i == 0 then EmptyLists(names)
    else
      var prev := MutualMapUpTo(M, names, i - 1);
      Dict(names, prev.entries[names[i - 1] := MutualRow(M, names, i - 1, |names|)])
  }

  /** The dictionary d2 that findCommunicatingClasses returns. */
  function MutualMap(M: Matrix, names: seq<string>): Dict<seq<string>>
    requires IsSquare(M, |names|)
  {
    MutualMapUpTo(M, names, |names|)
  }

  /** d2 keeps the players of line 61 as its keys throughout the scan. */
  lemma {:induction false} MutualMapUpToDomain(M: Matrix, names: seq<string>, i: nat)
    requires IsSquare(M, |names|) && i <= |names|
    ensures MutualMapUpTo(M, names, i).keys == names
    ensures forall k :: k in MutualMapUpTo(M, names, i).entries <==> k in names
  {
    if i > 0 {
      MutualMapUpToDomain(M, names, i - 1);
    }
  }

  /** Row a of d2 is complete once the scan has passed it, and still empty before. */
  lemma {:induction false} MutualMapUpToAt(M: Matrix, names: seq<string>, i: nat, a: nat)
    requires IsSquare(M, |names|) && Distinct(names) && i <= |names| && a < |names|
    ensures names[a] in MutualMapUpTo(M, names, i).entries
    ensures MutualMapUpTo(M, names, i).entries[names[a]] == if a < i then MutualRow(M, names, a, |names|) else []
  {
    if i > 0 {
      MutualMapUpToAt(M, names, i - 1, a);
      if a != i - 1 {
        assert names[a] != names[i - 1];
      }
    }
  }

  /** inv maps every index to the name at that position. */
  ghost predicate Inverts(inv: map<nat, string>, names: seq<string>) {
    forall a :: 0 <= a < |names| ==> a in inv && inv[a] == names[a]
  }

  /** inv_map (line 62): the name index turned around, from index to name. */
  function Inverse(d: Dict<nat>): (inv: map<nat, string>)
    requires IsPositions(d)
    ensures Inverts(inv, d.keys)
  {
    var inv := map k | k in d.entries :: d.entries[k] := k;
    assert forall a :: 0 <= a < |d.keys| ==> a in inv && inv[a] == d.keys[a] by {
      forall a | 0 <= a < |d.keys| ensures a in inv && inv[a] == d.keys[a] {
        assert d.entries[d.keys[a]] == a;
      }
    }
    inv
  }

  /** Row i is still the empty list from line 61 before the scan reaches it. */
  lemma {:induction false} MutualMapUpToUntouched(M: Matrix, names: seq<string>, i: nat)
    requires IsSquare(M, |names|) && Distinct(names) && i < |names|
    ensures var d2 := MutualMapUpTo(M, names, i);
      d2.keys == names && names[i] in d2.entries && d2.entries[names[i]] == []
  {
    MutualMapUpToDomain(M, names, i);
    MutualMapUpToAt(M, names, i, i);
  }

  /**
   * The inner j loop of findCommunicatingClasses (lines 64-67) for row i:
   * every j with both cells set is appended to player i's list, which
   * completes row i of d2.
   */
  method ScanRow(m: array2<bool>, invMap: map<nat, string>, ghost M: Matrix, ghost names: seq<string>, i: nat,
                 d2: Dict<seq<string>>) returns (d2': Dict<seq<string>>)
    requires m.Length0 == m.Length1 == |names| && i < |names| && M == Cells(m)
    requires Inverts(invMap, names) && Distinct(names)
    requires IsSquare(M, |names|) && d2 == MutualMapUpTo(M, names, i)
    ensures d2' == MutualMapUpTo(M, names, i + 1)
  {
    MutualMapUpToUntouched(M, names, i);
    d2' := d2;
    assert d2.entries[names[i] := []] == d2.entries;
    for j := 0 to m.Length1
      invariant d2'.keys == d2.keys
      invariant d2'.entries == d2.entries[names[i] := MutualRow(M, names, i, j)]
    {
      assert M[i][j] == m[i, j] && M[j][i] == m[j, i];
      if m[i, j] && m[j, i] {
        var plName := invMap[i];
        assert MutualRow(M, names, i, j + 1) == MutualRow(M, names, i, j) + [names[j]];
        d2' := Dict(d2'.keys, d2'.entries[plName := d2'.entries[plName] + [invMap[j]]]);
      } else {
        assert MutualRow(M, names, i, j + 1) == MutualRow(M, names, i, j);
      }
    }
  }

  /**
   * findCommunicatingClasses: d2 starts with an empty list for every player
   * (line 61) and the i/j scan appends j to i's list when both cells are set.
   */
  method FindCommunicatingClasses(d: Dict<nat>, m: array2<bool>, playerNumber: nat)
    returns (d2: Dict<seq<string>>)
    requires IsPositions(d) && playerNumber == |d.keys|
    requires m.Length0 == playerNumber && m.Length1 == playerNumber
    ensures d2 == MutualMap(Cells(m), d.keys)
  {
    ghost var names := d.keys;
    ghost var M := Cells(m);
    assert IsSquare(M, |names|);
    assert Distinct(names) by {
      PositionsValid(d);
    }
    d2 := EmptyLists(d.keys);
    var invMap := Inverse(d);
    for i := 0 to playerNumber
      invariant d2 == MutualMapUpTo(M, names, i)
    {
      d2 := ScanRow(m, invMap, M, names, i, d2);
    }
  }

  /**
   * Player j is in player i's list exactly when i sees j and j sees i; the
   * list holds names of players only.
   */
  lemma {:induction false} MutualRowMembers(M: Matrix, names: seq<string>, i: nat, k: nat)
    requires IsSquare(M, |names|) && Distinct(names) && i < |names| && k <= |names|
    ensures forall j :: 0 <= j < |names| ==>
      (names[j] in MutualRow(M, names, i, k) <==> j < k && M[i][j] && M[j][i])
    ensures forall x :: x in MutualRow(M, names, i, k) ==> x in names[..k]
  {
    if k > 0 {
      MutualRowMembers(M, names, i, k - 1);
      assert names[..k] == names[..k - 1] + [names[k - 1]];
    }
  }

  /** Each list is in strictly increasing index order, so it has no duplicates. */
  lemma {:induction false} MutualRowIncreasing(M: Matrix, d: Dict<nat>, i: nat, k: nat)
    requires IsPositions(d) && IsSquare(M, |d.keys|) && i < |d.keys| && k <= |d.keys|
    ensures var row := MutualRow(M, d.keys, i, k);
      && (forall t :: 0 <= t < |row| ==> row[t] in d.entries && d.entries[row[t]] < k)
      && (forall s, t :: 0 <= s < t < |row| ==> d.entries[row[s]] < d.entries[row[t]])
      && Distinct(row)
  {
    if k > 0 {
      MutualRowIncreasing(M, d, i, k - 1);
      assert d.entries[d.keys[k - 1]] == k - 1;
    }
  }

  /** Row by row: d2 has every player as a key, and j is in i's list exactly when both cells are set. */
  lemma MutualMapMembers(M: Matrix, names: seq<string>)
    requires IsSquare(M, |names|) && Distinct(names)
    ensures var d2 := MutualMap(M, names);
      && d2.Valid() && d2.keys == names
      && (forall i, j :: 0 <= i < |names| && 0 <= j < |names| ==>
            (names[j] in d2.entries[names[i]] <==> M[i][j] && M[j][i]))
      && (forall i, x :: 0 <= i < |names| && x in d2.entries[names[i]] ==> x in names)
  {
    var d2 := MutualMap(M, names);
    MutualMapUpToDomain(M, names, |names|);
    assert names[..|names|] == names;
    forall i, j | 0 <= i < |names| && 0 <= j < |names|
      ensures names[j] in d2.entries[names[i]] <==> M[i][j] && M[j][i]
    {
      MutualMapUpToAt(M, names, |names|, i);
      MutualRowMembers(M, names, i, |names|);
    }
    forall i, x | 0 <= i < |names| && x in d2.entries[names[i]] ensures x in names {
      MutualMapUpToAt(M, names, |names|, i);
      MutualRowMembers(M, names, i, |names|);
    }
  }

  /**
   * What the extractor promises of d2: every player has an entry, j is in
   * i's list exactly when both see each other (so the relation is
   * symmetric), and every listed name is a player.
   */
  lemma MutualMapMeaning(M: Matrix, names: seq<string>)
    requires IsSquare(M, |names|) && Distinct(names)
    ensures var d2 := MutualMap(M, names);
      && d2.Valid() && d2.keys == names
      && (forall i, j :: 0 <= i < |names| && 0 <= j < |names| ==>
            (names[j] in d2.entries[names[i]] <==> M[i][j] && M[j][i]))
      && (forall i, j :: 0 <= i < |names| && 0 <= j < |names| ==>
            (names[j] in d2.entries[names[i]] <==> names[i] in d2.entries[names[j]]))
      && (forall k, x :: k in d2.entries && x in d2.entries[k] ==> x in d2.entries)
  {
    var d2 := MutualMap(M, names);
    MutualMapMembers(M, names);
    forall k, x | k in d2.entries && x in d2.entries[k] ensures x in d2.entries {
      var i :| 0 <= i < |names| && names[i] == k;
    }
  }

  /** A row without a mutual pair stays the empty list. */
  lemma {:induction false} MutualRowEmpty(M: Matrix, names: seq<string>, i: nat, k: nat)
    requires IsSquare(M, |names|) && i < |names| && k <= |names|
    requires forall j :: 0 <= j < k ==> !(M[i][j] && M[j][i])
    ensures MutualRow(M, names, i, k) == []
  {
    if k > 0 {
      MutualRowEmpty(M, names, i, k - 1);
    }
  }

  /** When no pair of players (nor a player and itself) see each other, every list is empty. */
  lemma MutualMapEmpty(M: Matrix, names: seq<string>)
    requires IsSquare(M, |names|) && Distinct(names)
    requires forall i, j :: 0 <= i < |names| && 0 <= j < |names| ==> !(M[i][j] && M[j][i])
    ensures forall k :: k in MutualMap(M, names).entries ==> MutualMap(M, names).entries[k] == []
  {
    var d2 := MutualMap(M, names);
    MutualMapUpToDomain(M, names, |names|);
    forall k | k in d2.entries ensures d2.entries[k] == [] {
      var i :| 0 <= i < |names| && names[i] == k;
      MutualMapUpToAt(M, names, |names|, i);
      MutualRowEmpty(M, names, i, |names|);
    }
  }
}
