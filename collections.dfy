/** Value types shared by every stage of the pipeline. */
module Collections {

  datatype Option<T> = None | Some(value: T)

  /** No element occurs twice. */
  predicate Distinct<T(==)>(s: seq<T>) {
    forall i, j :: 0 <= i < j < |s| ==> s[i] != s[j]
  }

  /**
   * A Python dictionary keyed by player names: `keys` is its iteration
   * (insertion) order, `entries` the value stored under each key.
   */
  datatype Dict<V> = Dict(keys: seq<string>, entries: map<string, V>) {
    ghost predicate Valid() {
      && Distinct(keys)
      && (forall k :: k in entries <==> k in keys)
    }
  }

  /**
   * The name index built by the first pass: keys[i] is mapped to i, and
   * every entry is the position of its key.
   */
  ghost predicate IsPositions(d: Dict<nat>) {
    && (forall i :: 0 <= i < |d.keys| ==> d.keys[i] in d.entries && d.entries[d.keys[i]] == i)
    && (forall k :: k in d.entries ==> d.entries[k] < |d.keys| && d.keys[d.entries[k]] == k)
  }

  /** A name index is a well-formed dictionary. */
  lemma PositionsValid(d: Dict<nat>)
    requires IsPositions(d)
    ensures d.Valid()
  {
    forall i, j | 0 <= i < j < |d.keys| ensures d.keys[i] != d.keys[j] {
      assert d.entries[d.keys[i]] == i && d.entries[d.keys[j]] == j;
    }
  }

  /** The elements of a list, as Python's set(...) gives them. */
  function Elements(s: seq<string>): (r: set<string>)
    ensures forall x :: x in r <==> x in s
  {
    set x | x in s
  }

  /** A list without duplicates has as many distinct elements as entries. */
  lemma {:induction false} DistinctCard(s: seq<string>)
    requires Distinct(s)
    ensures |Elements(s)| == |s|
  {
    if s != [] {
      var t := s[..|s| - 1];
      assert Distinct(t);
      DistinctCard(t);
      assert s == t + [s[|s| - 1]];
      assert Elements(s) == Elements(t) + {s[|s| - 1]};
      assert s[|s| - 1] !in Elements(t);
    }
  }

  /** A subset has at most as many elements as the set containing it. */
  lemma {:induction false} SubsetCard(a: set<string>, b: set<string>)
    requires a <= b
    ensures |a| <= |b|
    decreases |a|
  {
    if a != {} {
      var x :| x in a;
      SubsetCard(a - {x}, b - {x});
    }
  }
}
