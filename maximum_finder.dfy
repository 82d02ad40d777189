/**
 * The maximum finder (findMaximumLengthClass): the size of the largest
 * value of d3, never less than 1. The Python code first turns every value
 * into a set (d4, line 103); d3's values are sets already, so d4 is d3.
 */
module MaximumFinder {
  import opened Collections

  /** The running maximum once the first k keys of d3 are visited. */
  function MaxUpTo(d3: Dict<set<string>>, k: nat): nat
    requires d3.Valid() && k <= |d3.keys|
  {
    if k == 0 then 1
    else
      var prev := MaxUpTo(d3, k - 1);
      var length := |d3.entries[d3.keys[k - 1]]|;
      if length > prev then length else prev
  }

  /** The value that findMaximumLengthClass returns. */
  function MaxClass(d3: Dict<set<string>>): nat
    requires d3.Valid()
  {
    MaxUpTo(d3, |d3.keys|)
  }

  /**
   * The running maximum is at least 1 and at least every visited size, and
   * it is 1 or one of those sizes.
   */
  lemma {:induction false} MaxUpToMeaning(d3: Dict<set<string>>, k: nat)
    requires d3.Valid() && k <= |d3.keys|
    ensures MaxUpTo(d3, k) >= 1
    ensures forall t :: 0 <= t < k ==> |d3.entries[d3.keys[t]]| <= MaxUpTo(d3, k)
    ensures MaxUpTo(d3, k) == 1 || exists t :: 0 <= t < k && MaxUpTo(d3, k) == |d3.entries[d3.keys[t]]|
  {
    if k > 0 {
      MaxUpToMeaning(d3, k - 1);
    }
  }

  /**
   * The maximum is at least 1 and at least the size of every value, and it
   * is 1 or the size of some value; an empty dictionary gives 1.
   */
  lemma MaxClassMeaning(d3: Dict<set<string>>)
    requires d3.Valid()
    ensures MaxClass(d3) >= 1
    ensures forall key :: key in d3.entries ==> |d3.entries[key]| <= MaxClass(d3)
    ensures MaxClass(d3) == 1 || exists key :: key in d3.entries && MaxClass(d3) == |d3.entries[key]|
    ensures d3.keys == [] ==> MaxClass(d3) == 1
  {
    MaxUpToMeaning(d3, |d3.keys|);
    forall key | key in d3.entries ensures |d3.entries[key]| <= MaxClass(d3) {
      var t :| 0 <= t < |d3.keys| && d3.keys[t] == key;
    }
    if MaxClass(d3) != 1 {
      var t :| 0 <= t < |d3.keys| && MaxClass(d3) == |d3.entries[d3.keys[t]]|;
      assert d3.keys[t] in d3.entries;
    }
  }

  /** findMaximumLengthClass: a running maximum over d3 in key order, starting at 1. */
  method FindMaximumLengthClass(d3: Dict<set<string>>) returns (maximum: nat)
    requires d3.Valid()
    ensures maximum == MaxClass(d3)
    ensures maximum >= 1 && forall key :: key in d3.entries ==> |d3.entries[key]| <= maximum
    ensures maximum == 1 || exists key :: key in d3.entries && maximum == |d3.entries[key]|
  {
    maximum := 1;
    for i := 0 to |d3.keys|
      invariant maximum == MaxUpTo(d3, i)
    {
      var lengthKey := |d3.entries[d3.keys[i]]|;
      if lengthKey > maximum {
        maximum := lengthKey;
      }
    }
    MaxClassMeaning(d3);
  }

  /** When every value is empty the answer is the floor, 1. */
  lemma MaxClassAllEmpty(d3: Dict<set<string>>)
    requires d3.Valid()
    requires forall key :: key in d3.entries ==> d3.entries[key] == {}
    ensures MaxClass(d3) == 1
  {
    MaxClassMeaning(d3);
  }
}
