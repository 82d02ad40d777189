/**
 * The class-closure expander (fullCommClasses). d3 starts as a deep copy
 * of the mutual map d2; then, for every key in d2's order and every partner
 * in the key's d2 list, d3[key] is extended with the partner's current d3
 * value and deduplicated. This is one pass whose result depends on the key
 * order; it is not a fixpoint. Lists that pass through set(...) are
 * modelled as sets.
 */
module ClassClosure {
  import opened Collections

  /** d2 as the expander needs it: every listed partner is itself a key (line 87 looks it up). */
  ghost predicate WellFormed(d2: Dict<seq<string>>) {
    && d2.Valid()
    && forall k, x :: k in d2.entries && x in d2.entries[k] ==> x in d2.entries
  }

  /** Each value of d3 has exactly the members of the list d2 has under the same key. */
  ghost predicate SameMembers(d2: Dict<seq<string>>, d3: Dict<set<string>>)
    requires d3.entries.Keys == d2.entries.Keys
  {
    forall k, x :: k in d2.entries ==> (x in d3.entries[k] <==> x in d2.entries[k])
  }

  /** copy.deepcopy(d2) (line 81), every list as the set of its elements. */
  function DeepCopy(d2: Dict<seq<string>>): (d3: Dict<set<string>>)
    ensures d3.keys == d2.keys && d3.entries.Keys == d2.entries.Keys
    ensures SameMembers(d2, d3)
  {
    Dict(d2.keys, map k | k in d2.entries :: Elements(d2.entries[k]))
  }

  /**
   * One step of the inner loop (lines 86-90): the key's value is extended
   * with the partner's current value, or replaced by it if it is empty.
   */
  function ExtendStep(d3: Dict<set<string>>, key: string, val: string): (r: Dict<set<string>>)
    requires key in d3.entries && val in d3.entries
    ensures r.keys == d3.keys && r.entries.Keys == d3.entries.Keys
    ensures d3.entries[key] <= r.entries[key]
    ensures r.entries[key] == d3.entries[key] + d3.entries[val]
    ensures forall k :: k in d3.entries && k != key ==> r.entries[k] == d3.entries[k]
  {
    if d3.entries[key] != {} then
      Dict(d3.keys, d3.entries[key := d3.entries[key] + d3.entries[val]])
    else
      Dict(d3.keys, d3.entries[key := d3.entries[val]])
  }

  /** d3 after the inner loop has visited partners[..j] of key. */
  function ExtendPartners(d3: Dict<set<string>>, key: string, partners: seq<string>, j: nat)
    : (r: Dict<set<string>>)
    requires key in d3.entries && j <= |partners|
    requires forall t :: 0 <= t < |partners| ==> partners[t] in d3.entries
    ensures r.keys == d3.keys && r.entries.Keys == d3.entries.Keys
  {
    if j == 0 then d3
    else ExtendStep(ExtendPartners(d3, key, partners, j - 1), key, partners[j - 1])
  }

  /** One iteration of the outer loop (lines 83-90): a key with an empty list is skipped. */
  function ProcessKey(d3: Dict<set<string>>, key: string, playerList: seq<string>)
    : (r: Dict<set<string>>)
    requires key in d3.entries
    requires forall t :: 0 <= t < |playerList| ==> playerList[t] in d3.entries
    ensures r.keys == d3.keys && r.entries.Keys == d3.entries.Keys
  {
    if playerList != [] then ExtendPartners(d3, key, playerList, |playerList|) else d3
  }

  /** d3 after the outer loop has processed the first k keys of d2. */
  function ClosureUpTo(d2: Dict<seq<string>>, k: nat): (d3: Dict<set<string>>)
    requires WellFormed(d2) && k <= |d2.keys|
    ensures d3.keys == d2.keys && d3.entries.Keys == d2.entries.Keys
  {
    if k == 0 then DeepCopy(d2)
    else
      var key := d2.keys[k - 1];
      ProcessKey(ClosureUpTo(d2, k - 1), key, d2.entries[key])
  }

  /** The dictionary d3 that fullCommClasses returns. */
  function Closure(d2: Dict<seq<string>>): Dict<set<string>>
    requires WellFormed(d2)
  {
    ClosureUpTo(d2, |d2.keys|)
  }

  method FullCommClasses(d2: Dict<seq<string>>) returns (d3: Dict<set<string>>)
    requires WellFormed(d2)
    ensures d3 == Closure(d2)
  {
    d3 := DeepCopy(d2);
    assert d3 == ClosureUpTo(d2, 0);
    for i := 0 to |d2.keys|
      invariant d3 == ClosureUpTo(d2, i)
    {
      var key := d2.keys[i];
      var playerList := d2.entries[key];
      if playerList != [] {
        ghost var start := d3;
        for j := 0 to |playerList|
          invariant d3 == ExtendPartners(start, key, playerList, j)
        {
          var val := playerList[j];
          if d3.entries[key] != {} {
            d3 := Dict(d3.keys, d3.entries[key := d3.entries[key] + d3.entries[val]]);
          } else {
            d3 := Dict(d3.keys, d3.entries[key := d3.entries[val]]);
          }
        }
      }
    }
  }

  // ----- What the pass promises -----

  /** The inner loop only grows values, and changes none but the key's. */
  lemma {:induction false} ExtendPartnersGrows(d3: Dict<set<string>>, key: string, partners: seq<string>, j: nat)
    requires key in d3.entries && j <= |partners|
    requires forall t :: 0 <= t < |partners| ==> partners[t] in d3.entries
    ensures var r := ExtendPartners(d3, key, partners, j);
      forall k :: k in d3.entries ==> d3.entries[k] <= r.entries[k] && (k != key ==> r.entries[k] == d3.entries[k])
  {
    if j > 0 {
      ExtendPartnersGrows(d3, key, partners, j - 1);
    }
  }

  /**
   * After the inner loop has visited partners[..j], the key's value contains
   * every visited partner's value as it was before the loop.
   */
  lemma {:induction false} ExtendPartnersAbsorbs(d3: Dict<set<string>>, key: string, partners: seq<string>, j: nat)
    requires key in d3.entries && j <= |partners|
    requires forall t :: 0 <= t < |partners| ==> partners[t] in d3.entries
    ensures forall t :: 0 <= t < j ==> d3.entries[partners[t]] <= ExtendPartners(d3, key, partners, j).entries[key]
  {
    if j > 0 {
      ExtendPartnersAbsorbs(d3, key, partners, j - 1);
      ExtendPartnersGrows(d3, key, partners, j - 1);
    }
  }

  /**
   * b holds at least what a holds under every key, and exactly what a holds
   * under a key whose d2 list is empty.
   */
  ghost predicate GrowsTo(d2: Dict<seq<string>>, a: Dict<set<string>>, b: Dict<set<string>>) {
    forall x :: x in d2.entries ==>
      && x in a.entries && x in b.entries
      && a.entries[x] <= b.entries[x]
      && (d2.entries[x] == [] ==> b.entries[x] == a.entries[x])
  }

  lemma GrowsToTrans(d2: Dict<seq<string>>, a: Dict<set<string>>, b: Dict<set<string>>, c: Dict<set<string>>)
    requires GrowsTo(d2, a, b) && GrowsTo(d2, b, c)
    ensures GrowsTo(d2, a, c)
  {
  }

  /** One outer iteration only grows values, and a key with an empty list keeps its value. */
  lemma ProcessKeyGrows(d2: Dict<seq<string>>, k: nat)
    requires WellFormed(d2) && 0 < k <= |d2.keys|
    ensures GrowsTo(d2, ClosureUpTo(d2, k - 1), ClosureUpTo(d2, k))
  {
    var key := d2.keys[k - 1];
    var before := ClosureUpTo(d2, k - 1);
    if d2.entries[key] != [] {
      ExtendPartnersGrows(before, key, d2.entries[key], |d2.entries[key]|);
    }
  }

  /** The outer loop only grows values, and a key with an empty list keeps its value. */
  lemma {:induction false} ClosureUpToGrows(d2: Dict<seq<string>>, k: nat, k': nat)
    requires WellFormed(d2) && k <= k' <= |d2.keys|
    ensures GrowsTo(d2, ClosureUpTo(d2, k), ClosureUpTo(d2, k'))
  {
    if k < k' {
      ClosureUpToGrows(d2, k, k' - 1);
      ProcessKeyGrows(d2, k');
      GrowsToTrans(d2, ClosureUpTo(d2, k), ClosureUpTo(d2, k' - 1), ClosureUpTo(d2, k'));
    }
  }

  /**
   * Every value of d3 contains the key's d2 list and, for each partner in
   * that list, the partner's d2 list: all players at most two mutual steps
   * away.
   */
  lemma ClosureContainsTwoSteps(d2: Dict<seq<string>>, key: string)
    requires WellFormed(d2) && key in d2.entries
    ensures Elements(d2.entries[key]) <= Closure(d2).entries[key]
    ensures forall p :: p in d2.entries[key] ==> Elements(d2.entries[p]) <= Closure(d2).entries[key]
  {
    var i :| 0 <= i < |d2.keys| && d2.keys[i] == key;
    ProcessKeyTwoSteps(d2, i);
    ClosureUpToGrows(d2, i + 1, |d2.keys|);
  }

  /** Right after the outer loop has processed key, its value holds the two-step players. */
  lemma ProcessKeyTwoSteps(d2: Dict<seq<string>>, i: nat)
    requires WellFormed(d2) && i < |d2.keys|
    ensures var key := d2.keys[i];
      && Elements(d2.entries[key]) <= ClosureUpTo(d2, i + 1).entries[key]
      && forall p :: p in d2.entries[key] ==> Elements(d2.entries[p]) <= ClosureUpTo(d2, i + 1).entries[key]
  {
    var key := d2.keys[i];
    ClosureUpToGrows(d2, 0, i);
    if d2.entries[key] != [] {
      ExtendPartnersTwoSteps(d2, ClosureUpTo(d2, i), key);
    }
  }

  /**
   * When every value still holds its d2 list, processing key puts into the
   * key's value its own list and those of its partners.
   */
  lemma ExtendPartnersTwoSteps(d2: Dict<seq<string>>, d3: Dict<set<string>>, key: string)
    requires WellFormed(d2) && key in d2.entries
    requires forall x :: x in d2.entries ==> x in d3.entries && Elements(d2.entries[x]) <= d3.entries[x]
    ensures var partners := d2.entries[key];
      var r := ExtendPartners(d3, key, partners, |partners|);
      && Elements(partners) <= r.entries[key]
      && forall p :: p in partners ==> Elements(d2.entries[p]) <= r.entries[key]
  {
    var partners := d2.entries[key];
    ExtendPartnersGrows(d3, key, partners, |partners|);
    ExtendPartnersAbsorbs(d3, key, partners, |partners|);
    forall p | p in partners
      ensures Elements(d2.entries[p]) <= ExtendPartners(d3, key, partners, |partners|).entries[key]
    {
      var t :| 0 <= t < |partners| && partners[t] == p;
    }
  }

  /** A key whose d2 list is empty ends with an empty d3 value. */
  lemma ClosureKeepsEmpty(d2: Dict<seq<string>>, key: string)
    requires WellFormed(d2) && key in d2.entries && d2.entries[key] == []
    ensures Closure(d2).entries[key] == {}
  {
    ClosureUpToGrows(d2, 0, |d2.keys|);
  }

  /**
   * Players a and b in the list of h, with h in the list of a: d3[h] holds
   * a, h and b, so it has at least as many players as these are distinct.
   */
  lemma ClosureNeighbours(d2: Dict<seq<string>>, a: string, h: string, b: string, n: nat)
    requires WellFormed(d2) && h in d2.entries
    requires a in d2.entries[h] && b in d2.entries[h] && h in d2.entries[a]
    requires n == |{a, h, b}|
    ensures {a, h, b} <= Closure(d2).entries[h]
    ensures |Closure(d2).entries[h]| >= n
  {
    ClosureContainsTwoSteps(d2, h);
    assert h in Elements(d2.entries[a]);
    SubsetCard({a, h, b}, Closure(d2).entries[h]);
  }

  /** When every d2 list is empty, so is every d3 value. */
  lemma ClosureAllEmpty(d2: Dict<seq<string>>)
    requires WellFormed(d2)
    requires forall k :: k in d2.entries ==> d2.entries[k] == []
    ensures forall k :: k in d2.entries ==> Closure(d2).entries[k] == {}
  {
    forall k | k in d2.entries ensures Closure(d2).entries[k] == {} {
      ClosureKeepsEmpty(d2, k);
    }
  }

  /** Every d3 value is a set of players: names drawn from d2's keys. */
  lemma {:induction false} ClosureUpToWithinKeys(d2: Dict<seq<string>>, k: nat)
    requires WellFormed(d2) && k <= |d2.keys|
    ensures forall x :: x in d2.entries ==> ClosureUpTo(d2, k).entries[x] <= d2.entries.Keys
  {
    if k > 0 {
      ClosureUpToWithinKeys(d2, k - 1);
      var key := d2.keys[k - 1];
      var prev := ClosureUpTo(d2, k - 1);
      if d2.entries[key] != [] {
        WithinKeysExtend(d2, prev, key, d2.entries[key], |d2.entries[key]|);
      }
    }
  }

  lemma {:induction false} WithinKeysExtend(d2: Dict<seq<string>>, d3: Dict<set<string>>, key: string,
                                            partners: seq<string>, j: nat)
    requires key in d3.entries && j <= |partners|
    requires forall t :: 0 <= t < |partners| ==> partners[t] in d3.entries
    requires forall x :: x in d3.entries ==> d3.entries[x] <= d2.entries.Keys
    ensures forall x :: x in d3.entries ==> ExtendPartners(d3, key, partners, j).entries[x] <= d2.entries.Keys
  {
    if j > 0 {
      WithinKeysExtend(d2, d3, key, partners, j - 1);
    }
  }

  lemma ClosureWithinKeys(d2: Dict<seq<string>>)
    requires WellFormed(d2)
    ensures forall x :: x in d2.entries ==> Closure(d2).entries[x] <= d2.entries.Keys
  {
    ClosureUpToWithinKeys(d2, |d2.keys|);
  }

  /** One outer iteration changes the value of its own key only. */
  lemma ProcessKeyKeepsOthers(d2: Dict<seq<string>>, k: nat, x: string)
    requires WellFormed(d2) && 0 < k <= |d2.keys| && x in d2.entries && x != d2.keys[k - 1]
    ensures SameAt(ClosureUpTo(d2, k), ClosureUpTo(d2, k - 1), x)
  {
    var key := d2.keys[k - 1];
    if d2.entries[key] != [] {
      ExtendPartnersGrows(ClosureUpTo(d2, k - 1), key, d2.entries[key], |d2.entries[key]|);
    }
  }

  /** a and b hold the same value under x. */
  ghost predicate SameAt(a: Dict<set<string>>, b: Dict<set<string>>, x: string) {
    x in a.entries && x in b.entries && a.entries[x] == b.entries[x]
  }

  lemma SameAtTrans(a: Dict<set<string>>, b: Dict<set<string>>, c: Dict<set<string>>, x: string)
    requires SameAt(a, b, x) && SameAt(b, c, x)
    ensures SameAt(a, c, x)
  {
  }

  /** Once the outer loop has processed a key, no later iteration changes its value. */
  lemma {:induction false} ClosureUpToKeepsFinal(d2: Dict<seq<string>>, i: nat, k: nat)
    requires WellFormed(d2) && i < k <= |d2.keys|
    ensures SameAt(ClosureUpTo(d2, k), ClosureUpTo(d2, i + 1), d2.keys[i])
  {
    if k > i + 1 {
      ClosureUpToKeepsFinal(d2, i, k - 1);
      ProcessKeyKeepsOthers(d2, k, d2.keys[i]);
      SameAtTrans(ClosureUpTo(d2, k), ClosureUpTo(d2, k - 1), ClosureUpTo(d2, i + 1), d2.keys[i]);
    }
  }

  /** The value of key i in d3 is the one it had right after its own iteration. */
  lemma ClosureKeepsFinal(d2: Dict<seq<string>>, i: nat)
    requires WellFormed(d2) && i < |d2.keys|
    ensures Closure(d2).entries[d2.keys[i]] == ClosureUpTo(d2, i + 1).entries[d2.keys[i]]
  {
    ClosureUpToKeepsFinal(d2, i, |d2.keys|);
  }

  /** No d3 value has more players than d2 has keys. */
  lemma ClosureSizeBound(d2: Dict<seq<string>>)
    requires WellFormed(d2)
    ensures forall x :: x in d2.entries ==> |Closure(d2).entries[x]| <= |d2.keys|
  {
    ClosureWithinKeys(d2);
    DistinctCard(d2.keys);
    assert Elements(d2.keys) == d2.entries.Keys;
    forall x | x in d2.entries ensures |Closure(d2).entries[x]| <= |d2.keys| {
      SubsetCard(Closure(d2).entries[x], d2.entries.Keys);
    }
  }

  // ----- Soundness: d3 never holds a player the key cannot reach -----

  /** b is reached from a in exactly `steps` mutual steps. */
  ghost predicate Path(d2: Dict<seq<string>>, a: string, b: string, steps: nat)
    decreases steps
  {
    && a in d2.entries
    && if steps <= 1 then steps == 1 && b in d2.entries[a]
       else exists c :: c in d2.entries[a] && Path(d2, c, b, steps - 1)
  }

  ghost predicate Reachable(d2: Dict<seq<string>>, a: string, b: string) {
    exists steps :: Path(d2, a, b, steps)
  }

  ghost predicate SoundFor(d2: Dict<seq<string>>, d3: Dict<set<string>>) {
    forall k, x :: k in d3.entries && x in d3.entries[k] ==> Reachable(d2, k, x)
  }

  lemma {:induction false} SoundExtend(d2: Dict<seq<string>>, d3: Dict<set<string>>, key: string,
                                       partners: seq<string>, j: nat)
    requires key in d3.entries && j <= |partners|
    requires forall t :: 0 <= t < |partners| ==> partners[t] in d3.entries
    requires key in d2.entries && forall t :: 0 <= t < |partners| ==> partners[t] in d2.entries[key]
    requires SoundFor(d2, d3)
    ensures SoundFor(d2, ExtendPartners(d3, key, partners, j))
  {
    if j > 0 {
      SoundExtend(d2, d3, key, partners, j - 1);
      var prev := ExtendPartners(d3, key, partners, j - 1);
      var val := partners[j - 1];
      var next := ExtendPartners(d3, key, partners, j);
      forall k, x | k in next.entries && x in next.entries[k] ensures Reachable(d2, k, x) {
        if k == key && x !in prev.entries[key] {
          assert x in prev.entries[val];
          var s: nat :| Path(d2, val, x, s);
          assert s >= 1;
          assert Path(d2, key, x, s + 1);
        }
      }
    }
  }

  lemma {:induction false} ClosureUpToSound(d2: Dict<seq<string>>, k: nat)
    requires WellFormed(d2) && k <= |d2.keys|
    ensures SoundFor(d2, ClosureUpTo(d2, k))
  {
    if k == 0 {
      forall key, x | key in d2.entries && x in DeepCopy(d2).entries[key] ensures Reachable(d2, key, x) {
        assert Path(d2, key, x, 1);
      }
    } else {
      ClosureUpToSound(d2, k - 1);
      var key := d2.keys[k - 1];
      if d2.entries[key] != [] {
        SoundExtend(d2, ClosureUpTo(d2, k - 1), key, d2.entries[key], |d2.entries[key]|);
      }
    }
  }

  /** Every player in d3[key] is reachable from key through mutual steps. */
  lemma ClosureSound(d2: Dict<seq<string>>)
    requires WellFormed(d2)
    ensures forall k, x :: k in d2.entries && x in Closure(d2).entries[k] ==> Reachable(d2, k, x)
  {
    ClosureUpToSound(d2, |d2.keys|);
  }

  // ----- One pass is not the transitive closure -----

  /** Four players in a line, p0 - p1 - p2 - p3, each seeing its neighbours, listed in that order. */
  function LineOfFour(p0: string, p1: string, p2: string, p3: string): Dict<seq<string>> {
    Dict([p0, p1, p2, p3], map[p0 := [p1], p1 := [p0, p2], p2 := [p1, p3], p3 := [p2]])
  }

  lemma LineOfFourShape(p0: string, p1: string, p2: string, p3: string)
    requires p0 != p1 && p0 != p2 && p0 != p3 && p1 != p2 && p1 != p3 && p2 != p3
    ensures var d2 := LineOfFour(p0, p1, p2, p3);
      && d2.entries[p0] == [p1] && d2.entries[p1] == [p0, p2]
      && d2.entries[p2] == [p1, p3] && d2.entries[p3] == [p2]
      && WellFormed(d2)
  {
  }

  lemma LineOfFourReach(p0: string, p1: string, p2: string, p3: string)
    requires p0 != p1 && p0 != p2 && p0 != p3 && p1 != p2 && p1 != p3 && p2 != p3
    ensures Reachable(LineOfFour(p0, p1, p2, p3), p0, p3)
  {
    var d2 := LineOfFour(p0, p1, p2, p3);
    LineOfFourShape(p0, p1, p2, p3);
    assert Path(d2, p2, p3, 1);
    assert p2 in [p0, p2];
    assert Path(d2, p1, p3, 2);
    assert p1 in [p1];
    assert Path(d2, p0, p3, 3);
  }

  lemma LineOfFourFirstKey(p0: string, p1: string, p2: string, p3: string)
    requires p0 != p1 && p0 != p2 && p0 != p3 && p1 != p2 && p1 != p3 && p2 != p3
    ensures WellFormed(LineOfFour(p0, p1, p2, p3))
    ensures ClosureUpTo(LineOfFour(p0, p1, p2, p3), 1).entries[p0] == {p0, p1, p2}
  {
    var d2 := LineOfFour(p0, p1, p2, p3);
    LineOfFourShape(p0, p1, p2, p3);
    var c0 := ClosureUpTo(d2, 0);
    assert c0.entries[p0] == Elements([p1]) && c0.entries[p1] == Elements([p0, p2]);
    assert ClosureUpTo(d2, 1) == ProcessKey(c0, p0, [p1]);
    assert ExtendPartners(c0, p0, [p1], 1) == ExtendStep(c0, p0, p1);
  }

  /**
   * In the line p0 - p1 - p2 - p3, p3 is reachable from p0, yet d3[p0] is
   * {p0, p1, p2}: the value of p0 is final after p0's own iteration, which
   * only sees p1's list as it was copied from d2.
   */
  lemma LineOfFourUnderCounts(p0: string, p1: string, p2: string, p3: string)
    requires p0 != p1 && p0 != p2 && p0 != p3 && p1 != p2 && p1 != p3 && p2 != p3
    ensures WellFormed(LineOfFour(p0, p1, p2, p3))
    ensures Reachable(LineOfFour(p0, p1, p2, p3), p0, p3)
    ensures Closure(LineOfFour(p0, p1, p2, p3)).entries[p0] == {p0, p1, p2}
  {
    LineOfFourReach(p0, p1, p2, p3);
    LineOfFourFirstKey(p0, p1, p2, p3);
    ClosureKeepsFinal(LineOfFour(p0, p1, p2, p3), 0);
  }
}
