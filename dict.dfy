/**
 * Python dicts from strings to lists of strings, kept as their (key, list)
 * pairs in insertion order, and the inversion Main.py performs to build
 * `APPLICANT_TO_HOUSE` from `HOUSE_TO_APPLICANT`.
 */
module Dict {
  import opened Sequences

  /** A dict's items in iteration (insertion) order. */
  type Dict = seq<(string, seq<string>)>

  /** `list(d.keys())`. */
  function Keys(d: Dict): (ks: seq<string>)
    ensures |ks| == |d| && forall i {:trigger ks[i]} :: 0 <= i < |d| ==> ks[i] == d[i].0
  {
    seq(|d|, i requires 0 <= i < |d| => d[i].0)
  }

  /** A dict never holds a key twice. */
  predicate DistinctKeys(d: Dict) {
    Distinct(Keys(d))
  }

  /** `d.get(k, [])`. */
  function Get(d: Dict, k: string): seq<string> {
    if d == [] then []
    else if d[0].0 == k then d[0].1
    else Get(d[1..], k)
  }

  /** A key that is absent reads as the empty list. */
  lemma {:induction false} GetAbsent(d: Dict, k: string)
    requires k !in Keys(d)
    ensures Get(d, k) == []
  {
    if d != [] {
      assert Keys(d)[0] == d[0].0;
      assert Keys(d[1..]) == Keys(d)[1..];
      GetAbsent(d[1..], k);
    }
  }

  /** In a dict with distinct keys, `Get` returns the list stored under that key. */
  lemma {:induction false} GetAt(d: Dict, i: int)
    requires DistinctKeys(d) && 0 <= i < |d|
    ensures Get(d, d[i].0) == d[i].1
  {
    if i > 0 {
      assert Keys(d)[0] != Keys(d)[i];
      assert Keys(d[1..]) == Keys(d)[1..];
      GetAt(d[1..], i - 1);
    }
  }

  /**
   * `d.setdefault(k, []).append(v)`, as the new dict: a key already present
   * keeps its place, a new key goes last.
   */
  function SetDefaultAppend(d: Dict, k: string, v: string): (r: Dict)
    ensures Get(r, k) == Get(d, k) + [v]
    ensures forall k' :: k' != k ==> Get(r, k') == Get(d, k')
    ensures Keys(r) == if k in Keys(d) then Keys(d) else Keys(d) + [k]
  {
    if d == [] then [(k, [v])]
    else if d[0].0 == k then
      var r := [(k, d[0].1 + [v])] + d[1..];
      assert Keys(d)[0] == k;
      assert Keys(r) == Keys(d);
      r
    else
      assert Keys(d) == [d[0].0] + Keys(d[1..]);
      var rest := SetDefaultAppend(d[1..], k, v);
      var r := [d[0]] + rest;
      assert Keys(r) == [d[0].0] + Keys(rest);
      r
  }

  /** `setdefault(...).append` never makes a key occur twice. */
  lemma SetDefaultAppendDistinct(d: Dict, k: string, v: string)
    requires DistinctKeys(d)
    ensures DistinctKeys(SetDefaultAppend(d, k, v))
  {
    var ks := Keys(d);
    if k !in ks {
      var ks' := ks + [k];
      forall i, j | 0 <= i < j < |ks'| ensures ks'[i] != ks'[j] {
        if j == |ks| {
          assert ks'[i] == ks[i];
        }
      }
    }
  }

  /** The inner loop for one house: append `house` under each of its applicants. */
  function AddHouse(m: Dict, house: string, applicants: seq<string>): Dict
    decreases |applicants|
  {
    if applicants == [] then m
    else SetDefaultAppend(AddHouse(m, house, applicants[..|applicants| - 1]), applicants[|applicants| - 1], house)
  }

  /** The whole nested loop: the inverse of a house-to-applicants dict. */
  function Invert(e: Dict): Dict
    decreases |e|
  {
    if e == [] then []
    else AddHouse(Invert(e[..|e| - 1]), e[|e| - 1].0, e[|e| - 1].1)
  }

  /**
   * Lines 54-57 of Main.py: for each house in iteration order, for each of
   * its applicants, `APPLICANT_TO_HOUSE.setdefault(a, []).append(house)`.
   */
  method BuildApplicantToHouse(houseToApplicant: Dict) returns (applicantToHouse: Dict)
    ensures applicantToHouse == Invert(houseToApplicant)
  {
    applicantToHouse := [];
    for i := 0 to |houseToApplicant|
      invariant applicantToHouse == Invert(houseToApplicant[..i])
    {
      var (house, applicants) := houseToApplicant[i];
      ghost var before := applicantToHouse;
      for j := 0 to |applicants|
        invariant applicantToHouse == AddHouse(before, house, applicants[..j])
      {
        assert applicants[..j + 1][..j] == applicants[..j];
        applicantToHouse := SetDefaultAppend(applicantToHouse, applicants[j], house);
      }
      assert applicants[..|applicants|] == applicants;
      assert houseToApplicant[..i + 1][..i] == houseToApplicant[..i];
    }
    assert houseToApplicant[..|houseToApplicant|] == houseToApplicant;
  }

  /** How often `a` occurs in `xs`. */
  function Count(xs: seq<string>, a: string): nat
    decreases |xs|
  {
    if xs == [] then 0
    else Count(xs[..|xs| - 1], a) + (if xs[|xs| - 1] == a then 1 else 0)
  }

  /** `n` copies of `x`. */
  function Repeat(x: string, n: nat): (r: seq<string>)
    ensures |r| == n && forall i :: 0 <= i < |r| ==> r[i] == x
  {
    if n == 0 then [] else Repeat(x, n - 1) + [x]
  }

  /**
   * Reference meaning of the inverse: the houses, in iteration order, each
   * as many times as it lists applicant `a`.
   */
  function Listing(e: Dict, a: string): seq<string>
    decreases |e|
  {
    if e == [] then []
    else Listing(e[..|e| - 1], a) + Repeat(e[|e| - 1].0, Count(e[|e| - 1].1, a))
  }

  /** The houses, in iteration order, whose list contains `a`. */
  function HousesListing(e: Dict, a: string): seq<string>
    decreases |e|
  {
    if e == [] then []
    else HousesListing(e[..|e| - 1], a) + (if a in e[|e| - 1].1 then [e[|e| - 1].0] else [])
  }

  lemma {:induction false} AddHouseGet(m: Dict, house: string, applicants: seq<string>, a: string)
    ensures Get(AddHouse(m, house, applicants), a) == Get(m, a) + Repeat(house, Count(applicants, a))
    decreases |applicants|
  {
    if applicants != [] {
      var init, last := applicants[..|applicants| - 1], applicants[|applicants| - 1];
      var before := AddHouse(m, house, init);
      AddHouseGet(m, house, init, a);
      assert AddHouse(m, house, applicants) == SetDefaultAppend(before, last, house);
      if last != a {
        assert Get(SetDefaultAppend(before, last, house), a) == Get(before, a);
      }
    }
  }

  lemma {:induction false} AddHouseKeys(m: Dict, house: string, applicants: seq<string>, a: string)
    ensures a in Keys(AddHouse(m, house, applicants)) <==> a in Keys(m) || a in applicants
    decreases |applicants|
  {
    if applicants != [] {
      var init := applicants[..|applicants| - 1];
      AddHouseKeys(m, house, init, a);
      assert applicants == init + [applicants[|applicants| - 1]];
    }
  }

  lemma {:induction false} AddHouseDistinct(m: Dict, house: string, applicants: seq<string>)
    requires DistinctKeys(m)
    ensures DistinctKeys(AddHouse(m, house, applicants))
    decreases |applicants|
  {
    if applicants != [] {
      var init := applicants[..|applicants| - 1];
      AddHouseDistinct(m, house, init);
      SetDefaultAppendDistinct(AddHouse(m, house, init), applicants[|applicants| - 1], house);
    }
  }

  /** Each applicant's list in the inverse is exactly `Listing`. */
  lemma {:induction false} InvertGet(e: Dict, a: string)
    ensures Get(Invert(e), a) == Listing(e, a)
    decreases |e|
  {
    if e != [] {
      var init := e[..|e| - 1];
      InvertGet(init, a);
      AddHouseGet(Invert(init), e[|e| - 1].0, e[|e| - 1].1, a);
    }
  }

  /** The inverse holds each applicant once, and exactly the applicants some house lists. */
  lemma {:induction false} InvertKeys(e: Dict, a: string)
    ensures DistinctKeys(Invert(e))
    ensures a in Keys(Invert(e)) <==> exists i :: 0 <= i < |e| && a in e[i].1
    decreases |e|
  {
    if e != [] {
      var init := e[..|e| - 1];
      InvertKeys(init, a);
      AddHouseKeys(Invert(init), e[|e| - 1].0, e[|e| - 1].1, a);
      AddHouseDistinct(Invert(init), e[|e| - 1].0, e[|e| - 1].1);
      assert forall i :: 0 <= i < |init| ==> init[i] == e[i];
      if a in e[|e| - 1].1 {
        assert exists i :: 0 <= i < |e| && a in e[i].1 by { assert a in e[|e| - 1].1; }
      }
    }
  }

  lemma {:induction false} CountPositive(xs: seq<string>, a: string)
    ensures Count(xs, a) > 0 <==> a in xs
    decreases |xs|
  {
    if xs != [] {
      var init := xs[..|xs| - 1];
      CountPositive(init, a);
      assert xs == init + [xs[|xs| - 1]];
    }
  }

  /** `h` is in `Listing(e, a)` exactly when some entry for house `h` lists `a`. */
  lemma {:induction false} ListingMembers(e: Dict, a: string, h: string)
    ensures h in Listing(e, a) <==> exists i :: 0 <= i < |e| && e[i].0 == h && a in e[i].1
    decreases |e|
  {
    if e != [] {
      var init, last := e[..|e| - 1], e[|e| - 1];
      ListingMembers(init, a, h);
      CountPositive(last.1, a);
      assert forall i :: 0 <= i < |init| ==> init[i] == e[i];
      var rep := Repeat(last.0, Count(last.1, a));
      assert h in rep <==> (h == last.0 && Count(last.1, a) > 0) by {
        if h in rep {
          var q :| 0 <= q < |rep| && rep[q] == h;
        }
        if h == last.0 && Count(last.1, a) > 0 {
          assert rep[0] == h;
        }
      }
      if h == last.0 && a in last.1 {
        assert e[|e| - 1].0 == h && a in e[|e| - 1].1;
      }
    }
  }

  /**
   * House `h` is in `APPLICANT_TO_HOUSE[a]` if and only if applicant `a` is
   * in `HOUSE_TO_APPLICANT[h]`.
   */
  lemma InvertMembership(e: Dict, a: string, h: string)
    requires DistinctKeys(e)
    ensures h in Get(Invert(e), a) <==> a in Get(e, h)
  {
    InvertGet(e, a);
    ListingMembers(e, a, h);
    if h in Keys(e) {
      var i :| 0 <= i < |e| && Keys(e)[i] == h;
      GetAt(e, i);
      forall j | 0 <= j < |e| && e[j].0 == h ensures j == i {
        assert Keys(e)[j] == Keys(e)[i];
      }
    } else {
      GetAbsent(e, h);
      assert forall j :: 0 <= j < |e| ==> e[j].0 == Keys(e)[j];
    }
  }

  /** No house lists an applicant twice. */
  predicate NoRepeatedApplicants(e: Dict) {
    forall i :: 0 <= i < |e| ==> Distinct(e[i].1)
  }

  lemma {:induction false} CountDistinct(xs: seq<string>, a: string)
    requires Distinct(xs)
    ensures Count(xs, a) <= 1
    decreases |xs|
  {
    if xs != [] {
      var init := xs[..|xs| - 1];
      assert forall i :: 0 <= i < |init| ==> init[i] == xs[i];
      CountDistinct(init, a);
      if xs[|xs| - 1] == a {
        CountPositive(init, a);
        assert a !in init;
      }
    }
  }

  /**
   * When no house lists an applicant twice, each applicant's list in the
   * inverse is the houses that list it, in the dict's iteration order.
   */
  lemma {:induction false} InvertFollowsHouseOrder(e: Dict, a: string)
    requires NoRepeatedApplicants(e)
    ensures Get(Invert(e), a) == HousesListing(e, a)
    decreases |e|
  {
    InvertGet(e, a);
    if e != [] {
      var init, last := e[..|e| - 1], e[|e| - 1];
      assert forall i :: 0 <= i < |init| ==> init[i] == e[i];
      InvertFollowsHouseOrder(init, a);
      InvertGet(init, a);
      CountDistinct(last.1, a);
      CountPositive(last.1, a);
    }
  }

  /** `HousesListing` holds each house at most once when the houses are distinct. */
  lemma {:induction false} HousesListingDistinct(e: Dict, a: string)
    requires DistinctKeys(e)
    ensures Distinct(HousesListing(e, a))
    ensures forall h :: h in HousesListing(e, a) ==> h in Keys(e)
    decreases |e|
  {
    if e != [] {
      var init, last := e[..|e| - 1], e[|e| - 1];
      assert Keys(init) == Keys(e)[..|e| - 1];
      assert Keys(e)[|e| - 1] == last.0;
      HousesListingDistinct(init, a);
      assert last.0 !in Keys(init) by {
        forall q | 0 <= q < |init| ensures Keys(init)[q] != last.0 {
          assert Keys(e)[q] != Keys(e)[|e| - 1];
        }
      }
    }
  }

  /**
   * With distinct houses and no house listing an applicant twice, no
   * applicant's list in the inverse repeats a house.
   */
  lemma InvertNoDuplicates(e: Dict, a: string)
    requires DistinctKeys(e) && NoRepeatedApplicants(e)
    ensures Distinct(Get(Invert(e), a))
  {
    InvertFollowsHouseOrder(e, a);
    HousesListingDistinct(e, a);
  }
}
