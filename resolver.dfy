/**
 * The resolver: pairwise comparators scoring how likely two profiles from
 * different networks belong to one person, the driver that emits one
 * 13-column row per eligible pair of a block, and the blocking pass that
 * groups loaded profiles by name and selects the blocks worth resolving.
 */
module Resolver {
  import opened Wrappers
  import opened Strings
  import opened EditDistance
  import opened Analyser
  import Ledger

  /** A computation's value, or the ZeroDivisionError it raises. */
  datatype Outcome<T> = Done(value: T) | ZeroDivision

  // ---------------------------------------------------------------------------
  // sameNames
  // ---------------------------------------------------------------------------

  /** The names that are not numeric (ids are sometimes stored as names). */
  function NonNumeric(names: seq<string>): (r: seq<string>)
    ensures |r| <= |names|
  {
    if names == [] then []
    else NonNumeric(names[..|names| - 1]) + (if IsNumeric(names[|names| - 1]) then [] else [names[|names| - 1]])
  }

  /** The filter keeps exactly the non-numeric names. */
  lemma {:induction false} NonNumericMembers(names: seq<string>)
    ensures forall n :: n in NonNumeric(names) <==> n in names && !IsNumeric(n)
  {
    if names != [] {
      var init := names[..|names| - 1];
      NonNumericMembers(init);
      assert names == init + [names[|names| - 1]];
    }
  }

  /** The number of pairs (n1, n2), n1 drawn from v1 and n2 from v2, with n1 == n2. */
  function EqualPairs(v1: seq<string>, v2: seq<string>): nat
  {
    if v1 == [] then 0 else EqualPairs(v1[..|v1| - 1], v2) + Count(v2, v1[|v1| - 1])
  }

  /**
   * What sameNames computes. The second counter grows once per non-numeric
   * name of profile two for every non-numeric name of profile one, so the
   * smaller counter is profile one's count: the result is equal pairs over
   * profile one's non-numeric names, and a ZeroDivisionError when either
   * side has none.
   */
  function SameNamesOf(names1: seq<string>, names2: seq<string>): Outcome<real>
  {
    var v1 := NonNumeric(names1);
    var v2 := NonNumeric(names2);
    if v1 == [] || v2 == [] then ZeroDivision
    else Done(EqualPairs(v1, v2) as real / |v1| as real)
  }

  lemma Whole(n: real)
    requires n > 0.0
    ensures n / n == 1.0
  {
  }

  lemma MulStep(a: nat, b: nat)
    ensures (a + 1) * b == a * b + b
  {
  }

  lemma MulAtLeast(a: nat, b: nat)
    requires b >= 1
    ensures a <= a * b
  {
  }

  lemma EqualPairsSnoc(v1: seq<string>, n: string, v2: seq<string>)
    ensures EqualPairs(v1 + [n], v2) == EqualPairs(v1, v2) + Count(v2, n)
  {
    assert (v1 + [n])[..|v1|] == v1;
  }

  /** Extending the prefix of names by one name extends the filter by that name when it is not numeric. */
  lemma NonNumericPrefix(names: seq<string>, i: nat)
    requires i < |names|
    ensures NonNumeric(names[..i + 1]) == NonNumeric(names[..i]) + (if IsNumeric(names[i]) then [] else [names[i]])
  {
    assert names[..i + 1][..i] == names[..i];
  }

  /** sameNames' inner loop for one name n1 of profile one: the non-numeric names of profile two, and those equal to n1. */
  method CountEqual(names2: seq<string>, n1: string) returns (valid: nat, equal: nat)
    ensures valid == |NonNumeric(names2)|
    ensures equal == Count(NonNumeric(names2), n1)
  {
    valid, equal := 0, 0;
    for j := 0 to |names2|
      invariant valid == |NonNumeric(names2[..j])|
      invariant equal == Count(NonNumeric(names2[..j]), n1)
    {
      var n2 := names2[j];
      NonNumericPrefix(names2, j);
      CountSnoc(NonNumeric(names2[..j]), n2, n1);
      if !IsNumeric(n2) {
        valid := valid + 1;
        if n1 == n2 {
          equal := equal + 1;
        }
      } else {
        assert NonNumeric(names2[..j]) + [] == NonNumeric(names2[..j]);
      }
    }
    assert names2[..|names2|] == names2;
  }

  /** sameNames' counters after the first i names of profile one. */
  predicate NamesCounted(names1: seq<string>, v2: seq<string>, i: nat, validone: nat, validtwo: nat, namecount: nat)
    requires i <= |names1|
  {
    && validone == |NonNumeric(names1[..i])|
    && validtwo == validone * |v2|
    && namecount == EqualPairs(NonNumeric(names1[..i]), v2)
  }

  /** One pass of sameNames' outer loop, over the name names1[i]. */
  method CountName(names1: seq<string>, names2: seq<string>, i: nat, validone: nat, validtwo: nat, namecount: nat)
      returns (validone': nat, validtwo': nat, namecount': nat)
    requires i < |names1| && NamesCounted(names1, NonNumeric(names2), i, validone, validtwo, namecount)
    ensures NamesCounted(names1, NonNumeric(names2), i + 1, validone', validtwo', namecount')
  {
    var n1 := names1[i];
    NonNumericPrefix(names1, i);
    if !IsNumeric(n1) {
      var valid, equal := CountEqual(names2, n1);
      MulStep(validone, |NonNumeric(names2)|);
      EqualPairsSnoc(NonNumeric(names1[..i]), n1, NonNumeric(names2));
      validone', validtwo', namecount' := validone + 1, validtwo + valid, namecount + equal;
    } else {
      assert NonNumeric(names1[..i]) + [] == NonNumeric(names1[..i]);
      validone', validtwo', namecount' := validone, validtwo, namecount;
    }
  }

  /** sameNames: the nested counting loops. */
  method SameNames(p1: Profile, p2: Profile) returns (r: Outcome<real>)
    ensures r == SameNamesOf(p1.names, p2.names)
  {
    var names1, names2 := p1.names, p2.names;
    var namecount: nat, validone: nat, validtwo: nat := 0, 0, 0;
    for i: nat := 0 to |names1|
      invariant NamesCounted(names1, NonNumeric(names2), i, validone, validtwo, namecount)
    {
      validone, validtwo, namecount := CountName(names1, names2, i, validone, validtwo, namecount);
    }
    assert names1[..|names1|] == names1;
    var minlen := if validone <= validtwo then validone else validtwo;
    if NonNumeric(names2) != [] {
      MulAtLeast(validone, |NonNumeric(names2)|);
    }
    if minlen == 0 {
      return ZeroDivision;
    }
    return Done(namecount as real / minlen as real);
  }

  /** The division fails exactly when one side has only numeric names (or none). */
  lemma SameNamesFails(names1: seq<string>, names2: seq<string>)
    ensures SameNamesOf(names1, names2) == ZeroDivision <==>
      (forall i :: 0 <= i < |names1| ==> IsNumeric(names1[i])) || (forall i :: 0 <= i < |names2| ==> IsNumeric(names2[i]))
  {
    var v1, v2 := NonNumeric(names1), NonNumeric(names2);
    NonNumericMembers(names1);
    NonNumericMembers(names2);
    if v1 != [] {
      assert v1[0] in v1;
    }
    if v2 != [] {
      assert v2[0] in v2;
    }
    if v1 == [] {
      forall i | 0 <= i < |names1| ensures IsNumeric(names1[i]) {
        assert names1[i] in names1;
      }
    }
    if v2 == [] {
      forall i | 0 <= i < |names2| ensures IsNumeric(names2[i]) {
        assert names2[i] in names2;
      }
    }
  }

  predicate Distinct(s: seq<string>)
  {
    forall i, j :: 0 <= i < j < |s| ==> s[i] != s[j]
  }

  lemma {:induction false} CountDistinct(s: seq<string>, x: string)
    requires Distinct(s)
    ensures Count(s, x) <= 1
  {
    if s != [] {
      var init := s[..|s| - 1];
      CountDistinct(init, x);
      if s[|s| - 1] == x {
        CountPositive(init, x);
      }
    }
  }

  lemma {:induction false} CountNonNumeric(s: seq<string>, x: string)
    ensures Count(NonNumeric(s), x) <= Count(s, x)
  {
    if s != [] {
      var init := s[..|s| - 1];
      var w := NonNumeric(init);
      CountNonNumeric(init, x);
      if IsNumeric(s[|s| - 1]) {
        assert NonNumeric(s) == w + [];
        assert w + [] == w;
      } else {
        CountSnoc(w, s[|s| - 1], x);
      }
    }
  }

  lemma {:induction false} EqualPairsBound(v1: seq<string>, v2: seq<string>)
    requires forall x :: Count(v2, x) <= 1
    ensures EqualPairs(v1, v2) <= |v1|
  {
    if v1 != [] {
      EqualPairsBound(v1[..|v1| - 1], v2);
    }
  }

  /** When profile two's names are distinct, sameNames lies in [0, 1]. */
  lemma SameNamesBounded(names1: seq<string>, names2: seq<string>)
    requires Distinct(names2)
    requires SameNamesOf(names1, names2).Done?
    ensures 0.0 <= SameNamesOf(names1, names2).value <= 1.0
  {
    var v1, v2 := NonNumeric(names1), NonNumeric(names2);
    forall x ensures Count(v2, x) <= 1 {
      CountNonNumeric(names2, x);
      CountDistinct(names2, x);
    }
    EqualPairsBound(v1, v2);
    Share(EqualPairs(v1, v2) as real, |v1| as real);
  }

  /** With repeated names the score exceeds 1: one "ann" against two "ann"s gives 2. */
  lemma SameNamesUnbounded()
    ensures SameNamesOf(["ann"], ["ann", "ann"]) == Done(2.0)
  {
    assert !IsNumeric("ann") by {
      assert "ann"[0] == 'a';
    }
    assert NonNumeric(["ann"]) == ["ann"] by {
      assert ["ann"][..0] == [];
    }
    assert NonNumeric(["ann", "ann"]) == ["ann", "ann"] by {
      assert ["ann", "ann"][..1] == ["ann"];
      assert ["ann"][..0] == [];
    }
    assert Count(["ann", "ann"], "ann") == 2 by {
      assert ["ann", "ann"][..1] == ["ann"];
      assert ["ann"][..0] == [];
    }
    assert EqualPairs(["ann"], ["ann", "ann"]) == 2 by {
      assert ["ann"][..0] == [];
    }
  }

  lemma {:induction false} EqualPairsAllHit(v1: seq<string>, v2: seq<string>)
    requires forall x :: x in v1 ==> Count(v2, x) == 1
    ensures EqualPairs(v1, v2) == |v1|
  {
    if v1 != [] {
      EqualPairsAllHit(v1[..|v1| - 1], v2);
    }
  }

  lemma {:induction false} NonNumericDistinct(s: seq<string>)
    requires Distinct(s)
    ensures Distinct(NonNumeric(s))
  {
    if s != [] {
      var init := s[..|s| - 1];
      NonNumericDistinct(init);
      NonNumericMembers(init);
      assert s[|s| - 1] !in init;
    }
  }

  /** A profile with distinct names, one of them non-numeric, scores exactly 1 against itself. */
  lemma SameNamesSelf(names: seq<string>)
    requires Distinct(names)
    requires exists i :: 0 <= i < |names| && !IsNumeric(names[i])
    ensures SameNamesOf(names, names) == Done(1.0)
  {
    var v := NonNumeric(names);
    var i :| 0 <= i < |names| && !IsNumeric(names[i]);
    NonNumericMembers(names);
    assert names[i] in v;
    NonNumericDistinct(names);
    SelfPairs(v);
    Whole(|v| as real);
  }

  /** Every element of a duplicate-free list meets exactly itself. */
  lemma SelfPairs(v: seq<string>)
    requires Distinct(v)
    ensures EqualPairs(v, v) == |v|
  {
    forall x | x in v ensures Count(v, x) == 1 {
      CountDistinct(v, x);
      CountPositive(v, x);
    }
    EqualPairsAllHit(v, v);
  }

  // ---------------------------------------------------------------------------
  // bestNameDiff
  // ---------------------------------------------------------------------------

  /** bestNameDiff: 0 when either best name is falsy, else 1 - distance / longer length. */
  function BestNameDiffOf(names1: seq<string>, names2: seq<string>): real
  {
    var n1 := BestNameOf(names1);
    var n2 := BestNameOf(names2);
    if !Truthy(n1) || !Truthy(n2) then 0.0
    else 1.0 - Levenshtein(n1.value, n2.value) as real / Max(|n1.value|, |n2.value|) as real
  }

  /** The ratio lies in [0, 1] and is 1 exactly when both best names are truthy and equal. */
  lemma BestNameDiffRange(names1: seq<string>, names2: seq<string>)
    ensures 0.0 <= BestNameDiffOf(names1, names2) <= 1.0
    ensures BestNameDiffOf(names1, names2) == 1.0 <==>
      Truthy(BestNameOf(names1)) && BestNameOf(names1) == BestNameOf(names2)
  {
    var n1 := BestNameOf(names1);
    var n2 := BestNameOf(names2);
    if Truthy(n1) && Truthy(n2) {
      var a, b := n1.value, n2.value;
      var d := Levenshtein(a, b);
      LevenshteinBounded(a, b);
      Share(d as real, Max(|a|, |b|) as real);
      if a == b {
        LevenshteinSelf(a);
      }
      if d != 0 {
        assert d as real / Max(|a|, |b|) as real > 0.0;
      } else {
        LevenshteinZero(a, b);
      }
    }
  }

  // ---------------------------------------------------------------------------
  // timeComparison
  // ---------------------------------------------------------------------------

  /** A bucket where both profiles peak (above 0.2) or both are quiet (below 0.08). */
  predicate Agree(x: real, y: real)
  {
    (x > 0.2 && y > 0.2) || (x < 0.08 && y < 0.08)
  }

  /** Agreeing buckets among the first k. */
  function AgreeCount(t1: seq<real>, t2: seq<real>, k: nat): (r: nat)
    requires k <= |t1| && k <= |t2|
    ensures r <= k
  {
    if k == 0 then 0 else AgreeCount(t1, t2, k - 1) + (if Agree(t1[k - 1], t2[k - 1]) then 1 else 0)
  }

  /** timeComparison: 0 without both profiles, else 1/6 per agreeing bucket. */
  function TimeComparisonOf(hours1: seq<nat>, hours2: seq<nat>): real
  {
    var t1 := TimeProfileOf(hours1);
    var t2 := TimeProfileOf(hours2);
    if t1.None? || t2.None? then 0.0 else AgreeCount(t1.value, t2.value, 6) as real / 6.0
  }

  method TimeComparison(p1: Profile, p2: Profile) returns (likelihood: real)
    ensures likelihood == TimeComparisonOf(p1.activityHours, p2.activityHours)
  {
    var t1 := ComputeTimeProfile(p1.activityHours);
    var t2 := ComputeTimeProfile(p2.activityHours);
    if t1.None? || t2.None? {
      return 0.0;
    }
    var a, b := t1.value, t2.value;
    likelihood := 0.0;
    for period := 0 to 6
      invariant likelihood == Units(AgreeCount(a, b, period), 1.0 / 6.0)
    {
      if a[period] > 0.2 && b[period] > 0.2 {
        likelihood := likelihood + 1.0 / 6.0;
      } else if a[period] < 0.08 && b[period] < 0.08 {
        likelihood := likelihood + 1.0 / 6.0;
      }
    }
    UnitsShare(AgreeCount(a, b, 6), 6);
  }

  lemma {:induction false} AgreeCountSymmetric(t1: seq<real>, t2: seq<real>, k: nat)
    requires k <= |t1| && k <= |t2|
    ensures AgreeCount(t1, t2, k) == AgreeCount(t2, t1, k)
  {
    if k > 0 {
      AgreeCountSymmetric(t1, t2, k - 1);
    }
  }

  /** The time score lies in [0, 1] and does not depend on the order of the two profiles. */
  lemma TimeComparisonRange(hours1: seq<nat>, hours2: seq<nat>)
    ensures 0.0 <= TimeComparisonOf(hours1, hours2) <= 1.0
    ensures TimeComparisonOf(hours1, hours2) == TimeComparisonOf(hours2, hours1)
    ensures hours1 == [] || hours2 == [] ==> TimeComparisonOf(hours1, hours2) == 0.0
  {
    var t1 := TimeProfileOf(hours1);
    var t2 := TimeProfileOf(hours2);
    if t1.Some? && t2.Some? {
      AgreeCountSymmetric(t1.value, t2.value, 6);
    }
  }

  // ---------------------------------------------------------------------------
  // linkAnalysis
  // ---------------------------------------------------------------------------

  /** `[urlparse(link).netloc for link in links]`, or None when urlparse raises on some link. */
  function Domains(links: seq<string>, netloc: string -> Option<string>): (r: Option<seq<string>>)
    ensures r.Some? ==> |r.value| == |links|
  {
    if links == [] then Some([])
    else match (Domains(links[..|links| - 1], netloc), netloc(links[|links| - 1]))
      case (Some(ds), Some(d)) => Some(ds + [d])
      case _ => None
  }

  /** The running score over the first links of profile one: unit per exact hit, else unit/3 per domain hit. */
  function LinkSum(ls1: seq<string>, ds1: seq<string>, ls2: seq<string>, ds2: seq<string>, unit: real): real
    requires |ds1| == |ls1|
  {
    if ls1 == [] then 0.0
    else
      var k := |ls1| - 1;
      LinkSum(ls1[..k], ds1[..k], ls2, ds2, unit)
      + (if ls1[k] in ls2 then unit else if ds1[k] in ds2 then unit / 3.0 else 0.0)
  }

  /** linkAnalysis: 0 when urlparse fails or either link list is empty. */
  function LinkAnalysisOf(content1: seq<Content>, content2: seq<Content>, netloc: string -> Option<string>): real
  {
    var ls1 := LinksOf(content1);
    var ls2 := LinksOf(content2);
    var ds1 := Domains(ls1, netloc);
    var ds2 := Domains(ls2, netloc);
    if ds1.None? || ds2.None? || |ls1| == 0 || |ls2| == 0 then 0.0
    else LinkSum(ls1, ds1.value, ls2, ds2.value, 1.0 / |ls1| as real)
  }

  method LinkAnalysis(p1: Profile, p2: Profile, netloc: string -> Option<string>) returns (score: real)
    ensures score == LinkAnalysisOf(p1.content, p2.content, netloc)
  {
    var ls1 := ComputeLinks(p1.content);
    var d1 := Domains(ls1, netloc);
    var ls2 := ComputeLinks(p2.content);
    var d2 := Domains(ls2, netloc);
    if d1.None? || d2.None? {
      return 0.0;
    }
    if |ls1| == 0 || |ls2| == 0 {
      return 0.0;
    }
    var ds1, ds2 := d1.value, d2.value;
    var unit := 1.0 / |ls1| as real;
    score := 0.0;
    for i := 0 to |ls1|
      invariant score == LinkSum(ls1[..i], ds1[..i], ls2, ds2, unit)
    {
      assert ls1[..i + 1][..i] == ls1[..i] && ds1[..i + 1][..i] == ds1[..i];
      if ls1[i] in ls2 {
        score := score + unit;
      } else if ds1[i] in ds2 {
        score := score + unit / 3.0;
      }
    }
    assert ls1[..|ls1|] == ls1 && ds1[..|ds1|] == ds1;
  }

  /** The running score never exceeds one unit per link, and reaches it exactly when every link is an exact hit. */
  lemma {:induction false} LinkSumBounds(ls1: seq<string>, ds1: seq<string>, ls2: seq<string>, ds2: seq<string>, unit: real)
    requires |ds1| == |ls1| && unit > 0.0
    ensures 0.0 <= LinkSum(ls1, ds1, ls2, ds2, unit) <= Units(|ls1|, unit)
    ensures LinkSum(ls1, ds1, ls2, ds2, unit) == Units(|ls1|, unit) <==> forall l :: l in ls1 ==> l in ls2
  {
    if ls1 != [] {
      var k := |ls1| - 1;
      LinkSumBounds(ls1[..k], ds1[..k], ls2, ds2, unit);
      assert ls1 == ls1[..k] + [ls1[k]];
    }
  }

  /** Both link lists are non-empty and every URL parses. */
  predicate Scorable(ls1: seq<string>, ls2: seq<string>, netloc: string -> Option<string>)
  {
    ls1 != [] && ls2 != [] && Domains(ls1, netloc).Some? && Domains(ls2, netloc).Some?
  }

  /** The link score lies in [0, 1]; with links on both sides and parsable URLs it is 1 exactly when every link of profile one is a link of profile two. */
  lemma LinkAnalysisRange(content1: seq<Content>, content2: seq<Content>, netloc: string -> Option<string>)
    ensures 0.0 <= LinkAnalysisOf(content1, content2, netloc) <= 1.0
    ensures LinksOf(content1) == [] || LinksOf(content2) == [] ==> LinkAnalysisOf(content1, content2, netloc) == 0.0
    ensures Scorable(LinksOf(content1), LinksOf(content2), netloc) ==>
      (LinkAnalysisOf(content1, content2, netloc) == 1.0 <==> forall l :: l in LinksOf(content1) ==> l in LinksOf(content2))
  {
    var ls1, ls2 := LinksOf(content1), LinksOf(content2);
    if Scorable(ls1, ls2, netloc) {
      LinkScoreRange(ls1, ls2, netloc);
    }
  }

  lemma LinkScoreRange(ls1: seq<string>, ls2: seq<string>, netloc: string -> Option<string>)
    requires Scorable(ls1, ls2, netloc)
    ensures var score := LinkSum(ls1, Domains(ls1, netloc).value, ls2, Domains(ls2, netloc).value, 1.0 / |ls1| as real);
      0.0 <= score <= 1.0 && (score == 1.0 <==> forall l :: l in ls1 ==> l in ls2)
  {
    var unit := 1.0 / |ls1| as real;
    LinkSumBounds(ls1, Domains(ls1, netloc).value, ls2, Domains(ls2, netloc).value, unit);
    UnitsShare(|ls1|, |ls1|);
    Whole(|ls1| as real);
  }

  // ---------------------------------------------------------------------------
  // geographicProfile
  // ---------------------------------------------------------------------------

  /** Locations of s2 near l1. */
  function NearRow(l1: Location, s2: seq<Location>, haversine: (Location, Location) -> bool): (r: nat)
    ensures r <= |s2|
  {
    if s2 == [] then 0
    else NearRow(l1, s2[..|s2| - 1], haversine) + (if Near(l1, s2[|s2| - 1], haversine) then 1 else 0)
  }

  /** Pairs of the product s1 x s2 that are near. */
  function NearPairs(s1: seq<Location>, s2: seq<Location>, haversine: (Location, Location) -> bool): nat
  {
    if s1 == [] then 0 else NearPairs(s1[..|s1| - 1], s2, haversine) + NearRow(s1[|s1| - 1], s2, haversine)
  }

  /** geographicProfile: 0 unless both sets hold at least two locations, else the share of near pairs. */
  function GeographyOf(s1: seq<Location>, s2: seq<Location>, haversine: (Location, Location) -> bool): real
  {
    if |s1| < 2 || |s2| < 2 then 0.0
    else NearPairs(s1, s2, haversine) as real / (|s1| * |s2|) as real
  }

  method GeographicProfile(p1: Profile, p2: Profile, haversine: (Location, Location) -> bool) returns (score: real)
    ensures score == GeographyOf(p1.locationSet, p2.locationSet, haversine)
  {
    var s1, s2 := p1.locationSet, p2.locationSet;
    score := 0.0;
    if |s1| < 2 || |s2| < 2 {
      return 0.0;
    }
    var unit := 1.0 / (|s1| * |s2|) as real;
    for i := 0 to |s1|
      invariant score == Units(NearPairs(s1[..i], s2, haversine), unit)
    {
      assert s1[..i + 1][..i] == s1[..i];
      ghost var before := NearPairs(s1[..i], s2, haversine);
      for j := 0 to |s2|
        invariant score == Units(before + NearRow(s1[i], s2[..j], haversine), unit)
      {
        assert s2[..j + 1][..j] == s2[..j];
        if Near(s1[i], s2[j], haversine) {
          score := score + unit;
        }
      }
      assert s2[..|s2|] == s2;
    }
    assert s1[..|s1|] == s1;
    UnitsShare(NearPairs(s1, s2, haversine), |s1| * |s2|);
  }

  lemma {:induction false} NearPairsBound(s1: seq<Location>, s2: seq<Location>, haversine: (Location, Location) -> bool)
    ensures NearPairs(s1, s2, haversine) <= |s1| * |s2|
  {
    if s1 != [] {
      NearPairsBound(s1[..|s1| - 1], s2, haversine);
      MulStep(|s1| - 1, |s2|);
    }
  }

  /** The geography score lies in [0, 1]. */
  lemma GeographyRange(s1: seq<Location>, s2: seq<Location>, haversine: (Location, Location) -> bool)
    ensures 0.0 <= GeographyOf(s1, s2, haversine) <= 1.0
  {
    if |s1| >= 2 && |s2| >= 2 {
      NearPairsBound(s1, s2, haversine);
      Share(NearPairs(s1, s2, haversine) as real, (|s1| * |s2|) as real);
    }
  }

  // ---------------------------------------------------------------------------
  // friendsComparison
  // ---------------------------------------------------------------------------

  /** `interacted + followers + followed_by + grouped` */
  function Friends(p: Profile): seq<Profile>
  {
    p.interacted + p.followers + p.followedBy + p.grouped
  }

  /** Two profiles a Python set treats as one: equal uid (`__eq__`) and equal network and uid (`__hash__`). */
  predicate SameProfile(a: Profile, b: Profile)
  {
    a.network == b.network && a.uid == b.uid
  }

  predicate Represented(fs: seq<Profile>, f: Profile)
  {
    exists k :: 0 <= k < |fs| && SameProfile(fs[k], f)
  }

  /** `list(set(fs))`: the first profile of each (network, uid) class. */
  function Dedup(fs: seq<Profile>): (r: seq<Profile>)
    ensures |r| <= |fs|
  {
    if fs == [] then []
    else
      var r := Dedup(fs[..|fs| - 1]);
      if Represented(r, fs[|fs| - 1]) then r else r + [fs[|fs| - 1]]
  }

  /** The deduplicated list draws from fs, holds no two profiles of one class, and represents every profile of fs. */
  lemma {:induction false} DedupProperties(fs: seq<Profile>)
    ensures forall f :: f in Dedup(fs) ==> f in fs
    ensures forall x, y :: 0 <= x < y < |Dedup(fs)| ==> !SameProfile(Dedup(fs)[x], Dedup(fs)[y])
    ensures forall f :: f in fs ==> Represented(Dedup(fs), f)
  {
    if fs != [] {
      var init := fs[..|fs| - 1];
      var f := fs[|fs| - 1];
      var r := Dedup(init);
      DedupProperties(init);
      assert fs == init + [f];
      if !Represented(r, f) {
        var r' := r + [f];
        forall g | g in fs ensures Represented(r', g) {
          if g in init {
            var k :| 0 <= k < |r| && SameProfile(r[k], g);
            assert r'[k] == r[k];
          } else {
            assert r'[|r|] == f;
          }
        }
      }
    }
  }

  /** Friends of profile two whose best name is close (ratio above 0.8) to f1's. */
  function CloseRow(f1: Profile, fs2: seq<Profile>): (r: nat)
    ensures r <= |fs2|
  {
    if fs2 == [] then 0
    else CloseRow(f1, fs2[..|fs2| - 1]) + (if BestNameDiffOf(f1.names, fs2[|fs2| - 1].names) > 0.8 then 1 else 0)
  }

  /** Close pairs of the product fs1 x fs2. */
  function ClosePairs(fs1: seq<Profile>, fs2: seq<Profile>): nat
  {
    if fs1 == [] then 0 else ClosePairs(fs1[..|fs1| - 1], fs2) + CloseRow(fs1[|fs1| - 1], fs2)
  }

  /** friendsComparison: 0 unless both deduplicated friend lists hold two profiles; else close pairs over the shorter length, capped at 1. */
  function FriendsOf(p1: Profile, p2: Profile): real
  {
    var fs1 := Dedup(Friends(p1));
    var fs2 := Dedup(Friends(p2));
    if |fs1| < 2 || |fs2| < 2 then 0.0
    else
      var friendmax := if |fs1| <= |fs2| then |fs1| else |fs2|;
      var friendcount := ClosePairs(fs1, fs2);
      if friendcount > friendmax then 1.0 else friendcount as real / friendmax as real
  }

  /** friendsComparison's inner loop for one friend f1 of profile one. */
  method CountClose(f1: Profile, fs2: seq<Profile>) returns (count: nat)
    ensures count == CloseRow(f1, fs2)
  {
    count := 0;
    for j := 0 to |fs2|
      invariant count == CloseRow(f1, fs2[..j])
    {
      assert fs2[..j + 1][..j] == fs2[..j];
      var bdiff := BestNameDiffOf(f1.names, fs2[j].names);
      if bdiff > 0.8 {
        count := count + 1;
      }
    }
    assert fs2[..|fs2|] == fs2;
  }

  method FriendsComparison(p1: Profile, p2: Profile) returns (score: real)
    ensures score == FriendsOf(p1, p2)
  {
    var fs1 := Dedup(Friends(p1));
    var fs2 := Dedup(Friends(p2));
    if |fs1| < 2 || |fs2| < 2 {
      return 0.0;
    }
    var friendcount := 0;
    for i := 0 to |fs1|
      invariant friendcount == ClosePairs(fs1[..i], fs2)
    {
      assert fs1[..i + 1][..i] == fs1[..i];
      var close := CountClose(fs1[i], fs2);
      friendcount := friendcount + close;
    }
    assert fs1[..|fs1|] == fs1;
    var friendmax := if |fs1| <= |fs2| then |fs1| else |fs2|;
    if friendcount > friendmax {
      return 1.0;
    }
    return friendcount as real / friendmax as real;
  }

  /** The friends score lies in [0, 1], and is 0 when either side has fewer than two distinct friends. */
  lemma FriendsRange(p1: Profile, p2: Profile)
    ensures 0.0 <= FriendsOf(p1, p2) <= 1.0
    ensures |Dedup(Friends(p1))| < 2 || |Dedup(Friends(p2))| < 2 ==> FriendsOf(p1, p2) == 0.0
  {
    var fs1 := Dedup(Friends(p1));
    var fs2 := Dedup(Friends(p2));
    if |fs1| >= 2 && |fs2| >= 2 {
      var friendmax := if |fs1| <= |fs2| then |fs1| else |fs2|;
      var friendcount := ClosePairs(fs1, fs2);
      if friendcount <= friendmax {
        Share(friendcount as real, friendmax as real);
      }
    }
  }

  // ---------------------------------------------------------------------------
  // areEquivalent and the row
  // ---------------------------------------------------------------------------

  /**
   * The parts of a comparison the model takes as given: the avatar and the
   * stylometric comparators, the haversine test of near, and urlparse's netloc
   * (None where urlparse raises).
   */
  datatype Leaves = Leaves(avatar: (Profile, Profile) -> real, stylometry: (Profile, Profile) -> real,
                           haversine: (Location, Location) -> bool, netloc: string -> Option<string>)

  /**
   * stylometricComparison raises before it compares anything when either
   * profile's getWritingStyle divides by a zero token total (TEXT items, but
   * no tokens in any of them).
   */
  predicate StyleFails(p1: Profile, p2: Profile)
  {
    WritingStyleOf(p1.content).ZeroTokens? || WritingStyleOf(p2.content).ZeroTokens?
  }

  /**
   * areEquivalent: the eight scores in its fixed order. A ZeroDivisionError
   * propagates from sameNames (the first comparator) or from the writing
   * styles stylometricComparison asks for; no comparator in between raises.
   */
  function ScoresOf(p1: Profile, p2: Profile, leaves: Leaves): (r: Outcome<seq<real>>)
    ensures r.Done? ==> |r.value| == 8
    ensures r.ZeroDivision? <==> SameNamesOf(p1.names, p2.names).ZeroDivision? || StyleFails(p1, p2)
  {
    match SameNamesOf(p1.names, p2.names)
    case ZeroDivision => ZeroDivision
    case Done(exact) =>
      if StyleFails(p1, p2) then ZeroDivision
      else
        Done([exact,
              BestNameDiffOf(p1.names, p2.names),
              TimeComparisonOf(p1.activityHours, p2.activityHours),
              leaves.avatar(p1, p2),
              FriendsOf(p1, p2),
              LinkAnalysisOf(p1.content, p2.content, leaves.netloc),
              leaves.stylometry(p1, p2),
              GeographyOf(p1.locationSet, p2.locationSet, leaves.haversine)])
  }

  method AreEquivalent(p1: Profile, p2: Profile, leaves: Leaves) returns (r: Outcome<seq<real>>)
    ensures r == ScoresOf(p1, p2, leaves)
  {
    var exactNameWeight := SameNames(p1, p2);
    if exactNameWeight.ZeroDivision? {
      return ZeroDivision;
    }
    var bestNameWeight := BestNameDiffOf(p1.names, p2.names);
    var timeWeight := TimeComparison(p1, p2);
    var avatarWeight := leaves.avatar(p1, p2);
    var friendsWeight := FriendsComparison(p1, p2);
    var linkWeight := LinkAnalysis(p1, p2, leaves.netloc);
    var style1 := ComputeWritingStyle(p1.content);
    var style2 := ComputeWritingStyle(p2.content);
    if style1.ZeroTokens? || style2.ZeroTokens? {
      return ZeroDivision;
    }
    var stylometricWeight := leaves.stylometry(p1, p2);
    var geographyWeight := GeographicProfile(p1, p2, leaves.haversine);
    return Done([exactNameWeight.value, bestNameWeight, timeWeight, avatarWeight,
                 friendsWeight, linkWeight, stylometricWeight, geographyWeight]);
  }

  /**
   * One line of the predictions file, columns in header order: exactnames,
   * bestname, timeactivity, avatars, friends, linkactivity, stylometry,
   * geography, origin.id, target.id, origin.network, target.network, outcome.
   */
  datatype Row = Row(exactNames: real, bestName: real, timeActivity: real, avatars: real, friends: real,
                     linkActivity: real, stylometry: real, geography: real,
                     originId: nat, targetId: nat, originNetwork: string, targetNetwork: string, outcome: nat)

  /** The row for a pair whose rids are ra and rb: the scores, both rids, both networks, and 1 or 0 from is_match. */
  function RowOf(a: Profile, b: Profile, ra: nat, rb: nat, g: Ledger.Graph, leaves: Leaves): Outcome<Row>
  {
    match ScoresOf(a, b, leaves)
    case ZeroDivision => ZeroDivision
    case Done(s) =>
      Done(Row(s[0], s[1], s[2], s[3], s[4], s[5], s[6], s[7],
               ra, rb, a.network, b.network, if Ledger.IsMatch(g, ra, rb) then 1 else 0))
  }

  /** A row's comparator columns are in [0, 1] (exactnames only when b's names are distinct), and outcome is is_match as 0/1. */
  lemma RowColumns(a: Profile, b: Profile, ra: nat, rb: nat, g: Ledger.Graph, leaves: Leaves)
    requires RowOf(a, b, ra, rb, g, leaves).Done?
    ensures var row := RowOf(a, b, ra, rb, g, leaves).value;
      && (Distinct(b.names) ==> 0.0 <= row.exactNames <= 1.0)
      && 0.0 <= row.bestName <= 1.0 && 0.0 <= row.timeActivity <= 1.0 && 0.0 <= row.friends <= 1.0
      && 0.0 <= row.linkActivity <= 1.0 && 0.0 <= row.geography <= 1.0
      && row.avatars == leaves.avatar(a, b) && row.stylometry == leaves.stylometry(a, b)
      && row.originId == ra && row.targetId == rb
      && row.originNetwork == a.network && row.targetNetwork == b.network
      && (row.outcome == 1 <==> Ledger.IsMatch(g, ra, rb)) && row.outcome <= 1
  {
    if Distinct(b.names) {
      SameNamesBounded(a.names, b.names);
    }
    BestNameDiffRange(a.names, b.names);
    TimeComparisonRange(a.activityHours, b.activityHours);
    FriendsRange(a, b);
    LinkAnalysisRange(a.content, b.content, leaves.netloc);
    GeographyRange(a.locationSet, b.locationSet, leaves.haversine);
  }

  // ---------------------------------------------------------------------------
  // resolve
  // ---------------------------------------------------------------------------

  /** resolve compares a pair only when the first is a Google+ profile, the second is from another network, and both have a truthy best name. */
  predicate Eligible(a: Profile, b: Profile)
  {
    a.network == "Google+" && a.network != b.network && Truthy(BestNameOf(a.names)) && Truthy(BestNameOf(b.names))
  }

  /** What resolve does with one pair: nothing for an ineligible pair, else its row or the comparison's failure. */
  function PairOutcome(a: Profile, b: Profile, ra: nat, rb: nat, g: Ledger.Graph, leaves: Leaves): Outcome<Option<Row>>
  {
    if !Eligible(a, b) then Done(None)
    else match RowOf(a, b, ra, rb, g, leaves)
      case ZeroDivision => ZeroDivision
      case Done(row) => Done(Some(row))
  }

  /** The rids of a block, read from its profiles. */
  function Rids(ps: seq<Profile>): (r: seq<nat>)
    reads ps
    ensures |r| == |ps| && forall k :: 0 <= k < |ps| ==> r[k] == ps[k].rid
  {
    if ps == [] then [] else Rids(ps[..|ps| - 1]) + [ps[|ps| - 1].rid]
  }

  /** The comparison resolve applies to each pair of profiles and their rids. */
  function Visitor(g: Ledger.Graph, leaves: Leaves): (Profile, Profile, nat, nat) -> Outcome<Option<Row>>
  {
    (a: Profile, b: Profile, ra: nat, rb: nat) => PairOutcome(a, b, ra, rb, g, leaves)
  }

  /** The pairs (i, i + 1), ..., (i, j - 1). */
  function Lead(i: nat, j: nat): seq<(nat, nat)>
  {
    if j <= i + 1 then [] else Lead(i, j - 1) + [(i, j - 1)]
  }

  /** itertools.combinations(range(n), 2) for first indices below m, in its order. */
  function Combos(m: nat, n: nat): seq<(nat, nat)>
  {
    if m == 0 then [] else Combos(m - 1, n) + Lead(m - 1, n)
  }

  lemma {:induction false} LeadMembers(i: nat, j: nat)
    ensures forall x :: x in Lead(i, j) <==> x.0 == i && i < x.1 < j
  {
    if j > i + 1 {
      LeadMembers(i, j - 1);
      forall x ensures x in Lead(i, j) <==> x in Lead(i, j - 1) || x == (i, j - 1) {
      }
    }
  }

  /** The combinations are exactly the pairs a < b < n with a below m. */
  lemma {:induction false} CombosMembers(m: nat, n: nat)
    ensures forall x :: x in Combos(m, n) <==> x.0 < m && x.0 < x.1 < n
  {
    if m > 0 {
      CombosMembers(m - 1, n);
      LeadMembers(m - 1, n);
      forall x ensures x in Combos(m, n) <==> x in Combos(m - 1, n) || x in Lead(m - 1, n) {
      }
    }
  }

  /**
   * The rows `visit` yields for `pairs` of profiles in ps, in order; the first
   * failing comparison aborts the whole run. (A pair outside the block is
   * passed over; the combinations never hold one, by CombosMembers.)
   */
  function Emit(ps: seq<Profile>, rids: seq<nat>, pairs: seq<(nat, nat)>,
                visit: (Profile, Profile, nat, nat) -> Outcome<Option<Row>>): Outcome<seq<Row>>
  {
    if pairs == [] then Done([])
    else
      var x := pairs[|pairs| - 1];
      match Emit(ps, rids, pairs[..|pairs| - 1], visit)
      case ZeroDivision => ZeroDivision
      case Done(rows) =>
        if !(x.0 < |ps| && x.1 < |ps| && |rids| == |ps|) then Done(rows)
        else match visit(ps[x.0], ps[x.1], rids[x.0], rids[x.1])
          case ZeroDivision => ZeroDivision
          case Done(None) => Done(rows)
          case Done(Some(row)) => Done(rows + [row])
  }

  /** What resolve returns for a block. */
  function ResolveOf(ps: seq<Profile>, g: Ledger.Graph, leaves: Leaves): Outcome<seq<Row>>
    reads ps
  {
    Emit(ps, Rids(ps), Combos(|ps|, |ps|), Visitor(g, leaves))
  }

  /** The body of resolve's inner loop for one pair. */
  method ComparePair(pone: Profile, ptwo: Profile, g: Ledger.Graph, leaves: Leaves) returns (r: Outcome<Option<Row>>)
    ensures r == PairOutcome(pone, ptwo, pone.rid, ptwo.rid, g, leaves)
  {
    if pone.network != "Google+" || pone.network == ptwo.network {
      return Done(None);
    }
    if !Truthy(BestNameOf(pone.names)) || !Truthy(BestNameOf(ptwo.names)) {
      return Done(None);
    }
    var scores := AreEquivalent(pone, ptwo, leaves);
    if scores.ZeroDivision? {
      return ZeroDivision;
    }
    var s := scores.value;
    var outcome := if Ledger.IsMatch(g, pone.rid, ptwo.rid) then 1 else 0;
    return Done(Some(Row(s[0], s[1], s[2], s[3], s[4], s[5], s[6], s[7],
                         pone.rid, ptwo.rid, pone.network, ptwo.network, outcome)));
  }

  /** Once the emission fails, it stays failed however many pairs follow. */
  lemma {:induction false} EmitFailsOn(ps: seq<Profile>, rids: seq<nat>, visited: seq<(nat, nat)>, more: seq<(nat, nat)>,
                                       whole: seq<(nat, nat)>, visit: (Profile, Profile, nat, nat) -> Outcome<Option<Row>>)
    requires whole == visited + more
    requires Emit(ps, rids, visited, visit).ZeroDivision?
    ensures Emit(ps, rids, whole, visit).ZeroDivision?
    decreases |more|
  {
    if more == [] {
      assert whole == visited;
    } else {
      var init := more[..|more| - 1];
      assert whole[..|whole| - 1] == visited + init;
      EmitFailsOn(ps, rids, visited, init, visited + init, visit);
    }
  }

  /** A failure among the pairs of first index below i persists through all later first indices. */
  lemma {:induction false} CombosFail(ps: seq<Profile>, rids: seq<nat>, i: nat, m: nat,
                                      visit: (Profile, Profile, nat, nat) -> Outcome<Option<Row>>)
    requires i <= m <= |ps|
    requires Emit(ps, rids, Combos(i, |ps|), visit).ZeroDivision?
    ensures Emit(ps, rids, Combos(m, |ps|), visit).ZeroDivision?
    decreases m
  {
    if m > i {
      var k := m - 1;
      CombosFail(ps, rids, i, k, visit);
      assert Combos(m, |ps|) == Combos(k, |ps|) + Lead(k, |ps|);
      EmitFailsOn(ps, rids, Combos(k, |ps|), Lead(k, |ps|), Combos(m, |ps|), visit);
    }
  }

  /** A failure within the pairs of first index i persists to the end of that index's pairs. */
  lemma {:induction false} LeadFail(ps: seq<Profile>, rids: seq<nat>, i: nat, j: nat, m: nat,
                                    visit: (Profile, Profile, nat, nat) -> Outcome<Option<Row>>)
    requires i < j <= m
    requires Emit(ps, rids, Combos(i, |ps|) + Lead(i, j), visit).ZeroDivision?
    ensures Emit(ps, rids, Combos(i, |ps|) + Lead(i, m), visit).ZeroDivision?
    decreases m
  {
    if m > j {
      LeadFail(ps, rids, i, j, m - 1, visit);
      var before := Combos(i, |ps|) + Lead(i, m - 1);
      assert Combos(i, |ps|) + Lead(i, m) == before + [(i, m - 1)];
      EmitFailsOn(ps, rids, before, [(i, m - 1)], Combos(i, |ps|) + Lead(i, m), visit);
    }
  }

  /** A failure on the pair before (i, j) fails the whole of resolve. */
  lemma ResolveFailsAt(ps: seq<Profile>, rids: seq<nat>, i: nat, j: nat,
                       visit: (Profile, Profile, nat, nat) -> Outcome<Option<Row>>)
    requires i < j <= |ps|
    requires Emit(ps, rids, Combos(i, |ps|) + Lead(i, j), visit).ZeroDivision?
    ensures Emit(ps, rids, Combos(|ps|, |ps|), visit).ZeroDivision?
  {
    LeadFail(ps, rids, i, j, |ps|, visit);
    LeadEnds(i, |ps|);
    CombosFail(ps, rids, i + 1, |ps|, visit);
  }



  /** The visitor applied to two profiles of the block and their rids is PairOutcome on them. */
  lemma VisitorAt(ps: seq<Profile>, g: Ledger.Graph, leaves: Leaves, i: nat, j: nat)
    requires i < |ps| && j < |ps|
    ensures Visitor(g, leaves)(ps[i], ps[j], Rids(ps)[i], Rids(ps)[j]) == PairOutcome(ps[i], ps[j], ps[i].rid, ps[j].rid, g, leaves)
  {
  }

  /** The rows after the pairs of first index below i and the pairs (i, i + 1), ..., (i, j - 1). */
  predicate LeadDone(ps: seq<Profile>, rids: seq<nat>, i: nat, j: nat,
                     visit: (Profile, Profile, nat, nat) -> Outcome<Option<Row>>, rows: seq<Row>)
  {
    Emit(ps, rids, Combos(i, |ps|) + Lead(i, j), visit) == Done(rows)
  }

  /** A failing visit of the pair (i, j) fails the emission of the pairs up to it. */
  lemma EmitStepFails(ps: seq<Profile>, rids: seq<nat>, i: nat, j: nat, rows: seq<Row>,
                      visit: (Profile, Profile, nat, nat) -> Outcome<Option<Row>>)
    requires |rids| == |ps| && i < j < |ps| && LeadDone(ps, rids, i, j, visit, rows)
    requires visit(ps[i], ps[j], rids[i], rids[j]).ZeroDivision?
    ensures Emit(ps, rids, Combos(i, |ps|) + Lead(i, j + 1), visit).ZeroDivision?
  {
    var visited := Combos(i, |ps|) + Lead(i, j);
    assert visited + [(i, j)] == Combos(i, |ps|) + Lead(i, j + 1);
    assert (visited + [(i, j)])[..|visited|] == visited;
  }

  /** A successful visit of the pair (i, j) appends its row, if any, to the rows before it. */
  lemma EmitStepDone(ps: seq<Profile>, rids: seq<nat>, i: nat, j: nat, rows: seq<Row>,
                     visit: (Profile, Profile, nat, nat) -> Outcome<Option<Row>>, found: Option<Row>)
    requires |rids| == |ps| && i < j < |ps| && LeadDone(ps, rids, i, j, visit, rows)
    requires visit(ps[i], ps[j], rids[i], rids[j]) == Done(found)
    ensures LeadDone(ps, rids, i, j + 1, visit, if found.Some? then rows + [found.value] else rows)
  {
    var visited := Combos(i, |ps|) + Lead(i, j);
    assert visited + [(i, j)] == Combos(i, |ps|) + Lead(i, j + 1);
    assert (visited + [(i, j)])[..|visited|] == visited;
  }

  /** One pass of resolve's inner loop, over the pair (i, j). */
  method LeadStep(ps: seq<Profile>, rids: seq<nat>, i: nat, j: nat, rows: seq<Row>,
                  visit: (Profile, Profile, nat, nat) -> Outcome<Option<Row>>)
      returns (r: Outcome<seq<Row>>)
    requires |rids| == |ps| && i < j < |ps| && LeadDone(ps, rids, i, j, visit, rows)
    ensures r.ZeroDivision? ==> Emit(ps, rids, Combos(|ps|, |ps|), visit).ZeroDivision?
    ensures r.Done? ==> LeadDone(ps, rids, i, j + 1, visit, r.value)
  {
    var found := visit(ps[i], ps[j], rids[i], rids[j]);
    match found
    case ZeroDivision =>
      EmitStepFails(ps, rids, i, j, rows, visit);
      ResolveFailsAt(ps, rids, i, j + 1, visit);
      r := ZeroDivision;
    case Done(row) =>
      EmitStepDone(ps, rids, i, j, rows, visit, row);
      r := Done(if row.Some? then rows + [row.value] else rows);
  }

  /** The inner loop starts from the earlier first indices and ends at the next one. */
  lemma LeadEnds(i: nat, n: nat)
    ensures Combos(i, n) + Lead(i, i + 1) == Combos(i, n)
    ensures Combos(i + 1, n) == Combos(i, n) + Lead(i, n)
  {
    assert Lead(i, i + 1) == [];
  }

  /** Before the inner loop, the rows are those of the earlier first indices. */
  lemma LeadStart(ps: seq<Profile>, rids: seq<nat>, i: nat, visit: (Profile, Profile, nat, nat) -> Outcome<Option<Row>>, rows: seq<Row>)
    requires Emit(ps, rids, Combos(i, |ps|), visit) == Done(rows)
    ensures LeadDone(ps, rids, i, i + 1, visit, rows)
  {
    LeadEnds(i, |ps|);
  }

  /** After the inner loop, the rows are those of the first indices up to i. */
  lemma LeadEnd(ps: seq<Profile>, rids: seq<nat>, i: nat, visit: (Profile, Profile, nat, nat) -> Outcome<Option<Row>>, rows: seq<Row>)
    requires LeadDone(ps, rids, i, |ps|, visit, rows)
    ensures Emit(ps, rids, Combos(i + 1, |ps|), visit) == Done(rows)
  {
    LeadEnds(i, |ps|);
  }

  /** resolve's inner loop: the pairs (i, j) for j above i, after the rows of the earlier first indices. */
  method ResolveLead(ps: seq<Profile>, rids: seq<nat>, i: nat, rows: seq<Row>,
                     visit: (Profile, Profile, nat, nat) -> Outcome<Option<Row>>)
      returns (r: Outcome<seq<Row>>)
    requires |rids| == |ps| && i < |ps| && Emit(ps, rids, Combos(i, |ps|), visit) == Done(rows)
    ensures r.ZeroDivision? ==> Emit(ps, rids, Combos(|ps|, |ps|), visit).ZeroDivision?
    ensures r.Done? ==> Emit(ps, rids, Combos(i + 1, |ps|), visit) == r
  {
    var matches := rows;
    LeadStart(ps, rids, i, visit, rows);
    for j: nat := i + 1 to |ps|
      invariant LeadDone(ps, rids, i, j, visit, matches)
    {
      var step := LeadStep(ps, rids, i, j, matches, visit);
      if step.ZeroDivision? {
        return ZeroDivision;
      }
      matches := step.value;
    }
    LeadEnd(ps, rids, i, visit, matches);
    return Done(matches);
  }

  /** resolve's outer loop over itertools.combinations, visiting each pair with the block's rids. */
  method ResolvePairs(ps: seq<Profile>, rids: seq<nat>, visit: (Profile, Profile, nat, nat) -> Outcome<Option<Row>>)
      returns (r: Outcome<seq<Row>>)
    requires |rids| == |ps|
    ensures r == Emit(ps, rids, Combos(|ps|, |ps|), visit)
  {
    var matches: seq<Row> := [];
    for i: nat := 0 to |ps|
      invariant Emit(ps, rids, Combos(i, |ps|), visit) == Done(matches)
    {
      var step := ResolveLead(ps, rids, i, matches, visit);
      if step.ZeroDivision? {
        return ZeroDivision;
      }
      matches := step.value;
    }
    return Done(matches);
  }

  /** resolve: every combination in order, each pair handled as ComparePair does. */
  method Resolve(ps: seq<Profile>, g: Ledger.Graph, leaves: Leaves) returns (r: Outcome<seq<Row>>)
    ensures r == ResolveOf(ps, g, leaves)
  {
    r := ResolvePairs(ps, Rids(ps), Visitor(g, leaves));
  }

  /** Pair x is inside the block and its visit yields `row`. */
  predicate Yielded(ps: seq<Profile>, rids: seq<nat>, x: (nat, nat),
                    visit: (Profile, Profile, nat, nat) -> Outcome<Option<Row>>, row: Row)
  {
    x.0 < |ps| && x.1 < |ps| && |rids| == |ps| && visit(ps[x.0], ps[x.1], rids[x.0], rids[x.1]) == Done(Some(row))
  }

  /** Pair x is inside the block and its visit fails. */
  predicate Failed(ps: seq<Profile>, rids: seq<nat>, x: (nat, nat),
                   visit: (Profile, Profile, nat, nat) -> Outcome<Option<Row>>)
  {
    x.0 < |ps| && x.1 < |ps| && |rids| == |ps| && visit(ps[x.0], ps[x.1], rids[x.0], rids[x.1]).ZeroDivision?
  }

  /** The emission fails exactly when the visit of some pair inside the block fails. */
  lemma {:induction false} EmitFails(ps: seq<Profile>, rids: seq<nat>, pairs: seq<(nat, nat)>,
                                     visit: (Profile, Profile, nat, nat) -> Outcome<Option<Row>>)
    ensures Emit(ps, rids, pairs, visit).ZeroDivision? <==> exists x :: x in pairs && Failed(ps, rids, x, visit)
  {
    if pairs != [] {
      var init := pairs[..|pairs| - 1];
      var x := pairs[|pairs| - 1];
      EmitFails(ps, rids, init, visit);
      assert pairs == init + [x];
      if Emit(ps, rids, init, visit).ZeroDivision? {
        var y :| y in init && Failed(ps, rids, y, visit);
        assert y in pairs;
      } else if !Failed(ps, rids, x, visit) {
        forall y | y in pairs && Failed(ps, rids, y, visit) ensures y in init {
        }
      }
    }
  }

  /** The emitted rows are exactly the rows the pairs yield, and the emission fails exactly when some pair fails. */
  lemma {:induction false} EmitRows(ps: seq<Profile>, rids: seq<nat>, pairs: seq<(nat, nat)>,
                                    visit: (Profile, Profile, nat, nat) -> Outcome<Option<Row>>)
    ensures Emit(ps, rids, pairs, visit).ZeroDivision? <==> exists x :: x in pairs && Failed(ps, rids, x, visit)
    ensures Emit(ps, rids, pairs, visit).Done? ==>
      (forall x, row :: x in pairs && Yielded(ps, rids, x, visit, row) ==> row in Emit(ps, rids, pairs, visit).value)
    ensures Emit(ps, rids, pairs, visit).Done? ==>
      (forall row :: row in Emit(ps, rids, pairs, visit).value ==> exists x :: x in pairs && Yielded(ps, rids, x, visit, row))
  {
    if pairs != [] {
      var init := pairs[..|pairs| - 1];
      var x := pairs[|pairs| - 1];
      EmitRows(ps, rids, init, visit);
      assert pairs == init + [x];
      forall y | y in pairs ensures y in init || y == x {
      }
      var e := Emit(ps, rids, pairs, visit);
      if Emit(ps, rids, init, visit).ZeroDivision? {
        var y :| y in init && Failed(ps, rids, y, visit);
        assert y in pairs;
      } else if Failed(ps, rids, x, visit) {
        assert e.ZeroDivision?;
      } else {
        var rows := Emit(ps, rids, init, visit).value;
        assert e.Done?;
        assert forall y :: y in pairs && Failed(ps, rids, y, visit) ==> y in init;
        forall row | row in e.value ensures exists y :: y in pairs && Yielded(ps, rids, y, visit, row) {
          if row in rows {
            var y :| y in init && Yielded(ps, rids, y, visit, row);
            assert y in pairs;
          } else {
            assert Yielded(ps, rids, x, visit, row);
          }
        }
      }
    }
  }

  /** The row resolve writes for the pair (i, j) of a block, if the pair is compared. */
  predicate RowFor(ps: seq<Profile>, i: nat, j: nat, g: Ledger.Graph, leaves: Leaves, row: Row)
    reads ps
  {
    i < j < |ps| && Eligible(ps[i], ps[j]) && RowOf(ps[i], ps[j], ps[i].rid, ps[j].rid, g, leaves) == Done(row)
  }

  /** When resolve succeeds, every eligible pair i < j of the block is compared without failing and its row is written. */
  lemma ResolveRowsComplete(ps: seq<Profile>, g: Ledger.Graph, leaves: Leaves)
    requires ResolveOf(ps, g, leaves).Done?
    ensures forall i: nat, j: nat :: i < j < |ps| && Eligible(ps[i], ps[j]) ==>
      RowOf(ps[i], ps[j], ps[i].rid, ps[j].rid, g, leaves).Done? &&
      RowOf(ps[i], ps[j], ps[i].rid, ps[j].rid, g, leaves).value in ResolveOf(ps, g, leaves).value
  {
    var rids, visit, pairs := Rids(ps), Visitor(g, leaves), Combos(|ps|, |ps|);
    EmitRows(ps, rids, pairs, visit);
    CombosMembers(|ps|, |ps|);
    forall i: nat, j: nat | i < j < |ps| && Eligible(ps[i], ps[j])
      ensures RowOf(ps[i], ps[j], ps[i].rid, ps[j].rid, g, leaves).Done?
      ensures RowOf(ps[i], ps[j], ps[i].rid, ps[j].rid, g, leaves).value in ResolveOf(ps, g, leaves).value
    {
      VisitorAt(ps, g, leaves, i, j);
      assert (i, j) in pairs && !Failed(ps, rids, (i, j), visit);
      assert Yielded(ps, rids, (i, j), visit, RowOf(ps[i], ps[j], ps[i].rid, ps[j].rid, g, leaves).value);
    }
  }

  /** Every row resolve writes is the row of some eligible pair i < j of the block. */
  lemma ResolveRowsSound(ps: seq<Profile>, g: Ledger.Graph, leaves: Leaves)
    requires ResolveOf(ps, g, leaves).Done?
    ensures forall row :: row in ResolveOf(ps, g, leaves).value ==> exists i: nat, j: nat :: RowFor(ps, i, j, g, leaves, row)
  {
    var rids, visit, pairs := Rids(ps), Visitor(g, leaves), Combos(|ps|, |ps|);
    EmitRows(ps, rids, pairs, visit);
    CombosMembers(|ps|, |ps|);
    forall row | row in ResolveOf(ps, g, leaves).value ensures exists i: nat, j: nat :: RowFor(ps, i, j, g, leaves, row) {
      var x :| x in pairs && Yielded(ps, rids, x, visit, row);
      VisitorAt(ps, g, leaves, x.0, x.1);
      assert RowFor(ps, x.0, x.1, g, leaves, row);
    }
  }

  /** areEquivalent raises on the pair: sameNames divides by zero, or a writing style does. */
  predicate PairRaises(a: Profile, b: Profile)
  {
    SameNamesOf(a.names, b.names).ZeroDivision? || StyleFails(a, b)
  }

  /** A failing resolve has an eligible pair on which areEquivalent raises. */
  lemma ResolveFailsWitness(ps: seq<Profile>, g: Ledger.Graph, leaves: Leaves)
    requires ResolveOf(ps, g, leaves).ZeroDivision?
    ensures exists i: nat, j: nat :: i < j < |ps| && Eligible(ps[i], ps[j]) && PairRaises(ps[i], ps[j])
  {
    var rids, visit, pairs := Rids(ps), Visitor(g, leaves), Combos(|ps|, |ps|);
    EmitFails(ps, rids, pairs, visit);
    CombosMembers(|ps|, |ps|);
    var x :| x in pairs && Failed(ps, rids, x, visit);
    VisitorAt(ps, g, leaves, x.0, x.1);
    assert x.0 < x.1 < |ps| && Eligible(ps[x.0], ps[x.1]);
  }

  /** An eligible pair i < j on which areEquivalent raises makes resolve fail. */
  lemma ResolveFailsOn(ps: seq<Profile>, g: Ledger.Graph, leaves: Leaves, i: nat, j: nat)
    requires i < j < |ps| && Eligible(ps[i], ps[j]) && PairRaises(ps[i], ps[j])
    ensures ResolveOf(ps, g, leaves).ZeroDivision?
  {
    var rids, visit, pairs := Rids(ps), Visitor(g, leaves), Combos(|ps|, |ps|);
    EmitFails(ps, rids, pairs, visit);
    CombosMembers(|ps|, |ps|);
    VisitorAt(ps, g, leaves, i, j);
    assert (i, j) in pairs && Failed(ps, rids, (i, j), visit);
  }

  /** resolve raises exactly when areEquivalent raises on some eligible pair i < j. */
  lemma ResolveFails(ps: seq<Profile>, g: Ledger.Graph, leaves: Leaves)
    ensures ResolveOf(ps, g, leaves).ZeroDivision? <==>
      exists i: nat, j: nat :: i < j < |ps| && Eligible(ps[i], ps[j]) && PairRaises(ps[i], ps[j])
  {
    if ResolveOf(ps, g, leaves).ZeroDivision? {
      ResolveFailsWitness(ps, g, leaves);
    }
    if i: nat, j: nat :| i < j < |ps| && Eligible(ps[i], ps[j]) && PairRaises(ps[i], ps[j]) {
      ResolveFailsOn(ps, g, leaves, i, j);
    }
  }

  // ---------------------------------------------------------------------------
  // Blocking and the predictions driver
  // ---------------------------------------------------------------------------

  /** The block of a record's profile: the best name of a Google+ profile, else the record's search term. */
  function BlockKey(r: Ledger.Record, p: Profile): Option<string>
  {
    if r.network == "Google+" then BestNameOf(p.names) else Some(r.searchTerm)
  }

  /** Record i has a profile file, and that profile falls in block k. */
  predicate InBlock(records: seq<Ledger.Record>, loaded: map<nat, Profile>, i: int, k: Option<string>)
  {
    0 <= i < |records| && records[i].uid in loaded && BlockKey(records[i], loaded[records[i].uid]) == k
  }

  /** The blocks after the records, in record order. */
  function Blocks(records: seq<Ledger.Record>, loaded: map<nat, Profile>): map<Option<string>, seq<Profile>>
  {
    if records == [] then map[]
    else
      var b := Blocks(records[..|records| - 1], loaded);
      var r := records[|records| - 1];
      if r.uid !in loaded then b
      else
        var bid := BlockKey(r, loaded[r.uid]);
        if bid in b then b[bid := b[bid] + [loaded[r.uid]]] else b[bid := [loaded[r.uid]]]
  }

  /** The good bids after the records: the blocks of matched records, each once, in first-seen order. */
  function GoodBids(records: seq<Ledger.Record>, loaded: map<nat, Profile>, g: Ledger.Graph): seq<Option<string>>
  {
    if records == [] then []
    else
      var good := GoodBids(records[..|records| - 1], loaded, g);
      var r := records[|records| - 1];
      if r.uid in loaded && Ledger.Matched(g, r.uid) && BlockKey(r, loaded[r.uid]) !in good
      then good + [BlockKey(r, loaded[r.uid])]
      else good
  }

  /** The records before the last fall in the same blocks as in the whole sequence. */
  lemma InBlockInit(records: seq<Ledger.Record>, loaded: map<nat, Profile>)
    requires records != []
    ensures forall i, k :: InBlock(records, loaded, i, k) <==>
      InBlock(records[..|records| - 1], loaded, i, k) || (i == |records| - 1 && InBlock(records, loaded, i, k))
  {
    var init := records[..|records| - 1];
    forall i | 0 <= i < |init| ensures records[i] == init[i] {
    }
  }

  /** There is a block k exactly when some record's loaded profile falls in it. */
  lemma {:induction false} BlockKeys(records: seq<Ledger.Record>, loaded: map<nat, Profile>)
    ensures forall k :: k in Blocks(records, loaded) <==> exists i :: InBlock(records, loaded, i, k)
  {
    if records != [] {
      var init := records[..|records| - 1];
      var n := |records| - 1;
      var b, bs := Blocks(init, loaded), Blocks(records, loaded);
      BlockKeys(init, loaded);
      InBlockInit(records, loaded);
      forall k ensures k in bs <==> exists i :: InBlock(records, loaded, i, k) {
        if k in bs {
          if k in b {
            var i :| InBlock(init, loaded, i, k);
            assert InBlock(records, loaded, i, k);
          } else {
            assert InBlock(records, loaded, n, k);
          }
        }
        if i :| InBlock(records, loaded, i, k) {
          if i < n {
            assert InBlock(init, loaded, i, k);
          }
        }
      }
    }
  }

  /** Block k holds p exactly when p is the loaded profile of a record falling in block k. */
  lemma {:induction false} BlockContents(records: seq<Ledger.Record>, loaded: map<nat, Profile>)
    ensures forall k, p :: k in Blocks(records, loaded) && p in Blocks(records, loaded)[k] <==>
      exists i :: InBlock(records, loaded, i, k) && p == loaded[records[i].uid]
  {
    if records != [] {
      var init := records[..|records| - 1];
      var n := |records| - 1;
      var b, bs := Blocks(init, loaded), Blocks(records, loaded);
      BlockContents(init, loaded);
      BlockKeys(init, loaded);
      InBlockInit(records, loaded);
      forall k, p ensures k in bs && p in bs[k] <==> exists i :: InBlock(records, loaded, i, k) && p == loaded[records[i].uid] {
        if k in bs && p in bs[k] {
          if k in b && p in b[k] {
            var i :| InBlock(init, loaded, i, k) && p == loaded[init[i].uid];
            assert InBlock(records, loaded, i, k) && p == loaded[records[i].uid];
          } else {
            assert InBlock(records, loaded, n, k) && p == loaded[records[n].uid];
          }
        }
        if i :| InBlock(records, loaded, i, k) && p == loaded[records[i].uid] {
          if i < n {
            assert InBlock(init, loaded, i, k) && p == loaded[init[i].uid];
            assert k in b && p in b[k];
          }
        }
      }
    } else {
      BlockKeys(records, loaded);
    }
  }

  /** Block k holds exactly the loaded profiles of the records that fall in it. */
  lemma BlocksMembers(records: seq<Ledger.Record>, loaded: map<nat, Profile>)
    ensures forall k :: k in Blocks(records, loaded) <==> exists i :: InBlock(records, loaded, i, k)
    ensures forall k, p :: k in Blocks(records, loaded) && p in Blocks(records, loaded)[k] <==>
      exists i :: InBlock(records, loaded, i, k) && p == loaded[records[i].uid]
  {
    BlockKeys(records, loaded);
    BlockContents(records, loaded);
  }

  /** The good bids are pairwise distinct, and k is one exactly when some matched record with a profile falls in block k. */
  lemma {:induction false} GoodBidsMembers(records: seq<Ledger.Record>, loaded: map<nat, Profile>, g: Ledger.Graph)
    ensures forall x, y :: 0 <= x < y < |GoodBids(records, loaded, g)| ==> GoodBids(records, loaded, g)[x] != GoodBids(records, loaded, g)[y]
    ensures forall k :: k in GoodBids(records, loaded, g) <==>
      exists i :: InBlock(records, loaded, i, k) && Ledger.Matched(g, records[i].uid)
  {
    if records != [] {
      var init := records[..|records| - 1];
      var n := |records| - 1;
      var good, gs := GoodBids(init, loaded, g), GoodBids(records, loaded, g);
      GoodBidsMembers(init, loaded, g);
      InBlockInit(records, loaded);
      var last := records[n];
      if last.uid in loaded && Ledger.Matched(g, last.uid) && BlockKey(last, loaded[last.uid]) !in good {
        assert gs == good + [BlockKey(last, loaded[last.uid])];
        forall x, y | 0 <= x < y < |gs| ensures gs[x] != gs[y] {
          if y == |good| {
            assert gs[x] in good;
          }
        }
      } else {
        assert gs == good;
      }
      forall k ensures k in gs <==> exists i :: InBlock(records, loaded, i, k) && Ledger.Matched(g, records[i].uid) {
        if k in gs {
          if k in good {
            var i :| InBlock(init, loaded, i, k) && Ledger.Matched(g, init[i].uid);
            assert InBlock(records, loaded, i, k) && Ledger.Matched(g, records[i].uid);
          } else {
            assert InBlock(records, loaded, n, k) && Ledger.Matched(g, records[n].uid);
          }
        }
        if i :| InBlock(records, loaded, i, k) && Ledger.Matched(g, records[i].uid) {
          if i < n {
            assert InBlock(init, loaded, i, k) && Ledger.Matched(g, init[i].uid);
          }
        }
      }
    }
  }

  /** Every good bid names a block. */
  lemma GoodBidsInBlocks(records: seq<Ledger.Record>, loaded: map<nat, Profile>, g: Ledger.Graph)
    ensures forall k :: k in GoodBids(records, loaded, g) ==> k in Blocks(records, loaded)
  {
    GoodBidsMembers(records, loaded, g);
    BlocksMembers(records, loaded);
  }

  /** Profile files, keyed by uid, are distinct objects (each comes from its own pickle). */
  predicate Separate(loaded: map<nat, Profile>)
  {
    forall u, v :: u in loaded && v in loaded && u != v ==> loaded[u] != loaded[v]
  }

  /** Extending the records seen by one puts exactly that record's uid on record. */
  lemma OnRecordStep(records: seq<Ledger.Record>, i: nat)
    requires i < |records|
    ensures forall u :: Ledger.OnRecord(records[..i + 1], u) <==> Ledger.OnRecord(records[..i], u) || u == records[i].uid
  {
    forall u ensures Ledger.OnRecord(records[..i + 1], u) <==> Ledger.OnRecord(records[..i], u) || u == records[i].uid {
      if Ledger.OnRecord(records[..i + 1], u) && u != records[i].uid {
        var k :| 0 <= k < i + 1 && records[..i + 1][k].uid == u;
        assert records[..i][k].uid == u;
      }
      if Ledger.OnRecord(records[..i], u) {
        var k :| 0 <= k < i && records[..i][k].uid == u;
        assert records[..i + 1][k].uid == u;
      }
      if u == records[i].uid {
        assert records[..i + 1][i].uid == u;
      }
    }
  }

  /** One pass of the blocking loop, over record i: stamp its profile's rid, then file the profile under its block. */
  method BlockRecord(store: Ledger.ProfileStore, loaded: map<nat, Profile>, i: nat,
                     blocks: map<Option<string>, seq<Profile>>, good: seq<Option<string>>)
      returns (blocks': map<Option<string>, seq<Profile>>, good': seq<Option<string>>)
    requires store.Valid() && Separate(loaded) && i < |store.records|
    requires forall u :: u in loaded ==> loaded[u].MemoValid()
    requires blocks == Blocks(store.records[..i], loaded)
    requires good == GoodBids(store.records[..i], loaded, Ledger.Graph(store.keys, store.matches))
    modifies loaded.Values
    ensures blocks' == Blocks(store.records[..i + 1], loaded)
    ensures good' == GoodBids(store.records[..i + 1], loaded, Ledger.Graph(store.keys, store.matches))
    ensures forall u :: u in loaded ==> loaded[u].MemoValid()
    ensures forall u :: u in loaded ==> loaded[u].rid == if u == store.records[i].uid then u else old(loaded[u].rid)
  {
    var record := store.records[i];
    assert store.records[..i + 1][..i] == store.records[..i];
    blocks', good' := blocks, good;
    if record.uid in loaded {
      var profile := loaded[record.uid];
      profile.rid := record.uid;
      var bid: Option<string>;
      if record.network == "Google+" {
        bid := profile.BestName();
      } else {
        bid := Some(record.searchTerm);
      }
      var matched := store.IsMatched(profile.rid);
      if matched && bid !in good {
        good' := good + [bid];
      }
      if bid in blocks {
        blocks' := blocks[bid := blocks[bid] + [profile]];
      } else {
        blocks' := blocks[bid := [profile]];
      }
    }
  }

  /**
   * The blocking pass over the ledger's records: stamp each loaded profile
   * with its record's uid, put it in its block, and note the block of a
   * matched record as good.
   */
  method Block(store: Ledger.ProfileStore, loaded: map<nat, Profile>) returns (blocks: map<Option<string>, seq<Profile>>, good: seq<Option<string>>)
    requires store.Valid() && Separate(loaded)
    requires forall u :: u in loaded ==> loaded[u].MemoValid()
    modifies loaded.Values
    ensures blocks == Blocks(store.records, loaded)
    ensures good == GoodBids(store.records, loaded, Ledger.Graph(store.keys, store.matches))
    ensures forall u :: u in loaded ==> loaded[u].MemoValid()
    ensures forall u :: u in loaded && Ledger.OnRecord(store.records, u) ==> loaded[u].rid == u
    ensures forall u :: u in loaded && !Ledger.OnRecord(store.records, u) ==> loaded[u].rid == old(loaded[u].rid)
  {
    blocks, good := map[], [];
    for i: nat := 0 to |store.records|
      invariant blocks == Blocks(store.records[..i], loaded)
      invariant good == GoodBids(store.records[..i], loaded, Ledger.Graph(store.keys, store.matches))
      invariant forall u :: u in loaded ==> loaded[u].MemoValid()
      invariant forall u :: u in loaded && Ledger.OnRecord(store.records[..i], u) ==> loaded[u].rid == u
      invariant forall u :: u in loaded && !Ledger.OnRecord(store.records[..i], u) ==> loaded[u].rid == old(loaded[u].rid)
    {
      OnRecordStep(store.records, i);
      blocks, good := BlockRecord(store, loaded, i, blocks, good);
    }
    assert store.records[..|store.records|] == store.records;
  }

  /**
   * The predictions, block by block: resolve on each good bid's block in
   * order, writing its rows before the next block is resolved. The first
   * block whose resolve raises aborts the script: the rows of the blocks
   * before it stay written, and that block writes none (resolve returns its
   * rows only at the end).
   */
  method ResolveBlocks(blocks: map<Option<string>, seq<Profile>>, good: seq<Option<string>>, g: Ledger.Graph, leaves: Leaves)
      returns (written: seq<seq<Row>>, aborted: bool)
    requires forall k :: k in good ==> k in blocks
    ensures |written| <= |good|
    ensures forall x :: 0 <= x < |written| ==> ResolveOf(blocks[good[x]], g, leaves) == Done(written[x])
    ensures !aborted ==> |written| == |good|
    ensures aborted ==> |written| < |good| && ResolveOf(blocks[good[|written|]], g, leaves).ZeroDivision?
  {
    written := [];
    for x := 0 to |good|
      invariant |written| == x
      invariant forall y :: 0 <= y < x ==> ResolveOf(blocks[good[y]], g, leaves) == Done(written[y])
    {
      var simple := Resolve(blocks[good[x]], g, leaves);
      if simple.ZeroDivision? {
        return written, true;
      }
      WrittenNext(blocks, good, g, leaves, written, simple.value);
      written := written + [simple.value];
    }
    aborted := false;
  }

  /** Appending the rows of the next good block keeps the written rows those resolve returned. */
  lemma WrittenNext(blocks: map<Option<string>, seq<Profile>>, good: seq<Option<string>>, g: Ledger.Graph, leaves: Leaves,
                    written: seq<seq<Row>>, rows: seq<Row>)
    requires |written| < |good| && forall k :: k in good ==> k in blocks
    requires forall y :: 0 <= y < |written| ==> ResolveOf(blocks[good[y]], g, leaves) == Done(written[y])
    requires ResolveOf(blocks[good[|written|]], g, leaves) == Done(rows)
    ensures forall y :: 0 <= y < |written| + 1 ==> ResolveOf(blocks[good[y]], g, leaves) == Done((written + [rows])[y])
  {
    var w := written + [rows];
    forall y | 0 <= y < |written| + 1 ensures ResolveOf(blocks[good[y]], g, leaves) == Done(w[y]) {
      if y < |written| {
        assert w[y] == written[y];
      }
    }
  }

  /**
   * The script's top level after loading the ledger: block the records, then
   * resolve the good blocks in order until one raises.
   */
  method Predictions(store: Ledger.ProfileStore, loaded: map<nat, Profile>, leaves: Leaves)
      returns (good: seq<Option<string>>, written: seq<seq<Row>>, aborted: bool)
    requires store.Valid() && Separate(loaded)
    requires forall u :: u in loaded ==> loaded[u].MemoValid()
    modifies loaded.Values
    ensures good == GoodBids(store.records, loaded, Ledger.Graph(store.keys, store.matches))
    ensures forall u :: u in loaded && Ledger.OnRecord(store.records, u) ==> loaded[u].rid == u
    ensures forall k :: k in good ==> k in Blocks(store.records, loaded)
    ensures |written| <= |good| && (!aborted ==> |written| == |good|)
    ensures var bs, g := Blocks(store.records, loaded), Ledger.Graph(store.keys, store.matches);
      forall x :: 0 <= x < |written| ==> ResolveOf(bs[good[x]], g, leaves) == Done(written[x])
    ensures var bs, g := Blocks(store.records, loaded), Ledger.Graph(store.keys, store.matches);
      aborted ==> |written| < |good| && ResolveOf(bs[good[|written|]], g, leaves).ZeroDivision?
  {
    var blocks;
    blocks, good := Block(store, loaded);
    GoodBidsInBlocks(store.records, loaded, Ledger.Graph(store.keys, store.matches));
    written, aborted := ResolveBlocks(blocks, good, Ledger.Graph(store.keys, store.matches), leaves);
  }
}
