/** Mapping a requested energy preference onto one that the processor advertises. */
module Preference {
  import opened Prelude

  /** Most performance first. */
  const EPP_ORDER: seq<string> := ["performance", "balance_performance", "default", "balance_power", "power"]

  function Rank(token: string): (r: Option<nat>)
    ensures r.Some? <==> token in EPP_ORDER
    ensures r.Some? ==> r.value < 5 && EPP_ORDER[r.value] == token
  {
    if token == EPP_ORDER[0] then Some(0)
    else if token == EPP_ORDER[1] then Some(1)
    else if token == EPP_ORDER[2] then Some(2)
    else if token == EPP_ORDER[3] then Some(3)
    else if token == EPP_ORDER[4] then Some(4)
    else None
  }

  function Distance(a: nat, b: nat): nat {
    if a >= b then a - b else b - a
  }

  predicate Ranked(available: seq<string>, k: nat) {
    k < |available| && Rank(available[k]).Some?
  }

  /** How far an advertised, ranked token is from the wanted rank. */
  function Off(available: seq<string>, k: nat, target: nat): nat
    requires Ranked(available, k)
  {
    Distance(Rank(available[k]).value, target)
  }

  /** Position of the closest ranked token, the first one of several. */
  function Closest(available: seq<string>, target: nat): (k: Option<nat>)
    ensures k.Some? ==> Ranked(available, k.value)
  {
    if available == [] then None
    else
      var last := |available| - 1;
      var before := Closest(available[..last], target);
      if Rank(available[last]).None? then before
      else if before.None? || Off(available, last, target) < Off(available[..last], before.value, target)
      then Some(last)
      else before
  }

  /** No ranked token is closer than the one found, and none before it is as close. */
  lemma {:induction false} ClosestIsFirstMinimum(available: seq<string>, target: nat, j: nat)
    requires Ranked(available, j)
    ensures var k := Closest(available, target);
            && k.Some?
            && Off(available, k.value, target) <= Off(available, j, target)
            && (j < k.value ==> Off(available, k.value, target) < Off(available, j, target))
  {
    var last := |available| - 1;
    if j < last {
      assert Ranked(available[..last], j);
      ClosestIsFirstMinimum(available[..last], target, j);
    } else {
      var before := Closest(available[..last], target);
      assert before.Some? ==> Ranked(available[..last], before.value);
    }
  }

  function Resolve(available: seq<string>, pref: string): Option<string> {
    if available == [] || pref in available then Some(pref)
    else if Rank(pref).None? then None
    else
      var k := Closest(available, Rank(pref).value);
      if k.Some? then Some(available[k.value]) else None
  }

  /** Nothing is written exactly when something is advertised but nothing comparable with the request. */
  lemma RefusedExactly(available: seq<string>, pref: string)
    ensures Resolve(available, pref) == None
            <==> && available != [] && pref !in available
                 && (pref !in EPP_ORDER || forall a :: a in available ==> a !in EPP_ORDER)
  {
    if available != [] && pref !in available && pref in EPP_ORDER {
      var k := Closest(available, Rank(pref).value);
      if k.None? {
        forall a | a in available
          ensures a !in EPP_ORDER
        {
          var j :| 0 <= j < |available| && available[j] == a;
          if Ranked(available, j) {
            ClosestIsFirstMinimum(available, Rank(pref).value, j);
          }
        }
      } else {
        assert available[k.value] in available;
      }
    }
  }

  /** What is written is advertised, and no advertised token is nearer to the request. */
  lemma ResolvedIsNearest(available: seq<string>, pref: string, other: string)
    requires available != [] && Resolve(available, pref).Some? && pref in EPP_ORDER
    requires other in available && other in EPP_ORDER
    ensures var got := Resolve(available, pref).value;
            && got in available && got in EPP_ORDER
            && Distance(Rank(got).value, Rank(pref).value) <= Distance(Rank(other).value, Rank(pref).value)
  {
    var j :| 0 <= j < |available| && available[j] == other;
    ClosestIsFirstMinimum(available, Rank(pref).value, j);
  }

  /** A request leaning further to saving power never ends up leaning further to performance. */
  lemma ResolvingKeepsTheOrder(available: seq<string>, fast: string, slow: string)
    requires fast in EPP_ORDER && slow in EPP_ORDER && Rank(fast).value <= Rank(slow).value
    ensures Resolve(available, fast).Some? <==> Resolve(available, slow).Some?
    ensures Resolve(available, fast).Some? ==>
              var f, s := Resolve(available, fast).value, Resolve(available, slow).value;
              f in EPP_ORDER && s in EPP_ORDER && Rank(f).value <= Rank(s).value
  {
    RefusedExactly(available, fast);
    RefusedExactly(available, slow);
    if available != [] && Resolve(available, fast).Some? && fast != slow {
      var f, s := Resolve(available, fast).value, Resolve(available, slow).value;
      var any :| any in available && any in EPP_ORDER;
      ResolvedIsNearest(available, fast, any);
      ResolvedIsNearest(available, slow, any);
      ResolvedIsNearest(available, fast, s);
      ResolvedIsNearest(available, slow, f);
    }
  }

  /** Resolving again changes nothing. */
  lemma ResolvingIsStable(available: seq<string>, pref: string)
    requires Resolve(available, pref).Some?
    ensures Resolve(available, Resolve(available, pref).value) == Resolve(available, pref)
  {
  }

  /** The order of the five known tokens. */
  lemma KnownOrder()
    ensures Rank("performance") == Some(0) && Rank("balance_performance") == Some(1)
    ensures Rank("default") == Some(2) && Rank("balance_power") == Some(3) && Rank("power") == Some(4)
  {
    DistinctTokens();
  }

  lemma DistinctTokens()
    ensures forall i, j :: 0 <= i < j < 5 ==> EPP_ORDER[i] != EPP_ORDER[j]
  {
    assert |EPP_ORDER[0]| == 11 && |EPP_ORDER[1]| == 19 && |EPP_ORDER[2]| == 7;
    assert |EPP_ORDER[3]| == 13 && |EPP_ORDER[4]| == 5;
  }

  /** An advertised request, or any request where nothing is advertised, is written as it is. */
  lemma AdvertisedIsKept(available: seq<string>, pref: string)
    ensures available == [] || pref in available ==> Resolve(available, pref) == Some(pref)
  {
  }
}
