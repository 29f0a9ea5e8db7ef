/**
  The "cheapest positive price" rule that the cart total and every list view
  apply to one item: among the strictly positive prices, the least one; 0 when
  the item has no positive price.
*/
module Pricing {
  import opened Catalog
  import opened Model

  /** The item has a genuine price at some market. */
  predicate HasValidPrice(p: Prices) {
    p.iquegami > 0.0 || p.proenca > 0.0 || p.max > 0.0
  }

  /** A price record has a valid price exactly when some market's price is positive. */
  lemma ValidPriceAt(p: Prices)
    ensures HasValidPrice(p) <==> exists m :: p.Get(m) > 0.0
  {
    if HasValidPrice(p) {
      if p.iquegami > 0.0 {
        assert p.Get(Iquegami) > 0.0;
      } else if p.proenca > 0.0 {
        assert p.Get(Proenca) > 0.0;
      } else {
        assert p.Get(Max) > 0.0;
      }
    }
  }

  /** The strictly positive elements of `s`, in order: `s.filter(p => p > 0)`. */
  function Positives(s: seq<real>): (r: seq<real>)
    ensures |r| <= |s|
    ensures forall x :: x in r <==> x in s && x > 0.0
  {
    if |s| == 0 then []
    else if s[0] > 0.0 then [s[0]] + Positives(s[1..])
    else Positives(s[1..])
  }

  /** `Math.min(...s)` on a non-empty list. */
  function MinOf(s: seq<real>): (r: real)
    requires |s| > 0
    ensures r in s
    ensures forall x :: x in s ==> r <= x
  {
    if |s| == 1 then s[0]
    else
      var rest := MinOf(s[1..]);
      assert s == [s[0]] + s[1..];
      if s[0] <= rest then s[0] else rest
  }

  /** `Object.values(prices).filter(p => p > 0)`: the genuine prices of an item. */
  function ValidPrices(p: Prices): (vs: seq<real>)
    ensures forall x :: x in vs ==> x > 0.0 && (x == p.iquegami || x == p.proenca || x == p.max)
    ensures forall m :: p.Get(m) > 0.0 ==> p.Get(m) in vs
    ensures |vs| > 0 <==> HasValidPrice(p)
  {
    var all := [p.iquegami, p.proenca, p.max];
    assert forall m :: p.Get(m) in all;
    var vs := Positives(all);
    assert HasValidPrice(p) ==> (p.iquegami in vs || p.proenca in vs || p.max in vs);
    assert |vs| > 0 ==> vs[0] in vs;
    vs
  }

  /** What the cheapest price of an item is, stated without computing it. */
  ghost predicate IsCheapestPrice(p: Prices, r: real) {
    if HasValidPrice(p) then
      && r > 0.0
      && (exists m :: p.Get(m) == r)
      && (forall m :: p.Get(m) > 0.0 ==> r <= p.Get(m))
    else
      r == 0.0
  }

  /**
    The cheapest price of an item: the minimum of its positive prices, or 0 when it
    has none. The minimum of a set does not depend on the order the prices are
    enumerated in, so the key order of the price record plays no part here.
  */
  function CheapestPrice(p: Prices): (r: real)
    ensures IsCheapestPrice(p, r)
    ensures r >= 0.0
    ensures r == 0.0 <==> !HasValidPrice(p)
  {
    var vs := ValidPrices(p);
    if |vs| > 0 then
      var r := MinOf(vs);
      assert r == p.Get(Iquegami) || r == p.Get(Proenca) || r == p.Get(Max);
      r
    else 0.0
  }

  /** The characterisation pins the cheapest price down: any value meeting it is that price. */
  lemma CheapestPriceUnique(p: Prices, r: real)
    requires IsCheapestPrice(p, r)
    ensures r == CheapestPrice(p)
  {
    var c := CheapestPrice(p);
    if HasValidPrice(p) {
      var m :| p.Get(m) == r;
      var n :| p.Get(n) == c;
      assert c <= p.Get(m) && r <= p.Get(n);
    }
  }
}
