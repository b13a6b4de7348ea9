/** The entry packages of a competition: each upstream package is projected
    to `{entries, price}` and the list is sorted by ascending price. */
module Packages {
  import opened Coercion

  /** An upstream entry package; only these two fields are read. */
  datatype RawPackage = RawPackage(entryCount: JsNumber, price: JsNumber)

  /** A package after coercion: neither field is ever NaN. */
  datatype Package = Package(entries: real, price: real)

  /** `{entries: Number(p.entryCount) || 0, price: Number(p.price) || 0}`. */
  function Project(p: RawPackage): Package
  {
    Package(OrZero(p.entryCount), OrZero(p.price))
  }

  function ProjectAll(ps: seq<RawPackage>): seq<Package>
  {
    seq(|ps|, i requires 0 <= i < |ps| => Project(ps[i]))
  }

  predicate SortedByPrice(s: seq<Package>)
  {
    forall i, j :: 0 <= i < j < |s| ==> s[i].price <= s[j].price
  }

  /** The packages of `s` whose price is `v`, in their order in `s`. */
  function WithPrice(s: seq<Package>, v: real): seq<Package>
  {
    if s == [] then []
    else (if s[0].price == v then [s[0]] else []) + WithPrice(s[1..], v)
  }

  /** Places `p` just before the first package that costs at least as much. */
  function Insert(p: Package, s: seq<Package>): seq<Package>
  {
    if s == [] || p.price <= s[0].price then [p] + s
    else [s[0]] + Insert(p, s[1..])
  }

  lemma {:induction false} InsertPermutes(p: Package, s: seq<Package>)
    ensures multiset(Insert(p, s)) == multiset(s) + multiset{p}
  {
    if s != [] && p.price > s[0].price {
      InsertPermutes(p, s[1..]);
      assert s == [s[0]] + s[1..];
    }
  }

  /** Every package of `s` costs at least `m`. */
  predicate PricedFrom(s: seq<Package>, m: real)
  {
    forall i :: 0 <= i < |s| ==> m <= s[i].price
  }

  lemma {:induction false} InsertPricedFrom(p: Package, s: seq<Package>, m: real)
    requires PricedFrom(s, m) && m <= p.price
    ensures PricedFrom(Insert(p, s), m)
  {
    if s != [] && p.price > s[0].price {
      InsertPricedFrom(p, s[1..], m);
    }
  }

  lemma {:induction false} InsertSorted(p: Package, s: seq<Package>)
    requires SortedByPrice(s)
    ensures SortedByPrice(Insert(p, s))
  {
    if s == [] || p.price <= s[0].price {
      assert PricedFrom(s, p.price);
    } else {
      var t := Insert(p, s[1..]);
      InsertSorted(p, s[1..]);
      InsertPricedFrom(p, s[1..], s[0].price);
      assert PricedFrom(t, s[0].price);
    }
  }

  /** Inserting `p` adds it at the head of the packages of its own price and
      leaves the packages of every other price as they were. */
  lemma {:induction false} InsertWithPrice(p: Package, s: seq<Package>, v: real)
    ensures WithPrice(Insert(p, s), v) == (if p.price == v then [p] else []) + WithPrice(s, v)
  {
    var hp := if p.price == v then [p] else [];
    if s == [] || p.price <= s[0].price {
      assert ([p] + s)[1..] == s;
    } else {
      var t := Insert(p, s[1..]);
      var h0 := if s[0].price == v then [s[0]] else [];
      InsertWithPrice(p, s[1..], v);
      assert ([s[0]] + t)[1..] == t;
      calc {
        WithPrice(Insert(p, s), v);
        h0 + WithPrice(t, v);
        h0 + (hp + WithPrice(s[1..], v));
        { assert h0 == [] || hp == []; }
        hp + (h0 + WithPrice(s[1..], v));
        hp + WithPrice(s, v);
      }
    }
  }

  /** A stable sort by ascending price (insertion sort). */
  function SortByPrice(s: seq<Package>): (r: seq<Package>)
    ensures SortedByPrice(r)
    ensures multiset(r) == multiset(s)
    ensures forall v :: WithPrice(r, v) == WithPrice(s, v)
  {
    if s == [] then []
    else
      var t := SortByPrice(s[1..]);
      InsertSorted(s[0], t);
      InsertPermutes(s[0], t);
      assert s == [s[0]] + s[1..];
      assert forall v :: WithPrice(Insert(s[0], t), v) == WithPrice(s, v) by {
        forall v ensures WithPrice(Insert(s[0], t), v) == WithPrice(s, v) {
          InsertWithPrice(s[0], t, v);
        }
      }
      Insert(s[0], t)
  }

  /** `(pkgData?.entryPackages || []).map(...).sort((a, b) => a.price - b.price)`,
      where a missing package list is the empty sequence. */
  function SortedPackages(raw: seq<RawPackage>): seq<Package>
  {
    SortByPrice(ProjectAll(raw))
  }

  lemma {:induction false} WithPriceHead(s: seq<Package>)
    requires s != []
    ensures WithPrice(s, s[0].price) != [] && WithPrice(s, s[0].price)[0] == s[0]
  {
  }

  lemma {:induction false} WithPriceEmpty(s: seq<Package>, i: nat)
    requires i < |s|
    ensures WithPrice(s, s[i].price) != []
    decreases i
  {
    if i > 0 && s[0].price != s[i].price {
      WithPriceEmpty(s[1..], i - 1);
    }
  }

  /** A sorted sequence whose packages of each price appear in a given order
      is unique: any stable sort by price gives the same list, so the
      comparator `a.price - b.price`, a total preorder once NaN is coerced
      away, fixes the result. */
  lemma {:induction false} StableSortUnique(a: seq<Package>, b: seq<Package>)
    requires SortedByPrice(a) && SortedByPrice(b)
    requires forall v :: WithPrice(a, v) == WithPrice(b, v)
    ensures a == b
    decreases |a|
  {
    if a == [] {
      if b != [] {
        WithPriceEmpty(b, 0);
      }
    } else if b == [] {
      WithPriceEmpty(a, 0);
    } else {
      // Both heads carry the lowest price, and each is the first of its price.
      WithPriceEmpty(a, 0);
      WithPriceEmpty(b, 0);
      assert a[0].price == b[0].price by {
        PriceOccurs(a, b[0].price);
        PriceOccurs(b, a[0].price);
      }
      WithPriceHead(a);
      WithPriceHead(b);
      assert WithPrice(a, a[0].price) == WithPrice(b, b[0].price);
      assert a[0] == b[0];
      forall v ensures WithPrice(a[1..], v) == WithPrice(b[1..], v) {
        var h := if a[0].price == v then [a[0]] else [];
        assert WithPrice(a, v) == h + WithPrice(a[1..], v);
        assert WithPrice(b, v) == h + WithPrice(b[1..], v);
        assert WithPrice(a[1..], v) == WithPrice(a, v)[|h|..];
      }
      StableSortUnique(a[1..], b[1..]);
      assert a == [a[0]] + a[1..] && b == [b[0]] + b[1..];
    }
  }

  /** A price that occurs in a sorted sequence is at least its first price. */
  lemma {:induction false} PriceOccurs(s: seq<Package>, v: real)
    requires SortedByPrice(s) && s != []
    requires WithPrice(s, v) != []
    ensures s[0].price <= v
  {
    var i := WithPriceIndex(s, v);
    assert s[0].price <= s[i].price;
  }

  lemma {:induction false} WithPriceIndex(s: seq<Package>, v: real) returns (i: nat)
    requires WithPrice(s, v) != []
    ensures i < |s| && s[i].price == v
  {
    if s[0].price == v {
      i := 0;
    } else {
      var j := WithPriceIndex(s[1..], v);
      i := j + 1;
    }
  }

  /** A package whose price is not a number is listed with price 0, ahead
      of every package with a positive price. */
  lemma NonNumericPriceSortsFirst(raw: seq<RawPackage>, i: nat)
    requires i < |raw| && raw[i].price.NaN?
    ensures var r := SortedPackages(raw);
      exists j :: 0 <= j < |r| && r[j] == Package(OrZero(raw[i].entryCount), 0.0) &&
        forall k :: 0 <= k < |r| && r[k].price > 0.0 ==> j < k
  {
    var r := SortedPackages(raw);
    var p := Project(raw[i]);
    assert ProjectAll(raw)[i] == p;
    assert p in multiset(ProjectAll(raw));
    assert p in multiset(r);
    var j :| 0 <= j < |r| && r[j] == p;
    assert forall k :: 0 <= k < |r| && r[k].price > 0.0 ==> j < k;
  }

  /** The package list is the input's coerced packages, sorted non-decreasing
      by price, with packages of equal price kept in input order. */
  lemma SortedPackagesSpec(raw: seq<RawPackage>)
    ensures var r := SortedPackages(raw);
      && |r| == |raw|
      && SortedByPrice(r)
      && multiset(r) == multiset(ProjectAll(raw))
      && (forall v :: WithPrice(r, v) == WithPrice(ProjectAll(raw), v))
  {
    var r := SortedPackages(raw);
    assert |multiset(r)| == |multiset(ProjectAll(raw))|;
  }
}
