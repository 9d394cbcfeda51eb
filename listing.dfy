/** The list operation: optional brand and price filters applied to the collection in order. */
module Listing {
  import opened Phones

  /** `r` is `s` with some elements left out, the rest in their original order. */
  predicate Subseq(r: seq<Phone>, s: seq<Phone>)
    decreases |s|
  {
    if r == [] then true
    else if s == [] then false
    else (r[0] == s[0] && Subseq(r[1..], s[1..])) || Subseq(r, s[1..])
  }

  lemma {:induction false} SubseqRefl(s: seq<Phone>)
    ensures Subseq(s, s)
    decreases |s|
  {
    if s != [] {
      SubseqRefl(s[1..]);
    }
  }

  lemma {:induction false} SubseqTrans(a: seq<Phone>, b: seq<Phone>, c: seq<Phone>)
    requires Subseq(a, b) && Subseq(b, c)
    ensures Subseq(a, c)
    decreases |c|
  {
    if a != [] {
      assert b != [] && c != [];
      if b[0] == c[0] && Subseq(b[1..], c[1..]) {
        if a[0] == b[0] && Subseq(a[1..], b[1..]) {
          SubseqTrans(a[1..], b[1..], c[1..]);
        } else {
          SubseqTrans(a, b[1..], c[1..]);
        }
      } else {
        SubseqTrans(a, b, c[1..]);
      }
    }
  }

  /** `Array.prototype.filter`: the elements `keep` accepts, every occurrence, in order. */
  function Select(s: seq<Phone>, keep: Phone -> bool): (r: seq<Phone>)
    ensures Subseq(r, s)
    ensures forall p :: multiset(r)[p] == if keep(p) then multiset(s)[p] else 0
  {
    if s == [] then []
    else
      var rest := Select(s[1..], keep);
      assert s == [s[0]] + s[1..];
      if keep(s[0]) then [s[0]] + rest else rest
  }

  /** The outcome of reading a non-empty `maxPrice` query value as a number. */
  datatype PriceBound = NoBound | AtMost(limit: int) | NotANumber

  /** A query value counts only when it is present and non-empty (JavaScript truthiness). */
  predicate BrandActive(brand: Option<string>)
  {
    brand.Some? && brand.value != ""
  }

  /** The test a record must pass to be listed: both filters, each skipped when inactive. */
  predicate Selected(p: Phone, brand: Option<string>, bound: PriceBound)
  {
    && (BrandActive(brand) ==> p.brand == brand.value)
    && match bound
       case NoBound => true
       case AtMost(m) => p.price <= m
       case NotANumber => false
  }

  /** GET /phones: the brand filter first, then the price bound. */
  function List(s: seq<Phone>, brand: Option<string>, bound: PriceBound): (r: seq<Phone>)
    ensures Subseq(r, s)
    ensures forall p :: multiset(r)[p] == if Selected(p, brand, bound) then multiset(s)[p] else 0
  {
    var byBrand := if BrandActive(brand) then Select(s, (p: Phone) => p.brand == brand.value) else s;
    SubseqRefl(s);
    match bound
    case NoBound => byBrand
    case AtMost(m) =>
      var r := Select(byBrand, (p: Phone) => p.price <= m);
      SubseqTrans(r, byBrand, s);
      r
    case NotANumber =>
      var r := Select(byBrand, (p: Phone) => false);
      SubseqTrans(r, byBrand, s);
      r
  }

  /** Whatever the filters, a listed record is one of the collection's records. */
  lemma ListedRecordsAreStored(s: seq<Phone>, brand: Option<string>, bound: PriceBound, p: Phone)
    requires p in List(s, brand, bound)
    ensures p in s && Selected(p, brand, bound)
  {
    assert multiset(List(s, brand, bound))[p] > 0;
  }

  /** Without active filters the whole collection is listed, in its order. */
  lemma {:induction false} ListUnfiltered(s: seq<Phone>, brand: Option<string>)
    requires !BrandActive(brand)
    ensures List(s, brand, NoBound) == s
  {
  }

  /** A bound that is not a number admits nothing. */
  lemma {:induction false} ListNotANumberIsEmpty(s: seq<Phone>, brand: Option<string>)
    ensures List(s, brand, NotANumber) == []
  {
    var r := List(s, brand, NotANumber);
    assert multiset(r) == multiset{};
  }

  /** Listing a listing again with the same filters changes nothing. */
  lemma ListIdempotent(s: seq<Phone>, brand: Option<string>, bound: PriceBound)
    ensures List(List(s, brand, bound), brand, bound) == List(s, brand, bound)
  {
    var keep := (p: Phone) => Selected(p, brand, bound);
    var once := List(s, brand, bound);
    var twice := List(once, brand, bound);
    SubseqTrans(twice, once, s);
    SelectUnique(s, keep, once);
    SelectUnique(s, keep, twice);
  }

  /** A subsequence with the filter's multiplicities is the filter's result: the contract of Select pins it down. */
  lemma {:induction false} SelectUnique(s: seq<Phone>, keep: Phone -> bool, r: seq<Phone>)
    requires Subseq(r, s)
    requires forall p :: multiset(r)[p] == if keep(p) then multiset(s)[p] else 0
    ensures r == Select(s, keep)
    decreases |s|
  {
    if s == [] {
      if r != [] { assert false; }
    } else {
      assert s == [s[0]] + s[1..];
      if r != [] && r[0] == s[0] && Subseq(r[1..], s[1..]) {
        assert r == [r[0]] + r[1..];
        SelectUnique(s[1..], keep, r[1..]);
      } else {
        assert Subseq(r, s[1..]);
        assert multiset(r)[s[0]] <= multiset(s[1..])[s[0]] by {
          SubseqMultiset(r, s[1..]);
        }
        assert !keep(s[0]);
        SelectUnique(s[1..], keep, r);
      }
    }
  }

  lemma {:induction false} SubseqMultiset(r: seq<Phone>, s: seq<Phone>)
    requires Subseq(r, s)
    ensures multiset(r) <= multiset(s)
    decreases |s|
  {
    if r != [] {
      assert s == [s[0]] + s[1..];
      if r[0] == s[0] && Subseq(r[1..], s[1..]) {
        assert r == [r[0]] + r[1..];
        SubseqMultiset(r[1..], s[1..]);
      } else {
        SubseqMultiset(r, s[1..]);
      }
    }
  }
}
