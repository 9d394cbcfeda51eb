/** The phone record, the seeded collection, the id rule and the lookups by id. */
module Phones {

  datatype Option<+T> = None | Some(value: T)

  /** One inventory record. Prices are whole numbers in this model. */
  datatype Phone = Phone(id: int, name: string, brand: string, price: int, stock: int)

  /** The collection the service starts with. */
  function Seed(): (s: seq<Phone>)
    ensures WellNumbered(s)
  {
    [ Phone(1, "iPhone 14", "Apple", 1200, 10),
      Phone(2, "Galaxy S23", "Samsung", 900, 5),
      Phone(3, "Pixel 7", "Google", 800, 8) ]
  }

  /** Every id is positive and ids strictly increase in collection order. */
  predicate WellNumbered(s: seq<Phone>)
  {
    && (forall i :: 0 <= i < |s| ==> s[i].id >= 1)
    && (forall i, j :: 0 <= i < j < |s| ==> s[i].id < s[j].id)
  }

  /** `===` between a stored id and a parsed path id; `None` stands for NaN, equal to nothing. */
  predicate IdMatches(p: Phone, id: Option<int>)
  {
    id == Some(p.id)
  }

  /** The id a new record receives: one more than the last record's id, or 1 when empty. */
  function NextId(s: seq<Phone>): (id: int)
    ensures WellNumbered(s) ==> id >= 1
    ensures WellNumbered(s) ==> forall i :: 0 <= i < |s| ==> s[i].id < id
  {
    if |s| > 0 then s[|s| - 1].id + 1 else 1
  }

  /** `findIndex` with an id test: the first matching position, or -1. */
  function FindIndex(s: seq<Phone>, id: Option<int>): (k: int)
    ensures -1 <= k < |s|
    ensures k >= 0 ==> IdMatches(s[k], id) && forall j :: 0 <= j < k ==> !IdMatches(s[j], id)
    ensures k == -1 <==> forall j :: 0 <= j < |s| ==> !IdMatches(s[j], id)
  {
    if s == [] then -1
    else if IdMatches(s[0], id) then 0
    else
      var k := FindIndex(s[1..], id);
      if k == -1 then -1 else k + 1
  }

  /** `find` with an id test: the first matching record, if any. */
  function Find(s: seq<Phone>, id: Option<int>): (r: Option<Phone>)
    ensures r.Some? ==> r.value in s && IdMatches(r.value, id)
    ensures r.None? <==> forall p :: p in s ==> !IdMatches(p, id)
  {
    if s == [] then None
    else if IdMatches(s[0], id) then Some(s[0])
    else Find(s[1..], id)
  }

  /** `find` returns the record at the position `findIndex` reports. */
  lemma {:induction false} FindAtFindIndex(s: seq<Phone>, id: Option<int>)
    ensures Find(s, id) == if FindIndex(s, id) >= 0 then Some(s[FindIndex(s, id)]) else None
  {
    if s != [] && !IdMatches(s[0], id) {
      FindAtFindIndex(s[1..], id);
    }
  }

  /** In a well-numbered collection no two positions share an id. */
  lemma UniqueIds(s: seq<Phone>, i: int, j: int)
    requires WellNumbered(s)
    requires 0 <= i < |s| && 0 <= j < |s| && s[i].id == s[j].id
    ensures i == j
  {
  }

  /** In a well-numbered collection every record is what a lookup by its own id finds. */
  lemma {:induction false} FindOwnId(s: seq<Phone>, k: int)
    requires WellNumbered(s) && 0 <= k < |s|
    ensures FindIndex(s, Some(s[k].id)) == k
    ensures Find(s, Some(s[k].id)) == Some(s[k])
  {
    var id := Some(s[k].id);
    var f := FindIndex(s, id);
    assert f >= 0 by { assert IdMatches(s[k], id); }
    UniqueIds(s, f, k);
    FindAtFindIndex(s, id);
  }

  /** Appending a record numbered by NextId keeps the collection well numbered. */
  lemma AppendNextKeepsWellNumbered(s: seq<Phone>, p: Phone)
    requires WellNumbered(s) && p.id == NextId(s)
    ensures WellNumbered(s + [p])
  {
    var t := s + [p];
    forall i, j | 0 <= i < j < |t| ensures t[i].id < t[j].id {
      if j == |s| {
        assert t[i] == s[i];
      }
    }
  }

  /** Removing one position keeps the collection well numbered. */
  lemma RemoveKeepsWellNumbered(s: seq<Phone>, k: int)
    requires WellNumbered(s) && 0 <= k < |s|
    ensures WellNumbered(s[..k] + s[k + 1..])
  {
    var t := s[..k] + s[k + 1..];
    assert forall i :: 0 <= i < |t| ==> t[i] == (if i < k then s[i] else s[i + 1]);
  }

  /** After removing a record, a lookup by its id finds nothing. */
  lemma RemovedIdIsGone(s: seq<Phone>, k: int)
    requires WellNumbered(s) && 0 <= k < |s|
    ensures Find(s[..k] + s[k + 1..], Some(s[k].id)) == None
  {
    var t := s[..k] + s[k + 1..];
    forall p | p in t ensures !IdMatches(p, Some(s[k].id)) {
      var i :| 0 <= i < |t| && t[i] == p;
      if i < k {
        assert t[i] == s[i];
      } else {
        assert t[i] == s[i + 1];
      }
    }
  }

  /** Ids are reissued: once the last record is removed, the next id is at most its id. */
  lemma RemovingLastLowersNextId(s: seq<Phone>)
    requires WellNumbered(s) && |s| > 0
    ensures NextId(s[..|s| - 1]) <= s[|s| - 1].id
  {
    if |s| > 1 {
      assert s[|s| - 2].id < s[|s| - 1].id;
    }
  }
}
