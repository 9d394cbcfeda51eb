/** The request handler: the five operations on the collection, their responses and the dispatch. */
module Inventory {
  import opened Phones
  import opened Listing
  import opened Paths

  /**
   * A request body once JSON parsing is done. `Malformed` is a body that does not parse, or that
   * parses to `null`, on which reading its fields fails. In `Fields`, `None` is a key that is
   * absent or holds `null`; `id` is a key the client may send along with the four record fields.
   */
  datatype Body =
    | Malformed
    | Fields(name: Option<string>, brand: Option<string>, price: Option<int>, stock: Option<int>, id: Option<int>)

  /** What an operation on one record produced. */
  datatype Outcome = Ok(phone: Phone) | Created(phone: Phone) | NotFound | MissingFields | NothingToUpdate | InvalidJson

  /** The JSON value a response carries. */
  datatype Payload = Records(records: seq<Phone>) | Record(record: Phone) | Error(message: string)

  datatype Response = Response(status: int, payload: Payload)

  /** A request: method, path, the two query values the list reads, and the body. */
  datatype Request = Request(verb: string, path: string, brand: Option<string>, maxPrice: PriceBound, body: Body)

  /** JavaScript truthiness of a string field: present and not empty. */
  predicate Truthy(s: Option<string>)
  {
    s.Some? && s.value != ""
  }

  /** The create guard passes: non-empty name and brand, price and stock present (0 allowed). */
  predicate HasRequiredFields(b: Body)
    ensures HasRequiredFields(b) ==> HasSomeField(b)
    ensures b.Fields? && b.name == Some("") ==> !HasRequiredFields(b)
  {
    b.Fields? && Truthy(b.name) && Truthy(b.brand) && b.price.Some? && b.stock.Some?
  }

  /** The update guard passes: at least one of non-empty name, non-empty brand, price, stock. */
  predicate HasSomeField(b: Body)
    ensures HasSomeField(b) ==> b.Fields?
    ensures b.Fields? && (b.price.Some? || b.stock.Some?) ==> HasSomeField(b)
    ensures (b.Fields? && b.name in {None, Some("")} && b.brand in {None, Some("")} && b.price.None? && b.stock.None?)
            ==> !HasSomeField(b)
  {
    b.Fields? && (Truthy(b.name) || Truthy(b.brand) || b.price.Some? || b.stock.Some?)
  }

  /** The record create builds: the next id and the four named fields; any other key is dropped. */
  function NewPhone(s: seq<Phone>, b: Body): (p: Phone)
    requires HasRequiredFields(b)
    ensures p.id == NextId(s)
    ensures p.name == b.name.value && p.brand == b.brand.value
    ensures p.price == b.price.value && p.stock == b.stock.value
    ensures WellNumbered(s) ==> forall q :: q in s ==> q.id < p.id
    ensures p.name != "" && p.brand != ""
  {
    Phone(NextId(s), b.name.value, b.brand.value, b.price.value, b.stock.value)
  }

  /**
   * The update merge over the four record fields: a supplied field replaces the stored one,
   * an empty string included; an absent one keeps it. The id is never replaced.
   */
  function Merge(p: Phone, b: Body): (m: Phone)
    requires b.Fields?
    ensures m.id == p.id
    ensures m.name == (if b.name.Some? then b.name.value else p.name)
    ensures m.brand == (if b.brand.Some? then b.brand.value else p.brand)
    ensures m.price == (if b.price.Some? then b.price.value else p.price)
    ensures m.stock == (if b.stock.Some? then b.stock.value else p.stock)
    ensures b.name.None? && b.brand.None? && b.price.None? && b.stock.None? ==> m == p
  {
    Phone(p.id,
          if b.name.Some? then b.name.value else p.name,
          if b.brand.Some? then b.brand.value else p.brand,
          if b.price.Some? then b.price.value else p.price,
          if b.stock.Some? then b.stock.value else p.stock)
  }

  /** Merging the same body a second time changes nothing more. */
  lemma MergeIdempotent(p: Phone, b: Body)
    requires b.Fields?
    ensures Merge(Merge(p, b), b) == Merge(p, b)
  {
  }

  /** GET /phones/{id}: the first record with that id, or not found. */
  function Get(s: seq<Phone>, id: Option<int>): (out: Outcome)
    ensures out.Ok? || out.NotFound?
    ensures out.Ok? ==> out.phone in s && IdMatches(out.phone, id)
    ensures out.NotFound? <==> forall p :: p in s ==> !IdMatches(p, id)
  {
    match Find(s, id)
    case Some(p) => Ok(p)
    case None => NotFound
  }

  /** POST /phones: how the collection `before` becomes `after`, and what is answered. */
  predicate CreateSpec(before: seq<Phone>, body: Body, out: Outcome, after: seq<Phone>)
  {
    if body.Malformed? then out == InvalidJson && after == before
    else if !HasRequiredFields(body) then out == MissingFields && after == before
    else out == Created(NewPhone(before, body)) && after == before + [out.phone]
  }

  /** PUT /phones/{id}: the id is looked up before the body is read. */
  predicate UpdateSpec(before: seq<Phone>, id: Option<int>, body: Body, out: Outcome, after: seq<Phone>)
  {
    var k := FindIndex(before, id);
    if k == -1 then out == NotFound && after == before
    else if body.Malformed? then out == InvalidJson && after == before
    else if !HasSomeField(body) then out == NothingToUpdate && after == before
    else out == Ok(Merge(before[k], body)) && after == before[k := out.phone]
  }

  /** DELETE /phones/{id}: the found record is spliced out and returned. */
  predicate DeleteSpec(before: seq<Phone>, id: Option<int>, out: Outcome, after: seq<Phone>)
  {
    var k := FindIndex(before, id);
    if k == -1 then out == NotFound && after == before
    else out == Ok(before[k]) && after == before[..k] + before[k + 1..]
  }

  /** The status code and JSON body sent for an outcome. */
  function Respond(out: Outcome): (r: Response)
    ensures r.status in {200, 201, 400, 404}
    ensures r.payload.Error? <==> r.status >= 400
    ensures r.status == 201 <==> out.Created?
    ensures r.status == 200 <==> out.Ok?
    ensures r.status == 404 <==> out.NotFound?
    ensures r.status == 400 <==> out.MissingFields? || out.NothingToUpdate? || out.InvalidJson?
    ensures r.payload.Record? <==> out.Ok? || out.Created?
    ensures r.payload.Record? ==> r.payload.record == out.phone
  {
    match out
    case Ok(p) => Response(200, Record(p))
    case Created(p) => Response(201, Record(p))
    case NotFound => Response(404, Error("Phone not found"))
    case MissingFields => Response(400, Error("Missing required fields"))
    case NothingToUpdate => Response(400, Error("At least one field must be updated"))
    case InvalidJson => Response(400, Error("Invalid JSON format"))
  }

  /** The response tells the outcome apart: no two outcomes are answered alike. */
  lemma RespondInjective(a: Outcome, b: Outcome)
    requires Respond(a) == Respond(b)
    ensures a == b
  {
  }

  /** The answer to an unmatched method and path. */
  function NoRouteResponse(): (r: Response)
    ensures r.status == 404 && r.payload.Error?
    ensures forall out :: r != Respond(out)
  {
    Response(404, Error("Not Found"))
  }

  /** One request handled: the route picks the operation, and the collection changes only through it. */
  ghost predicate HandleSpec(before: seq<Phone>, req: Request, resp: Response, after: seq<Phone>)
  {
    match RouteOf(req.verb, req.path)
    case ListPhones =>
      after == before && resp == Response(200, Records(List(before, req.brand, req.maxPrice)))
    case GetPhone =>
      after == before && resp == Respond(Get(before, PathId(req.path)))
    case CreatePhone =>
      exists out :: CreateSpec(before, req.body, out, after) && resp == Respond(out)
    case UpdatePhone =>
      exists out :: UpdateSpec(before, PathId(req.path), req.body, out, after) && resp == Respond(out)
    case DeletePhone =>
      exists out :: DeleteSpec(before, PathId(req.path), out, after) && resp == Respond(out)
    case NoRoute =>
      after == before && resp == NoRouteResponse()
  }

  // ---------------------------------------------------------------------------
  // What the operations guarantee

  /** Create answers "created" exactly on a body that passes the guard; otherwise nothing changes. */
  lemma CreateOutcomes(before: seq<Phone>, body: Body, out: Outcome, after: seq<Phone>)
    requires CreateSpec(before, body, out, after)
    ensures out.Created? <==> HasRequiredFields(body)
    ensures out == InvalidJson <==> body.Malformed?
    ensures !out.Created? ==> after == before
    ensures out.Created? ==> |after| == |before| + 1 && after[..|before|] == before && after[|before|] == out.phone
    ensures out.Created? ==> out.phone.id == (if before == [] then 1 else before[|before| - 1].id + 1)
    ensures out.Created? ==> && out.phone.name == body.name.value && out.phone.brand == body.brand.value
                             && out.phone.price == body.price.value && out.phone.stock == body.stock.value
  {
    if out.Created? {
      assert after[..|before|] == before;
    }
  }

  /** Create keeps ids positive and increasing, and the new record is what a lookup by its id returns. */
  lemma CreateThenGet(before: seq<Phone>, body: Body, out: Outcome, after: seq<Phone>)
    requires WellNumbered(before) && CreateSpec(before, body, out, after)
    ensures WellNumbered(after)
    ensures out.Created? ==> Get(after, Some(out.phone.id)) == Ok(out.phone)
  {
    if out.Created? {
      AppendNextKeepsWellNumbered(before, out.phone);
      FindOwnId(after, |before|);
    }
  }

  /** Update never changes an id, the length, or any slot but the one found. */
  lemma UpdateOutcomes(before: seq<Phone>, id: Option<int>, body: Body, out: Outcome, after: seq<Phone>)
    requires UpdateSpec(before, id, body, out, after)
    ensures |after| == |before| && forall i :: 0 <= i < |after| ==> after[i].id == before[i].id
    ensures out.NotFound? <==> forall p :: p in before ==> !IdMatches(p, id)
    ensures out.Ok? <==> Get(before, id).Ok? && HasSomeField(body)
    ensures !out.Ok? ==> after == before
    ensures out.Ok? ==> exists k :: 0 <= k < |before| && before[k] == Get(before, id).phone
                                   && after == before[k := Merge(before[k], body)]
  {
    FindAtFindIndex(before, id);
    var k := FindIndex(before, id);
    if k >= 0 {
      assert before[k] in before && IdMatches(before[k], id);
    }
  }

  /** After a successful update, a lookup by the same id returns the merged record. */
  lemma UpdateThenGet(before: seq<Phone>, id: Option<int>, body: Body, out: Outcome, after: seq<Phone>)
    requires WellNumbered(before) && UpdateSpec(before, id, body, out, after)
    ensures WellNumbered(after)
    ensures out.Ok? ==> Get(after, id) == Ok(out.phone)
  {
    UpdateOutcomes(before, id, body, out, after);
    if out.Ok? {
      var k := FindIndex(before, id);
      FindOwnId(after, k);
    }
  }

  /** Delete removes exactly the record it returns and keeps the others in order. */
  lemma DeleteOutcomes(before: seq<Phone>, id: Option<int>, out: Outcome, after: seq<Phone>)
    requires DeleteSpec(before, id, out, after)
    ensures out.Ok? || out.NotFound?
    ensures out.NotFound? <==> forall p :: p in before ==> !IdMatches(p, id)
    ensures out.NotFound? ==> after == before
    ensures out.Ok? ==> Get(before, id) == out && |after| == |before| - 1 && Subseq(after, before)
    ensures out.Ok? ==> multiset(after) + multiset{out.phone} == multiset(before)
  {
    FindAtFindIndex(before, id);
    var k := FindIndex(before, id);
    if k >= 0 {
      SubseqDrop(before, k);
      SpliceMultiset(before, k);
    }
  }

  lemma SpliceMultiset(s: seq<Phone>, k: int)
    requires 0 <= k < |s|
    ensures multiset(s[..k] + s[k + 1..]) + multiset{s[k]} == multiset(s)
  {
    assert s == s[..k] + [s[k]] + s[k + 1..];
  }

  /** Dropping one position leaves a subsequence. */
  lemma {:induction false} SubseqDrop(s: seq<Phone>, k: int)
    requires 0 <= k < |s|
    ensures Subseq(s[..k] + s[k + 1..], s)
    decreases k
  {
    if k == 0 {
      assert s[..0] + s[1..] == s[1..];
      SubseqRefl(s[1..]);
      if s[1..] != [] {
        SubseqRefl(s[2..]);
        assert s[1..][1..] == s[2..];
      }
      SubseqSkipFront(s[1..], s);
    } else {
      SubseqDrop(s[1..], k - 1);
      var r := s[..k] + s[k + 1..];
      assert r[0] == s[0];
      assert r[1..] == s[1..][..k - 1] + s[1..][k..];
    }
  }

  /** A subsequence of the tail is a subsequence of the whole. */
  lemma SubseqSkipFront(r: seq<Phone>, s: seq<Phone>)
    requires s != [] && Subseq(r, s[1..])
    ensures Subseq(r, s)
  {
  }

  /** After a successful delete, a lookup by the removed id finds nothing; ids stay increasing. */
  lemma DeleteThenGet(before: seq<Phone>, id: Option<int>, out: Outcome, after: seq<Phone>)
    requires WellNumbered(before) && DeleteSpec(before, id, out, after)
    ensures WellNumbered(after)
    ensures out.Ok? ==> Get(after, id) == NotFound
  {
    var k := FindIndex(before, id);
    if k >= 0 {
      RemoveKeepsWellNumbered(before, k);
      RemovedIdIsGone(before, k);
    }
  }

  /** Every request keeps ids positive and strictly increasing, hence unique. */
  lemma HandleKeepsWellNumbered(before: seq<Phone>, req: Request, resp: Response, after: seq<Phone>)
    requires WellNumbered(before) && HandleSpec(before, req, resp, after)
    ensures WellNumbered(after)
  {
    match RouteOf(req.verb, req.path)
    case CreatePhone =>
      var out :| CreateSpec(before, req.body, out, after) && resp == Respond(out);
      CreateThenGet(before, req.body, out, after);
    case UpdatePhone =>
      var out :| UpdateSpec(before, PathId(req.path), req.body, out, after) && resp == Respond(out);
      UpdateThenGet(before, PathId(req.path), req.body, out, after);
    case DeletePhone =>
      var out :| DeleteSpec(before, PathId(req.path), out, after) && resp == Respond(out);
      DeleteThenGet(before, PathId(req.path), out, after);
    case _ =>
  }

  /** POST /phones answered 201, then GET at the new record's path answers 200 with that very record. */
  lemma CreateThenFetch(s0: seq<Phone>, post: Request, r1: Response, s1: seq<Phone>,
                        get: Request, r2: Response, s2: seq<Phone>)
    requires WellNumbered(s0)
    requires post.verb == "POST" && post.path == "/phones" && HandleSpec(s0, post, r1, s1)
    requires r1.status == 201
    requires get.verb == "GET" && r1.payload.Record? && r1.payload.record.id >= 0
    requires get.path == "/phones/" + Decimal(r1.payload.record.id) && HandleSpec(s1, get, r2, s2)
    ensures r2 == Response(200, r1.payload) && s2 == s1
  {
    var out :| CreateSpec(s0, post.body, out, s1) && r1 == Respond(out);
    CreateThenGet(s0, post.body, out, s1);
    PathIdOfRecord(r1.payload.record.id);
    assert "/phones/" <= get.path;
  }

  /** DELETE answered 200, then GET at the same path answers 404. */
  lemma DeleteThenFetch(s0: seq<Phone>, del: Request, r1: Response, s1: seq<Phone>,
                        get: Request, r2: Response, s2: seq<Phone>)
    requires WellNumbered(s0)
    requires del.verb == "DELETE" && "/phones/" <= del.path && HandleSpec(s0, del, r1, s1)
    requires r1.status == 200
    requires get.verb == "GET" && get.path == del.path && HandleSpec(s1, get, r2, s2)
    ensures r2 == Response(404, Error("Phone not found")) && s2 == s1
  {
    var out :| DeleteSpec(s0, PathId(del.path), out, s1) && r1 == Respond(out);
    DeleteThenGet(s0, PathId(del.path), out, s1);
  }

  /** GET /phones?brand=Apple and GET /phones?maxPrice=900 on the seed collection. */
  lemma SeedListExamples()
    ensures List(Seed(), Some("Apple"), NoBound) == [Seed()[0]]
    ensures List(Seed(), None, AtMost(900)) == [Seed()[1], Seed()[2]]
  {
    var s := Seed();
    assert s[1..][1..][1..] == [];
    assert s[1..][1..] == [s[2]];
    assert s[1..] == [s[1], s[2]];
  }

  /** GET /phones/999 on the seed collection is not found. */
  lemma SeedGetExample()
    ensures Get(Seed(), PathId("/phones/" + Decimal(999))) == NotFound
  {
    PathIdOfRecord(999);
  }

  /**
   * POST /phones on the seed collection: a complete body gets id 4, price and stock 0 included;
   * a body without stock, or with an empty name, is refused.
   */
  lemma SeedCreateExamples()
    ensures var b := Fields(Some("Nokia 3310"), Some("Nokia"), Some(50), Some(100), None);
            var p := Phone(4, "Nokia 3310", "Nokia", 50, 100);
            CreateSpec(Seed(), b, Created(p), Seed() + [p])
    ensures var b := Fields(Some("Free"), Some("Nokia"), Some(0), Some(0), Some(9));
            var p := Phone(4, "Free", "Nokia", 0, 0);
            CreateSpec(Seed(), b, Created(p), Seed() + [p])
    ensures CreateSpec(Seed(), Fields(Some("Nokia 3310"), Some("Nokia"), Some(50), None, None), MissingFields, Seed())
    ensures CreateSpec(Seed(), Fields(Some(""), Some("Nokia"), Some(50), Some(100), None), MissingFields, Seed())
  {
  }

  /** PUT /phones/1 on the seed collection: an empty body is refused; {"price": 999} changes only the price. */
  lemma SeedUpdateExamples()
    ensures UpdateSpec(Seed(), Some(1), Fields(None, None, None, None, None), NothingToUpdate, Seed())
    ensures var m := Phone(1, "iPhone 14", "Apple", 999, 10);
            UpdateSpec(Seed(), Some(1), Fields(None, None, Some(999), None, None), Ok(m), Seed()[0 := m])
  {
    FindOwnId(Seed(), 0);
  }

  // ---------------------------------------------------------------------------
  // The update merge as the source writes it

  /**
   * The handler merges with object spread, so every key of the body is copied over the stored
   * record, `id` included. This is that merge restricted to the keys this model knows.
   */
  function SpreadMerge(p: Phone, b: Body): (m: Phone)
    requires b.Fields?
    ensures b.id.None? ==> m == Merge(p, b)
    ensures b.id.Some? ==> m.id == b.id.value
  {
    Phone(if b.id.Some? then b.id.value else p.id,
          if b.name.Some? then b.name.value else p.name,
          if b.brand.Some? then b.brand.value else p.brand,
          if b.price.Some? then b.price.value else p.price,
          if b.stock.Some? then b.stock.value else p.stock)
  }

  /**
   * With the spread merge, PUT /phones/3 with body {"id": 1, "stock": 7} passes the guard and
   * leaves the seed collection holding id 1 twice; GET /phones/1 then never reaches the second.
   */
  lemma SpreadMergeDuplicatesIds()
    ensures var s := Seed();
            var b := Fields(None, None, None, Some(7), Some(1));
            var k := FindIndex(s, Some(3));
            var t := s[k := SpreadMerge(s[k], b)];
            && HasSomeField(b) && k == 2
            && t[0].id == t[2].id == 1 && !WellNumbered(t)
            && Find(t, Some(1)) == Some(t[0]) && t[0] != t[2]
  {
    var s := Seed();
    assert FindIndex(s, Some(3)) == 2 by { FindOwnId(s, 2); }
  }

  // ---------------------------------------------------------------------------
  // The store

  /** The process-wide collection, and the handler that serves requests against it. */
  class Store {
    var phones: seq<Phone>

    /** The collection has positive, strictly increasing ids. */
    predicate Valid()
      reads this
    {
      WellNumbered(phones)
    }

    constructor ()
      ensures phones == Seed() && Valid()
    {
      phones := Seed();
    }

    method Create(body: Body) returns (out: Outcome)
      modifies this
      ensures CreateSpec(old(phones), body, out, phones)
      ensures old(Valid()) ==> Valid()
      ensures old(Valid()) && out.Created? ==> Get(phones, Some(out.phone.id)) == Ok(out.phone)
    {
      if body.Malformed? {
        return InvalidJson;
      }
      if !Truthy(body.name) || !Truthy(body.brand) || body.price.None? || body.stock.None? {
        return MissingFields;
      }
      var id := if |phones| > 0 then phones[|phones| - 1].id + 1 else 1;
      var p := Phone(id, body.name.value, body.brand.value, body.price.value, body.stock.value);
      ghost var before := phones;
      phones := phones + [p];
      out := Created(p);
      if WellNumbered(before) {
        CreateThenGet(before, body, out, phones);
      }
    }

    method Update(id: Option<int>, body: Body) returns (out: Outcome)
      modifies this
      ensures UpdateSpec(old(phones), id, body, out, phones)
      ensures old(Valid()) ==> Valid()
      ensures old(Valid()) && out.Ok? ==> Get(phones, id) == Ok(out.phone)
    {
      var k := FindIndex(phones, id);
      if k == -1 {
        return NotFound;
      }
      if body.Malformed? {
        return InvalidJson;
      }
      if !Truthy(body.name) && !Truthy(body.brand) && body.price.None? && body.stock.None? {
        return NothingToUpdate;
      }
      ghost var before := phones;
      var m := Merge(phones[k], body);
      phones := phones[k := m];
      out := Ok(m);
      if WellNumbered(before) {
        UpdateThenGet(before, id, body, out, phones);
      }
    }

    method Delete(id: Option<int>) returns (out: Outcome)
      modifies this
      ensures DeleteSpec(old(phones), id, out, phones)
      ensures old(Valid()) ==> Valid()
      ensures old(Valid()) && out.Ok? ==> Get(phones, id) == NotFound
    {
      var k := FindIndex(phones, id);
      if k == -1 {
        return NotFound;
      }
      ghost var before := phones;
      out := Ok(phones[k]);
      phones := phones[..k] + phones[k + 1..];
      if WellNumbered(before) {
        DeleteThenGet(before, id, out, phones);
      }
    }

    /** Serves one request: route, then list, get, create, update, delete or "Not Found". */
    method Handle(req: Request) returns (resp: Response)
      modifies this
      ensures HandleSpec(old(phones), req, resp, phones)
      ensures old(Valid()) ==> Valid()
    {
      match RouteOf(req.verb, req.path)
      case ListPhones =>
        resp := Response(200, Records(List(phones, req.brand, req.maxPrice)));
      case GetPhone =>
        resp := Respond(Get(phones, PathId(req.path)));
      case CreatePhone =>
        var out := Create(req.body);
        resp := Respond(out);
      case UpdatePhone =>
        var out := Update(PathId(req.path), req.body);
        resp := Respond(out);
      case DeletePhone =>
        var out := Delete(PathId(req.path));
        resp := Respond(out);
      case NoRoute =>
        resp := NoRouteResponse();
    }
  }
}
