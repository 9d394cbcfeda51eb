# Phone inventory service, modelled in Dafny

The service keeps an in-memory, insertion-ordered collection of phone records
`{id, name, brand, price, stock}`, seeded with ids 1, 2 and 3. One request handler serves
five routes over it:

- `GET /phones` lists records, optionally filtered by exact `brand` and inclusive `maxPrice`.
- `GET /phones/{id}` fetches one record.
- `POST /phones` creates a record. Its id is the last record's id + 1, or 1 when empty.
- `PUT /phones/{id}` merges supplied fields into a record.
- `DELETE /phones/{id}` splices a record out.

Anything else is answered 404 `Not Found`.

The model has four modules:

- `Phones` (`phones.dfy`): the record, the seed and the id rule (`NextId`). It also holds the
  two lookups the handler uses, `find` (`Find`) and `findIndex` (`FindIndex`). The invariant
  `WellNumbered` says ids are positive and strictly increasing in collection order, so they
  are unique.
- `Listing` (`listing.dfy`): `Array.prototype.filter` as `Select`, specified by order
  (`Subseq`) and exact multiplicities; and the list route as `List`.
- `Paths` (`paths.dfy`): `split('/')`, `parseInt` as ECMAScript defines it with no radix, the
  id read from the third path piece (`PathId`), and the route classifier `RouteOf`.
  `parseInt` skips leading white space, takes one sign and switches to base 16 after `0x`.
  Otherwise it reads the longest decimal digit prefix; NaN is `None`.
- `Inventory` (`inventory.dfy`): request bodies, outcomes and responses. `CreateSpec`,
  `UpdateSpec`, `DeleteSpec` and `HandleSpec` relate the collection before and after a
  request to the answer. The class `Store` holds the collection as a `seq` field. Its
  methods `Create`, `Update`, `Delete` and `Handle` change it in place and are proved against
  those relations.

A request body is taken as already parsed: `Malformed` or a record of optional fields. The
`maxPrice` query value is taken as already read as a number: `NoBound`, `AtMost(n)` or
`NotANumber`. Prices are integers.

The update route looks the id up before it reads the body. So an unknown id is answered 404
even when the body is not valid JSON. The update guard treats an empty `name` or `brand` as
not supplied. Yet when another field passes the guard, the merge still writes an empty
string that was sent.

## Model

| member | source | states |
|---|---|---|
| `Phones.Seed` | server.js:4-8 | the three seed records, and they are well numbered |
| `Phones.NextId` | server.js:70 | on a well-numbered collection the new id is positive and above every stored id |
| `Phones.FindIndex` | server.js:84 | first position whose id equals the parsed id, or -1 exactly when none matches; NaN matches nothing |
| `Phones.Find` | server.js:53 | a stored record with the parsed id, or none exactly when no record has it |
| `Phones.FindAtFindIndex` | server.js:53-59 | `find` returns the record at the index `findIndex` reports |
| `Phones.FindOwnId` | server.js:53 | in a well-numbered collection, looking up a record's own id finds that record at its position |
| `Phones.AppendNextKeepsWellNumbered` | server.js:69-76 | appending a record with the next id keeps ids positive and strictly increasing |
| `Phones.RemoveKeepsWellNumbered` | server.js:110 | splicing out one position keeps ids positive and strictly increasing |
| `Phones.RemovedIdIsGone` | server.js:110 | after splicing out a record of a well-numbered collection, its id finds nothing |
| `Phones.RemovingLastLowersNextId` | server.js:70 | once the last record is removed the next id is at most the removed id: ids get reissued |
| `Listing.Select` | server.js:41 | the filter keeps collection order and keeps every occurrence of the accepted records and nothing else |
| `Listing.SelectUnique` | server.js:41 | any order-preserving subsequence with those multiplicities is the filter's result |
| `Listing.ListIdempotent` | server.js:37-48 | listing the listing again with the same brand and bound gives the same listing |
| `Listing.List` | server.js:37-48 | the listing is a subsequence of the collection; it holds every record passing both active filters (brand equal, price at most the bound), with its multiplicity, and no other |
| `Listing.ListedRecordsAreStored` | server.js:38-46 | each listed record is stored and passes both active filters |
| `Listing.ListUnfiltered` | server.js:38-40 | an absent or empty brand and no bound list the whole collection in order |
| `Listing.ListNotANumberIsEmpty` | server.js:44-45 | a bound that is not a number lists nothing |
| `Paths.Split` | server.js:52 | at least one piece, none containing the separator |
| `Paths.JoinSplit` | server.js:52 | joining the pieces with the separator gives back the string |
| `Paths.ParseMagnitude` | server.js:52 | a number exactly when a decimal digit comes first, or, after a `0x`/`0X` prefix, a hexadecimal digit; no digit at all gives NaN |
| `Paths.ParseSigned` | server.js:52 | a number exactly when the magnitude after one sign is |
| `Paths.ParseInt` | server.js:52 | a number exactly when, after leading white space and one sign, a decimal digit comes first (and, after a `0x` prefix, a hexadecimal digit follows it); so a string with no decimal digit is NaN |
| `Paths.NonNumericIsNaN` | server.js:52-53 | a segment starting with a letter or other non-digit, non-sign, non-space character is NaN and so names no record |
| `Paths.ParseIntDecimal` | server.js:52 | parseInt reads a decimal numeral back, ignoring a non-digit tail, except "0" followed by "x" |
| `Paths.ParseIntNegativeDecimal` | server.js:52 | the same with a leading minus sign gives the negated value |
| `Paths.ParseSignedNegativeDecimal` | server.js:52 | after white space is skipped, a minus sign before a decimal numeral negates its value |
| `Paths.ParseIntSkipsWhitespace` | server.js:52 | any leading white space leaves parseInt's result unchanged |
| `Paths.ParseIntPlusDecimal` | server.js:52 | a plus sign before a decimal numeral (with a non-digit tail) reads as its value |
| `Paths.ParseSignedPlusDecimal` | server.js:52 | the sign step of the same fact, after white space is skipped |
| `Paths.ParseIntLeadingZeros` | server.js:52 | any number of leading zeros before a decimal numeral leaves its value; with no zeros, the "0x" exception as for `ParseIntDecimal` |
| `Paths.ParseIntSomeLeadingZeros` | server.js:52 | with at least one leading zero, no tail can turn the numeral hexadecimal |
| `Paths.ParseIntHex` | server.js:52 | "0x" followed by hexadecimal digits, and a tail that is no hexadecimal digit, reads as their base-16 value |
| `Paths.PathSegment` | server.js:52 | the third piece of the path, never containing a slash |
| `Paths.PhonesPathSegment` | server.js:52 | under "/phones/" the third piece is what follows up to the next slash |
| `Paths.PathId` | server.js:52 | the id expression, repeated at lines 83 and 104: a path with fewer than three pieces names no id; a number comes only from a third piece whose first character after white space and one sign is a decimal digit |
| `Paths.PathIdUnderPhones` | server.js:52 | under "/phones/" the id is parseInt of the text up to the next slash, whatever follows |
| `Paths.PathIdOfRecord` | server.js:52-53 | the path "/phones/" + decimal id reads back as that id |
| `Paths.EmptySegmentIsNaN` | server.js:52 | "/phones/" with nothing after it names no id |
| `Paths.RouteOf` | server.js:37-116 | each route is taken exactly when its method and path test holds: GET/POST on "/phones", GET/PUT/DELETE under "/phones/" |
| `Paths.RoutedPathHasSegment` | server.js:51-52 | every path routed to get, update or delete has a third piece |
| `Inventory.HasRequiredFields` | server.js:66 | a body the create guard accepts also passes the update guard; an empty name is refused (`CreateOutcomes` ties the guard to the 201 answer) |
| `Inventory.HasSomeField` | server.js:92 | only a parsed body passes; a price or stock, 0 included, is enough; empty or absent name and brand with no price or stock are refused (`UpdateOutcomes` ties the guard to the 200 answer) |
| `Inventory.NewPhone` | server.js:69-75 | the created record has id `NextId` (above every stored id) and exactly the body's name, brand, price and stock, name and brand non-empty |
| `Inventory.Merge` | server.js:95 | each supplied field overrides the stored one and each omitted field keeps it; the id never changes, so an empty body changes nothing |
| `Inventory.MergeIdempotent` | server.js:95 | merging the same body twice equals merging it once |
| `Inventory.Get` | server.js:51-59 | a stored record with the parsed id, or not found exactly when none has it |
| `Inventory.Respond` | server.js:18-21 | 200 exactly for a success, 201 exactly for a creation, 404 exactly for not found, 400 exactly for missing fields, nothing to update or invalid JSON; an error body exactly for 400 and 404; the record sent is the outcome's |
| `Inventory.RespondInjective` | server.js:55-111 | distinct outcomes get distinct responses |
| `Inventory.NoRouteResponse` | server.js:115-117 | 404 with an error that no operation's outcome produces |
| `Inventory.CreateOutcomes` | server.js:62-79 | created exactly when name and brand are non-empty and price and stock present (0 allowed); invalid JSON exactly on a malformed body; otherwise unchanged; on success one record appended with id last + 1 or 1 and exactly the body's four fields, the earlier records untouched |
| `Inventory.CreateThenGet` | server.js:69-76 | create keeps ids well numbered, and the created record is what get-by-id returns |
| `Inventory.UpdateOutcomes` | server.js:82-101 | ids and length never change; not found exactly when no record has the id; success exactly when the id exists and a field is supplied; on success only the found slot changes, to the merge |
| `Inventory.UpdateThenGet` | server.js:95-96 | update keeps ids well numbered, and get-by-id then returns the merged record |
| `Inventory.DeleteOutcomes` | server.js:103-113 | not found exactly when no record has the id, collection unchanged; otherwise returns the found record, length drops by one, the rest keep their order and the multiset loses exactly that record |
| `Inventory.SpliceMultiset` | server.js:110 | splicing one position out removes exactly that element from the multiset |
| `Inventory.SubseqDrop` | server.js:110 | splicing one position out leaves an order-preserving subsequence |
| `Inventory.DeleteThenGet` | server.js:110 | delete keeps ids well numbered, and the deleted id is then not found |
| `Inventory.HandleKeepsWellNumbered` | server.js:12-118 | every request keeps ids positive, strictly increasing and so unique |
| `Inventory.CreateThenFetch` | server.js:51-79 | POST answered 201 and then GET at the new record's path answers 200 with the same record |
| `Inventory.DeleteThenFetch` | server.js:51-113 | DELETE answered 200 and then GET at the same path answers 404 "Phone not found" |
| `Inventory.SeedListExamples` | server.js:4-48 | on the seed, brand "Apple" lists the iPhone and maxPrice 900 lists the Galaxy and the Pixel |
| `Inventory.SeedGetExample` | server.js:51-59 | on the seed, GET /phones/999 is not found |
| `Inventory.SeedCreateExamples` | server.js:62-79 | on the seed, a complete body is created with id 4, price and stock 0 included and a body id ignored; a body without stock or with an empty name is refused |
| `Inventory.SeedUpdateExamples` | server.js:82-101 | on the seed, an empty body is refused and {"price": 999} changes only the price |
| `Inventory.SpreadMerge` | server.js:95 | the spread merge takes the body's id when one is sent |
| `Inventory.SpreadMergeDuplicatesIds` | server.js:92-96 | with the spread merge one accepted update leaves the seed with id 1 twice |
| `Inventory.Store.constructor` | server.js:4-8 | the store starts with the seed, well numbered |
| `Inventory.Store.Create` | server.js:62-79 | the in-place append satisfies `CreateSpec` and keeps the invariant; a created record is then what get-by-id returns |
| `Inventory.Store.Update` | server.js:82-101 | the in-place slot overwrite satisfies `UpdateSpec` and keeps the invariant; on success get-by-id then returns the merged record |
| `Inventory.Store.Delete` | server.js:103-113 | the in-place splice satisfies `DeleteSpec` and keeps the invariant; on success the deleted id is then not found |
| `Inventory.Store.Handle` | server.js:12-118 | routes the request, answers as `HandleSpec` says, and keeps the invariant |

## Left out

- The HTTP server, response headers, `JSON.stringify`, `listen` and the start-up log line: process and network I/O.
- Reading the body in chunks and `JSON.parse`: a body arrives as `Body`, already parsed. A body that does not parse, or that parses to `null`, is `Malformed`.
- `url.parse`: a request arrives with its path and its `brand` and `maxPrice` query values separated out. A `brand` given several times, which arrives as an array and matches nothing, is not modelled.
- `parseFloat` and fractional prices: prices are integers, and `maxPrice` arrives as `PriceBound`.
- Field types: `name` and `brand` are strings and `price` and `stock` integers. The source accepts any JSON value that passes its truthiness and null tests.
- Inventory.Merge: a field sent as `null` counts as absent and keeps the stored value, whereas the object spread stores `null`. Unknown keys are not merged in, and the `id` key is ignored (see Findings).
- Paths.ParseInt: gives the exact integer, whereas JavaScript rounds numerals beyond 2^53 to the nearest double.
- The unused `cart` array.
- Concurrency: the update route finds its index before the body has arrived. A request that changes the collection in between is not modelled; each request is handled atomically.

## Findings

| source | as written | input that shows it | evidently intended | confidence | as-written member | corrected member |
|---|---|---|---|---|---|---|
| server.js:95 | the update merges with `{ ...phones[phoneIndex], ...body }`, so an `id` key in the body replaces the stored id | seed collection, `PUT /phones/3` with `{"id": 1, "stock": 7}`: id 1 appears twice and `GET /phones/1` never reaches the second record | ids stay unique; update changes only name, brand, price and stock, as create builds records from those four fields only | medium; not executed | `Inventory.SpreadMergeDuplicatesIds` | `Inventory.UpdateThenGet` |
