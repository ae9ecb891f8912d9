# SwiftOpenStreetMap in Dafny

A model of the pure logic in SwiftOpenStreetMap, a Swift client for the
Overpass API of OpenStreetMap. It covers three parts:

- **The query builder.** Tag predicates (`hasKey`, `hasValue`, `matchesValue`,
  `matchesKeyAndValue`, `not`), their validity and equality, the bracketed
  filter each one prints, and the node and way queries built from a set of
  tags and a bounding box (`QueryBuilder.dfy`, with a parser of the printed
  filters in `TagFragments.dfy`).
- **The decoded response.** Nodes, ways, elements and the response. A way
  holds node ids; `add(nodes:)` resolves them against a list of nodes, and
  every way in a response is resolved against all of that response's
  nodes. Elements are decoded from a JSON value that dispatches on `type`
  (`OverpassResponse.dfy`, over the JSON value model of `Json.dfy`).
- **The service.** The text a query is wrapped in before it is posted, the
  mapping of the HTTP status to the service's errors, and the mapping of a
  body that does not decode to `unknown` (`OverpassService.dfy`).

Supporting modules:

- `Wrappers.dfy`: `Option` and `Result`.
- `Ordering.dfy`: Swift's `sorted()` on strings, modelled as insertion sort
  under character-by-character lexicographic order, and `joined()`.
- `Sequences.dfy`: `map`, `filter` and `compactMap`, with their algebra.

### Modelling choices

- **Sets of tags.** A Swift `Set<Tag>` is passed as a sequence in an
  arbitrary iteration order. The builder's output is proved to depend only
  on the multiset of tags, and for duplicate-free sequences only on the set.
- **`Way.add(nodes:)`.** It is a `mutating` method on a value type. It is
  the method `AddNodes`, which takes the way and returns the updated copy.
  Its loop is proved against the specification function `Correlate`.
- **Numbers and dates.** `Double`s are reals. Swift's text form of a
  `Double` is a parameter `fmt`. The service's timestamp formatter is a
  parameter `parseDate`, and a `Date` is a real.
- **JSON and HTTP.** JSON input is a value of the datatype `Json`; the
  decoding of bytes into it is a parameter. The HTTP client is a parameter
  `send`, which maps the posted body to a response (an optional status and
  a body) or to the client's own error.
- **Unreachable branches.** `buildQuery` calls `fatalError` when the element
  kind and the recursion flag disagree. `BuildQuery` makes their agreement
  a precondition, which both callers, `nodeQuery` and `wayQuery`, meet.
- **Invalid tags and equality.** Equality between tags follows the code: a
  tag that is not valid is not equal to anything, itself included.

## Model

| member | source | states |
|---|---|---|
| QueryBuilder.InvalidForms | Sources/SwiftOpenStreetMap/Services/QueryBuilder.swift:33-42 | a tag is invalid exactly when it is `not(not(_))` or `not(matchesKeyAndValue(_,_))` |
| QueryBuilder.NegatedInvalidIsInvalid | Sources/SwiftOpenStreetMap/Services/QueryBuilder.swift:33-42 | negating an invalid tag gives an invalid tag |
| QueryBuilder.TagEqNeedsValid | Sources/SwiftOpenStreetMap/Services/QueryBuilder.swift:59-60 | tag equality holds only between valid tags, so an invalid tag is not equal to itself |
| QueryBuilder.TagEqIsStructural | Sources/SwiftOpenStreetMap/Services/QueryBuilder.swift:59-76 | on valid tags, `==` holds exactly when the tags are structurally equal, with `not` compared recursively |
| QueryBuilder.Query | Sources/SwiftOpenStreetMap/Services/QueryBuilder.swift:78-98 | the fragment is empty exactly for invalid tags; otherwise it starts with `[` and ends with `]` |
| QueryBuilder.BoxQuery | Sources/SwiftOpenStreetMap/Services/QueryBuilder.swift:23 | the bounding box prints as a parenthesised group |
| QueryBuilder.IsValid | Sources/SwiftOpenStreetMap/Services/QueryBuilder.swift:33-42 | whether a tag can be expressed; characterised by `InvalidForms` |
| QueryBuilder.TagEq | Sources/SwiftOpenStreetMap/Services/QueryBuilder.swift:59-76 | tag `==`; characterised by `TagEqNeedsValid` and `TagEqIsStructural` |
| QueryBuilder.Fragments | Sources/SwiftOpenStreetMap/Services/QueryBuilder.swift:103 | `tags.map { $0.query() }`: one fragment per tag; used by `TagsString` |
| QueryBuilder.TagsString | Sources/SwiftOpenStreetMap/Services/QueryBuilder.swift:103 | the sorted, joined fragments; order-independent by `TagsStringOrderIndependent`, blind to invalid tags by `InvalidTagsIgnored` |
| QueryBuilder.BuildQuery | Sources/SwiftOpenStreetMap/Services/QueryBuilder.swift:102-115 | the query starts with the element kind's name |
| QueryBuilder.NodeQuery | Sources/SwiftOpenStreetMap/Services/QueryBuilder.swift:1-3 | a node query is `node`, the sorted tag filters, the bounding box and `;` |
| QueryBuilder.WayQuery | Sources/SwiftOpenStreetMap/Services/QueryBuilder.swift:5-7 | a way query is `way`, the sorted tag filters, the bounding box and the recursion `;(._;>;);` |
| QueryBuilder.TagsStringOrderIndependent | Sources/SwiftOpenStreetMap/Services/QueryBuilder.swift:103 | the tag section depends only on the multiset of tags, not on the set's iteration order |
| QueryBuilder.QueriesOrderIndependent | Sources/SwiftOpenStreetMap/Services/QueryBuilder.swift:1-7 | node and way queries do not depend on the order in which the tags are visited |
| QueryBuilder.SetOrderIndependent | Sources/SwiftOpenStreetMap/Services/QueryBuilder.swift:1-7 | two duplicate-free listings of the same set of tags give the same queries |
| QueryBuilder.InvalidTagsIgnored | Sources/SwiftOpenStreetMap/Services/QueryBuilder.swift:96-97 | invalid tags contribute nothing to the tag section |
| QueryBuilder.EmptyTagSet | Sources/SwiftOpenStreetMap/Services/QueryBuilder.swift:107 | with no tags, a node query is `node` + bounding box + `;`, and likewise for ways |
| QueryBuilder.ExampleFragmentsSorted | Sources/SwiftOpenStreetMap/Services/QueryBuilder.swift:103 | `["good"="bye"]` sorts before `["hello"]` |
| QueryBuilder.ExampleFilterSection | Sources/SwiftOpenStreetMap/Services/QueryBuilder.swift:103 | the two example tags give the section `["good"="bye"]["hello"]` |
| QueryBuilder.ExampleBox | Sources/SwiftOpenStreetMap/Services/QueryBuilder.swift:23 | the example box prints as `(1.5, 1.75, 2.5, 2.75)` when the numbers print as written |
| QueryBuilder.TwoTagExample | Tests/SwiftOpenStreetMapTests/Services/QueryBuilderTest.swift:8-26 | the node and way queries for `hasKey("hello")` and `hasValue("good","bye")`, in either iteration order, are exactly those of the tests |
| QueryBuilder.ExampleAssembled | Sources/SwiftOpenStreetMap/Services/QueryBuilder.swift:102-113 | the example queries assembled from their sorted section and bounding box |
| TagFragments.QueryRoundTrip | Sources/SwiftOpenStreetMap/Services/QueryBuilder.swift:78-98 | a valid tag whose strings contain no `"` is read back from its fragment |
| TagFragments.QueryInjective | Sources/SwiftOpenStreetMap/Services/QueryBuilder.swift:78-98 | two such tags with the same fragment are the same tag, and `==` holds between them |
| TagFragments.QuoteCollision | Sources/SwiftOpenStreetMap/Services/QueryBuilder.swift:81-83 | strings are not escaped: `hasKey("a\"=\"b")` prints exactly as `hasValue("a","b")` |
| TagFragments.RoundTripKey | Sources/SwiftOpenStreetMap/Services/QueryBuilder.swift:80-90 | `hasKey` and its negation are read back from their fragments |
| TagFragments.RoundTripKeyAndValue | Sources/SwiftOpenStreetMap/Services/QueryBuilder.swift:86-87 | `matchesKeyAndValue` is read back from its fragment |
| TagFragments.RoundTripKeyOpValue | Sources/SwiftOpenStreetMap/Services/QueryBuilder.swift:82-94 | `hasValue` and `matchesValue`, and their negations, are read back from their fragments |
| Ordering.Sort | Sources/SwiftOpenStreetMap/Services/QueryBuilder.swift:103 | `sorted()` returns an ordered permutation of the fragments |
| Ordering.SortedUnique | Sources/SwiftOpenStreetMap/Services/QueryBuilder.swift:103 | there is only one ordered permutation of a list of fragments |
| Ordering.SortPermutationInvariant | Sources/SwiftOpenStreetMap/Services/QueryBuilder.swift:103 | sorting forgets the order of its input |
| Ordering.Join | Sources/SwiftOpenStreetMap/Services/QueryBuilder.swift:103 | `joined()` with no separator; a one-string list joins to that string, and `JoinAppend` states the rest |
| Ordering.JoinAppend | Sources/SwiftOpenStreetMap/Services/QueryBuilder.swift:103 | `joined()` of two lists is the concatenation of their joins |
| OverpassResponse.AddNodes | Sources/SwiftOpenStreetMap/Models/OverpassResponse.swift:92-99 | the updated way has the nodes that `Correlate` gives for its node ids; id, node ids and tags are unchanged |
| OverpassResponse.Correlate | Sources/SwiftOpenStreetMap/Models/OverpassResponse.swift:92-99 | the nodes that the ids resolve to; its meaning is stated by `CorrelateIds`, `CorrelateFirst`, `CorrelateAt` and `CorrelateLength`, and `AddNodes` is proved to compute it |
| OverpassResponse.WayWith | Sources/SwiftOpenStreetMap/Models/OverpassResponse.swift:101-107 | the way `with(nodes:)` returns; `With` is proved to compute it and `AddNodesIdempotent` states what it keeps |
| OverpassResponse.With | Sources/SwiftOpenStreetMap/Models/OverpassResponse.swift:101-107 | `with(nodes:)` gives a copy with the same id, node ids and tags, correlated against the nodes |
| OverpassResponse.CorrelateIds | Sources/SwiftOpenStreetMap/Models/OverpassResponse.swift:94-97 | the ids of the resolved nodes are the node ids with unmatched ids removed, order and repeats kept |
| OverpassResponse.CorrelateLength | Sources/SwiftOpenStreetMap/Models/OverpassResponse.swift:94-97 | there are at most as many resolved nodes as ids, and exactly as many exactly when every id has a node |
| OverpassResponse.CorrelateFirst | Sources/SwiftOpenStreetMap/Models/OverpassResponse.swift:95 | each resolved node is the first node in the list with its id |
| OverpassResponse.FirstWithId | Sources/SwiftOpenStreetMap/Models/OverpassResponse.swift:95 | `first(where:)` finds nothing exactly when no node has the id, and otherwise the earliest node that has it |
| OverpassResponse.CorrelateSnoc | Sources/SwiftOpenStreetMap/Models/OverpassResponse.swift:94-97 | resolving one more id appends its first node, or nothing when it has none |
| OverpassResponse.CorrelateAt | Sources/SwiftOpenStreetMap/Models/OverpassResponse.swift:94-97 | the k-th resolved node is the first node carrying the k-th id that has a node |
| OverpassResponse.CorrelateAllFound | Sources/SwiftOpenStreetMap/Models/OverpassResponse.swift:94-97 | when every id has a node, the resolved list is the first node of each id, position by position |
| OverpassResponse.AddNodesIdempotent | Sources/SwiftOpenStreetMap/Models/OverpassResponse.swift:92-99 | nodes resolved earlier are discarded, resolving twice against the same nodes changes nothing, and id, node ids and tags are kept |
| OverpassResponse.NewWay | Sources/SwiftOpenStreetMap/Models/OverpassResponse.swift:116-120 | a way built from node ids has no resolved nodes |
| OverpassResponse.WayFromNodes | Sources/SwiftOpenStreetMap/Models/OverpassResponse.swift:122-127 | a way built from nodes has their ids, in order, as its node ids |
| OverpassResponse.WayFromNodesRoundTrip | Sources/SwiftOpenStreetMap/Models/OverpassResponse.swift:122-127 | a way built from nodes with distinct ids resolves back to exactly those nodes |
| OverpassResponse.CorrelateAll | Sources/SwiftOpenStreetMap/Models/OverpassResponse.swift:94-97 | ids read off nodes with distinct ids resolve to those nodes, prefix by prefix |
| OverpassResponse.CorrelateFive | Sources/SwiftOpenStreetMap/Models/OverpassResponse.swift:94-97 | five ids, the last repeating the first, resolve position by position |
| OverpassResponse.CorrelateExample | Tests/SwiftOpenStreetMapTests/Models/ModelsTest.swift:120-186 | ids 21, 22, 23, 24, 21 against nodes 21, 20, 24, 22, 23 resolve to nodes 21, 22, 23, 24, 21 |
| OverpassResponse.FilterFiveMissing | Sources/SwiftOpenStreetMap/Models/OverpassResponse.swift:95 | of five ids where only the first (also the last) matches, the filter keeps those two |
| OverpassResponse.CorrelateTwice | Sources/SwiftOpenStreetMap/Models/OverpassResponse.swift:94-97 | ids whose matched entries are two copies of one id resolve to its node twice |
| OverpassResponse.CorrelateFiveMissing | Sources/SwiftOpenStreetMap/Models/OverpassResponse.swift:94-97 | five ids where only the repeated first one has a node resolve to that node twice |
| OverpassResponse.CorrelateMissingExample | Tests/SwiftOpenStreetMapTests/Models/ModelsTest.swift:188-219 | the same ids against node 21 alone resolve to node 21 twice |
| OverpassResponse.AsNode | Sources/SwiftOpenStreetMap/Models/OverpassResponse.swift:170-175 | `asNode()` gives a node exactly for a node element, and that node is the element's own |
| OverpassResponse.AsWay | Sources/SwiftOpenStreetMap/Models/OverpassResponse.swift:177-182 | `asWay()` gives a way exactly for a way element, and that way is the element's own |
| OverpassResponse.NodesOf | Sources/SwiftOpenStreetMap/Models/OverpassResponse.swift:29 | the node elements' nodes in order; stated by `ResponsePartition`, `PartitionOne` and `CompactMapWrapped` |
| OverpassResponse.WaysOf | Sources/SwiftOpenStreetMap/Models/OverpassResponse.swift:30-33 | the way elements' ways, each correlated against the given nodes; stated by `ResponseWaysCorrelated` |
| OverpassResponse.NewResponse | Sources/SwiftOpenStreetMap/Models/OverpassResponse.swift:24-34 | `Response(…elements:)`; its nodes and ways are stated by `ResponsePartition`, `PartitionOne`, `ResponseWaysCorrelated` and `ElementsRoundTrip` |
| OverpassResponse.ResponsePartition | Sources/SwiftOpenStreetMap/Models/OverpassResponse.swift:29-33 | collecting the nodes and the ways distributes over concatenation of the elements, so each kind keeps input order |
| OverpassResponse.PartitionOne | Sources/SwiftOpenStreetMap/Models/OverpassResponse.swift:29-33 | a node element contributes its node, a way element its way, and a relation nothing |
| OverpassResponse.ResponseWaysCorrelated | Sources/SwiftOpenStreetMap/Models/OverpassResponse.swift:29-33 | every way of the response is correlated against all of the response's nodes |
| OverpassResponse.LaterNodeResolves | Sources/SwiftOpenStreetMap/Models/OverpassResponse.swift:29-33 | a way listed before the node it references still resolves that node |
| OverpassResponse.Elements | Sources/SwiftOpenStreetMap/Models/OverpassResponse.swift:11-13 | `elements` is the nodes, wrapped, in order, followed by the ways, wrapped, in order |
| OverpassResponse.ElementsRoundTrip | Sources/SwiftOpenStreetMap/Models/OverpassResponse.swift:11-13 | building a response from a response's `elements` gives that response back |
| OverpassResponse.CompactMapWrapped | Sources/SwiftOpenStreetMap/Models/OverpassResponse.swift:29-30 | `compactMap` of the matching accessor undoes wrapping into elements |
| OverpassResponse.CompactMapSkipped | Sources/SwiftOpenStreetMap/Models/OverpassResponse.swift:29-30 | `compactMap` of the other accessor finds nothing among wrapped elements |
| OverpassResponse.LocationEq | Sources/SwiftOpenStreetMap/Models/OverpassResponse.swift:206-208 | location `==` compares latitude and longitude; used by `NodeEq` |
| OverpassResponse.NodeEq | Sources/SwiftOpenStreetMap/Models/OverpassResponse.swift:72-76 | node `==` compares id, location and tags; used by `WayEq` and `ElementEq`; `ElementEqIsEquality` shows it is equality on `NodeElement`s |
| OverpassResponse.WayEq | Sources/SwiftOpenStreetMap/Models/OverpassResponse.swift:109-114 | way `==`; shown to be equality by `WayEqIsEquality` |
| OverpassResponse.ElementEq | Sources/SwiftOpenStreetMap/Models/OverpassResponse.swift:159-168 | element `==`; characterised by `ElementEqIsEquality` |
| OverpassResponse.ResponseEq | Sources/SwiftOpenStreetMap/Models/OverpassResponse.swift:15-22 | response `==`; shown to be equality by `ResponseEqIsEquality` |
| OverpassResponse.RelationEq | Sources/SwiftOpenStreetMap/Models/OverpassResponse.swift:135-137 | a relation is never equal to anything |
| OverpassResponse.WayEqIsEquality | Sources/SwiftOpenStreetMap/Models/OverpassResponse.swift:109-114 | way `==` is equality of id, tags, node ids and resolved nodes |
| OverpassResponse.ElementEqIsEquality | Sources/SwiftOpenStreetMap/Models/OverpassResponse.swift:159-168 | element `==` holds exactly for equal nodes or equal ways; never across cases and never for relations |
| OverpassResponse.ResponseEqIsEquality | Sources/SwiftOpenStreetMap/Models/OverpassResponse.swift:15-22 | response `==` is equality of all stored fields |
| OverpassResponse.DecodeKind | Sources/SwiftOpenStreetMap/Models/OverpassResponse.swift:145-149 | the discriminant is a node exactly for `"node"` and a way exactly for `"way"` |
| OverpassResponse.DecodeElement | Sources/SwiftOpenStreetMap/Models/OverpassResponse.swift:184-199 | `Element(from:)`; what it accepts and yields is stated by `DecodeKind`, `DecodeElementShape`, `DecodeElementFields`, `DecodeNodeObject`, `DecodeWayObject` and `DecodeEncode` |
| OverpassResponse.DecodeElementShape | Sources/SwiftOpenStreetMap/Models/OverpassResponse.swift:184-199 | decoding fails unless `type` is node or way and `id` is present; it never yields a relation; a decoded way has no resolved nodes |
| OverpassResponse.DecodeElementFields | Sources/SwiftOpenStreetMap/Models/OverpassResponse.swift:184-199 | a decoded element's id is the 64-bit `Int` under `id` and its tags those under `tags` (empty when absent or `null`); a node's location is `lat`/`lon`; a way decodes only with an integer list under `nodes`, which becomes its node ids |
| OverpassResponse.DecodeWayObject | Sources/SwiftOpenStreetMap/Models/OverpassResponse.swift:184-199 | conversely, a way object with a 64-bit id, readable tags and an integer `nodes` list decodes to exactly that way, with no resolved nodes |
| OverpassResponse.DecodeNodeObject | Sources/SwiftOpenStreetMap/Models/OverpassResponse.swift:184-194 | conversely, a node object with a 64-bit id, readable or absent tags and numeric `lat`/`lon` decodes to exactly that node, whatever other keys it has |
| OverpassResponse.WayWithoutTags | Sources/SwiftOpenStreetMap/Models/OverpassResponse.swift:189 | a way without `tags` decodes with an empty tag map |
| OverpassResponse.NodeWithoutTags | Sources/SwiftOpenStreetMap/Models/OverpassResponse.swift:189 | a node without `tags` decodes with an empty tag map |
| OverpassResponse.DecodeEncode | Sources/SwiftOpenStreetMap/Models/OverpassResponse.swift:184-199 | the JSON of a node, or of an unresolved way, decodes back to it when its ids fit in 64 bits |
| OverpassResponse.DecodeElements | Sources/SwiftOpenStreetMap/Models/OverpassResponse.swift:57 | the element list decodes exactly when every item does, item by item |
| OverpassResponse.DecodeVersion | Sources/SwiftOpenStreetMap/Models/OverpassResponse.swift:45-50 | a numeric version is turned into text, and otherwise the version must be a string |
| OverpassResponse.DecodeResponse | Sources/SwiftOpenStreetMap/Models/OverpassResponse.swift:43-59 | `Response(from:)`; stated by `DecodeResponseEnvelope`, `DecodeResponseFields`, `DecodeResponseAllOrNothing` and `DecodeVersion` |
| OverpassResponse.DecodeResponseEnvelope | Sources/SwiftOpenStreetMap/Models/OverpassResponse.swift:43-59 | a well-formed envelope (a version, a string generator, an `osm3s` object with a parseable timestamp and a string copyright, an elements array whose every item decodes) decodes to the response built from exactly those parts |
| OverpassResponse.DecodeResponseFields | Sources/SwiftOpenStreetMap/Models/OverpassResponse.swift:43-59 | a decoded response's version, generator, timestamp and copyright are the envelope's; a missing or malformed envelope field fails the decode |
| OverpassResponse.DecodeResponseAllOrNothing | Sources/SwiftOpenStreetMap/Models/OverpassResponse.swift:43-59 | a decoded response needs every element to decode, and is assembled from all of them |
| OverpassService.EndsWithSemicolon | Sources/SwiftOpenStreetMap/Services/OperpassService.swift:89 | `hasSuffix(";")`: the last character is `;`; used by `Format` |
| OverpassService.Format | Sources/SwiftOpenStreetMap/Services/OperpassService.swift:88-94 | the posted text starts with `[out:json];` and ends with `;out;` |
| OverpassService.FormatKeepsQuery | Sources/SwiftOpenStreetMap/Services/OperpassService.swift:89-93 | between the two, the query appears terminated exactly once; `;` is added exactly when it is missing |
| OverpassService.FormatTerminatorOptional | Tests/SwiftOpenStreetMapTests/Services/OverpassServiceTest.swift:43-61 | a query with or without its final `;` is posted as the same text |
| OverpassService.FormatInjective | Sources/SwiftOpenStreetMap/Services/OperpassService.swift:88-94 | different terminated queries are posted as different text |
| OverpassService.ErrorEq | Sources/SwiftOpenStreetMap/Services/OperpassService.swift:104-119 | error `==` holds exactly for the same case with equal payload |
| OverpassService.Classify | Sources/SwiftOpenStreetMap/Services/OperpassService.swift:64-85 | 200 gives the body; 400 a syntax error naming the query; 429 too many requests; 504 load; any other or no status unknown; a client failure is passed on as a client error |
| OverpassService.Data | Sources/SwiftOpenStreetMap/Services/OperpassService.swift:59-86 | the wrapped query is posted and its outcome classified by `Classify`; success means status 200 |
| OverpassService.Query | Sources/SwiftOpenStreetMap/Services/OperpassService.swift:27-42 | `query(_:)`; its outcomes are stated by `QueryOutcome` |
| OverpassService.QueryOutcome | Sources/SwiftOpenStreetMap/Services/OperpassService.swift:27-42 | a response only for a 200 body that decodes; unknown for a body that does not; every other error as `data(query:)` reported it |
| OverpassService.SyntaxNamesQuery | Tests/SwiftOpenStreetMapTests/Services/OverpassServiceTest.swift:128-131 | a syntax error carries the query as the caller wrote it |

## Left out

- `Tag.hashValue`: an XOR of library string hashes, with no property that callers rely on.
- `raw(query:)` and `JSONSerialization` are not part of this model. Neither is the transport: `HTTPClient`, the `URLRequest` with its method and `Accept` header, and the `Future` plumbing. The client is the parameter `send`.
- Parsing bytes into JSON, and `Codable` itself: decoding starts from a `Json` value, and the primitive conversions mimic `JSONDecoder`'s checks.
- The date formatter, with its locale, calendar and time zone: `parseDate` stands for it.
- The text form of a `Double`, and floating-point arithmetic: `fmt` stands for the former; latitude and longitude are reals compared with the mathematical `==`, so Swift's `Double` equality, under which NaN is unequal to itself and 0.0 equals -0.0, is not captured, and the `*IsEquality` lemmas are exact only over reals; the bounding box's reals are never compared, only printed through `fmt`.
- Unicode: strings are sequences of characters compared one character at a time, so Swift's Unicode-aware `String` ordering and equality are not captured.
- `Way.add(nodes:)` as an in-place update: the model returns an updated copy, which is what Swift's value semantics give; there is no aliasing to capture.
- `Response.elements` as a `lazy var`: Swift computes it on first access and keeps that value even if `nodes` or `ways` are later reassigned; the model recomputes it from the current fields every time, so the stale cache is not captured.
- A stricter correlation that rejects ids without nodes: the code has only the skipping behaviour.
- `QueryBuilder.BoxQuery`: states only that the box is parenthesised, because the digits depend on Swift's formatting of `Double`, which `fmt` abstracts.
- `OverpassResponse.DecodeElementShape`: does not state which error comes first when several keys are wrong; the decoder's order (type, id, tags, then location or node ids) is followed but not stated.
- `OverpassResponse.DecodeResponseAllOrNothing`: does not state which error `Response(from:)` reports; the service maps every decoding failure to `unknown`, so only success or failure is observable.
- `OverpassResponse.DecodeEncode`: covers only the one key set that `EncodeElement` builds, with `tags` present; objects without `tags`, as the service sends for untagged elements, are covered by `NodeWithoutTags`, `WayWithoutTags`, `DecodeNodeObject` and `DecodeWayObject`, and objects with extra keys by `DecodeNodeObject` and `DecodeWayObject` (which say they decode) and `DecodeElementFields` (which says what a decoded element is made of).
