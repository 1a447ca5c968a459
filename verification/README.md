# Product catalog service: a Dafny model

This project models the request-handling core of the product catalog
service of the OpenTelemetry demo (`src/productcatalogservice/main.go`):

- the immutable catalog (`Catalog.Product`, a `seq<Product>`) and its two
  queries: lookup by id, which scans linearly and keeps the first match,
  and text search, an order-preserving filter on case-insensitive substring
  matches in the name or the description;
- the fault-injection pipeline of `GetProduct`, which runs in a fixed order:
  1. the random fault: a draw in [0, 1000) below `failRatePerThousand`
     panics;
  2. the feature-flag gate, which applies only to the sentinel id
     `"OLJCESPC7Z"`;
  3. the catalog scan, which ends in the product or in NotFound;
- the trivial responders: `ListProducts`, the health `Check` (always
  SERVING) and `Watch` (always Unimplemented);
- the start-up rule for the failure rate: 5 unless the setting is non-empty
  and parses as an integer.

Each request is modelled as a pure function of the immutable service state
(`ProductCatalogService.ProductCatalog`: the catalog and the failure rate)
and that request's own inputs. The random draw is a value of type
`Faults.Draw` (an integer in [0, 1000), as `rand.Intn(1000)` yields). The
flag evaluation is an `Option<bool>`, where `None` stands for an evaluation
that failed and so falls back to the default `false`. The integer parser
`strconv.Atoi` is a parameter `atoi: string -> Option<int>`. Go's `panic`
on the random fault is the result variant `GetProductResult.Crash`. It is
kept apart from the error replies `Err(Status(Internal, …))` and
`Err(Status(NotFound, …))`. In the service that panic ends the whole
process (see "## Left out").

Files:

- `optional.dfy`: `Option`.
- `text.dfy`: ASCII `ToLower` and `Contains` with the semantics of Go's
  `strings.Contains`.
- `catalog.dfy`: products, first-match lookup and search.
- `faults.dfy`: the random draw and the flag gate.
- `config.dfy`: the failure-rate default.
- `service.dfy`: the RPC handlers and the lemmas about the whole pipeline.

The code takes any parsed integer as the failure rate, without a range
check (main.go:77-83), so a negative rate never fires and a rate of 1000 or
more always fires (`Faults.FiringDrawCount`,
`ProductCatalogService.RandomFaultBounds`).

## Model

| member | source | states |
|---|---|---|
| Text.ToLower | src/productcatalogservice/main.go:332-333 | lower-casing keeps the length, maps every character through the ASCII lower-case map and leaves no upper-case ASCII letter |
| Text.ToLowerIdempotent | src/productcatalogservice/main.go:332-333 | lower-casing an already lower-cased string changes nothing |
| Text.Contains | src/productcatalogservice/main.go:332-333 | the substring test is true exactly when the needle occurs at some position of the haystack, so the empty needle is contained in every string |
| Text.MissingCharNotContained | src/productcatalogservice/main.go:332-333 | a haystack lacking some character of the needle does not contain it |
| Catalog.FirstMatch | src/productcatalogservice/main.go:303-309 | the scan stops at the earliest position holding the id, and finds nothing exactly when no product has that id |
| Catalog.FirstMatchIsUnique | src/productcatalogservice/main.go:303-309 | there is at most one earliest position for an id |
| Catalog.Lookup | src/productcatalogservice/main.go:303-309 | the lookup yields a product exactly when some product has the id; that product has the id, belongs to the catalog, and sits at the first matching position |
| Catalog.LookupReturnsEarliest | src/productcatalogservice/main.go:303-309 | a product with no earlier product of the same id is what the lookup returns, whatever duplicates follow it |
| Catalog.LookupFindsEveryProduct | src/productcatalogservice/main.go:303-309 | with unique ids, every catalog product is found by its own id |
| Catalog.LookupShadowsLaterDuplicate | src/productcatalogservice/main.go:304-308 | with a duplicate id, the lookup returns a product from the earlier position or before it, so the later duplicate never wins |
| Catalog.Search | src/productcatalogservice/main.go:330-336 | the result is no longer than the catalog, and a product is in the result exactly when it is in the catalog and its lower-cased name or description contains the lower-cased query |
| Catalog.SearchMultiplicity | src/productcatalogservice/main.go:330-336 | every matching product occurs in the result as often as in the catalog, and every other product does not occur at all |
| Catalog.SearchIsSubsequence | src/productcatalogservice/main.go:330-336 | the search result is a subsequence of the catalog, so catalog order is kept |
| Catalog.SubsequenceMultiset | src/productcatalogservice/main.go:330-336 | a subsequence holds no element more often than the sequence it is taken from |
| Catalog.SearchDetermined | src/productcatalogservice/main.go:330-336 | any subsequence of the catalog that holds every matching product as often as the catalog does, and no other product, equals the search result, so order and multiplicities fix the result completely |
| Catalog.SearchConcat | src/productcatalogservice/main.go:330-336 | searching a concatenation is the concatenation of the searches, so results from earlier catalog entries always come first |
| Catalog.SearchAllMatch | src/productcatalogservice/main.go:330-336 | when every product matches, the search returns the catalog unchanged |
| Catalog.SearchEmptyQuery | src/productcatalogservice/main.go:331-336 | the empty query returns the whole catalog |
| Catalog.SearchEmptyIffNoMatch | src/productcatalogservice/main.go:330-336 | the search result is empty exactly when no product matches |
| Catalog.SearchIgnoresQueryCase | src/productcatalogservice/main.go:332-333 | two queries that agree after lower-casing give the same results |
| Catalog.SearchLowerCasedQuery | src/productcatalogservice/main.go:332-333 | a query and its lower-cased form give the same results |
| Faults.FiringDraws | src/productcatalogservice/main.go:283-284 | a draw in [0, 1000) makes the random fault fire exactly when it is below the rate |
| Faults.FiringDrawCount | src/productcatalogservice/main.go:283-284 | a rate r in [0, 1000] fires on exactly r of the 1000 equally likely draws; a rate of zero or less fires on none, and a rate of 1000 or more fires on all 1000 |
| Faults.FlagEnabled | src/productcatalogservice/main.go:349-351 | the flag counts as on only when the evaluation succeeded with true; a failed evaluation yields the default false |
| Faults.CheckProductFailure | src/productcatalogservice/main.go:343-353 | the gate fails a request exactly when the id is the sentinel `OLJCESPC7Z` and the flag is on |
| Faults.GateIgnoresFlagForOtherIds | src/productcatalogservice/main.go:344-346 | for any id other than the sentinel, the gate answers false whatever the flag |
| Config.FailRatePerThousand | src/productcatalogservice/main.go:75-84 | the rate is 5 when the setting is empty or does not parse, and otherwise the parsed integer, without clamping |
| Config.FailRateOrigin | src/productcatalogservice/main.go:75-84 | the rate is either the default or the parsed value of a non-empty setting |
| ProductCatalogService.Init | src/productcatalogservice/main.go:75-89 | start-up keeps the loaded catalog and sets the rate by the defaulting rule |
| ProductCatalogService.Check | src/productcatalogservice/main.go:256-258 | the health check always reports SERVING |
| ProductCatalogService.Watch | src/productcatalogservice/main.go:260-262 | the streaming health check always fails with Unimplemented (gRPC code 12) and a fixed message |
| ProductCatalogService.ListProducts | src/productcatalogservice/main.go:264-271 | listing returns exactly the catalog: the same count and the same product at every position |
| ProductCatalogService.GetProduct | src/productcatalogservice/main.go:273-325 | the call crashes exactly when the draw is below the rate. If it does not crash, it returns Internal exactly for the sentinel id with the flag on. Otherwise it returns NotFound with message `Product Not Found: <id>` exactly when no product has the id, and in the remaining case the first product in catalog order with that id |
| ProductCatalogService.SearchProducts | src/productcatalogservice/main.go:327-341 | search never fails; the results keep catalog order and contain each matching product exactly as often as the catalog does, and no other product |
| ProductCatalogService.GetProductReturnsFirstMatch | src/productcatalogservice/main.go:303-324 | with no fault injected, GetProduct on the id of a product with no earlier namesake returns that product |
| ProductCatalogService.GetProductFindsEveryProduct | src/productcatalogservice/main.go:303-324 | with unique ids and no fault injected, GetProduct returns each catalog product for its own id |
| ProductCatalogService.GetProductUnknownId | src/productcatalogservice/main.go:311-316 | with no fault injected, an id absent from the catalog yields NotFound carrying that id, never a product |
| ProductCatalogService.RandomFaultBounds | src/productcatalogservice/main.go:282-291 | a rate of zero or less never crashes, and a rate of 1000 or more always crashes before the flag or the catalog is consulted |
| ProductCatalogService.FlagFailsSentinel | src/productcatalogservice/main.go:294-301 | with the flag on and no random fault, the sentinel id gets Internal even when the catalog holds that product |
| ProductCatalogService.FlagOffIsOrdinaryLookup | src/productcatalogservice/main.go:294-309 | with the flag off or its evaluation failed, the sentinel id gets the same answer as with no flag at all |
| ProductCatalogService.FlagIrrelevantForOtherIds | src/productcatalogservice/main.go:343-346 | for ids other than the sentinel, GetProduct does not depend on the flag |
| ProductCatalogService.SearchProductsEmptyQuery | src/productcatalogservice/main.go:330-336 | the empty query returns the whole catalog |
| ProductCatalogService.SearchProductsNoMatch | src/productcatalogservice/main.go:330-340 | a query that matches nothing returns an empty result, not an error |
| ProductCatalogService.MugSearchBoth | src/productcatalogservice/main.go:330-336 | in a catalog of "Red Mug" and "Blue Mug", the query "mug" finds both, in order |
| ProductCatalogService.MugSearchRed | src/productcatalogservice/main.go:330-336 | in the same catalog, the query "red" finds only the red mug |
| ProductCatalogService.MugGetUnknown | src/productcatalogservice/main.go:311-316 | in the same catalog with rate 0, looking up id "C" yields NotFound with message `Product Not Found: C` |

## Left out

- Transport and process bootstrap (`main`, the gRPC server, signal handling, graceful stop): I/O and concurrency.
- Telemetry (`initResource`, `initTracerProvider`, `initMeterProvider`), span attributes and events, and logrus logging: side effects with no bearing on any reply.
- `readProductFiles`: directory and file I/O and protobuf JSON decoding. The catalog is a given `seq<Product>`, and a load failure (which exits the process) is not modelled.
- `mustMapEnv` and `createClient`: environment and network plumbing.
- The OpenFeature client, its hook registration and the flagd provider. The flag evaluation is an input `Option<bool>`.
- `rand.Seed` and `rand.Intn`: the draw is an input of type `Faults.Draw`. `Faults.FiringDrawCount` states the share of firing draws instead of a probability.
- `strconv.Atoi`: a parameter `atoi`. Its syntax and its 64-bit range errors are not modelled.
- Text.ToLower: lower-cases ASCII letters only. Go's `strings.ToLower` also lower-cases non-ASCII letters by Unicode case mapping, so the model may disagree with the service for such text.
- Text.Contains: works on characters, whereas Go's `strings.Contains` works on UTF-8 bytes. Both agree on valid text, because a valid UTF-8 string occurs in another exactly when its characters do.
- ProductCatalogService.GetProduct: the NotFound message is `Product Not Found: ` followed by the id. The source passes that text to `status.Errorf` as a format string, so an id containing `%` would be rewritten by Go's formatter. That rewriting is not modelled.
- ProductCatalogService.GetProduct: in the service a random fault ends the whole process, together with every request in flight. The panic is never recovered: the gRPC server installs no recovery interceptor. The model treats the crash as the result of that one request only.
- ProductCatalogService.GetProduct: a crash carries the failure rate instead of the formatted panic message, because the message is a fixed text around that rate.
- The service life cycle (uninitialized, serving, draining, stopped): it belongs to the transport layer, and the code holds no state for it.
- Request cancellation through the context: the handlers do not check the context themselves. A cancelled context can only make the flag evaluation fail, which the model takes as the input `None`.
