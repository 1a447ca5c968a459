/** The product catalog RPC service: list, get-by-id with fault injection,
    search, and the gRPC health responder. The process-wide catalog and
    failure rate are held in an immutable `ProductCatalog` value built once
    at start-up; the random draw and the flag evaluation of each call are
    inputs. */
module ProductCatalogService {
  import opened Optional
  import opened Text
  import opened Catalog
  import opened Faults
  import Config

  /** The gRPC status codes the service returns. */
  datatype Code = OK | NotFound | Internal | Unimplemented {
    function Number(): (n: nat)
      ensures this == OK <==> n == 0
    {
      match this
      case OK => 0
      case NotFound => 5
      case Unimplemented => 12
      case Internal => 13
    }
  }

  /** A gRPC error: a code and a message. */
  datatype Status = Status(code: Code, message: string)

  /** The service state shared by all requests, fixed after start-up. */
  datatype ProductCatalog = ProductCatalog(catalog: seq<Product>, failRatePerThousand: int)

  datatype Empty = Empty
  datatype GetProductRequest = GetProductRequest(id: string)
  datatype SearchProductsRequest = SearchProductsRequest(query: string)
  datatype ListProductsResponse = ListProductsResponse(products: seq<Product>)
  datatype SearchProductsResponse = SearchProductsResponse(results: seq<Product>)
  datatype HealthCheckRequest = HealthCheckRequest(service: string)
  datatype ServingStatus = Unknown | Serving | NotServing | ServiceUnknown
  datatype HealthCheckResponse = HealthCheckResponse(status: ServingStatus)

  /** What a GetProduct call ends in: the product, a returned error, or a
      simulated crash (a panic, not an error reply) at the given rate. */
  datatype GetProductResult =
    | Ok(product: Product)
    | Err(status: Status)
    | Crash(failRatePerThousand: int)

  const FlagFailureMessage: string := "Error: ProductCatalogService Fail Feature Flag Enabled"
  const NotFoundPrefix: string := "Product Not Found: "
  const WatchMessage: string := "health check via Watch not implemented"

  /** Start-up: the loaded catalog and the failure rate from its setting. */
  function Init(catalog: seq<Product>, setting: string, atoi: string -> Option<int>): (svc: ProductCatalog)
    ensures svc.catalog == catalog
    ensures setting == "" ==> svc.failRatePerThousand == Config.DefaultFailRatePerThousand
    ensures setting != "" && atoi(setting).Some? ==> svc.failRatePerThousand == atoi(setting).value
    ensures setting != "" && atoi(setting).None? ==> svc.failRatePerThousand == Config.DefaultFailRatePerThousand
  {
    ProductCatalog(catalog, Config.FailRatePerThousand(setting, atoi))
  }

  /** The health check always reports SERVING. */
  function Check(req: HealthCheckRequest): (r: HealthCheckResponse)
    ensures r.status == Serving
  {
    HealthCheckResponse(Serving)
  }

  /** The streaming health check is not supported. */
  function Watch(req: HealthCheckRequest): (r: Status)
    ensures r.code == Unimplemented && r.code.Number() == 12
    ensures r.message == WatchMessage
  {
    Status(Unimplemented, WatchMessage)
  }

  /** Listing returns the whole catalog, unchanged and in order. */
  function ListProducts(svc: ProductCatalog, req: Empty): (r: ListProductsResponse)
    ensures |r.products| == |svc.catalog|
    ensures forall i :: 0 <= i < |svc.catalog| ==> r.products[i] == svc.catalog[i]
  {
    ListProductsResponse(svc.catalog)
  }

  /** GetProduct: first the random fault, then the flag gate, then the
      catalog scan. */
  function GetProduct(svc: ProductCatalog, req: GetProductRequest, draw: Draw, flag: Option<bool>): (r: GetProductResult)
    ensures r.Crash? <==> draw < svc.failRatePerThousand
    ensures r.Crash? ==> r.failRatePerThousand == svc.failRatePerThousand
    ensures r.Err? ==> r.status.code == Internal || r.status.code == NotFound
    ensures (r.Err? && r.status.code == Internal) <==>
              draw >= svc.failRatePerThousand && req.id == SentinelId && flag == Some(true)
    ensures r.Err? && r.status.code == Internal ==> r.status.message == FlagFailureMessage
    ensures (r.Err? && r.status.code == NotFound) <==>
              && draw >= svc.failRatePerThousand
              && !(req.id == SentinelId && flag == Some(true))
              && !HasId(svc.catalog, req.id)
    ensures r.Err? && r.status.code == NotFound ==> r.status.message == NotFoundPrefix + req.id
    ensures r.Ok? ==> exists i :: IsFirstMatch(svc.catalog, req.id, i) && svc.catalog[i] == r.product
  {
    if RandomFaultFires(draw, svc.failRatePerThousand) then
      Crash(svc.failRatePerThousand)
    else if CheckProductFailure(req.id, flag) then
      Err(Status(Internal, FlagFailureMessage))
    else
      match Lookup(svc.catalog, req.id)
      case None => Err(Status(NotFound, NotFoundPrefix + req.id))
      case Some(p) => Ok(p)
  }

  /** Search never fails; it returns exactly the matching products, each as
      often as in the catalog, in catalog order. */
  function SearchProducts(svc: ProductCatalog, req: SearchProductsRequest): (r: SearchProductsResponse)
    ensures forall p :: multiset(r.results)[p] == if Matches(p, req.query) then multiset(svc.catalog)[p] else 0
    ensures IsSubsequence(r.results, svc.catalog)
  {
    SearchIsSubsequence(svc.catalog, req.query);
    SearchMultiplicity(svc.catalog, req.query);
    SearchProductsResponse(Search(svc.catalog, req.query))
  }

  /** With neither fault injected, a product with no earlier namesake is
      what GetProduct returns for its id. */
  lemma GetProductReturnsFirstMatch(svc: ProductCatalog, i: int, draw: Draw, flag: Option<bool>)
    requires 0 <= i < |svc.catalog|
    requires forall j :: 0 <= j < i ==> svc.catalog[j].id != svc.catalog[i].id
    requires draw >= svc.failRatePerThousand
    requires !(svc.catalog[i].id == SentinelId && flag == Some(true))
    ensures GetProduct(svc, GetProductRequest(svc.catalog[i].id), draw, flag) == Ok(svc.catalog[i])
  {
    LookupReturnsEarliest(svc.catalog, i);
  }

  /** With unique ids and no fault injected, every catalog product is
      returned by GetProduct for its own id. */
  lemma GetProductFindsEveryProduct(svc: ProductCatalog, i: int, draw: Draw, flag: Option<bool>)
    requires UniqueIds(svc.catalog)
    requires 0 <= i < |svc.catalog|
    requires draw >= svc.failRatePerThousand
    requires !(svc.catalog[i].id == SentinelId && flag == Some(true))
    ensures GetProduct(svc, GetProductRequest(svc.catalog[i].id), draw, flag) == Ok(svc.catalog[i])
  {
    LookupFindsEveryProduct(svc.catalog, i);
  }

  /** An id absent from the catalog yields NotFound naming that id, never
      a product. */
  lemma GetProductUnknownId(svc: ProductCatalog, id: string, draw: Draw, flag: Option<bool>)
    requires forall i :: 0 <= i < |svc.catalog| ==> svc.catalog[i].id != id
    requires draw >= svc.failRatePerThousand
    requires !(id == SentinelId && flag == Some(true))
    ensures GetProduct(svc, GetProductRequest(id), draw, flag) == Err(Status(NotFound, "Product Not Found: " + id))
  {
  }

  /** A rate of zero (or less) never crashes; a rate of a thousand (or
      more) always crashes, before the flag or the catalog is consulted. */
  lemma RandomFaultBounds(svc: ProductCatalog, req: GetProductRequest, draw: Draw, flag: Option<bool>)
    ensures svc.failRatePerThousand <= 0 ==> !GetProduct(svc, req, draw, flag).Crash?
    ensures svc.failRatePerThousand >= DrawBound ==> GetProduct(svc, req, draw, flag) == Crash(svc.failRatePerThousand)
  {
  }

  /** With the flag on and no random fault, the sentinel id fails with an
      internal error even when the catalog holds that product. */
  lemma FlagFailsSentinel(svc: ProductCatalog, draw: Draw)
    requires draw >= svc.failRatePerThousand
    ensures GetProduct(svc, GetProductRequest(SentinelId), draw, Some(true)) ==
            Err(Status(Internal, FlagFailureMessage))
  {
  }

  /** With the flag off or unavailable, the sentinel id gets the same
      answer as with no flag at all: the ordinary lookup. */
  lemma FlagOffIsOrdinaryLookup(svc: ProductCatalog, draw: Draw, flag: Option<bool>)
    requires flag != Some(true)
    ensures GetProduct(svc, GetProductRequest(SentinelId), draw, flag) ==
            GetProduct(svc, GetProductRequest(SentinelId), draw, None)
  {
  }

  /** For any id other than the sentinel the flag has no influence. */
  lemma FlagIrrelevantForOtherIds(svc: ProductCatalog, req: GetProductRequest, draw: Draw, f1: Option<bool>, f2: Option<bool>)
    requires req.id != SentinelId
    ensures GetProduct(svc, req, draw, f1) == GetProduct(svc, req, draw, f2)
  {
  }

  /** The empty query returns the whole catalog. */
  lemma SearchProductsEmptyQuery(svc: ProductCatalog)
    ensures SearchProducts(svc, SearchProductsRequest("")).results == svc.catalog
  {
    SearchEmptyQuery(svc.catalog);
  }

  /** A query that matches nothing returns an empty result, not an error. */
  lemma SearchProductsNoMatch(svc: ProductCatalog, query: string)
    requires forall i :: 0 <= i < |svc.catalog| ==> !Matches(svc.catalog[i], query)
    ensures SearchProducts(svc, SearchProductsRequest(query)).results == []
  {
    SearchEmptyIffNoMatch(svc.catalog, query);
  }

  /** A two-product catalog of a red and a blue mug. */
  function MugCatalog(): (svc: ProductCatalog)
    ensures |svc.catalog| == 2 && svc.failRatePerThousand == 0
  {
    ProductCatalog([MugProduct("A", "Red Mug"), MugProduct("B", "Blue Mug")], 0)
  }

  /** Searching the mug catalog for "mug" finds both mugs, in order. */
  lemma MugSearchBoth()
    ensures SearchProducts(MugCatalog(), SearchProductsRequest("mug")).results == MugCatalog().catalog
  {
    MugExampleMatches();
    SearchTwo(MugProduct("A", "Red Mug"), MugProduct("B", "Blue Mug"), "mug");
  }

  /** Searching the mug catalog for "red" finds only the red mug. */
  lemma MugSearchRed()
    ensures SearchProducts(MugCatalog(), SearchProductsRequest("red")).results == [MugProduct("A", "Red Mug")]
  {
    MugExampleMatches();
    SearchTwo(MugProduct("A", "Red Mug"), MugProduct("B", "Blue Mug"), "red");
  }

  /** An id the mug catalog lacks is not found, whatever the draw. */
  lemma MugGetUnknown(draw: Draw)
    ensures GetProduct(MugCatalog(), GetProductRequest("C"), draw, None) == Err(Status(NotFound, "Product Not Found: C"))
  {
    var svc := MugCatalog();
    assert svc.catalog[0].id != "C" && svc.catalog[1].id != "C";
    GetProductUnknownId(svc, "C", draw, None);
  }

  lemma SearchTwo(a: Product, b: Product, query: string)
    ensures Search([a, b], query) == Kept(a, query) + Kept(b, query)
  {
    SearchUnfold([a, b], query);
    assert [a, b][1..] == [b];
    SearchUnfold([b], query);
    assert [b][1..] == [];
  }

  function MugProduct(id: string, name: string): (p: Product)
    ensures p.id == id && p.name == name && p.description == ""
  {
    Product(id, name, "", "", Money("USD", 0, 0), [])
  }

  lemma MugExampleMatches()
    ensures Matches(MugProduct("A", "Red Mug"), "mug")
    ensures Matches(MugProduct("B", "Blue Mug"), "mug")
    ensures Matches(MugProduct("A", "Red Mug"), "red")
    ensures !Matches(MugProduct("B", "Blue Mug"), "red")
  {
    RedMugMatchesMug();
    BlueMugMatchesMug();
    RedMugMatchesRed();
    BlueMugMissesRed();
  }

  lemma RedMugMatchesMug()
    ensures Matches(MugProduct("A", "Red Mug"), "mug")
  {
    LowerRedMug();
    LowerShortWords();
    assert OccursAt("red mug", "mug", 4);
  }

  lemma BlueMugMatchesMug()
    ensures Matches(MugProduct("B", "Blue Mug"), "mug")
  {
    LowerBlueMug();
    LowerShortWords();
    assert OccursAt("blue mug", "mug", 5);
  }

  lemma RedMugMatchesRed()
    ensures Matches(MugProduct("A", "Red Mug"), "red")
  {
    LowerRedMug();
    LowerShortWords();
    assert OccursAt("red mug", "red", 0);
  }

  lemma BlueMugMissesRed()
    ensures !Matches(MugProduct("B", "Blue Mug"), "red")
  {
    LowerBlueMug();
    LowerShortWords();
    MissingCharNotContained("blue mug", "red", 'r');
    MissingCharNotContained("", "red", 'r');
  }

  lemma LowerShortWords()
    ensures ToLower("mug") == "mug" && ToLower("red") == "red" && ToLower("") == ""
  {
    var mug, red := ToLower("mug"), ToLower("red");
    assert mug[0] == 'm' && mug[1] == 'u' && mug[2] == 'g';
    assert red[0] == 'r' && red[1] == 'e' && red[2] == 'd';
  }

  lemma LowerRedMug()
    ensures ToLower("Red Mug") == "red mug"
  {
    var r := ToLower("Red Mug");
    assert r[0] == 'r' && r[1] == 'e' && r[2] == 'd' && r[3] == ' ' && r[4] == 'm' && r[5] == 'u' && r[6] == 'g';
  }

  lemma LowerBlueMug()
    ensures ToLower("Blue Mug") == "blue mug"
  {
    var r := ToLower("Blue Mug");
    assert r[0] == 'b' && r[1] == 'l' && r[2] == 'u' && r[3] == 'e';
    assert r[4] == ' ' && r[5] == 'm' && r[6] == 'u' && r[7] == 'g';
  }
}
