/** The status and body the catalog HTTP handlers answer with
    (app/api/candles/route.ts, app/api/candles/search/route.ts,
    app/api/candles/featured/route.ts). The data-access service is abstract:
    each handler receives what its call returned, or that it threw. */
module CandleRoutes {
  import opened Wrappers
  import opened Products

  /** What a service call did. */
  datatype Call<T> = Returned(value: T) | Threw

  /** A JSON response body. */
  datatype Body =
    | Candles(list: seq<Product>)
    | Candle(record: Product)
    | Error(message: string)

  datatype Response = Response(status: int, body: Body)

  const SearchQueryRequired := "Search query is required"
  const SearchFailed := "Failed to search candles"
  const FetchFailed := "Failed to fetch candles"
  const CreateFailed := "Failed to create candle"
  const FeaturedFailed := "Failed to fetch featured candles"

  /** GET /api/candles/search?q=... : `q` is the query parameter, absent when
      not given; `search` is what the service did with it. */
  function Search(q: Option<string>, search: Call<seq<Product>>): (r: Response)
    ensures r.status == 200 || r.status == 400 || r.status == 500
    // A missing or empty query is refused whatever the service would do.
    ensures (q.None? || q.value == "") <==> r == Response(400, Error(SearchQueryRequired))
    ensures r.status == 200 <==> q.Some? && q.value != "" && search.Returned?
    ensures r.status == 200 ==> r.body == Candles(search.value)
    ensures r.status == 500 ==> r.body == Error(SearchFailed)
  {
    if q.None? || q.value == "" then Response(400, Error(SearchQueryRequired))
    else match search
      case Returned(candles) => Response(200, Candles(candles))
      case Threw => Response(500, Error(SearchFailed))
  }

  /** A whitespace-only query counts as given and reaches the service. */
  lemma WhitespaceQueryIsSearched(search: Call<seq<Product>>)
    ensures Search(Some(" "), search).status != 400
  {
  }

  /** GET /api/candles. */
  function List(all: Call<seq<Product>>): (r: Response)
    ensures r.status == 200 <==> all.Returned?
    ensures r.status == 200 ==> r.body == Candles(all.value)
    ensures r.status != 200 ==> r == Response(500, Error(FetchFailed))
  {
    match all
    case Returned(candles) => Response(200, Candles(candles))
    case Threw => Response(500, Error(FetchFailed))
  }

  /** POST /api/candles: `body` is the parsed request body, absent when it is
      not JSON; `create` is what the service did with it. */
  function Create(body: Option<Product>, create: Call<Product>): (r: Response)
    ensures r.status == 201 || r.status == 500
    ensures r.status == 201 <==> body.Some? && create.Returned?
    ensures r.status == 201 ==> r.body == Candle(create.value)
    ensures r.status == 500 ==> r.body == Error(CreateFailed)
  {
    if body.None? then Response(500, Error(CreateFailed))
    else match create
      case Returned(candle) => Response(201, Candle(candle))
      case Threw => Response(500, Error(CreateFailed))
  }

  /** GET /api/candles/featured. */
  function Featured(featured: Call<seq<Product>>): (r: Response)
    ensures r.status == 200 || r.status == 500
    ensures r.status == 200 <==> featured.Returned?
    ensures r.status == 200 ==> r.body == Candles(featured.value)
    ensures r.status == 500 ==> r.body == Error(FeaturedFailed)
  {
    match featured
    case Returned(candles) => Response(200, Candles(candles))
    case Threw => Response(500, Error(FeaturedFailed))
  }

  /** Across the four handlers, an error status always carries one of the
      fixed messages, so nothing the service raised reaches the client. */
  lemma ErrorsAreFixedMessages(q: Option<string>, s: Call<seq<Product>>, body: Option<Product>, c: Call<Product>)
    ensures forall r | r in [Search(q, s), List(s), Create(body, c), Featured(s)] ::
      r.status >= 400 <==> r.body.Error?
    ensures forall r | r in [Search(q, s), List(s), Create(body, c), Featured(s)] && r.body.Error? ::
      r.body.message in [SearchQueryRequired, SearchFailed, FetchFailed, CreateFailed, FeaturedFailed]
  {
  }
}
