# seconde-main search, favorites and accounts in Dafny

This project models the logic of the seconde-main second-hand marketplace and proves
properties of it. It covers three services: the product search service (backed by
Elasticsearch), the scraper that seeds the catalogue, and the user service (backed by
PostgreSQL) that holds accounts and favorites. It also covers the React front end pieces
that drive them.

What is modelled:
- **Search request pipeline.** The search form's state (`SearchFilters`) is serialized into
  query parameters (`productService.searchProducts`). The search service compiles the
  parameters into an Elasticsearch `bool` query with a `from`/`size` window and a fixed
  `createdAt` descending sort. An abstract evaluator gives the compiled query a meaning:
  - `term` is equality and `range` is inclusive bounds;
  - `bool` is conjunction;
  - full-text matching is a caller-supplied predicate.
- **Product store.** The product index is a map from document id to product. Single and
  bulk writes are upserts keyed by `product.id`. A search runs over a snapshot of the store:
  one hit per stored key, in an order the model leaves open. Search hits, the get-by-id
  lookup and the category aggregation are projected back into replies with the service's
  status codes and error messages.
- **Scraper.** The scraper gives its 20 catalogue listings distinct `product-<n>` ids and
  urls, pushes them in one bulk write, and reports the count.
- **User service.** The database is three tables with the schema's constraints:
  - unique e-mail;
  - unique (user, product) pair;
  - a foreign key to users;
  - `VARCHAR(255)` limits.

  Over it the model covers the Bearer-token middleware, registration, login, the profile,
  and adding, listing and removing favorites. bcrypt and JWT appear as uninterpreted
  function parameters.
- **Front end.** The axios interceptor adds `Authorization: Bearer <token>`. The home page
  tracks search results, loading state and favorite ids. The favorites page lists the
  user's rows and removes them.

Modules follow the source components:
- helper modules: `Wrappers`, `Http`, `Decimal`, `JsValue`, `JsString`, `Catalog`,
  `QueryString`;
- search service: `QueryBuilder`, `QueryEval`, `SearchEngine`, `DocumentStore`,
  `SearchService`, `Routes`;
- scraper service: `Scraper`;
- user service: `UserService`;
- front end: `SearchFilters`, `ProductService`, `ApiClient`, `HomePage`, `FavoritesPage`;
- end to end from form to compiled query: `Pipeline`.

How calls to other systems appear in the model:
- A failing database, store or network call is a `fault` parameter.
- `Date.now()` and `Math.random()` become `now` and an `age` function.
- The store's automatic ids and per-item bulk outcomes are function parameters.

## Model

| member | source | states |
|---|---|---|
| QueryString.Lookup | services/search-service/index.js:101-110 | A query key reads as present exactly when some parameter carries it, and then with the value of its first occurrence. |
| Decimal.ParseNumber | services/search-service/index.js:143-148 | `parseInt`/`parseFloat` give NaN exactly when no digit follows the optional sign; a leading `-` gives a non-positive result and otherwise the result is non-negative. |
| Decimal.ParseToDecimal | services/search-service/index.js:148 | Parsing the decimal text of any integer returns that integer, so numbers the client sends are read back unchanged. |
| Decimal.ToDecimalInjective | services/scraper-service/index.js:231 | Distinct integers have distinct decimal texts. |
| JsValue.Text | frontend/src/services/productService.js:6-13 | The string form of a truthy value is non-empty, and the string form of a number parses back to that number. |
| QueryBuilder.TermFilter | services/search-service/index.js:129-139 | A facet yields a single `term` clause carrying its value verbatim when its parameter is truthy, and nothing otherwise. |
| QueryBuilder.RangeFilter | services/search-service/index.js:141-146 | There is at most one `range` clause, present iff `minPrice` or `maxPrice` is truthy. `gte` is set only from `minPrice` and `lte` only from `maxPrice`, each as the parsed number. |
| QueryBuilder.TermFilters | services/search-service/index.js:128-139 | There is one `term` clause per truthy facet, in the order category, condition, location, and none for empty facets. |
| QueryBuilder.Filters | services/search-service/index.js:128-146 | The filter list has the term clauses, then the range clause, each at most once, so it holds at most 4 clauses. It is empty exactly when no facet and no price bound is given. |
| QueryBuilder.Compile | services/search-service/index.js:101-159 | There is exactly one must clause: `multi_match` over `title^2`/`description` with `AUTO` fuzziness for a truthy query, `match_all` otherwise. `from = (page-1)*limit` and `size = limit`, with no clamping and NaN passed through; page defaults to 1 and limit to 20. The sort is always `createdAt` descending. |
| QueryEval.CompiledQueryIsConjunction | services/search-service/index.js:112-159 | A product passes the compiled query iff it matches the text query (when given), equals every given facet and lies within every finite given price bound. |
| SearchEngine.SortNewestFirst | services/search-service/index.js:158 | The sorted hits are a permutation of the input, ordered by `createdAt` descending. |
| SearchEngine.Matching | services/search-service/index.js:154 | It keeps exactly the eligible hits, in their order, and a newest-first list stays newest first. |
| SearchEngine.MatchingCounts | services/search-service/index.js:154 | Each eligible hit is kept as many times as it occurs, and every other hit is dropped. |
| SearchEngine.MatchingAppend | services/search-service/index.js:154 | Filtering distributes over concatenation, so the kept hits are a subsequence of the input in the input's order. |
| SearchEngine.MatchingPermutation | services/search-service/index.js:154-158 | Filtering before or after reordering the index keeps the same hits with the same multiplicities. |
| SearchEngine.EligibleCount | services/search-service/index.js:154-169 | The number of kept hits is the number of index positions whose document is eligible. |
| SearchEngine.Ranked | services/search-service/index.js:154-158 | The ranked result list is newest first and holds exactly the eligible hits, one per eligible index position. |
| SearchEngine.Window | services/search-service/index.js:148-157 | The window has `min(size, n - from)` elements, which are the elements from position `from` on. |
| SearchEngine.RunSearch | services/search-service/index.js:150-160 | The store answers iff `from` and `size` are non-negative numbers, and otherwise fails with 400. The hits are exactly the window of `size` results from position `from` of the ranked list: at most `size`, newest first, all eligible. `total` is the number of index positions holding an eligible document, not the page size. |
| SearchEngine.PagesEndIsProduct | services/search-service/index.js:148 | The end of page m is `m*limit`, so page k starts at `(k-1)*limit` as the handler computes it. |
| SearchEngine.PagesArePrefix | services/search-service/index.js:148-157 | Pages 1..m laid end to end are exactly the first `m*limit` results, so consecutive pages neither overlap nor skip. |
| SearchEngine.AllPagesCoverResult | services/search-service/index.js:148-157 | With `ceil(total/limit)` pages every result is fetched once, in order. |
| DocumentStore.Put | services/search-service/index.js:63-67 | Indexing stores the product under its id (or the store's own id when it has none) and leaves every other key unchanged. |
| DocumentStore.BulkBody | services/search-service/index.js:83-86 | For n products the body has 2n lines: line 2i is the index action on `products` with `_id` the i-th id, and line 2i+1 is the i-th product. |
| DocumentStore.BulkIsSequentialPut | services/search-service/index.js:83-88 | Applying the bulk body equals upserting the accepted products one by one, in order. |
| DocumentStore.PutAllDistinct | services/search-service/index.js:83-88 | Writing products with distinct ids stores exactly one document per product, under its id, and leaves all other keys untouched. |
| SearchService.AddProduct | services/search-service/index.js:59-76 | Success gives 201 with the product. A failed write gives 500 "Failed to add product" with the store unchanged. A failed refresh also gives 500, but the product is already stored. |
| SearchService.BulkAdd | services/search-service/index.js:79-96 | Success gives 201 with `count` = number of products, whatever the per-item outcome. A missing or empty product list (the store refuses a bulk request without operations) or a failed write or refresh gives 500 "Failed to add products"; only a refresh failure leaves the writes in place. |
| SearchService.Project | services/search-service/index.js:162-165 | A result's `id` is `_source.id` when present (the spread overrides `_id`), else `_id`. Every other field is `_source`'s. |
| SearchService.ProjectAll | services/search-service/index.js:162-165 | The projection keeps the hits' number and order. |
| SearchService.HandleSearch | services/search-service/index.js:99-177 | A store failure gives 500 "Search failed". Otherwise the reply has the projected hits, the store's `total`, and the parsed page and limit echoed. |
| SearchService.SearchCountsWanted | services/search-service/index.js:112-169 | A successful search reports as `total` the number of index positions whose document satisfies every constraint of the request. |
| SearchService.WantedIsRanked | services/search-service/index.js:112-158 | Every wanted document of the index is in the ranked result list as often as in the index, and the list holds nothing else. |
| SearchService.PagingKeepsResultList | services/search-service/index.js:148-158 | Changing only `page` and `limit` leaves the query, the filters and hence the ranked result list unchanged. |
| SearchService.PageIsWindow | services/search-service/index.js:148-172 | Asking for page k of `limit` succeeds and returns the projected results at positions `(k-1)*limit` onward, at most `limit` of them, with `total` the whole result count and page and limit echoed. |
| SearchService.PageProducts | services/search-service/index.js:148-172 | The products of page k are the projected window of the ranked list starting at page k's first position. |
| SearchService.SearchPagesArePages | services/search-service/index.js:148-172 | The products of pages 1..m fetched one request at a time are the projection of pages 1..m of the ranked list. |
| SearchService.PagedSearchIsPrefix | services/search-service/index.js:148-172 | Fetching pages 1..m yields exactly the first `m*limit` results, in order, with no overlap or gap. |
| SearchService.PagedSearchCoversResult | services/search-service/index.js:148-172 | Fetching `ceil(total/limit)` pages, with `total` from the first page, yields the whole ranked result once, in order, and so every wanted document of the index. |
| SearchService.Snapshot | services/search-service/index.js:150-160 | Every store has a snapshot: a hit for each stored key carrying that key's document, each key once, one hit per document. |
| SearchService.StoredIsSearchable | services/search-service/index.js:150-172 | Paging through a search without parameters over a snapshot of the store finds every stored document, projected under its key. |
| SearchService.AddedProductIsSearchable | services/search-service/index.js:59-76 | After an add whose write and refresh succeed, the next unfiltered search finds the product under the key it was written to, and returns it unchanged when it has its own `id`. |
| SearchService.SearchReturnsOnlyWanted | services/search-service/index.js:112-172 | Every product returned is in the index and satisfies every constraint of the request. |
| SearchService.EmptySearchCountsEverything | services/search-service/index.js:162-172 | A request without parameters succeeds with `total` equal to the whole index and returns exactly the first `min(20, n)` documents of the index sorted newest first, projected. |
| SearchService.MatchingKeepsAll | services/search-service/index.js:125 | With `match_all` and no filters nothing is dropped. |
| SearchService.GetById | services/search-service/index.js:184-187 | The store returns the document iff it is reachable and holds the id. Otherwise it fails, with 404 exactly when it was reachable. |
| SearchService.HandleGetProduct | services/search-service/index.js:180-196 | A found document gives 200 with its projection. A store 404 gives 404 "Product not found"; every other failure gives 500 "Failed to fetch product". |
| SearchService.LookupDistinguishesNotFound | services/search-service/index.js:180-196 | In a reachable store a missing id gives 404 and a present one gives the stored product. An unreachable store always gives 500. |
| SearchService.BucketKeys | services/search-service/index.js:213 | The category list is the bucket keys, in bucket order. |
| SearchService.HandleCategories | services/search-service/index.js:199-218 | The aggregation's keys give 200; a failure gives 500 "Failed to fetch categories". |
| Routes.Dispatch | services/search-service/index.js:180-199 | A request goes to the first registered route whose pattern matches its path, and to none if no route matches. |
| Routes.CategoriesRouteIsShadowed | services/search-service/index.js:180-199 | As registered, `GET /api/products/categories` is handled as a lookup of product id "categories", and no path reaches the category list. |
| Routes.IntendedOrderReachesCategories | services/search-service/index.js:180-199 | With the literal route first, the category path reaches the category list and every other product id still reaches the lookup. |
| ProductService.SentFrom | frontend/src/services/productService.js:6-13 | The parameter names sent are exactly those with a truthy value, plus page and limit, in the fixed append order. |
| ProductService.Serialize | frontend/src/services/productService.js:4-13 | Each optional filter reads back as its text when truthy and is absent otherwise. Page and limit always read back, as their text or as "1"/"20" when falsy. |
| ProductService.SerializedInAppendOrder | frontend/src/services/productService.js:4-13 | The parameters follow the append order, each at most once, and page and limit come last. |
| SearchFilters.Initial | frontend/src/components/SearchFilters.js:4-11 | All six fields start empty. |
| SearchFilters.HandleChange | frontend/src/components/SearchFilters.js:13-18 | The named field takes the new value and every other field is unchanged. |
| SearchFilters.FieldsDetermineState | frontend/src/components/SearchFilters.js:4-11 | Two form states are equal iff they agree on every field. |
| SearchFilters.ChangeLaws | frontend/src/components/SearchFilters.js:13-18 | Writing a field's current value back is a no-op, and of two writes to one field the last wins. |
| SearchFilters.ChangesCommute | frontend/src/components/SearchFilters.js:13-18 | Changes to different fields commute. |
| SearchFilters.ChangeKeepsVocabulary | frontend/src/components/SearchFilters.js:41-73 | Changing a dropdown to one of its options keeps every dropdown within its vocabulary. |
| SearchFilters.HandleSubmit | frontend/src/components/SearchFilters.js:20-23 | Submit passes each field unchanged as the same-named search argument and passes no page or limit. |
| Pipeline.RequestReadsBack | frontend/src/services/productService.js:4-15 | The service reads each parameter the client sent, with the value sent, and reads absent ones as absent. |
| Pipeline.FalsyFilterIsNoConstraint | frontend/src/services/productService.js:6-11 | A facet gets a term filter iff its argument is truthy, and the text query is used iff truthy. There is a range filter iff a price argument is truthy. An omitted field is exactly an unconstrained one. |
| Pipeline.DefaultPaging | frontend/src/services/productService.js:12-13 | With falsy page and limit the compiled window is `from = 0`, `size = 20`. |
| Pipeline.FormSearchesFirstPage | frontend/src/components/SearchFilters.js:20-23 | Every search from the form asks for `from = 0`, `size = 20`, newest first. |
| Pipeline.UnconstrainedCompiles | services/search-service/index.js:116-158 | A request without text, facets or prices on page 1 of 20 compiles to `match_all`, no filters, `from = 0`, `size = 20`. |
| Pipeline.InitialFormMatchesAll | frontend/src/components/SearchFilters.js:4-11 | Submitting the untouched form compiles to `match_all`, an empty filter list and `from = 0`, `size = 20`, newest first. |
| Pipeline.FormRequestFields | frontend/src/services/productService.js:6-11 | The request built from a submitted form carries each non-empty field verbatim and omits empty ones. |
| Pipeline.FormSearchIsConjunction | services/search-service/index.js:112-158 | A product answers a submitted form iff it meets every filled-in field: text, each facet, and each finite price bound. |
| Scraper.Generate | services/scraper-service/index.js:228-235 | One product per listing, in order. Every listing field is kept. The i-th product has id `product-(i+1)` and url `https://example.com/` followed by its id. Its `createdAt` lies within the last 30 days. |
| Scraper.ProductIdInjective | services/scraper-service/index.js:231 | Different positions get different ids. |
| Scraper.GeneratedIdsDistinct | services/scraper-service/index.js:228-235 | Generated ids are all present and pairwise distinct. |
| Scraper.ProductIdReadsBack | services/scraper-service/index.js:231 | The number after `product-` in the i-th id is i+1. |
| Scraper.CatalogueSelectable | services/scraper-service/index.js:13-225 | The catalogue has 20 listings. Each has a non-negative price and a category, condition and location among the search form's options. |
| Scraper.GenerateProducts | services/scraper-service/index.js:228-235 | It generates 20 products with distinct ids `product-1`..`product-20`, each carrying its catalogue listing's fields. |
| Scraper.RunScraper | services/scraper-service/index.js:243-260 | Success, iff the bulk write is delivered and succeeds, gives "Scraping completed" with `productsAdded` 20. Any failure gives 500 "Scraping failed". An unreachable search service leaves the store unchanged. |
| Scraper.RunStoresCatalogue | services/scraper-service/index.js:243-260 | A successful run stores the 20 products under their ids and leaves every other document untouched. |
| Scraper.ScrapedCatalogueIsSearchable | services/scraper-service/index.js:243-260 | After a successful run, paging through a search without parameters over the store finds each of the 20 generated products unchanged. |
| Scraper.RerunDoesNotDuplicate | services/scraper-service/index.js:243-260 | Running the scraper again overwrites the same 20 keys and adds none. |
| Scraper.ListProducts | services/scraper-service/index.js:263-266 | The listing endpoint returns the 20 generated products with `total` 20. |
| JsString.IndexOf | services/user-service/index.js:58 | It finds the first occurrence of the pattern, or reports that there is none. |
| JsString.ReplaceFirst | services/user-service/index.js:58 | A string-pattern `replace` changes only the first occurrence, and a string without the pattern is returned unchanged. |
| JsString.StripPrefix | services/user-service/index.js:58 | Removing a prefix with `replace` returns the rest. |
| UserService.Authenticate | services/user-service/index.js:57-71 | Every rejection is 401. "No token provided" is given iff the header is absent or leaves an empty token. "Invalid token" is given iff a non-empty token fails verification. Otherwise the user id is the verified one. |
| UserService.BearerRoundTrip | services/user-service/index.js:57-71 | For a header `"Bearer " + t` with non-empty t, the middleware extracts exactly t and authenticates as `verify(t)`. |
| UserService.BareSchemeHasNoToken | services/user-service/index.js:58-62 | A header of `"Bearer "` alone is refused as "No token provided". |
| UserService.UserByEmail | services/user-service/index.js:111-117 | It finds a user with that e-mail iff one exists. |
| UserService.UserById | services/user-service/index.js:138-145 | It finds the user with that id iff one exists. |
| UserService.Register | services/user-service/index.js:79-104 | Missing or empty e-mail or password gives 400 "Email and password required". A fault or an over-long column gives 500 "Registration failed". A taken e-mail gives 400 "Email already exists". Otherwise the reply is 201 with the new user, without its password, and a token for its id, and the row is appended. Every failure leaves the database unchanged. |
| UserService.Login | services/user-service/index.js:107-133 | The reply is 200 with the user, without its password, and a token iff the e-mail exists and the password matches its hash. A fault, or a missing password for a known user, gives 500 "Login failed". Everything else gives 401 "Invalid credentials". |
| UserService.GetMe | services/user-service/index.js:136-151 | For an existing user the reply is 200 with that user row's id, e-mail, name and creation time. Otherwise it is 404 "User not found", 500 "Failed to fetch user" on a fault, or the middleware's 401. |
| UserService.RegisterKeepsValid | services/user-service/index.js:30-36 | Registration keeps the users table's constraints: unique e-mails, increasing ids. |
| UserService.RegisterThenLogin | services/user-service/index.js:79-133 | After a successful registration, logging in with the same credentials returns the same session. |
| UserService.DuplicateRegisterRefused | services/user-service/index.js:99-101 | Registering a taken e-mail again is refused with 400 "Email already exists" and changes nothing. |
| UserService.LoginFailuresIndistinguishable | services/user-service/index.js:113-122 | An unknown e-mail and a wrong password give the same reply, 401 "Invalid credentials". |
| UserService.AddFavorite | services/user-service/index.js:154-170 | A new (user, product) pair is appended, with a 201 reply holding the row. A duplicate pair gives 400 "Product already in favorites". Every other failure of an authenticated call is 500 "Failed to add favorite": a fault, a missing or over-long product id, or a vanished user. Failures leave the database unchanged. |
| UserService.OfUser | services/user-service/index.js:176 | It keeps exactly the caller's rows, in storage order. |
| UserService.Without | services/user-service/index.js:192 | It drops exactly the caller's row for the product and keeps the order. |
| UserService.ReverseOrder | services/user-service/index.js:176 | Reversing rows stored oldest first lists them newest first, with the same rows. |
| UserService.ListFavorites | services/user-service/index.js:173-184 | The reply is exactly the caller's rows, newest first in a valid database. A fault gives 500 "Failed to fetch favorites". |
| UserService.RemoveFavorite | services/user-service/index.js:187-200 | The caller's row for the product is deleted and all other rows stay. The reply is 200 "Removed from favorites" even if no row matched. A fault gives 500 "Failed to remove favorite". |
| UserService.AddFavoriteKeepsValid | services/user-service/index.js:40-47 | Adding a favorite keeps every constraint: pair uniqueness, the foreign key, creation order. |
| UserService.RemoveFavoriteKeepsValid | services/user-service/index.js:40-47 | Removing a favorite keeps every constraint. |
| UserService.DuplicateFavoriteRefused | services/user-service/index.js:158-167 | Adding the same product twice gives 400 and leaves the relation as after the first add. |
| UserService.AddedFavoriteListedFirst | services/user-service/index.js:175-177 | The favorite just added heads the caller's list. |
| UserService.WithoutKeepsOthers | services/user-service/index.js:191-194 | Deleting one user's row leaves every other user's rows exactly as they were. |
| UserService.RemoveKeepsOtherLists | services/user-service/index.js:191-194 | Every other user's favorites list is unchanged by a delete. |
| UserService.RemoveThenAddSucceeds | services/user-service/index.js:154-200 | After a delete, adding the same product again succeeds for an existing user. |
| ApiClient.Intercept | frontend/src/services/api.js:11-17 | The Authorization header is set iff the token is truthy, to exactly `"Bearer " + token`. The url, the verb and every other header are unchanged, and without a token the config is returned as is. |
| ApiClient.InterceptorMeetsMiddleware | frontend/src/services/api.js:11-17 | A request built by the interceptor with a token authenticates on the server as that token's user. A request without a token and header is refused as "No token provided". |
| HomePage.ProductIds | frontend/src/pages/HomePage.js:22 | The favorite ids are the rows' `product_id`s, in server order. |
| HomePage.LoadFavorites | frontend/src/pages/HomePage.js:13-26 | Only a signed-in user with a successful reply gets the favorites replaced. Otherwise nothing changes. |
| HomePage.Remove | frontend/src/pages/HomePage.js:46 | Filtering drops every occurrence of the id, keeps all other ids, and keeps a duplicate-free list duplicate-free. |
| HomePage.ToggleFavorite | frontend/src/pages/HomePage.js:42-55 | After a successful server call, membership of the product flips: removed everywhere if present, appended at the end if not, with the existing ids kept in place. No other id changes, and the list stays duplicate-free. A failed call or a product without an id changes nothing. |
| HomePage.ToggleTwiceRestores | frontend/src/pages/HomePage.js:42-55 | Favoriting a product and then unfavoriting it restores the list exactly. |
| HomePage.RemoveKeepsOrder | frontend/src/pages/HomePage.js:46 | Unfavoriting keeps the remaining ids in their order. |
| HomePage.StartSearch | frontend/src/pages/HomePage.js:28-30 | Starting a search shows loading and marks a search performed. |
| HomePage.FinishSearch | frontend/src/pages/HomePage.js:31-39 | A successful search replaces the products and a failed one keeps them. Loading ends either way. |
| HomePage.SearchKeepsConsistent | frontend/src/pages/HomePage.js:28-40 | Results are present only after a search has been performed. |
| HomePage.Cards | frontend/src/pages/HomePage.js:79-87 | There is one card per product, in order, whose `isFavorited` is membership of its id. |
| HomePage.View | frontend/src/pages/HomePage.js:61-89 | While loading only the loading panel shows. After loading, the no-results, start or grid panel shows according to `searchPerformed` and the product count. |
| HomePage.ExactlyOnePanel | frontend/src/pages/HomePage.js:61-89 | In every reachable state exactly one panel shows. |
| HomePage.LoadSyncs | frontend/src/pages/HomePage.js:19-26 | After loading, the page's favorite ids are exactly the products the server holds for the user. |
| HomePage.ToggleKeepsSync | frontend/src/pages/HomePage.js:42-55 | A toggle keeps page and server in agreement, whether the server call succeeds or fails. |
| FavoritesPage.Initial | frontend/src/pages/FavoritesPage.js:6-7 | The page opens empty, showing loading. |
| FavoritesPage.Load | frontend/src/pages/FavoritesPage.js:13-23 | A successful load replaces the list wholesale and a failed one keeps it. Loading ends either way. |
| FavoritesPage.Drop | frontend/src/pages/FavoritesPage.js:28 | Filtering drops exactly the rows for the product and keeps the newest-first order. |
| FavoritesPage.HandleRemove | frontend/src/pages/FavoritesPage.js:25-33 | A confirmed removal drops the product's rows and keeps the others. A failed removal changes nothing. |
| FavoritesPage.View | frontend/src/pages/FavoritesPage.js:41-62 | There is one card per row, in order, showing `product_data` and removing that row's product. |
| FavoritesPage.ExactlyOnePanel | frontend/src/pages/FavoritesPage.js:41-62 | Exactly one of the loading, empty and grid panels shows. The empty message shows iff not loading and no rows, and the grid iff not loading and some rows. Every card is marked favorited. |
| FavoritesPage.RemoveMatchesServer | frontend/src/pages/FavoritesPage.js:25-33 | After loading and a removal, the page shows exactly the list the server now returns, in the same order. |

## Left out

- Elasticsearch internals are not modelled: tokenization, fuzzy matching and scoring. Text matching is a parameter. A write followed by a successful refresh is visible to the next search (`StoredIsSearchable`); the refresh's segment mechanics are not modelled.
- The `hits.total` cap of 10000 and the `max_result_window` limit are not modelled; `total` counts every eligible document.
- Index creation at startup, health endpoints, `dotenv`, `JWT_SECRET` and `app.listen` are lifecycle side effects, not logic.
- The API gateway is not modelled. It forwards `${serviceUrl}${req.path}` (services/api-gateway/index.js:29), which drops the query string; the Pipeline lemmas instead compose the client's parameters directly with the search service.
- SearchService.PagedSearchIsPrefix: assumes every page request sees the same index and orders equal `createdAt` values the same way. The sort has no tie-breaker (services/search-service/index.js:158), and Elasticsearch does not promise one tie order across requests (replicas, segment merges), nor does the model cover writes between page requests; either can make pages overlap or skip documents.
- SearchService.PagedSearchCoversResult: rests on the same fixed-tie-order, unchanged-index assumption as `PagedSearchIsPrefix`.
- HomePage.ToggleKeepsSync: assumes one toggle at a time. Overlapping toggles each capture the same `favorites` array (frontend/src/pages/HomePage.js:44-49) and the later update can undo the earlier one; this is not modelled.
- HomePage.FinishSearch: assumes one search at a time. With overlapping searches the first to return clears `loading` (frontend/src/pages/HomePage.js:28-39) while the other is still pending, and the slower reply wins; this is not modelled.
- The `message` fields "Product added" and "Products added" of the ingest replies (services/search-service/index.js:71,91) are constant text; the replies model the status, the product and the count.
- bcrypt hashing and JWT signing, verification and expiry are uninterpreted function parameters (`hash`, `matches`, `sign`, `verify`).
- The SQL text and the pg pool are not modelled. Each table is a sequence of rows with the schema's constraints checked in PostgreSQL's order: NOT NULL and length, then uniqueness, then the foreign key.
- `created_at` comes from a strictly increasing clock. Ties of `CURRENT_TIMESTAMP` within one transaction are not modelled.
- SERIAL ids advance only on successful inserts; values consumed by failed inserts are not modelled.
- Request body values are strings or absent; JSON numbers, arrays or objects where strings are expected are not modelled.
- Number parsing is the integer prefix (optional sign, then digits). Leading whitespace, hexadecimal, fractions, exponents and `Infinity` are left out, and prices are whole numbers.
- Repeated query keys (which Express turns into arrays) are not modelled; a key reads as its first value.
- Express matches routes case-insensitively; the model's routes match exact segments.
- The scraper's `createdAt` is an arbitrary instant within the 30 days before `now`. Its ISO text form and random fractional milliseconds are left out.
- `URLSearchParams` percent-encoding is left out: parameters are an ordered sequence of key/value pairs.
- `getProduct`, the `favoritesService` wrapper, `App.js`, `Navbar.js` and `ProductCard.js` are HTTP wrappers or rendering; only the cards' inputs are modelled.
- `alert` and `console.error` calls are output only.
- ApiClient.InterceptorMeetsMiddleware: only the `"Bearer "` scheme produced by the interceptor is covered. A lower-case `bearer` scheme from other clients is not stripped by the middleware and is not modelled.

## Findings

| source | as written | input that shows it | evidently intended | confidence | as-written member | corrected member |
|---|---|---|---|---|---|---|
| services/search-service/index.js:180-199 | `GET /api/products/:id` is registered before `GET /api/products/categories`, so the parameter route captures the categories path | `GET /api/products/categories` is served as a lookup of product id "categories" and answers 404 "Product not found" | the categories route answers the category list, registered before the `:id` route | not executed | Routes.CategoriesRouteIsShadowed | Routes.IntendedOrderReachesCategories |
