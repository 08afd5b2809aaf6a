/**
 * The scraper service: a fixed catalogue of second-hand listings, stamped with ids,
 * links and recent creation times, and pushed to the search service's bulk endpoint.
 */
module Scraper {
  import opened Wrappers
  import opened Http
  import opened Decimal
  import opened Catalog
  import opened DocumentStore
  import SearchService
  import SearchEngine
  import QueryEval
  import SearchFilters

  /** A catalogue entry: a product before it has an id, a link and a creation time. */
  datatype Listing = Listing(
    title: string,
    description: string,
    price: int,
    category: string,
    condition: string,
    location: string,
    imageUrl: string,
    source: string)

  /** The catalogue the scraper serves instead of scraping real sites, group by group. */
  const Electronics: seq<Listing> :=
    [
      Listing("iPhone 12 Pro",
        "Excellent condition, barely used, includes charger",
        599, "electronics", "excellent", "Paris",
        "https://via.placeholder.com/300x200/0066CC/FFFFFF?text=iPhone+12+Pro",
        "Leboncoin"),
      Listing("MacBook Air M1",
        "Great laptop, 8GB RAM, 256GB SSD",
        850, "electronics", "good", "Lyon",
        "https://via.placeholder.com/300x200/999999/FFFFFF?text=MacBook+Air",
        "Vinted"),
      Listing("Samsung Galaxy S21",
        "Good condition, small scratch on back",
        400, "electronics", "good", "Marseille",
        "https://via.placeholder.com/300x200/1A1A1A/FFFFFF?text=Galaxy+S21",
        "Leboncoin"),
      Listing("iPad Pro 11\"",
        "Like new, with Apple Pencil",
        650, "electronics", "excellent", "Toulouse",
        "https://via.placeholder.com/300x200/0066CC/FFFFFF?text=iPad+Pro",
        "eBay"),
      Listing("Sony WH-1000XM4 Headphones",
        "Noise-cancelling, great sound",
        220, "electronics", "good", "Nice",
        "https://via.placeholder.com/300x200/000000/FFFFFF?text=Sony+Headphones",
        "Vinted")
    ]

  const Furniture: seq<Listing> :=
    [
      Listing("IKEA Sofa",
        "Comfortable 3-seater sofa, gray color",
        180, "furniture", "fair", "Paris",
        "https://via.placeholder.com/300x200/8B4513/FFFFFF?text=IKEA+Sofa",
        "Leboncoin"),
      Listing("Oak Dining Table",
        "Solid oak, seats 6 people",
        300, "furniture", "good", "Bordeaux",
        "https://via.placeholder.com/300x200/D2691E/FFFFFF?text=Dining+Table",
        "Leboncoin"),
      Listing("Vintage Armchair",
        "Mid-century design, reupholstered",
        250, "furniture", "excellent", "Lyon",
        "https://via.placeholder.com/300x200/8B4513/FFFFFF?text=Armchair",
        "Selency"),
      Listing("Bookshelf",
        "Tall white bookshelf, IKEA Billy",
        45, "furniture", "good", "Paris",
        "https://via.placeholder.com/300x200/FFFFFF/000000?text=Bookshelf",
        "Leboncoin")
    ]

  const Clothing: seq<Listing> :=
    [
      Listing("Nike Air Max Sneakers",
        "Size 42, worn a few times",
        75, "clothing", "good", "Paris",
        "https://via.placeholder.com/300x200/FF6B00/FFFFFF?text=Nike+Air+Max",
        "Vinted"),
      Listing("Levi's Jeans",
        "501 model, size 32/32",
        40, "clothing", "good", "Marseille",
        "https://via.placeholder.com/300x200/0066CC/FFFFFF?text=Levis+Jeans",
        "Vinted"),
      Listing("Leather Jacket",
        "Black leather, size M",
        120, "clothing", "excellent", "Lyon",
        "https://via.placeholder.com/300x200/000000/FFFFFF?text=Leather+Jacket",
        "Vinted"),
      Listing("Zara Winter Coat",
        "Women's coat, size S, warm",
        60, "clothing", "good", "Toulouse",
        "https://via.placeholder.com/300x200/8B4513/FFFFFF?text=Winter+Coat",
        "Vinted")
    ]

  const Sports: seq<Listing> :=
    [
      Listing("Mountain Bike",
        "Trek 29er, 21 speeds, excellent condition",
        450, "sports", "excellent", "Grenoble",
        "https://via.placeholder.com/300x200/FF0000/FFFFFF?text=Mountain+Bike",
        "Leboncoin"),
      Listing("Tennis Racket",
        "Wilson Pro Staff, barely used",
        90, "sports", "excellent", "Paris",
        "https://via.placeholder.com/300x200/FFFF00/000000?text=Tennis+Racket",
        "Leboncoin"),
      Listing("Yoga Mat",
        "Thick yoga mat, purple color",
        20, "sports", "good", "Nice",
        "https://via.placeholder.com/300x200/800080/FFFFFF?text=Yoga+Mat",
        "Vinted")
    ]

  const Books: seq<Listing> :=
    [
      Listing("Harry Potter Collection",
        "Complete series, French version",
        45, "books", "good", "Paris",
        "https://via.placeholder.com/300x200/8B0000/FFFFFF?text=Harry+Potter",
        "Leboncoin"),
      Listing("Programming Books Bundle",
        "JavaScript, Python, React - 5 books",
        60, "books", "excellent", "Lyon",
        "https://via.placeholder.com/300x200/0066CC/FFFFFF?text=Programming+Books",
        "Leboncoin")
    ]

  const HomeAndGarden: seq<Listing> :=
    [
      Listing("Coffee Machine Nespresso",
        "Delonghi model, works perfectly",
        80, "home", "good", "Bordeaux",
        "https://via.placeholder.com/300x200/000000/FFFFFF?text=Nespresso",
        "Leboncoin"),
      Listing("Garden Tools Set",
        "Complete set with rake, shovel, etc.",
        35, "home", "fair", "Toulouse",
        "https://via.placeholder.com/300x200/228B22/FFFFFF?text=Garden+Tools",
        "Leboncoin")
    ]

  const MockProducts: seq<Listing> := Electronics + Furniture + Clothing + Sports + Books + HomeAndGarden

  /** Thirty days in milliseconds: how far back a generated product may have been created. */
  const MonthMillis: nat := 30 * 24 * 60 * 60 * 1000

  const IdPrefix: string := "product-"
  const UrlPrefix: string := "https://example.com/"

  /** The id of the product generated from the listing at position `i` (ids count from one). */
  function ProductId(i: nat): string {
    IdPrefix + ToDecimal(i + 1)
  }

  function Stamp(l: Listing, i: nat, createdAt: int): Product {
    Product(Some(ProductId(i)), l.title, l.description, l.price, l.category, l.condition, l.location,
      l.imageUrl, l.source, UrlPrefix + ProductId(i), createdAt)
  }

  /** The catalogue entry a product was made from. */
  function Forget(p: Product): Listing {
    Listing(p.title, p.description, p.price, p.category, p.condition, p.location, p.imageUrl, p.source)
  }

  /**
   * `generateProducts` over a catalogue: the listing at position `i` becomes a product
   * created `age(i)` milliseconds before `now`, where `age` stands for the random offsets.
   */
  function Generate(ls: seq<Listing>, now: int, age: nat -> nat): (ps: seq<Product>)
    requires forall i :: age(i) < MonthMillis
    ensures |ps| == |ls|
    // the listing is kept as it is; only id, link and creation time are added
    ensures forall i :: 0 <= i < |ls| ==> Forget(ps[i]) == ls[i]
    ensures forall i :: 0 <= i < |ls| ==> ps[i].id == Some(ProductId(i))
    // the link ends with the id
    ensures forall i :: 0 <= i < |ls| ==> ps[i].url == UrlPrefix + ps[i].id.value
    // created within the last thirty days
    ensures forall i :: 0 <= i < |ls| ==> now - MonthMillis < ps[i].createdAt <= now
  {
    var ps := seq(|ls|, i requires 0 <= i < |ls| => Stamp(ls[i], i, now - age(i)));
    assert forall i :: 0 <= i < |ls| ==> ps[i] == Stamp(ls[i], i, now - age(i));
    ps
  }

  /** Different positions get different ids. */
  lemma ProductIdInjective(i: nat, j: nat)
    ensures ProductId(i) == ProductId(j) ==> i == j
  {
    if ProductId(i) == ProductId(j) {
      assert ToDecimal(i + 1) == ProductId(i)[|IdPrefix|..];
      assert ToDecimal(j + 1) == ProductId(j)[|IdPrefix|..];
      ToDecimalInjective(i + 1, j + 1);
    }
  }

  /** Every generated product has its own id, so the bulk write stores one document per product. */
  lemma GeneratedIdsDistinct(ls: seq<Listing>, now: int, age: nat -> nat)
    requires forall i :: age(i) < MonthMillis
    ensures DistinctIds(Generate(ls, now, age))
  {
    var ps := Generate(ls, now, age);
    forall i, j | 0 <= i < j < |ps| ensures ps[i].id != ps[j].id {
      ProductIdInjective(i, j);
    }
  }

  /** A generated product's id reads back the listing position it was made from. */
  lemma ProductIdReadsBack(i: nat)
    ensures ParseNumber(ProductId(i)[|IdPrefix|..]) == Finite(i + 1)
  {
    assert ProductId(i)[|IdPrefix|..] == ToDecimal(i + 1);
    ParseToDecimal(i + 1);
  }

  /** A listing the search form can find: each facet is one of the form's options, and the price is not negative. */
  predicate Selectable(l: Listing) {
    && l.category in SearchFilters.CategoryOptions && l.category != ""
    && l.condition in SearchFilters.ConditionOptions && l.condition != ""
    && l.location in SearchFilters.LocationOptions && l.location != ""
    && l.price >= 0
  }

  predicate AllSelectable(ls: seq<Listing>) {
    forall i :: 0 <= i < |ls| ==> Selectable(ls[i])
  }

  lemma ConcatSelectable(a: seq<Listing>, b: seq<Listing>)
    requires AllSelectable(a) && AllSelectable(b)
    ensures AllSelectable(a + b)
  {
    forall i | 0 <= i < |a + b| ensures Selectable((a + b)[i]) {
      if i >= |a| {
        assert (a + b)[i] == b[i - |a|];
      }
    }
  }

  lemma HouseholdGroupsSelectable()
    ensures AllSelectable(Electronics) && AllSelectable(Furniture) && AllSelectable(HomeAndGarden)
  {
  }

  lemma LeisureGroupsSelectable()
    ensures AllSelectable(Clothing) && AllSelectable(Sports) && AllSelectable(Books)
  {
  }

  /** Every scraped listing has a price that is not negative and uses the search form's vocabulary for its facets. */
  lemma CatalogueSelectable()
    ensures |MockProducts| == 20
    ensures AllSelectable(MockProducts)
  {
    HouseholdGroupsSelectable();
    LeisureGroupsSelectable();
    ConcatSelectable(Electronics, Furniture);
    ConcatSelectable(Electronics + Furniture, Clothing);
    ConcatSelectable(Electronics + Furniture + Clothing, Sports);
    ConcatSelectable(Electronics + Furniture + Clothing + Sports, Books);
    ConcatSelectable(Electronics + Furniture + Clothing + Sports + Books, HomeAndGarden);
  }

  /** `generateProducts()`: the catalogue, stamped. */
  function GenerateProducts(now: int, age: nat -> nat): (ps: seq<Product>)
    requires forall i :: age(i) < MonthMillis
    ensures |ps| == 20
    ensures DistinctIds(ps)
    ensures forall i :: 0 <= i < |ps| ==> ps[i].id == Some(ProductId(i))
    ensures forall i :: 0 <= i < |ps| ==> Forget(ps[i]) == MockProducts[i]
  {
    CatalogueSelectable();
    GeneratedIdsDistinct(MockProducts, now, age);
    Generate(MockProducts, now, age)
  }

  /** How the POST to the search service's bulk endpoint goes. */
  datatype Delivery = Delivered(fault: SearchService.WriteFault) | Unreachable

  /** The body of a successful `POST /api/scraper/run`. */
  datatype RunSummary = RunSummary(message: string, productsAdded: nat)

  /**
   * `POST /api/scraper/run`: generate the catalogue and bulk-write it. The reply is a success
   * only when the bulk endpoint answers with a success; the store keeps whatever the bulk write did.
   */
  function RunScraper(st: Store, now: int, age: nat -> nat, accepted: nat -> bool, autoId: nat -> string, delivery: Delivery)
    : (r: (Store, Reply<RunSummary>))
    requires forall i :: age(i) < MonthMillis
    ensures r.1.IsSuccess() <==> delivery == Delivered(SearchService.NoFault)
    ensures r.1.IsSuccess() ==> r.1 == Payload(200, RunSummary("Scraping completed", 20))
    ensures !r.1.IsSuccess() ==> r.1 == ErrorReply(500, "Scraping failed")
    ensures delivery.Unreachable? ==> r.0 == st
  {
    var ps := GenerateProducts(now, age);
    match delivery
    case Unreachable => (st, ErrorReply(500, "Scraping failed"))
    case Delivered(fault) =>
      var (st', reply) := SearchService.BulkAdd(st, Some(ps), accepted, autoId, fault);
      if reply.IsSuccess() then (st', Payload(200, RunSummary("Scraping completed", |ps|)))
      else (st', ErrorReply(500, "Scraping failed"))
  }

  /** The ids the scraper writes. */
  function CatalogueIds(): (ids: set<string>)
    ensures forall i :: 0 <= i < 20 ==> ProductId(i) in ids
    ensures forall k :: k in ids ==> exists i :: 0 <= i < 20 && k == ProductId(i)
  {
    set i | 0 <= i < 20 :: ProductId(i)
  }

  lemma IdsAreCatalogueIds(ps: seq<Product>)
    requires |ps| == 20
    requires forall i :: 0 <= i < |ps| ==> ps[i].id == Some(ProductId(i))
    ensures IdSet(ps) == CatalogueIds()
  {
    forall k | k in IdSet(ps) ensures k in CatalogueIds() {
      var i :| 0 <= i < |ps| && ps[i].id.value == k;
    }
    forall i | 0 <= i < 20 ensures ProductId(i) in IdSet(ps) {
      assert ps[i].id.value == ProductId(i);
    }
  }

  /** Writing a generated catalogue, every document accepted, stores it by id and nothing else changes. */
  lemma WriteGenerated(st: Store, ps: seq<Product>, autoId: nat -> string)
    requires |ps| == 20 && DistinctIds(ps)
    requires forall i :: 0 <= i < |ps| ==> ps[i].id == Some(ProductId(i))
    ensures var st' := PutAll(st, ps, 0, _ => true, autoId);
            && st'.Keys == st.Keys + CatalogueIds()
            && (forall i :: 0 <= i < 20 ==> st'[ProductId(i)] == ps[i])
            && (forall k :: k in st && k !in CatalogueIds() ==> st'[k] == st[k])
  {
    PutAllDistinct(st, ps, 0, autoId);
    IdsAreCatalogueIds(ps);
    forall i | 0 <= i < 20 ensures PutAll(st, ps, 0, _ => true, autoId)[ProductId(i)] == ps[i] {
      assert ps[i].id.value == ProductId(i);
    }
  }

  /**
   * A successful run whose every document the index accepts stores each generated product
   * under its id and leaves every other document alone.
   */
  lemma RunStoresCatalogue(st: Store, now: int, age: nat -> nat, autoId: nat -> string)
    requires forall i :: age(i) < MonthMillis
    ensures var (st', r) := RunScraper(st, now, age, _ => true, autoId, Delivered(SearchService.NoFault));
            && r.IsSuccess()
            && st'.Keys == st.Keys + CatalogueIds()
            && (forall i :: 0 <= i < 20 ==> st'[ProductId(i)] == GenerateProducts(now, age)[i])
            && (forall k :: k in st && k !in CatalogueIds() ==> st'[k] == st[k])
  {
    WriteGenerated(st, GenerateProducts(now, age), autoId);
  }

  /** After a successful run, paging through a search without filters finds each of the 20 products unchanged. */
  lemma ScrapedCatalogueIsSearchable(st: Store, now: int, age: nat -> nat, autoId: nat -> string,
                                     hs: seq<SearchEngine.Hit>, text: QueryEval.TextMatch, limit: nat)
    requires forall i :: age(i) < MonthMillis
    requires limit > 0
    requires SearchService.IsSnapshot(RunScraper(st, now, age, _ => true, autoId, Delivered(SearchService.NoFault)).0, hs)
    ensures var q := SearchService.MatchAllQuery;
            var first := SearchService.SearchIndex(SearchService.PageQuery(q, 1, limit), hs, text);
            && first.Payload?
            && forall i :: 0 <= i < 20 ==>
                 GenerateProducts(now, age)[i] in SearchService.SearchPages(q, hs, text, limit, SearchEngine.PageCount(first.value.total, limit))
  {
    var ps := GenerateProducts(now, age);
    var st' := RunScraper(st, now, age, _ => true, autoId, Delivered(SearchService.NoFault)).0;
    RunStoresCatalogue(st, now, age, autoId);
    SearchService.StoredIsSearchable(st', hs, text, limit);
    forall i | 0 <= i < 20 ensures SearchService.Project(SearchEngine.Hit(ProductId(i), st'[ProductId(i)])) == ps[i] {
      assert st'[ProductId(i)] == ps[i];
    }
  }

  /** Running the scraper again overwrites the same documents: the set of stored ids does not grow. */
  lemma RerunDoesNotDuplicate(st: Store, now: int, age: nat -> nat, now2: int, age2: nat -> nat, autoId: nat -> string)
    requires forall i :: age(i) < MonthMillis
    requires forall i :: age2(i) < MonthMillis
    ensures var st1 := RunScraper(st, now, age, _ => true, autoId, Delivered(SearchService.NoFault)).0;
            var st2 := RunScraper(st1, now2, age2, _ => true, autoId, Delivered(SearchService.NoFault)).0;
            st2.Keys == st1.Keys
  {
    RunStoresCatalogue(st, now, age, autoId);
    var st1 := RunScraper(st, now, age, _ => true, autoId, Delivered(SearchService.NoFault)).0;
    RunStoresCatalogue(st1, now2, age2, autoId);
  }

  /** The body of `GET /api/scraper/products`. */
  datatype Listed = Listed(products: seq<Product>, total: nat)

  /** `GET /api/scraper/products`: a fresh generation, with its size. */
  function ListProducts(now: int, age: nat -> nat): (r: Reply<Listed>)
    requires forall i :: age(i) < MonthMillis
    ensures r.IsSuccess() && r.value.total == |r.value.products| == 20
    ensures forall i :: 0 <= i < 20 ==> Forget(r.value.products[i]) == MockProducts[i]
  {
    var ps := GenerateProducts(now, age);
    Payload(200, Listed(ps, |ps|))
  }
}
