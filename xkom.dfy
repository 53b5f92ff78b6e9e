/**
 * The x-kom crawler's per-URL pipeline: look the URL up in the document
 * store, and only when the store reports it absent fetch the page with the
 * fixed header profile, extract the product's fields, save the product under
 * its URL and return it.
 */
module XkomCrawler {
  import opened Wrappers
  import opened Html
  import opened FieldRules

  /** Class selectors of the elements the crawler reads. */
  const NameClass := "sc-1bker4h-4 hMQkuz"
  const PriceClass := "sc-n4n86h-4 jwVRpW"
  const RatingClass := "sc-1h16fat-0 sc-1ngc1lj-1 eKEFnB sc-1bker4h-6 gDIfGT"
  const ReviewCountClass := "sc-1ngc1lj-2 eJPDue"
  const ReviewsClass := "sc-u1peis-1 etZjkD sc-s2qgtg-21 gIUavP"

  /** An ordered mapping of header names to values. */
  type Headers = seq<(string, string)>

  /** The header profile sent with every request. */
  const ProfileHeaders: Headers := [
    ("Accept", "text/html,application/xhtml+xml,application/xml;q=0.9,image/avif,image/webp,*/*;q=0.8"),
    ("Accept-Encoding", "gzip, deflate, utf-8"),
    ("Accept-Language", "en-US,en;q=0.5"),
    ("Cache-Control", "no-cache"),
    ("Connection", "keep-alive"),
    ("DNT", "1"),
    ("Host", "www.x-kom.pl"),
    ("Upgrade-Insecure-Requests", "1"),
    ("User-Agent", "Mozilla/5.0 (Windows NT 10.0; Win64; x64; rv:109.0) Gecko/20100101 Firefox/110.0")
  ]

  function HeaderNames(h: Headers): (names: seq<string>)
    ensures |names| == |h|
    ensures forall i :: 0 <= i < |h| ==> names[i] == h[i].0
  {
    seq(|h|, i requires 0 <= i < |h| => h[i].0)
  }

  /** The value sent for `name`, if the profile has that header. */
  function HeaderValue(h: Headers, name: string): (v: Option<string>)
    ensures v.Some? <==> name in HeaderNames(h)
    decreases |h|
  {
    if h == [] then None
    else if h[0].0 == name then Some(h[0].1)
    else
      assert HeaderNames(h) == [h[0].0] + HeaderNames(h[1..]);
      HeaderValue(h[1..], name)
  }

  /** The profile has the nine named headers, in this order. */
  lemma ProfileHeaderNames()
    ensures HeaderNames(ProfileHeaders) == ["Accept", "Accept-Encoding", "Accept-Language", "Cache-Control",
      "Connection", "DNT", "Host", "Upgrade-Insecure-Requests", "User-Agent"]
  {
  }

  /** No header is sent twice. */
  lemma ProfileNamesDistinct()
    ensures forall i, j :: 0 <= i < j < |ProfileHeaders| ==> ProfileHeaders[i].0 != ProfileHeaders[j].0
  {
    var lengths := seq(|ProfileHeaders|, i requires 0 <= i < |ProfileHeaders| => |ProfileHeaders[i].0|);
    assert lengths == [6, 15, 15, 13, 10, 3, 4, 25, 10];
    assert ProfileHeaders[1].0[7] != ProfileHeaders[2].0[7];
    assert ProfileHeaders[4].0[0] != ProfileHeaders[8].0[0];
  }

  /** A header named once before position `i` is looked up at `i`. */
  lemma {:induction false} HeaderValueAt(h: Headers, i: nat)
    requires i < |h|
    requires forall j :: 0 <= j < i ==> h[j].0 != h[i].0
    ensures HeaderValue(h, h[i].0) == Some(h[i].1)
    decreases i
  {
    if i > 0 {
      assert h[0].0 != h[i].0;
      HeaderValueAt(h[1..], i - 1);
    }
  }

  /** Every header of the profile is sent with its own value. */
  lemma ProfileValues()
    ensures forall i :: 0 <= i < |ProfileHeaders| ==> HeaderValue(ProfileHeaders, ProfileHeaders[i].0) == Some(ProfileHeaders[i].1)
  {
    ProfileNamesDistinct();
    forall i | 0 <= i < |ProfileHeaders|
      ensures HeaderValue(ProfileHeaders, ProfileHeaders[i].0) == Some(ProfileHeaders[i].1)
    {
      HeaderValueAt(ProfileHeaders, i);
    }
  }

  /** Requests name the shop's host. */
  lemma ProfileHost()
    ensures HeaderValue(ProfileHeaders, "Host") == Some("www.x-kom.pl")
  {
    ProfileNamesDistinct();
    HeaderValueAt(ProfileHeaders, 6);
    assert ProfileHeaders[6] == ("Host", "www.x-kom.pl");
  }

  /** A scraped product; `url` is its key in the store. */
  datatype Product = Product(
    name: string,
    price: nat,
    currency: string,
    reviewCount: nat,
    averageRating: string,
    reviews: seq<string>,
    url: string)

  /** The fields extracted from one page, before the URL is attached. */
  datatype Fields = Fields(
    name: string,
    price: nat,
    currency: string,
    reviewCount: nat,
    averageRating: string,
    reviews: seq<string>)

  datatype ExtractError =
    | MissingElement(selector: string)
    | MissingTitle
    | BadPrice(priceText: string)
    | BadRating(ratingTitle: string)
    | BadReviewCount(countText: string)

  datatype Failure =
    | StoreUnavailable
    | FetchFailed(url: string)
    | ExtractionFailed(cause: ExtractError)
    | SaveFailed(product: Product)

  /** The fields of a page, or the first step that fails, in the order the crawler takes them. */
  function Extract(doc: Document): Result<Fields, ExtractError>
  {
    FieldsOf(Find(doc, NameClass), Find(doc, PriceClass), Find(doc, RatingClass),
             Find(doc, ReviewCountClass), FindAll(doc, ReviewsClass))
  }

  /** The extraction steps applied to what the five selectors found. */
  function FieldsOf(nameElement: Option<Element>, priceElement: Option<Element>, ratingElement: Option<Element>,
                    countElement: Option<Element>, reviewElements: seq<Element>): Result<Fields, ExtractError>
  {
    var name :- nameElement.ToResult(MissingElement(NameClass));
    var priceTag :- priceElement.ToResult(MissingElement(PriceClass));
    var price :- ParsePrice(priceTag.text).ToResult(BadPrice(priceTag.text));
    var currency := Currency(priceTag.text);
    var ratingTag :- ratingElement.ToResult(MissingElement(RatingClass));
    var title :- ratingTag.title.ToResult(MissingTitle);
    var rating :- ParseRating(title).ToResult(BadRating(title));
    var countTag :- countElement.ToResult(MissingElement(ReviewCountClass));
    var count :- ParseReviewCount(countTag.text).ToResult(BadReviewCount(countTag.text));
    Ok(Fields(name.text, price, currency, count, rating, Texts(reviewElements)))
  }

  /** The steps succeed exactly when every element is there and every field
      parses; each field comes from its own element; a missing element is
      reported by the selector of the first one absent. */
  lemma FieldsOfSpec(nameElement: Option<Element>, priceElement: Option<Element>, ratingElement: Option<Element>,
                     countElement: Option<Element>, reviewElements: seq<Element>)
    ensures var r := FieldsOf(nameElement, priceElement, ratingElement, countElement, reviewElements);
    && (r.Ok? <==>
      && nameElement.Some? && priceElement.Some? && ParsePrice(priceElement.value.text).Some?
      && ratingElement.Some? && ratingElement.value.title.Some? && ParseRating(ratingElement.value.title.value).Some?
      && countElement.Some? && ParseReviewCount(countElement.value.text).Some?)
    && (r.Ok? ==>
      && r.value.name == nameElement.value.text
      && Some(r.value.price) == ParsePrice(priceElement.value.text)
      && r.value.currency == Currency(priceElement.value.text)
      && Some(r.value.averageRating) == ParseRating(ratingElement.value.title.value)
      && Some(r.value.reviewCount) == ParseReviewCount(countElement.value.text)
      && r.value.reviews == Texts(reviewElements))
    && (r == Err(MissingElement(NameClass)) <==> nameElement.None?)
    && (r == Err(MissingElement(PriceClass)) <==> nameElement.Some? && priceElement.None?)
    && (r == Err(MissingElement(RatingClass)) <==>
      nameElement.Some? && priceElement.Some? && ParsePrice(priceElement.value.text).Some? && ratingElement.None?)
    && (r == Err(MissingElement(ReviewCountClass)) <==>
      nameElement.Some? && priceElement.Some? && ParsePrice(priceElement.value.text).Some?
      && ratingElement.Some? && ratingElement.value.title.Some? && ParseRating(ratingElement.value.title.value).Some?
      && countElement.None?)
    && (r.Err? && r.error.MissingElement? ==> r.error.selector in [NameClass, PriceClass, RatingClass, ReviewCountClass])
  {
    assert |NameClass| == 19 && |PriceClass| == 18 && |RatingClass| == 52 && |ReviewCountClass| == 19;
    assert NameClass != ReviewCountClass by { assert NameClass[4] != ReviewCountClass[4]; }
  }

  function ToProduct(f: Fields, url: string): (p: Product)
    ensures p.url == url
  {
    Product(f.name, f.price, f.currency, f.reviewCount, f.averageRating, f.reviews, url)
  }

  /** Extraction succeeds exactly when each required element is there and each field parses. */
  lemma ExtractSucceeds(doc: Document)
    ensures Extract(doc).Ok? <==>
      && Find(doc, NameClass).Some?
      && Find(doc, PriceClass).Some?
      && ParsePrice(Find(doc, PriceClass).value.text).Some?
      && Find(doc, RatingClass).Some?
      && Find(doc, RatingClass).value.title.Some?
      && ParseRating(Find(doc, RatingClass).value.title.value).Some?
      && Find(doc, ReviewCountClass).Some?
      && ParseReviewCount(Find(doc, ReviewCountClass).value.text).Some?
  {
  }

  /** A successful extraction reads each field from its element, and the reviews in document order. */
  lemma ExtractedFields(doc: Document)
    requires Extract(doc).Ok?
    ensures var f := Extract(doc).value;
      && f.name == FindAll(doc, NameClass)[0].text
      && Some(f.price) == ParsePrice(FindAll(doc, PriceClass)[0].text)
      && f.currency == Currency(FindAll(doc, PriceClass)[0].text)
      && |f.currency| <= 2
      && Some(f.averageRating) == ParseRating(FindAll(doc, RatingClass)[0].title.value)
      && Some(f.reviewCount) == ParseReviewCount(FindAll(doc, ReviewCountClass)[0].text)
      && |f.reviews| == |FindAll(doc, ReviewsClass)|
      && forall i :: 0 <= i < |f.reviews| ==> f.reviews[i] == FindAll(doc, ReviewsClass)[i].text
  {
    FieldsOfSpec(Find(doc, NameClass), Find(doc, PriceClass), Find(doc, RatingClass),
                 Find(doc, ReviewCountClass), FindAll(doc, ReviewsClass));
  }

  /** A missing element is reported by one of the four required selectors,
      and only when the page has no element of that class. */
  lemma ExtractMissing(doc: Document)
    requires Extract(doc).Err? && Extract(doc).error.MissingElement?
    ensures Extract(doc).error.selector in [NameClass, PriceClass, RatingClass, ReviewCountClass]
    ensures FindAll(doc, Extract(doc).error.selector) == []
  {
    var n, p, t, c := Find(doc, NameClass), Find(doc, PriceClass), Find(doc, RatingClass), Find(doc, ReviewCountClass);
    FieldsOfSpec(n, p, t, c, FindAll(doc, ReviewsClass));
    var e := Extract(doc).error;
    assert |NameClass| == 19 && |PriceClass| == 18 && |RatingClass| == 52 && |ReviewCountClass| == 19;
    assert NameClass != ReviewCountClass by { assert NameClass[4] != ReviewCountClass[4]; }
    if e.selector == NameClass {
      assert n.None?;
    } else if e.selector == PriceClass {
      assert p.None?;
    } else if e.selector == RatingClass {
      assert t.None?;
    } else {
      assert c.None?;
    }
  }

  /** A page lacking any required element yields no fields at all. */
  lemma MissingElementFails(doc: Document, selector: string)
    requires selector in [NameClass, PriceClass, RatingClass, ReviewCountClass]
    requires FindAll(doc, selector) == []
    ensures Extract(doc).Err?
  {
    var n, p, t, c := Find(doc, NameClass), Find(doc, PriceClass), Find(doc, RatingClass), Find(doc, ReviewCountClass);
    assert Extract(doc) == FieldsOf(n, p, t, c, FindAll(doc, ReviewsClass));
    if selector == NameClass {
      assert n.None?;
    } else if selector == PriceClass {
      assert p.None?;
    } else if selector == RatingClass {
      assert t.None?;
    } else {
      assert c.None?;
    }
  }

  /** Extraction reads the document only through the five selectors: pages
      that agree on the four required ones extract alike, up to the reviews. */
  lemma ExtractFrame(d1: Document, d2: Document)
    requires Find(d1, NameClass) == Find(d2, NameClass) && Find(d1, PriceClass) == Find(d2, PriceClass)
    requires Find(d1, RatingClass) == Find(d2, RatingClass) && Find(d1, ReviewCountClass) == Find(d2, ReviewCountClass)
    ensures Extract(d1).Ok? <==> Extract(d2).Ok?
    ensures Extract(d1).Ok? ==> Extract(d1).value.(reviews := Extract(d2).value.reviews) == Extract(d2).value
  {
    var n, p, t, c := Find(d1, NameClass), Find(d1, PriceClass), Find(d1, RatingClass), Find(d1, ReviewCountClass);
    assert Extract(d1) == FieldsOf(n, p, t, c, FindAll(d1, ReviewsClass));
    assert Extract(d2) == FieldsOf(n, p, t, c, FindAll(d2, ReviewsClass));
    FieldsOfSpec(n, p, t, c, FindAll(d1, ReviewsClass));
    FieldsOfSpec(n, p, t, c, FindAll(d2, ReviewsClass));
  }

  lemma FindWithout(doc: Document, removed: string, c: string)
    requires c != removed
    ensures Find(Document(doc.byClass - {removed}), c) == Find(doc, c)
  {
    assert FindAll(Document(doc.byClass - {removed}), c) == FindAll(doc, c);
  }

  /** Having no review elements is not a failure: the same page without them
      extracts exactly when it did before, with no reviews. */
  lemma ReviewsOptional(doc: Document)
    ensures var bare := Document(doc.byClass - {ReviewsClass});
      && (Extract(bare).Ok? <==> Extract(doc).Ok?)
      && (Extract(bare).Ok? ==> Extract(bare).value.reviews == []
                                && Extract(bare).value.(reviews := Extract(doc).value.reviews) == Extract(doc).value)
  {
    var bare := Document(doc.byClass - {ReviewsClass});
    assert |ReviewsClass| == 38 && |NameClass| == 19 && |PriceClass| == 18;
    assert |RatingClass| == 52 && |ReviewCountClass| == 19;
    FindWithout(doc, ReviewsClass, NameClass);
    FindWithout(doc, ReviewsClass, PriceClass);
    FindWithout(doc, ReviewsClass, RatingClass);
    FindWithout(doc, ReviewsClass, ReviewCountClass);
    ExtractFrame(bare, doc);
    assert FindAll(bare, ReviewsClass) == [];
    FieldsOfSpec(Find(bare, NameClass), Find(bare, PriceClass), Find(bare, RatingClass),
                 Find(bare, ReviewCountClass), []);
    assert Texts([]) == [];
  }

  /** What the crawler can observe of the world: the store's contents and
      reachability, and the pages the shop serves. */
  datatype World = World(
    store: map<string, Product>,
    readable: bool,
    writable: bool,
    site: map<string, Document>)

  /** The effect of one call: its result, the store afterwards, whether a page
      was fetched and which product, if any, was handed to save. */
  datatype Outcome = Outcome(
    result: Result<Product, Failure>,
    store: map<string, Product>,
    fetched: bool,
    saved: Option<Product>)

  /** The specification of one `parse(url)` call. */
  function Resolve(w: World, url: string): Outcome
  {
    if !w.readable then Outcome(Err(StoreUnavailable), w.store, false, None)
    else if url in w.store then Outcome(Ok(w.store[url]), w.store, false, None)
    else if url !in w.site then Outcome(Err(FetchFailed(url)), w.store, true, None)
    else AfterFetch(w, url, w.site[url])
  }

  /** The part of a call after the page `doc` has been fetched: extraction, then save. */
  function AfterFetch(w: World, url: string, doc: Document): Outcome
  {
    match Extract(doc)
      case Err(e) => Outcome(Err(ExtractionFailed(e)), w.store, true, None)
      case Ok(f) =>
        var p := ToProduct(f, url);
        if w.writable then Outcome(Ok(p), w.store[url := p], true, Some(p))
        else Outcome(Err(SaveFailed(p)), w.store, true, Some(p))
  }

  /** A store hit returns the stored document unchanged, with no fetch and no save. */
  lemma HitIsPure(w: World, url: string)
    requires w.readable && url in w.store
    ensures var o := Resolve(w, url);
      o.result == Ok(w.store[url]) && !o.fetched && o.saved == None && o.store == w.store
  {
  }

  /** A store that cannot be read is an error, never a miss: nothing is fetched or saved. */
  lemma StoreErrorPropagates(w: World, url: string)
    requires !w.readable
    ensures var o := Resolve(w, url);
      o.result == Err(StoreUnavailable) && !o.fetched && o.saved == None && o.store == w.store
  {
  }

  /** Only the not-found answer leads to a fetch. */
  lemma FetchOnlyOnMiss(w: World, url: string)
    ensures Resolve(w, url).fetched <==> w.readable && url !in w.store
  {
  }

  /** A fetch or extraction failure saves nothing; the store changes only when
      save succeeds, and then only at the requested URL. */
  lemma FailureSavesNothing(w: World, url: string)
    ensures var o := Resolve(w, url);
      && (o.result.Err? && !o.result.error.SaveFailed? ==> o.saved == None)
      && (o.store != w.store ==> o.result.Ok? && o.saved.Some? && w.writable)
      && (forall k :: k != url ==> (k in o.store <==> k in w.store))
      && (forall k :: k in w.store ==> k in o.store && o.store[k] == w.store[k])
  {
  }

  /** A miss on a well-formed page fetches once, saves once, and returns the
      product saved: the page's fields, keyed by the requested URL. */
  lemma CacheFill(w: World, url: string)
    requires w.readable && w.writable && url !in w.store && url in w.site
    requires Extract(w.site[url]).Ok?
    ensures var o := Resolve(w, url);
      && o.fetched
      && o.result == Ok(ToProduct(Extract(w.site[url]).value, url))
      && o.saved == Some(o.result.value)
      && o.result.value.url == url
      && o.store == w.store[url := o.result.value]
  {
  }

  /** After a successful call, calling again with the same URL returns the same
      product from the store, without fetching or saving. */
  lemma Idempotent(w: World, url: string)
    requires Resolve(w, url).result.Ok?
    ensures var o := Resolve(w, url);
      var again := Resolve(w.(store := o.store), url);
      again.result == o.result && !again.fetched && again.saved == None && again.store == o.store
  {
  }

  /** A lookup in the store: the document, the not-found signal, or a store error. */
  datatype Lookup = Hit(product: Product) | NotFound | Unavailable

  /** Copies the text of each matched review, in order. */
  method CollectReviews(elements: seq<Element>) returns (reviews: seq<string>)
    ensures reviews == Texts(elements)
  {
    reviews := [];
    for i := 0 to |elements|
      invariant |reviews| == i
      invariant forall k :: 0 <= k < i ==> reviews[k] == elements[k].text
    {
      reviews := reviews + [elements[i].text];
    }
  }

  /** Lines 54-69 of the crawler, step by step: each element is looked up and
      each field parsed in turn, the first failure ending the extraction. */
  method ExtractFields(doc: Document) returns (r: Result<Fields, ExtractError>)
    ensures r == Extract(doc)
  {
    var nameElement := Find(doc, NameClass);
    if nameElement.None? {
      return Err(MissingElement(NameClass));
    }
    var name := nameElement.value.text;

    var priceElement := Find(doc, PriceClass);
    if priceElement.None? {
      return Err(MissingElement(PriceClass));
    }
    var priceCurrency := priceElement.value.text;
    var price := ParsePrice(priceCurrency);
    if price.None? {
      return Err(BadPrice(priceCurrency));
    }
    var currency := Currency(priceCurrency);

    var ratingElement := Find(doc, RatingClass);
    if ratingElement.None? {
      return Err(MissingElement(RatingClass));
    }
    if ratingElement.value.title.None? {
      return Err(MissingTitle);
    }
    var title := ratingElement.value.title.value;
    var rating := ParseRating(title);
    if rating.None? {
      return Err(BadRating(title));
    }

    var countElement := Find(doc, ReviewCountClass);
    if countElement.None? {
      return Err(MissingElement(ReviewCountClass));
    }
    var count := ParseReviewCount(countElement.value.text);
    if count.None? {
      return Err(BadReviewCount(countElement.value.text));
    }

    var reviews := CollectReviews(FindAll(doc, ReviewsClass));
    return Ok(Fields(name, price.value, currency, count.value, rating.value, reviews));
  }

  /**
   * The crawler together with the state it acts on: the document store
   * (its contents and whether reads and writes get through) and the pages the
   * shop serves. The ghost logs record every lookup, fetch and save.
   */
  class Xkom {
    var store: map<string, Product>
    var readable: bool
    var writable: bool
    var site: map<string, Document>
    ghost var lookups: seq<string>
    ghost var fetches: seq<(string, Headers)>
    ghost var saves: seq<Product>

    constructor (store: map<string, Product>, readable: bool, writable: bool, site: map<string, Document>)
      ensures this.store == store && this.readable == readable && this.writable == writable && this.site == site
      ensures lookups == [] && fetches == [] && saves == []
    {
      this.store := store;
      this.readable := readable;
      this.writable := writable;
      this.site := site;
      lookups := [];
      fetches := [];
      saves := [];
    }

    function State(): World
      reads this
    {
      World(store, readable, writable, site)
    }

    /** The store's `get(id=url)`. */
    method Get(url: string) returns (r: Lookup)
      modifies this`lookups
      ensures lookups == old(lookups) + [url]
      ensures r == if !readable then Unavailable else if url in store then Hit(store[url]) else NotFound
    {
      lookups := lookups + [url];
      if !readable {
        r := Unavailable;
      } else if url in store {
        r := Hit(store[url]);
      } else {
        r := NotFound;
      }
    }

    /** The inherited `request(url, headers)`: the page, or a transport error. */
    method Request(url: string, headers: Headers) returns (r: Option<Document>)
      modifies this`fetches
      ensures fetches == old(fetches) + [(url, headers)]
      ensures r == if url in site then Some(site[url]) else None
    {
      fetches := fetches + [(url, headers)];
      r := if url in site then Some(site[url]) else None;
    }

    /** The inherited `save(product)`: the product indexed under its URL. */
    method Save(product: Product) returns (ok: bool)
      modifies this`store, this`saves
      ensures saves == old(saves) + [product]
      ensures ok == writable
      ensures store == if writable then old(store)[product.url := product] else old(store)
    {
      saves := saves + [product];
      ok := writable;
      if ok {
        store := store[product.url := product];
      }
    }

    /** `parse(url)`: the cache check, fetch, extraction, save and return. */
    method Parse(url: string) returns (r: Result<Product, Failure>)
      modifies this`store, this`lookups, this`fetches, this`saves
      ensures var o := Resolve(old(State()), url);
        && r == o.result
        && store == o.store
        && lookups == old(lookups) + [url]
        && fetches == old(fetches) + (if o.fetched then [(url, ProfileHeaders)] else [])
        && saves == old(saves) + (if o.saved.Some? then [o.saved.value] else [])
    {
      var cached := Get(url);
      match cached {
        case Hit(p) =>
          return Ok(p);
        case Unavailable =>
          return Err(StoreUnavailable);
        case NotFound =>
      }

      var response := Request(url, ProfileHeaders);
      if response.None? {
        return Err(FetchFailed(url));
      }
      r := ExtractAndSave(url, response.value);
    }

    /** Lines 51-80 of the crawler on a fetched page: extract the fields, build
        the product under the requested URL and save it. */
    method ExtractAndSave(url: string, doc: Document) returns (r: Result<Product, Failure>)
      modifies this`store, this`saves
      ensures var o := AfterFetch(old(State()), url, doc);
        && r == o.result
        && store == o.store
        && saves == old(saves) + (if o.saved.Some? then [o.saved.value] else [])
    {
      var extracted := ExtractFields(doc);
      if extracted.Err? {
        return Err(ExtractionFailed(extracted.error));
      }
      var f := extracted.value;
      var product := ToProduct(f, url);
      var ok := Save(product);
      if !ok {
        return Err(SaveFailed(product));
      }
      return Ok(product);
    }
  }
}
