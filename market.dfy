/** The market tab (src/tabs/market/Market.jsx): classified listings
    (NIP-99, kind 30402) projected from their tags, kept newest first by
    publication time without duplicate ids, and the per-listing image
    toggle. */
module Market {
  import opened Wrappers
  import opened Tags
  import opened Nostr
  import opened JsString
  import Ordering

  /** A listing as the tab keeps it. */
  datatype Listing = Listing(id: string, pubkey: string, content: string, tags: seq<Tag>,
                             created_at: int, title: string, summary: string,
                             published_at: int, location: Option<string>,
                             price: Option<string>, images: seq<Option<string>>)

  function ListingId(l: Listing): string { l.id }
  function PublishedAt(l: Listing): int { l.published_at }

  /** `parseInt(tag value) || created_at`: NaN and 0 fall back to the
      creation time; a missing tag parses as the text "undefined". */
  function PublishedAtOf(tags: seq<Tag>, created_at: int): (t: int)
    ensures Value(tags, "published_at").None? ==> t == created_at
    ensures ParseInt(Text(Value(tags, "published_at"))) in {None, Some(0)} ==> t == created_at
    ensures t != created_at ==> Some(t) == ParseInt(Text(Value(tags, "published_at")))
    ensures var p := ParseInt(Text(Value(tags, "published_at")));
            p.Some? && p.value != 0 ==> t == p.value
  {
    assert ParseInt("undefined") == None by { ParseIntRejects("undefined"); }
    match ParseInt(Text(Value(tags, "published_at")))
    case None => created_at
    case Some(v) => if v == 0 then created_at else v
  }

  /** The price line: none without a `price` tag, otherwise the amount, a
      space, the upper-cased currency (empty when missing) and, when a
      frequency is given, " / " and the frequency. */
  function PriceOf(tags: seq<Tag>): (p: Option<string>)
    ensures p.Some? <==> Has(tags, "price")
  {
    match Find(tags, "price")
    case None => None
    case Some(t) => Some(FormatPrice(t))
  }

  /** The price IIFE on the `price` tag `[_, amount, currency, frequency]`. */
  function FormatPrice(t: Tag): string {
    var amount, currency, frequency := Field(t, 1), Field(t, 2), Field(t, 3);
    var formatted := Text(amount) + " " + OrElse(if currency.Some? then Some(ToUpperAscii(currency.value)) else None, "");
    if frequency.Some? && frequency.value != "" then formatted + " / " + frequency.value else formatted
  }

  /** A full price tag reads "amount CURRENCY / frequency"; an empty
      frequency adds nothing. */
  lemma FormatFullPrice(amount: string, currency: string, frequency: string)
    ensures FormatPrice(["price", amount, currency, frequency])
            == amount + " " + ToUpperAscii(currency) + (if frequency != "" then " / " + frequency else "")
  {
    if ToUpperAscii(currency) == "" {
      assert OrElse(Some(ToUpperAscii(currency)), "") == "" == ToUpperAscii(currency);
    }
    if frequency == "" {
      assert amount + " " + ToUpperAscii(currency) + "" == amount + " " + ToUpperAscii(currency);
    }
  }

  /** Without a frequency the price reads "amount CURRENCY". */
  lemma FormatAmountCurrency(amount: string, currency: string)
    ensures FormatPrice(["price", amount, currency]) == amount + " " + ToUpperAscii(currency)
  {
    if ToUpperAscii(currency) == "" {
      assert OrElse(Some(ToUpperAscii(currency)), "") == "" == ToUpperAscii(currency);
    }
  }

  /** Without a currency the price is the amount and a trailing space. */
  lemma FormatAmountOnly(amount: string)
    ensures FormatPrice(["price", amount]) == amount + " "
  {
    assert amount + " " + "" == amount + " ";
  }

  /** Without even an amount, the price reads "undefined ". */
  lemma FormatNoAmount()
    ensures FormatPrice(["price"]) == "undefined "
  {
    assert "undefined" + " " + "" == "undefined ";
  }

  /** The listing built from an event. */
  function Project(e: Event): (l: Listing)
    ensures l.id == e.id && l.pubkey == e.pubkey && l.content == e.content
    ensures l.created_at == e.created_at && l.tags == e.tags
    ensures l.title != ""
    ensures Value(e.tags, "title").Some? && Value(e.tags, "title").value != "" ==> l.title == Value(e.tags, "title").value
    ensures Value(e.tags, "title").None? || Value(e.tags, "title").value == "" ==> l.title == "Untitled"
    ensures Value(e.tags, "summary").Some? ==> l.summary == Value(e.tags, "summary").value
    ensures Value(e.tags, "summary").None? ==> l.summary == ""
    ensures l.location.Some? <==> Value(e.tags, "location").Some? && Value(e.tags, "location").value != ""
    ensures l.location.Some? ==> l.location == Value(e.tags, "location")
    ensures l.published_at == PublishedAtOf(e.tags, e.created_at)
    ensures l.price == PriceOf(e.tags)
    ensures l.images == Values(e.tags, "image") && |l.images| <= |e.tags|
  {
    Listing(e.id, e.pubkey, e.content, e.tags, e.created_at,
            OrElse(Value(e.tags, "title"), "Untitled"),
            OrElse(Value(e.tags, "summary"), ""),
            PublishedAtOf(e.tags, e.created_at),
            (var v := Value(e.tags, "location"); if v.Some? && v.value != "" then v else None),
            PriceOf(e.tags),
            Values(e.tags, "image"))
  }

  /** A decimal publication time without leading zeros is the one used. */
  lemma PublishedAtDecimal(tags: seq<Tag>, created_at: int, n: nat)
    requires n > 0
    requires Value(tags, "published_at") == Some(Decimal(n))
    ensures PublishedAtOf(tags, created_at) == n
  {
    ParseIntDecimal(n, "");
    assert Decimal(n) + "" == Decimal(n);
  }

  /** The fields a listing event typically carries come out as written. */
  lemma ProjectListing(e: Event, title: string, amount: string, currency: string, frequency: string)
    requires e.tags == [["title", title], ["price", amount, currency, frequency]]
    requires title != "" && frequency != ""
    ensures Project(e).title == title
    ensures Project(e).price == Some(amount + " " + ToUpperAscii(currency) + " / " + frequency)
    ensures Project(e).summary == "" && Project(e).location == None
    ensures Project(e).images == [] && Project(e).published_at == e.created_at
  {
    var tags := e.tags;
    FindFirst(tags, "title", 0);
    FindFirst(tags, "price", 1);
    FormatFullPrice(amount, currency, frequency);
    FindAbsent(tags, "summary");
    FindAbsent(tags, "location");
    FindAbsent(tags, "published_at");
    ValuesAbsent(tags, "image");
  }

  /** The market subscription: classified listings of the last 30 days,
      twenty at most, on the typed topic. */
  function MarketFilter(topic: string, now: int): (f: Filter)
    ensures f.kinds == [30402] && f.since == now - 2592000 && f.limit == 20
    ensures f.tags == TopicTags(topic)
  {
    Filter([30402], TopicTags(topic), now - 2592000, 20)
  }

  /** The market subscription sees exactly the listings of the last 30
      days, carrying the typed topic as a "t" tag when one is typed. */
  lemma MarketFilterMatches(topic: string, now: int, kind: int, created_at: int, tags: seq<Tag>)
    ensures Matches(MarketFilter(topic, now), kind, created_at, tags)
            <==> kind == 30402 && created_at >= now - 2592000
                 && (Trim(topic) == "" || exists t :: t in tags && |t| >= 2 && t[0] == "t" && t[1] == topic)
  {
    TopicMatches(30402, topic, now - 2592000, 20, kind, created_at, tags);
  }

  /** The feed's invariant: newest publication first, no id twice. */
  ghost predicate Ordered(posts: seq<Listing>) {
    Ordering.SortedBy(posts, PublishedAt) && Ordering.UniqueIds(posts, ListingId)
  }

  /** `toggleImages`: flips one listing's flag (a missing flag reads false). */
  function ToggleImages(shown: map<string, bool>, id: string): (r: map<string, bool>)
    ensures id in r && r[id] == !(id in shown && shown[id])
    ensures forall k :: k in shown && k != id ==> k in r && r[k] == shown[k]
    ensures r.Keys == shown.Keys + {id}
  {
    shown[id := !(id in shown && shown[id])]
  }

  function ImagesShown(shown: map<string, bool>, id: string): bool {
    id in shown && shown[id]
  }

  /** Toggling twice shows what was shown before, for every listing. */
  lemma ToggleTwice(shown: map<string, bool>, id: string)
    ensures forall k :: ImagesShown(ToggleImages(ToggleImages(shown, id), id), k) == ImagesShown(shown, k)
  {
  }

  /** The tab's listing state. */
  class MarketFeed {
    var posts: seq<Listing>
    var loading: bool
    var shown: map<string, bool>

    /** The list as stored from the last session, not loading, no images
        shown. */
    constructor(saved: seq<Listing>)
      ensures posts == saved && !loading && shown == map[]
    {
      posts := saved;
      loading := false;
      shown := map[];
    }

    /** `fetchMarketPosts`: the list is emptied and a subscription opened. */
    method Fetch(topic: string, now: int) returns (f: Filter)
      modifies this`posts, this`loading
      ensures posts == [] && loading
      ensures f == MarketFilter(topic, now)
      ensures Ordered(posts)
    {
      loading := true;
      posts := [];
      f := MarketFilter(topic, now);
    }

    /** The subscription's `onevent`: a known id changes nothing; a new
        listing is added and the list re-sorted. */
    method Receive(e: Event)
      modifies this`posts
      ensures posts == Ordering.Accept(old(posts), Project(e), ListingId, PublishedAt)
      ensures Ordered(old(posts)) ==> Ordered(posts)
      ensures Ordering.HasId(old(posts), e.id, ListingId) ==> posts == old(posts)
      ensures Ordering.HasId(posts, e.id, ListingId)
    {
      var l := Project(e);
      Ordering.AcceptContents(posts, l, ListingId, PublishedAt);
      if Ordered(posts) {
        Ordering.AcceptKeepsInvariant(posts, l, ListingId, PublishedAt);
      }
      posts := Ordering.Accept(posts, l, ListingId, PublishedAt);
    }

    /** The five-second timer: the subscription is closed. */
    method Timeout()
      modifies this`loading
      ensures !loading
    {
      loading := false;
    }

    method Toggle(id: string)
      modifies this`shown
      ensures shown == ToggleImages(old(shown), id)
      ensures ImagesShown(shown, id) != ImagesShown(old(shown), id)
    {
      shown := ToggleImages(shown, id);
    }
  }
}
