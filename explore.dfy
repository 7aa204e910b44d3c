/** The explore tab (src/tabs/explore/Explore.jsx): long-form articles
    (NIP-23, kind 30023) of the last week, projected from their tags and
    kept newest first without duplicate ids. */
module Explore {
  import opened Wrappers
  import opened Tags
  import opened Nostr
  import opened JsString
  import Ordering

  /** `published_at` is the raw tag text when there is one, the creation
      time otherwise: the two are not parsed alike. */
  datatype Stamp = Raw(text: string) | Created(time: int)

  datatype Article = Article(id: string, pubkey: string, content: string, tags: seq<Tag>,
                             created_at: int, title: string, summary: string, published_at: Stamp)

  function ArticleId(a: Article): string { a.id }

  /** The number the comparator `b.published_at - a.published_at` sees:
      a raw text is coerced with `Number`; a text that is not an integer is
      NaN, which counts here as 0. */
  function StampKey(a: Article): int {
    match a.published_at
    case Created(t) => t
    case Raw(s) => ToNumber(s).GetOr(0)
  }

  /** The article built from an event. */
  function Project(e: Event): (a: Article)
    ensures a.id == e.id && a.pubkey == e.pubkey && a.content == e.content
    ensures a.created_at == e.created_at && a.tags == e.tags
    ensures a.title != ""
    ensures Value(e.tags, "title").Some? && Value(e.tags, "title").value != "" ==> a.title == Value(e.tags, "title").value
    ensures Value(e.tags, "title").None? || Value(e.tags, "title").value == "" ==> a.title == "Untitled"
    ensures Value(e.tags, "summary").Some? ==> a.summary == Value(e.tags, "summary").value
    ensures Value(e.tags, "summary").None? ==> a.summary == ""
    ensures a.published_at.Raw? <==> Value(e.tags, "published_at").Some? && Value(e.tags, "published_at").value != ""
    ensures a.published_at.Raw? ==> a.published_at.text == Value(e.tags, "published_at").value
    ensures a.published_at.Created? ==> a.published_at.time == e.created_at
  {
    var p := Value(e.tags, "published_at");
    Article(e.id, e.pubkey, e.content, e.tags, e.created_at,
            OrElse(Value(e.tags, "title"), "Untitled"),
            OrElse(Value(e.tags, "summary"), ""),
            if p.Some? && p.value != "" then Raw(p.value) else Created(e.created_at))
  }

  /** A publication time written in decimal orders an article as that
      number. */
  lemma StampKeyDecimal(e: Event, n: nat)
    requires Value(e.tags, "published_at") == Some(Decimal(n))
    ensures StampKey(Project(e)) == n
  {
    ToNumberDecimal(n);
  }

  /** The explore subscription: long-form articles of the last seven days,
      fifteen at most, on the typed topic. */
  function ExploreFilter(topic: string, now: int): (f: Filter)
    ensures f.kinds == [30023] && f.since == now - 604800 && f.limit == 15
    ensures f.tags == TopicTags(topic)
  {
    Filter([30023], TopicTags(topic), now - 604800, 15)
  }

  /** The explore subscription sees exactly the articles of the last seven
      days, carrying the typed topic as a "t" tag when one is typed. */
  lemma ExploreFilterMatches(topic: string, now: int, kind: int, created_at: int, tags: seq<Tag>)
    ensures Matches(ExploreFilter(topic, now), kind, created_at, tags)
            <==> kind == 30023 && created_at >= now - 604800
                 && (Trim(topic) == "" || exists t :: t in tags && |t| >= 2 && t[0] == "t" && t[1] == topic)
  {
    TopicMatches(30023, topic, now - 604800, 15, kind, created_at, tags);
  }

  ghost predicate Ordered(posts: seq<Article>) {
    Ordering.SortedBy(posts, StampKey) && Ordering.UniqueIds(posts, ArticleId)
  }

  /** The tab's article list. */
  class LongformFeed {
    var posts: seq<Article>
    var loading: bool

    /** The list as stored from the last session, not loading. */
    constructor(saved: seq<Article>)
      ensures posts == saved && !loading
    {
      posts := saved;
      loading := false;
    }

    /** `fetchLongformPosts`: the list is emptied before the subscription
        delivers anything. */
    method Fetch(topic: string, now: int) returns (f: Filter)
      modifies this`posts, this`loading
      ensures posts == [] && loading
      ensures f == ExploreFilter(topic, now)
      ensures Ordered(posts)
    {
      loading := true;
      posts := [];
      f := ExploreFilter(topic, now);
    }

    /** The subscription's `onevent`. */
    method Receive(e: Event)
      modifies this`posts
      ensures posts == Ordering.Accept(old(posts), Project(e), ArticleId, StampKey)
      ensures Ordered(old(posts)) ==> Ordered(posts)
      ensures Ordering.HasId(old(posts), e.id, ArticleId) ==> posts == old(posts)
      ensures Ordering.HasId(posts, e.id, ArticleId)
    {
      var a := Project(e);
      Ordering.AcceptContents(posts, a, ArticleId, StampKey);
      if Ordered(posts) {
        Ordering.AcceptKeepsInvariant(posts, a, ArticleId, StampKey);
      }
      posts := Ordering.Accept(posts, a, ArticleId, StampKey);
    }

    /** The five-second timer. */
    method Timeout()
      modifies this`loading
      ensures !loading
    {
      loading := false;
    }
  }

  /** The articles a run of events projects to. */
  function Articles(es: seq<Event>): (r: seq<Article>)
    ensures |r| == |es| && forall i :: 0 <= i < |es| ==> r[i] == Project(es[i])
  {
    seq(|es|, i requires 0 <= i < |es| => Project(es[i]))
  }

  /** After a fetch the list holds an article exactly when its id was
      delivered since: nothing from before the fetch survives. */
  lemma AfterFetch(es: seq<Event>, v: string)
    ensures Ordering.HasId(Ordering.AcceptAll([], Articles(es), ArticleId, StampKey), v, ArticleId)
            <==> exists i :: 0 <= i < |es| && es[i].id == v
  {
    var xs := Articles(es);
    Ordering.AcceptAllIds([], xs, v, ArticleId, StampKey);
    if exists i :: 0 <= i < |es| && es[i].id == v {
      var i :| 0 <= i < |es| && es[i].id == v;
      assert ArticleId(xs[i]) == v;
    }
  }
}
