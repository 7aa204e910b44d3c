/** The nostr event and subscription-filter shapes the client handles. */
module Nostr {
  import opened Tags
  import JsString

  /** A signed event as a relay delivers it. */
  datatype Event = Event(id: string, pubkey: string, created_at: int, kind: int,
                         tags: seq<Tag>, content: string)

  /** An event before `finalizeEvent` gives it an id and a signature. */
  datatype Draft = Draft(kind: int, created_at: int, tags: seq<Tag>, content: string, pubkey: string)

  /** A subscription filter; `tags` maps filter keys such as "#t" to their values. */
  datatype Filter = Filter(kinds: seq<int>, tags: map<string, seq<string>>, since: int, limit: int)

  /** Whether a relay passes an event to a subscription (NIP-01): the kind is
      listed, the event is not older than `since`, and for every "#x" key
      some "x" tag carries one of the listed values. */
  predicate Matches(f: Filter, kind: int, created_at: int, tags: seq<Tag>) {
    kind in f.kinds && created_at >= f.since
    && forall k :: k in f.tags ==>
         |k| == 2 && k[0] == '#'
         && exists t :: t in tags && |t| >= 2 && t[0] == k[1..] && t[1] in f.tags[k]
  }

  /** The optional topic of the market and long-form feeds: "#t" is set
      only when the typed tag is not blank, and then to the tag as typed. */
  function TopicTags(tag: string): (m: map<string, seq<string>>)
    ensures m == map[] <==> JsString.Trim(tag) == ""
    ensures m != map[] ==> m == map["#t" := [tag]]
  {
    if JsString.Trim(tag) != "" then
      var m := map["#t" := [tag]];
      assert "#t" in m;
      m
    else map[]
  }

  /** A feed subscription sees every event of its kind and age when no
      topic is typed, and otherwise only those carrying a "t" tag equal to
      the topic. */
  lemma TopicMatches(k: int, tag: string, since: int, limit: int, kind: int, created_at: int, tags: seq<Tag>)
    ensures Matches(Filter([k], TopicTags(tag), since, limit), kind, created_at, tags)
            <==> kind == k && created_at >= since
                 && (JsString.Trim(tag) == "" || exists t :: t in tags && |t| >= 2 && t[0] == "t" && t[1] == tag)
  {
    var f := Filter([k], TopicTags(tag), since, limit);
    if JsString.Trim(tag) != "" {
      assert f.tags.Keys == {"#t"};
      assert "#t"[1..] == "t";
    }
  }
}
