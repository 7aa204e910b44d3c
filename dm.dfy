/** The direct-message tab (src/tabs/dm/Dm.jsx): per-peer message threads
    kept oldest first without duplicate ids, unread counters, the
    conversation list and its creation and update rules, recipient
    validation, the unread badge and the two gift-wrap subscriptions.
    Unwrapping a gift wrap (NIP-17) is done by the caller: a handler receives
    the unwrapped rumor, or `None` when unwrapping threw. */
module Dm {
  import opened Wrappers
  import opened Tags
  import opened Nostr
  import opened JsString
  import Ordering

  // ---------------------------------------------------------------------
  // Messages and threads

  /** A direct message as a thread holds it (the locale time string is left out). */
  datatype DmMessage = DmMessage(id: string, pubkey: string, content: string,
                                 created_at: int, isSelf: bool)

  /** The sealed inner event of a gift wrap; `id` may be missing. */
  datatype Rumor = Rumor(id: Option<string>, kind: int, pubkey: string, content: string,
                         created_at: int)

  function MessageId(m: DmMessage): string { m.id }

  /** Sorting by this key, larger first, is `sort((a, b) => a.created_at - b.created_at)`. */
  function Earliness(m: DmMessage): int { -m.created_at }

  /** The message a rumor becomes; its id is `rumor.id || event.id`. */
  function ToMessage(r: Rumor, wrapId: string): (m: DmMessage)
    ensures m.id == (if r.id.Some? && r.id.value != "" then r.id.value else wrapId)
    ensures m.pubkey == r.pubkey && m.created_at == r.created_at && !m.isSelf
  {
    DmMessage(OrElse(r.id, wrapId), r.pubkey, r.content, r.created_at, false)
  }

  /** `prev[peer] || []` */
  function Thread(threads: map<string, seq<DmMessage>>, peer: string): seq<DmMessage> {
    if peer in threads then threads[peer] else []
  }

  /** A thread's invariant: oldest first, no id twice. */
  ghost predicate Chronological(s: seq<DmMessage>) {
    Ordering.SortedBy(s, Earliness) && Ordering.UniqueIds(s, MessageId)
  }

  /** The outcome of the `setMessages` updater, with the `isNewMessage` flag
      it sets on the way. */
  datatype Stored = Stored(threads: map<string, seq<DmMessage>>, isNew: bool)

  /** The `setMessages` updater of both handlers: a message whose id is
      already in its peer's thread changes nothing; a new one is added to
      that thread, which is re-sorted oldest first.  No other thread changes. */
  function Store(prev: map<string, seq<DmMessage>>, m: DmMessage): (r: Stored)
    ensures r.isNew <==> !Ordering.HasId(Thread(prev, m.pubkey), m.id, MessageId)
    ensures !r.isNew ==> r.threads == prev
    ensures r.isNew ==> r.threads == prev[m.pubkey := Ordering.Accept(Thread(prev, m.pubkey), m, MessageId, Earliness)]
  {
    var thread := Thread(prev, m.pubkey);
    if Ordering.HasId(thread, m.id, MessageId) then Stored(prev, false)
    else Stored(prev[m.pubkey := Ordering.Accept(thread, m, MessageId, Earliness)], true)
  }

  /** A stored message is in its peer's thread afterwards, which gains
      exactly that message when it is new; no other thread changes. */
  lemma StoreContents(prev: map<string, seq<DmMessage>>, m: DmMessage)
    ensures var r := Store(prev, m);
            && Ordering.HasId(Thread(r.threads, m.pubkey), m.id, MessageId)
            && r.threads.Keys == prev.Keys + (if r.isNew then {m.pubkey} else {})
            && (forall k :: k in prev && k != m.pubkey ==> r.threads[k] == prev[k])
            && multiset(Thread(r.threads, m.pubkey))
               == multiset(Thread(prev, m.pubkey)) + (if r.isNew then multiset{m} else multiset{})
  {
    var t, r := Thread(prev, m.pubkey), Store(prev, m);
    Ordering.AcceptContents(t, m, MessageId, Earliness);
    if r.isNew {
      assert Thread(r.threads, m.pubkey) == Ordering.Accept(t, m, MessageId, Earliness);
    } else {
      assert r.threads == prev && Ordering.Accept(t, m, MessageId, Earliness) == t;
    }
  }

  /** Every thread stays oldest first without duplicate ids. */
  lemma StoreKeepsChronological(prev: map<string, seq<DmMessage>>, m: DmMessage)
    requires forall k :: k in prev ==> Chronological(prev[k])
    ensures var r := Store(prev, m).threads;
            forall k :: k in r ==> Chronological(r[k])
  {
    var thread := Thread(prev, m.pubkey);
    Ordering.AcceptKeepsInvariant(thread, m, MessageId, Earliness);
  }

  /** A new message lands after every message of its thread that is not
      newer and before the newer ones. */
  lemma StoreNewPosition(prev: map<string, seq<DmMessage>>, m: DmMessage)
    requires Chronological(Thread(prev, m.pubkey))
    requires Store(prev, m).isNew
    ensures var t := Thread(prev, m.pubkey);
            var k := Ordering.InsertionPoint(t, m, Earliness);
            && Thread(Store(prev, m).threads, m.pubkey) == t[..k] + [m] + t[k..]
            && (forall i :: 0 <= i < k ==> t[i].created_at <= m.created_at)
            && (forall i :: k <= i < |t| ==> t[i].created_at > m.created_at)
  {
    var t := Thread(prev, m.pubkey);
    Ordering.AcceptNew(t, m, MessageId, Earliness);
    Ordering.InsertSorted(t, m, Earliness);
  }

  // ---------------------------------------------------------------------
  // Unread counters

  /** `{ ...prev, [peer]: (prev[peer] || 0) + 1 }` */
  function BumpUnread(prev: map<string, int>, peer: string): (r: map<string, int>)
    ensures r.Keys == prev.Keys + {peer}
    ensures r[peer] == (if peer in prev then prev[peer] else 0) + 1
    ensures forall k :: k in prev && k != peer ==> r[k] == prev[k]
  {
    prev[peer := (if peer in prev then prev[peer] else 0) + 1]
  }

  /** `delete updated[peer]` on a copy. */
  function ClearUnread(prev: map<string, int>, peer: string): (r: map<string, int>)
    ensures r.Keys == prev.Keys - {peer}
    ensures forall k :: k in r ==> r[k] == prev[k]
  {
    prev - {peer}
  }

  /** The badge next to a conversation: `unreadCounts[peer] > 0 &&
      (count > 99 ? '99+' : count)`, `None` when nothing is shown (a missing
      count compares as not positive).  At most three characters, and a
      shown number reads back as the count. */
  function Badge(count: Option<int>): (b: Option<string>)
    ensures b.Some? <==> count.Some? && count.value > 0
    ensures b.Some? ==> 1 <= |b.value| <= 3
    ensures b.Some? && count.value > 99 ==> b.value == "99+"
    ensures b.Some? && count.value <= 99 ==> ToNumber(b.value) == Some(count.value)
  {
    match count
    case None => None
    case Some(n) =>
      if n <= 0 then None
      else if n > 99 then Some("99+")
      else
        ToNumberDecimal(n);
        assert |Decimal(n)| <= 2 by {
          if n >= 10 { assert |Decimal(n / 10)| == 1; }
        }
        Some(Decimal(n))
  }

  // ---------------------------------------------------------------------
  // The conversation list

  /** One entry of the conversation list; `timestamp` is in milliseconds and
      `lastMessage` is `null` for a conversation started locally. */
  datatype Conversation = Conversation(pubkey: string, name: string,
                                       lastMessage: Option<string>, timestamp: int)

  function Peer(c: Conversation): string { c.pubkey }

  predicate Known(convs: seq<Conversation>, peer: string) {
    Ordering.HasId(convs, peer, Peer)
  }

  /** No peer listed twice. */
  ghost predicate UniquePeers(convs: seq<Conversation>) {
    Ordering.UniqueIds(convs, Peer)
  }

  /** `prev.find(c => c.pubkey === peer)` */
  function FindPeer(convs: seq<Conversation>, peer: string): (r: Option<Conversation>)
    ensures r.Some? <==> Known(convs, peer)
    ensures r.Some? ==> r.value.pubkey == peer && r.value in convs
    ensures r.Some? ==> exists i :: 0 <= i < |convs| && convs[i] == r.value
                                    && forall j :: 0 <= j < i ==> convs[j].pubkey != peer
  {
    if convs == [] then None
    else if convs[0].pubkey == peer then Some(convs[0])
    else
      var r := FindPeer(convs[1..], peer);
      assert Known(convs, peer) ==> Known(convs[1..], peer) by {
        if Known(convs, peer) {
          var i :| 0 <= i < |convs| && convs[i].pubkey == peer;
          assert convs[1..][i - 1] == convs[i];
        }
      }
      assert r.Some? ==> Known(convs, peer) by {
        if r.Some? {
          var i :| 0 <= i < |convs[1..]| && convs[1..][i].pubkey == peer;
          assert convs[i + 1].pubkey == peer;
        }
      }
      if r.Some? then
        assert exists i :: 0 <= i < |convs| && convs[i] == r.value
                           && forall j :: 0 <= j < i ==> convs[j].pubkey != peer by {
          var i :| 0 <= i < |convs[1..]| && convs[1..][i] == r.value
                   && forall j :: 0 <= j < i ==> convs[1..][j].pubkey != peer;
          assert convs[i + 1] == r.value;
          forall j | 0 <= j < i + 1 ensures convs[j].pubkey != peer {
            if j > 0 { assert convs[j] == convs[1..][j - 1]; }
          }
        }
        r
      else r
  }

  /** The name given to a peer first seen in a message: `User#` and the last
      four characters of the public key. */
  function DefaultName(peer: string): (n: string)
    ensures |n| == 5 + (if |peer| < 4 then |peer| else 4)
    ensures n[..5] == "User#" && n[5..] == peer[|peer| - |n[5..]|..]
  {
    "User#" + TakeLast(peer, 4)
  }

  /** The name of the built-in conversation with the official account:
      `Minchat#` and the last four characters of its key. */
  function OfficialName(key: string): (n: string)
    ensures |n| == 8 + (if |key| < 4 then |key| else 4)
    ensures n[..8] == "Minchat#" && n[8..] == key[|key| - |n[8..]|..]
  {
    "Minchat#" + TakeLast(key, 4)
  }

  /** The conversation list the tab starts with: the stored list when there
      is one; otherwise the conversation with the official account, whose
      key is the decoded built-in npub (`None` when decoding throws, which
      leaves the list empty); `now` is in milliseconds. */
  function InitialConversations(saved: Option<seq<Conversation>>, officialKey: Option<string>, now: int)
    : (r: seq<Conversation>)
    ensures saved.Some? ==> r == saved.value
    ensures saved.None? && officialKey.None? ==> r == []
    ensures saved.None? && officialKey.Some? ==>
              r == [Conversation(officialKey.value, OfficialName(officialKey.value),
                                 Some("Official Minchat Account."), now)]
  {
    match saved
    case Some(convs) => convs
    case None =>
      match officialKey
      case None => []
      case Some(key) => [Conversation(key, OfficialName(key), Some("Official Minchat Account."), now)]
  }

  /** A fresh tab lists the official account, and the list starts without
      a peer twice whenever the stored one has none. */
  lemma InitialConversationsUnique(saved: Option<seq<Conversation>>, officialKey: Option<string>, now: int)
    ensures saved.None? || UniquePeers(saved.value) ==> UniquePeers(InitialConversations(saved, officialKey, now))
    ensures saved.None? && officialKey.Some? ==> Known(InitialConversations(saved, officialKey, now), officialKey.value)
  {
    var r := InitialConversations(saved, officialKey, now);
    if saved.None? && officialKey.Some? {
      assert r[0].pubkey == officialKey.value;
    }
  }

  /** `prev.map(c => c.pubkey === peer ? { ...c, lastMessage, timestamp } : c)` */
  function Touch(convs: seq<Conversation>, peer: string, content: string, timestamp: int)
    : (r: seq<Conversation>)
    ensures |r| == |convs|
    ensures forall i :: 0 <= i < |convs| && convs[i].pubkey != peer ==> r[i] == convs[i]
    ensures forall i :: 0 <= i < |convs| && convs[i].pubkey == peer ==>
              r[i] == convs[i].(lastMessage := Some(content), timestamp := timestamp)
  {
    seq(|convs|, i requires 0 <= i < |convs| =>
      if convs[i].pubkey == peer then convs[i].(lastMessage := Some(content), timestamp := timestamp)
      else convs[i])
  }

  /** `Touch` keeps every entry's peer in place, so the list keeps its peers. */
  lemma TouchKeepsPeers(convs: seq<Conversation>, peer: string, content: string, timestamp: int)
    ensures var r := Touch(convs, peer, content, timestamp);
            forall i :: 0 <= i < |r| ==> r[i].pubkey == convs[i].pubkey && r[i].name == convs[i].name
    ensures UniquePeers(convs) ==> UniquePeers(Touch(convs, peer, content, timestamp))
    ensures forall q :: Known(Touch(convs, peer, content, timestamp), q) <==> Known(convs, q)
  {
    var r := Touch(convs, peer, content, timestamp);
    forall q ensures Known(r, q) <==> Known(convs, q) {
      if Known(r, q) {
        var i :| 0 <= i < |r| && r[i].pubkey == q;
        assert convs[i].pubkey == q;
      }
      if Known(convs, q) {
        var i :| 0 <= i < |convs| && convs[i].pubkey == q;
        assert r[i].pubkey == q;
      }
    }
  }

  /** A conversation for a peer first seen in a message. */
  function FirstSeen(r: Rumor): Conversation {
    Conversation(r.pubkey, DefaultName(r.pubkey), Some(r.content), r.created_at * 1000)
  }

  /** The conversation updater of the global handler: an unknown peer gets a
      new entry at the end; a known one is updated only when the message is
      strictly newer than the first entry for that peer. */
  function NoteGlobal(convs: seq<Conversation>, r: Rumor): (result: seq<Conversation>)
    ensures !Known(convs, r.pubkey) ==> result == convs + [FirstSeen(r)]
    ensures (Known(convs, r.pubkey) && FindPeer(convs, r.pubkey).value.timestamp >= r.created_at * 1000)
              ==> result == convs
    ensures (Known(convs, r.pubkey) && FindPeer(convs, r.pubkey).value.timestamp < r.created_at * 1000)
              ==> result == Touch(convs, r.pubkey, r.content, r.created_at * 1000)
  {
    match FindPeer(convs, r.pubkey)
    case None => convs + [FirstSeen(r)]
    case Some(c) =>
      if c.timestamp < r.created_at * 1000 then Touch(convs, r.pubkey, r.content, r.created_at * 1000)
      else convs
  }

  /** The conversation updater of the per-conversation handler for a message
      from another peer: create or update, without comparing times. */
  function NoteAny(convs: seq<Conversation>, r: Rumor): (result: seq<Conversation>)
    ensures !Known(convs, r.pubkey) ==> result == convs + [FirstSeen(r)]
    ensures Known(convs, r.pubkey) ==> result == Touch(convs, r.pubkey, r.content, r.created_at * 1000)
  {
    if Known(convs, r.pubkey) then Touch(convs, r.pubkey, r.content, r.created_at * 1000)
    else convs + [FirstSeen(r)]
  }

  lemma AppendKeepsUnique(convs: seq<Conversation>, c: Conversation)
    requires UniquePeers(convs) && !Known(convs, c.pubkey)
    ensures UniquePeers(convs + [c]) && Known(convs + [c], c.pubkey)
  {
    var r := convs + [c];
    assert r[|convs|] == c;
    forall i, j | 0 <= i < j < |r| ensures r[i].pubkey != r[j].pubkey {
      assert r[i] == convs[i];
      if j < |convs| {
        assert r[j] == convs[j];
      }
    }
  }

  /** Both updaters list every peer they have seen exactly once, and leave
      the peer known; the list grows by one entry exactly when the peer was
      new. */
  lemma NoteKeepsUnique(convs: seq<Conversation>, r: Rumor)
    requires UniquePeers(convs)
    ensures UniquePeers(NoteGlobal(convs, r)) && UniquePeers(NoteAny(convs, r))
    ensures Known(NoteGlobal(convs, r), r.pubkey) && Known(NoteAny(convs, r), r.pubkey)
    ensures |NoteGlobal(convs, r)| == |NoteAny(convs, r)|
            == |convs| + (if Known(convs, r.pubkey) then 0 else 1)
  {
    TouchKeepsPeers(convs, r.pubkey, r.content, r.created_at * 1000);
    if !Known(convs, r.pubkey) {
      AppendKeepsUnique(convs, FirstSeen(r));
    }
  }

  /** The per-conversation handler's update for a message of the selected
      peer: every entry of that peer takes the message, unconditionally. */
  lemma TouchSelected(convs: seq<Conversation>, peer: string, content: string, timestamp: int, i: int)
    requires 0 <= i < |convs| && convs[i].pubkey == peer
    ensures Touch(convs, peer, content, timestamp)[i].lastMessage == Some(content)
    ensures Touch(convs, peer, content, timestamp)[i].timestamp == timestamp
  {
  }

  /** `prev.map(c => c.pubkey === peer ? { ...c, name } : c)` */
  function Rename(convs: seq<Conversation>, peer: string, name: string): (r: seq<Conversation>)
    ensures |r| == |convs|
    ensures forall i :: 0 <= i < |convs| ==>
              r[i] == if convs[i].pubkey == peer then convs[i].(name := name) else convs[i]
  {
    seq(|convs|, i requires 0 <= i < |convs| =>
      if convs[i].pubkey == peer then convs[i].(name := name) else convs[i])
  }

  lemma RenameKeepsUnique(convs: seq<Conversation>, peer: string, name: string)
    requires UniquePeers(convs)
    ensures UniquePeers(Rename(convs, peer, name))
  {
    var r := Rename(convs, peer, name);
    forall i, j | 0 <= i < j < |r| ensures r[i].pubkey != r[j].pubkey {
      assert r[i].pubkey == convs[i].pubkey && r[j].pubkey == convs[j].pubkey;
    }
  }

  /** The list as displayed: newest conversation first (the render sorts the
      state array in place with `b.timestamp - a.timestamp`). */
  function Timestamp(c: Conversation): int { c.timestamp }

  /** Sorting the list for display twice gives what sorting once gave. */
  lemma DisplaySortIdempotent(convs: seq<Conversation>)
    ensures Ordering.SortBy(Ordering.SortBy(convs, Timestamp), Timestamp)
            == Ordering.SortBy(convs, Timestamp)
  {
    Ordering.SortByOrders(convs, Timestamp);
    Ordering.SortBySorted(Ordering.SortBy(convs, Timestamp), Timestamp);
  }

  // ---------------------------------------------------------------------
  // Recipient validation

  predicate IsHexDigit(c: char) {
    '0' <= c <= '9' || 'a' <= c <= 'f' || 'A' <= c <= 'F'
  }

  /** `/^[0-9a-fA-F]{64}$/.test(s)` */
  predicate IsHexKey(s: string) {
    |s| == 64 && forall i :: 0 <= i < |s| ==> IsHexDigit(s[i])
  }

  /** An `npub` string is never a hex key, so it is always decoded first. */
  lemma NpubIsNotHex(s: string)
    requires StartsWith(s, "npub")
    ensures !IsHexKey(s)
  {
    assert s[0] == 'n';
  }

  /** Trimming a hex key leaves it as it is. */
  lemma HexKeyTrimmed(s: string)
    requires IsHexKey(s)
    ensures Trim(s) == s
  {
    assert !IsJsSpace(s[0]) && !IsJsSpace(s[|s| - 1]);
    assert TrimStart(s) == s;
  }

  /** The outcome of `addNewConversation`. */
  datatype AddOutcome = Blank | BadNpub | BadKey | Added(pubkey: string)

  /** The checks of `addNewConversation`: `decoded` is what
      `nip19.decode(input.trim()).data` yields (`None` when it throws),
      consulted only for input starting with `npub`. */
  function CheckRecipient(input: string, decoded: Option<string>): (r: AddOutcome)
    ensures r.Added? ==> IsHexKey(r.pubkey)
    ensures r == Blank <==> Trim(input) == ""
    ensures r.Added? && !StartsWith(Trim(input), "npub") ==> r.pubkey == Trim(input)
    ensures r.Added? && StartsWith(Trim(input), "npub") ==> decoded == Some(r.pubkey)
    ensures Trim(input) != "" && !StartsWith(Trim(input), "npub") ==>
              (r.Added? <==> IsHexKey(Trim(input)))
  {
    var t := Trim(input);
    if t == "" then Blank
    else if StartsWith(t, "npub") then
      match decoded
      case None => BadNpub
      case Some(key) => if IsHexKey(key) then Added(key) else BadKey
    else if IsHexKey(t) then Added(t)
    else BadKey
  }

  // ---------------------------------------------------------------------
  // Subscriptions

  const ThirtyDays: int := 30 * 24 * 60 * 60

  /** The global gift-wrap subscription: only with a pool, a public key and
      a secret key. */
  function GlobalFilter(hasPool: bool, pk: Option<string>, hasSk: bool, now: int): (f: Option<Filter>)
    ensures f.Some? <==> hasPool && pk.Some? && pk.value != "" && hasSk
    ensures f.Some? ==> f.value.kinds == [1059] && f.value.tags == map["#p" := [pk.value]]
                        && f.value.since == now - 2592000 && f.value.limit == 1000
  {
    if hasPool && pk.Some? && pk.value != "" && hasSk then
      Some(Filter([1059], map["#p" := [pk.value]], now - ThirtyDays, 1000))
    else None
  }

  /** The subscription of the selected conversation, from the beginning of time. */
  function ConversationFilter(pk: string): Filter {
    Filter([1059], map["#p" := [pk]], 0, 500)
  }

  /** Once thirty days have passed since 1970, whatever the global
      subscription accepts, the per-conversation one accepts too (up to
      their limits): it differs only in reaching back to time 0. */
  lemma ConversationSeesGlobal(pk: string, now: int, kind: int, created_at: int, tags: seq<Tag>)
    requires pk != "" && now >= ThirtyDays
    requires Matches(GlobalFilter(true, Some(pk), true, now).value, kind, created_at, tags)
    ensures Matches(ConversationFilter(pk), kind, created_at, tags)
    ensures created_at >= now - ThirtyDays
  {
    var g := GlobalFilter(true, Some(pk), true, now).value;
    assert g.tags == ConversationFilter(pk).tags;
  }

  // ---------------------------------------------------------------------
  // The store

  predicate ReadWhileOpen(selected: Option<Conversation>, unread: map<string, int>) {
    selected.Some? ==> selected.value.pubkey !in unread
  }

  /** The state of the tab: threads by peer, unread counts by peer, the
      conversation list and the selected conversation. */
  class DmStore {
    var threads: map<string, seq<DmMessage>>
    var unread: map<string, int>
    var conversations: seq<Conversation>
    var selected: Option<Conversation>

    /** The open conversation carries no unread count. */
    ghost predicate OpenIsRead()
      reads this
    {
      ReadWhileOpen(selected, unread)
    }

    /** The tab as loaded from storage (`None` where nothing is stored),
        with nothing selected: threads and counts default to empty, the
        conversation list to the official account's. */
    constructor(savedThreads: Option<map<string, seq<DmMessage>>>, savedUnread: Option<map<string, int>>,
                savedConversations: Option<seq<Conversation>>, officialKey: Option<string>, now: int)
      ensures threads == savedThreads.GetOr(map[]) && unread == savedUnread.GetOr(map[])
      ensures conversations == InitialConversations(savedConversations, officialKey, now)
      ensures selected == None
    {
      threads := savedThreads.GetOr(map[]);
      unread := savedUnread.GetOr(map[]);
      conversations := InitialConversations(savedConversations, officialKey, now);
      selected := None;
    }

    /** The effect on `selectedConversation` for a selected conversation:
        its unread count is deleted (reloading its thread is the
        subscription's business). */
    method Select(c: Conversation)
      modifies this`selected, this`unread
      ensures selected == Some(c)
      ensures unread == ClearUnread(old(unread), c.pubkey)
      ensures c.pubkey !in unread
    {
      selected := Some(c);
      unread := ClearUnread(unread, c.pubkey);
    }

    /** `backToConversations` */
    method Deselect()
      modifies this`selected
      ensures selected == None
    {
      selected := None;
    }

    /** The `setMessages` and `setUnreadCounts` steps shared by both
        handlers: the message is stored, and counted as unread when it is new
        and `counts` holds. */
    method StoreIncoming(m: DmMessage, counts: bool) returns (isNew: bool)
      modifies this`threads, this`unread
      ensures isNew == Store(old(threads), m).isNew
      ensures threads == Store(old(threads), m).threads
      ensures unread == if isNew && counts then BumpUnread(old(unread), m.pubkey) else old(unread)
      ensures ReadWhileOpen(selected, old(unread)) && (selected.Some? && selected.value.pubkey == m.pubkey ==> !counts)
              ==> ReadWhileOpen(selected, unread)
    {
      var s := Store(threads, m);
      threads := s.threads;
      isNew := s.isNew;
      if isNew && counts {
        unread := BumpUnread(unread, m.pubkey);
      }
    }

    /** The `setConversations` step of the global handler. */
    method NoteConversation(r: Rumor)
      modifies this`conversations
      ensures conversations == NoteGlobal(old(conversations), r)
      ensures UniquePeers(old(conversations)) ==> UniquePeers(conversations)
    {
      if UniquePeers(conversations) {
        NoteKeepsUnique(conversations, r);
      }
      conversations := NoteGlobal(conversations, r);
    }

    /** The global handler.  `closureSelected` is the selection the handler
        was created with: the effect that subscribes runs again only when the
        keys or the pool change, so it may be older than `selected`. */
    method ReceiveGlobal(unwrapped: Option<Rumor>, wrapId: string, closureSelected: Option<Conversation>)
      modifies this`threads, this`unread, this`conversations
      ensures unwrapped.None? || unwrapped.value.kind != 14 ==> unchanged(this)
      ensures unwrapped.Some? && unwrapped.value.kind == 14 ==>
                var r := unwrapped.value;
                var s := Store(old(threads), ToMessage(r, wrapId));
                && threads == s.threads
                && unread == (if s.isNew && (closureSelected.None? || closureSelected.value.pubkey != r.pubkey)
                              then BumpUnread(old(unread), r.pubkey) else old(unread))
                && conversations == NoteGlobal(old(conversations), r)
      ensures UniquePeers(old(conversations)) ==> UniquePeers(conversations)
    {
      if unwrapped.None? || unwrapped.value.kind != 14 {
        return;
      }
      var r := unwrapped.value;
      var _ := StoreIncoming(ToMessage(r, wrapId), closureSelected.None? || closureSelected.value.pubkey != r.pubkey);
      NoteConversation(r);
    }

    /** The global handler as evidently intended: it compares with the
        conversation open now, so the open conversation stays read. */
    method ReceiveGlobalCurrent(unwrapped: Option<Rumor>, wrapId: string)
      modifies this`threads, this`unread, this`conversations
      ensures unwrapped.None? || unwrapped.value.kind != 14 ==> unchanged(this)
      ensures unwrapped.Some? && unwrapped.value.kind == 14 ==>
                var r := unwrapped.value;
                var s := Store(old(threads), ToMessage(r, wrapId));
                && threads == s.threads
                && unread == (if s.isNew && (selected.None? || selected.value.pubkey != r.pubkey)
                              then BumpUnread(old(unread), r.pubkey) else old(unread))
                && conversations == NoteGlobal(old(conversations), r)
      ensures UniquePeers(old(conversations)) ==> UniquePeers(conversations)
      ensures old(OpenIsRead()) ==> OpenIsRead()
    {
      if unwrapped.None? || unwrapped.value.kind != 14 {
        return;
      }
      var r := unwrapped.value;
      var _ := StoreIncoming(ToMessage(r, wrapId), selected.None? || selected.value.pubkey != r.pubkey);
      NoteConversation(r);
    }

    /** The handler of the selected conversation's subscription; `sel` is the
        conversation selected when it subscribed. */
    method ReceiveSelected(unwrapped: Option<Rumor>, wrapId: string, sel: Conversation)
      modifies this`threads, this`unread, this`conversations
      ensures unwrapped.None? || unwrapped.value.kind != 14 ==> unchanged(this)
      ensures unwrapped.Some? && unwrapped.value.kind == 14 ==>
                var r := unwrapped.value;
                var s := Store(old(threads), ToMessage(r, wrapId));
                && threads == s.threads
                && unread == (if s.isNew && r.pubkey != sel.pubkey
                              then BumpUnread(old(unread), r.pubkey) else old(unread))
                && conversations == (if r.pubkey == sel.pubkey
                                     then Touch(old(conversations), sel.pubkey, r.content, r.created_at * 1000)
                                     else NoteAny(old(conversations), r))
      ensures UniquePeers(old(conversations)) ==> UniquePeers(conversations)
      ensures selected == Some(sel) && old(OpenIsRead()) ==> OpenIsRead()
    {
      if unwrapped.None? || unwrapped.value.kind != 14 {
        return;
      }
      var r := unwrapped.value;
      var _ := StoreIncoming(ToMessage(r, wrapId), r.pubkey != sel.pubkey);
      NoteSelectedConversation(r, sel);
    }

    /** The `setConversations` step of the selected conversation's handler. */
    method NoteSelectedConversation(r: Rumor, sel: Conversation)
      modifies this`conversations
      ensures conversations == (if r.pubkey == sel.pubkey
                                then Touch(old(conversations), sel.pubkey, r.content, r.created_at * 1000)
                                else NoteAny(old(conversations), r))
      ensures UniquePeers(old(conversations)) ==> UniquePeers(conversations)
    {
      if UniquePeers(conversations) {
        NoteKeepsUnique(conversations, r);
        TouchKeepsPeers(conversations, sel.pubkey, r.content, r.created_at * 1000);
      }
      if r.pubkey != sel.pubkey {
        conversations := NoteAny(conversations, r);
      } else {
        conversations := Touch(conversations, sel.pubkey, r.content, r.created_at * 1000);
      }
    }

    /** `startConversation`: a known peer is only selected; an unknown one
        gets exactly one new entry, named `name || User#xxxx`, which is
        selected. */
    method StartConversation(peer: string, name: Option<string>, now: int)
      modifies this`conversations, this`selected, this`unread
      ensures Known(old(conversations), peer) ==>
                conversations == old(conversations) && selected == FindPeer(old(conversations), peer)
      ensures !Known(old(conversations), peer) ==>
                var c := Conversation(peer, OrElse(name, DefaultName(peer)), None, now);
                conversations == old(conversations) + [c] && selected == Some(c)
      ensures unread == ClearUnread(old(unread), peer)
      ensures Known(conversations, peer) && selected.Some? && selected.value.pubkey == peer
      ensures UniquePeers(old(conversations)) ==> UniquePeers(conversations)
    {
      var existing := FindPeer(conversations, peer);
      if existing.Some? {
        Select(existing.value);
        return;
      }
      var c := Conversation(peer, OrElse(name, DefaultName(peer)), None, now);
      if UniquePeers(conversations) {
        AppendKeepsUnique(conversations, c);
      }
      assert (conversations + [c])[|conversations|] == c;
      conversations := conversations + [c];
      Select(c);
    }

    /** `updateConversationHandle`: nothing without a selection or with a
        blank value; otherwise the selected peer's entries and the selection
        take the trimmed name.  The selection is a new object, so the
        selection effect runs again and clears that peer's unread count. */
    method UpdateConversationHandle(edit: string)
      modifies this`conversations, this`selected, this`unread
      ensures Trim(edit) == "" || old(selected).None? ==> unchanged(this)
      ensures Trim(edit) != "" && old(selected).Some? ==>
                var peer := old(selected).value.pubkey;
                && conversations == Rename(old(conversations), peer, Trim(edit))
                && selected == Some(old(selected).value.(name := Trim(edit)))
                && unread == ClearUnread(old(unread), peer)
      ensures UniquePeers(old(conversations)) ==> UniquePeers(conversations)
    {
      var t := Trim(edit);
      if t == "" || selected.None? {
        return;
      }
      var peer := selected.value.pubkey;
      if UniquePeers(conversations) {
        RenameKeepsUnique(conversations, peer, t);
      }
      conversations := Rename(conversations, peer, t);
      Select(selected.value.(name := t));
    }

    /** `addNewConversation`: starts a conversation only for a valid key. */
    method AddNewConversation(input: string, decoded: Option<string>, now: int) returns (r: AddOutcome)
      modifies this`conversations, this`selected, this`unread
      ensures r == CheckRecipient(input, decoded)
      ensures !r.Added? ==> unchanged(this)
      ensures r.Added? ==> Known(conversations, r.pubkey) && selected.Some?
                           && selected.value.pubkey == r.pubkey
      ensures r.Added? ==> |conversations| == |old(conversations)|
                             + (if Known(old(conversations), r.pubkey) then 0 else 1)
      ensures UniquePeers(old(conversations)) ==> UniquePeers(conversations)
    {
      r := CheckRecipient(input, decoded);
      if r.Added? {
        StartConversation(r.pubkey, None, now);
      }
    }

    /** The render's in-place sort of the conversation list, newest first. */
    method SortForDisplay()
      modifies this`conversations
      ensures conversations == Ordering.SortBy(old(conversations), Timestamp)
      ensures multiset(conversations) == multiset(old(conversations))
      ensures Ordering.SortedBy(conversations, Timestamp)
    {
      Ordering.SortByOrders(conversations, Timestamp);
      conversations := Ordering.SortBy(conversations, Timestamp);
    }
  }

  /** The global handler subscribed while nothing was open.  The
      conversation with the author of a direct message is then opened, and
      the message arrives: the global handler counts it as unread although
      its conversation is open. */
  method StaleSelectionCountsOpenMessage(r: Rumor, wrapId: string) returns (store: DmStore)
    requires r.kind == 14
    ensures store.selected.Some? && store.selected.value.pubkey == r.pubkey
    ensures r.pubkey in store.unread && store.unread[r.pubkey] == 1
    ensures !store.OpenIsRead()
  {
    store := new DmStore(None, None, Some([]), None, 0);
    store.Select(Conversation(r.pubkey, DefaultName(r.pubkey), None, 0));
    assert store.unread == map[];
    assert Thread(store.threads, r.pubkey) == [];
    store.ReceiveGlobal(Some(r), wrapId, None);
  }
}
