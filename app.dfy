/** The chat screen of the client (src/app.jsx): the message buffer and its
    updaters, the chat subscription filter, the events `send` and
    `deleteEvent` build, the relay configuration loaded at start-up, the
    nickname colour hash, and the connection state machine formed by
    `connect`, `changeChannel` and the effects that react to the channel, the
    protocol and the public key. */
module App {
  import opened Wrappers
  import opened Tags
  import opened Nostr
  import Config
  import Ordering

  // ---------------------------------------------------------------------
  // The message buffer

  /** A chat message as the buffer holds it (the locale time string is left out). */
  datatype Message = Message(id: string, pubkey: string, content: string,
                             tags: seq<Tag>, created_at: int)

  function MessageId(m: Message): string { m.id }

  function CreatedAt(m: Message): int { m.created_at }

  function FromEvent(ev: Event): Message {
    Message(ev.id, ev.pubkey, ev.content, ev.tags, ev.created_at)
  }

  /** The buffer invariant: newest first, no id twice. */
  ghost predicate Buffered(s: seq<Message>) {
    Ordering.SortedBy(s, CreatedAt) && Ordering.UniqueIds(s, MessageId)
  }

  lemma EmptyBuffered()
    ensures Buffered([])
  {
  }

  predicate Holds(s: seq<Message>, id: string) {
    Ordering.HasId(s, id, MessageId)
  }

  /** The `onevent` updater of the chat subscription. */
  function Receive(prev: seq<Message>, ev: Event): (r: seq<Message>)
    ensures Holds(prev, ev.id) ==> r == prev
    ensures Holds(r, ev.id)
    ensures !Holds(prev, ev.id) ==> multiset(r) == multiset(prev) + multiset{FromEvent(ev)}
  {
    Ordering.AcceptContents(prev, FromEvent(ev), MessageId, CreatedAt);
    Ordering.Accept(prev, FromEvent(ev), MessageId, CreatedAt)
  }

  /** A new event lands after every buffered message at least as new as it
      and before the older ones; the buffer stays newest first without
      duplicate ids. */
  lemma ReceiveNew(prev: seq<Message>, ev: Event)
    requires Buffered(prev) && !Holds(prev, ev.id)
    ensures var k := Ordering.InsertionPoint(prev, FromEvent(ev), CreatedAt);
            && Receive(prev, ev) == prev[..k] + [FromEvent(ev)] + prev[k..]
            && (forall i :: 0 <= i < k ==> prev[i].created_at >= ev.created_at)
            && (forall i :: k <= i < |prev| ==> prev[i].created_at < ev.created_at)
    ensures Buffered(Receive(prev, ev))
  {
    Ordering.AcceptNew(prev, FromEvent(ev), MessageId, CreatedAt);
    Ordering.InsertSorted(prev, FromEvent(ev), CreatedAt);
  }

  lemma ReceiveKeepsBuffered(prev: seq<Message>, ev: Event)
    requires Buffered(prev)
    ensures Buffered(Receive(prev, ev))
  {
    Ordering.AcceptKeepsInvariant(prev, FromEvent(ev), MessageId, CreatedAt);
  }

  /** However often a relay repeats an event, the buffer ends as after the
      first delivery. */
  lemma ReceiveRepeated(prev: seq<Message>, ev: Event, n: nat)
    requires n >= 1
    ensures Ordering.AcceptAll(prev, Ordering.Repeat(FromEvent(ev), n), MessageId, CreatedAt)
            == Receive(prev, ev)
  {
    Ordering.AcceptRepeated(prev, FromEvent(ev), n, MessageId, CreatedAt);
  }

  /** The local half of `deleteEvent`: `prev.filter(msg => msg.id !== eventId)`. */
  function Remove(prev: seq<Message>, eventId: string): (r: seq<Message>)
    ensures !Holds(r, eventId)
    ensures !Holds(prev, eventId) ==> r == prev
  {
    Ordering.DropRemoves(prev, eventId, MessageId);
    Ordering.DropId(prev, eventId, MessageId)
  }

  /** Every other message stays, as often as it was there, and nothing new
      appears. */
  lemma RemoveKeepsOthers(prev: seq<Message>, eventId: string)
    ensures forall i :: 0 <= i < |prev| && prev[i].id != eventId ==>
              multiset(Remove(prev, eventId))[prev[i]] == multiset(prev)[prev[i]]
    ensures forall j :: 0 <= j < |Remove(prev, eventId)| ==> Remove(prev, eventId)[j] in prev
  {
    Ordering.DropRemoves(prev, eventId, MessageId);
    Ordering.DropKeepsOthers(prev, eventId, MessageId);
  }

  lemma RemoveKeepsBuffered(prev: seq<Message>, eventId: string)
    requires Buffered(prev)
    ensures Buffered(Remove(prev, eventId))
  {
    Ordering.DropKeepsInvariant(prev, eventId, MessageId, CreatedAt);
  }

  // ---------------------------------------------------------------------
  // Protocol and subscription filter

  /** The protocol a channel calls for. */
  function InferProtocol(channel: string): (p: string)
    ensures p == "nostr" <==> channel in Config.Kind1Channels
    ensures p == "nostr" || p == "bitchat"
  {
    if channel in Config.Kind1Channels then "nostr" else "bitchat"
  }

  /** The filter `connect` subscribes with: text notes tagged with the
      channel for "nostr", ephemeral geohash events of the last five hours
      for anything else. */
  function ChatFilter(protocol: string, channel: string, now: int): Filter {
    if protocol == "nostr" then Filter([1], map["#t" := [channel]], 0, 100)
    else Filter([20000, 23333], map["#g" := [channel]], now - 18000, 100)
  }

  // ---------------------------------------------------------------------
  // Outbound events

  /** Content is encrypted when end-to-end encryption is on and the channel
      is not a kind-1 channel; the protocol plays no part in this test. */
  predicate EncryptsContent(e2e: bool, channel: string) {
    e2e && channel !in Config.Kind1Channels
  }

  /** The event `send` builds before proof of work. */
  function OutgoingDraft(protocol: string, channel: string, handle: string, e2e: bool,
                         content: string, pk: string, now: int): Draft
  {
    var nostr := protocol == "nostr";
    var tags := [[if nostr then "t" else "g", channel]]
      + (if handle != "" && handle != "anon" && !nostr then [["n", handle]] else [])
      + (if e2e && !nostr then [["encrypted", "aes-gcm"]] else []);
    Draft(if nostr then 1 else 20000, now, tags, content, pk)
  }

  /** Kind and tags of an outgoing event, as functions of the protocol, the
      handle and the encryption switch. */
  lemma OutgoingShape(protocol: string, channel: string, handle: string, e2e: bool,
                      content: string, pk: string, now: int)
    ensures var d := OutgoingDraft(protocol, channel, handle, e2e, content, pk, now);
            && (d.kind == 1 <==> protocol == "nostr")
            && (d.kind == 20000 <==> protocol != "nostr")
            && d.tags[0] == [if protocol == "nostr" then "t" else "g", channel]
            && (Has(d.tags, "n") <==> handle != "" && handle != "anon" && protocol != "nostr")
            && (Has(d.tags, "encrypted") <==> e2e && protocol != "nostr")
            && d.content == content && d.created_at == now && d.pubkey == pk
  {
    var d := OutgoingDraft(protocol, channel, handle, e2e, content, pk, now);
    var nostr := protocol == "nostr";
    var withN := handle != "" && handle != "anon" && !nostr;
    var n := if withN then [["n", handle]] else [];
    var enc := if e2e && !nostr then [["encrypted", "aes-gcm"]] else [];
    assert d.tags == [[if nostr then "t" else "g", channel]] + n + enc;
    if withN {
      assert Keyed(d.tags[1], "n");
    }
    if Has(d.tags, "n") {
      var i :| 0 <= i < |d.tags| && Keyed(d.tags[i], "n");
      assert i > 0;
    }
    if e2e && !nostr {
      assert Keyed(d.tags[|d.tags| - 1], "encrypted");
    }
    if Has(d.tags, "encrypted") {
      var i :| 0 <= i < |d.tags| && Keyed(d.tags[i], "encrypted");
      assert i > 0 && (withN ==> i != 1);
    }
  }

  /** The outcome of `send`. */
  datatype SendOutcome =
    | NoKey           // no secret key: nothing is sent
    | Empty           // empty message: nothing is sent
    | EncryptFailed   // `encrypt` threw: nothing is sent
    | Publish(event: Draft)  // this event is signed and published

  /** `send`: `encrypted` is what `encrypt(message, encryptionKey)` yields
      (consulted only when the content is encrypted), `mine` is
      `nip13.minePow` at the configured difficulty, `None` when it throws. */
  function Send(hasSk: bool, message: string, e2e: bool, channel: string, protocol: string,
                handle: string, pk: string, now: int,
                encrypted: Result<string>, mine: Draft -> Option<Draft>): (r: SendOutcome)
    ensures message == "" ==> !r.Publish?
    ensures r.Publish? <==> hasSk && message != "" && (EncryptsContent(e2e, channel) ==> encrypted.Ok?)
    ensures r == EncryptFailed <==> hasSk && message != "" && EncryptsContent(e2e, channel) && encrypted.Err?
    ensures r.Publish? ==>
              var d := OutgoingDraft(protocol, channel, handle, e2e,
                                     if EncryptsContent(e2e, channel) then encrypted.value else message,
                                     pk, now);
              r.event == if mine(d).Some? then mine(d).value else d
  {
    if !hasSk then NoKey
    else if message == "" then Empty
    else if EncryptsContent(e2e, channel) && encrypted.Err? then EncryptFailed
    else
      var content := if EncryptsContent(e2e, channel) then encrypted.value else message;
      var d := OutgoingDraft(protocol, channel, handle, e2e, content, pk, now);
      match mine(d)
      case Some(mined) => Publish(mined)
      case None => Publish(d)
  }

  /** The encryption test and the tag test use different conditions, so a
      user who toggles the protocol away from the channel's own can publish
      ciphertext without the `encrypted` tag, or plaintext with it. */
  lemma SendTagAndCipherCanDisagree(message: string, channel: string, protocol: string,
                                    handle: string, pk: string, now: int,
                                    cipher: string, mine: Draft -> Option<Draft>)
    requires message != ""
    requires forall d :: mine(d) == None
    ensures var r := Send(true, message, true, channel, protocol, handle, pk, now, Ok(cipher), mine);
            && r.Publish?
            && (protocol == "nostr" && channel !in Config.Kind1Channels ==>
                  r.event.content == cipher && !Has(r.event.tags, "encrypted"))
            && (protocol != "nostr" && channel in Config.Kind1Channels ==>
                  r.event.content == message && Has(r.event.tags, "encrypted"))
  {
    var content := if EncryptsContent(true, channel) then cipher else message;
    OutgoingShape(protocol, channel, handle, true, content, pk, now);
  }

  /** What a chat subscription opened at `now` under the same protocol and
      channel receives: the event `send` publishes at `sentAt`, provided a
      non-"nostr" event is less than five hours older than the subscription
      (`created_at` is a Unix time, never negative). */
  lemma SentEventMatchesFilter(protocol: string, channel: string, handle: string, e2e: bool,
                               content: string, pk: string, sentAt: int, now: int)
    requires sentAt >= 0 && (protocol == "nostr" || sentAt >= now - 18000)
    ensures var d := OutgoingDraft(protocol, channel, handle, e2e, content, pk, sentAt);
            Matches(ChatFilter(protocol, channel, now), d.kind, d.created_at, d.tags)
  {
    var d := OutgoingDraft(protocol, channel, handle, e2e, content, pk, sentAt);
    var f := ChatFilter(protocol, channel, now);
    OutgoingShape(protocol, channel, handle, e2e, content, pk, sentAt);
    var key := if protocol == "nostr" then "#t" else "#g";
    assert f.tags.Keys == {key};
    assert key[1..] == d.tags[0][0];
    assert d.tags[0] in d.tags;
  }

  /** A subscription under one protocol never receives what `send` publishes
      under the other. */
  lemma ProtocolsSeparate(protocol: string, other: string, channel: string, handle: string,
                          e2e: bool, content: string, pk: string, sentAt: int, now: int)
    requires (protocol == "nostr") != (other == "nostr")
    ensures var d := OutgoingDraft(protocol, channel, handle, e2e, content, pk, sentAt);
            !Matches(ChatFilter(other, channel, now), d.kind, d.created_at, d.tags)
  {
  }

  /** The NIP-09 deletion request `deleteEvent` builds. */
  function DeletionDraft(eventId: string, pk: string, now: int): Draft {
    Draft(5, now, [["e", eventId]], "deleted", pk)
  }

  datatype DeleteOutcome =
    | DeleteNoKey
    | DeleteCancelled
    | DeletePublish(event: Draft)

  /** `deleteEvent` up to the publish: refused without a secret key or
      confirmation; proof of work that throws leaves the request unmined. */
  function DeleteRequest(hasSk: bool, confirmed: bool, eventId: string, pk: string, now: int,
                         mine: Draft -> Option<Draft>): (r: DeleteOutcome)
    ensures r.DeletePublish? <==> hasSk && confirmed
    ensures !hasSk ==> r == DeleteNoKey
    ensures r.DeletePublish? && mine(DeletionDraft(eventId, pk, now)).None? ==>
              r.event == DeletionDraft(eventId, pk, now)
              && r.event.kind == 5 && r.event.tags == [["e", eventId]] && r.event.content == "deleted"
    ensures r.DeletePublish? && mine(DeletionDraft(eventId, pk, now)).Some? ==>
              r.event == mine(DeletionDraft(eventId, pk, now)).value
  {
    if !hasSk then DeleteNoKey
    else if !confirmed then DeleteCancelled
    else DeletePublish(mine(DeletionDraft(eventId, pk, now)).GetOr(DeletionDraft(eventId, pk, now)))
  }

  // ---------------------------------------------------------------------
  // Relay configuration at start-up

  /** Where the relay lists come from: `relays == None` stands for the
      built-in lists; the flags record the storage writes made. */
  datatype RelayLoad<R> = RelayLoad(relays: Option<R>, wroteDefaults: bool, removedSaved: bool)

  /** The `relays` initialiser.  `savedRev` and `savedRelays` are the stored
      strings (`None` when absent); `parsed` is `JSON.parse(savedRelays)`,
      `None` when it throws. */
  function LoadRelays<R>(savedRev: Option<string>, savedRelays: Option<string>, parsed: Option<R>): (r: RelayLoad<R>)
    ensures r.wroteDefaults <==> savedRev != Some(Config.Revision)
    ensures r.relays.Some? <==> savedRev == Some(Config.Revision) && savedRelays.Some?
                                && savedRelays.value != "" && parsed.Some?
    ensures r.relays.Some? ==> r.relays == parsed
    ensures r.removedSaved <==> savedRev == Some(Config.Revision) && savedRelays.Some?
                                && savedRelays.value != "" && parsed.None?
    ensures !(r.wroteDefaults && r.removedSaved)
  {
    if savedRev.None? || savedRev.value == "" || savedRev.value != Config.Revision then
      RelayLoad(None, true, false)
    else if savedRelays.None? || savedRelays.value == "" then
      RelayLoad(None, false, false)
    else if parsed.None? then
      RelayLoad(None, false, true)
    else
      RelayLoad(parsed, false, false)
  }

  // ---------------------------------------------------------------------
  // Nickname colour hash

  const TwoTo31: int := 0x8000_0000
  const TwoTo32: int := 0x1_0000_0000

  /** ECMAScript ToInt32 on an integer: the representative of `x` modulo
      2^32 in [-2^31, 2^31). */
  function ToInt32(x: int): (r: int)
    ensures -TwoTo31 <= r < TwoTo31
    ensures (x - r) % TwoTo32 == 0
  {
    var m := x % TwoTo32;
    if m >= TwoTo31 then m - TwoTo32 else m
  }

  /** One step of `hash = pubkey.charCodeAt(i) + (hash << 5) - hash`. */
  function HashStep(h: int, c: char): int {
    c as int + ToInt32(ToInt32(h) * 32) - h
  }

  function HashOf(s: string): int
    decreases |s|
  {
    if s == [] then 0 else HashStep(HashOf(s[..|s| - 1]), s[|s| - 1])
  }

  /** The integer loop of `getUserColor`. */
  method UserHash(pubkey: string) returns (h: int)
    ensures h == HashOf(pubkey)
  {
    h := 0;
    var i := 0;
    while i < |pubkey|
      invariant 0 <= i <= |pubkey|
      invariant h == HashOf(pubkey[..i])
    {
      assert pubkey[..i + 1][..i] == pubkey[..i];
      h := HashStep(h, pubkey[i]);
      i := i + 1;
    }
    assert pubkey[..i] == pubkey;
  }

  /** The hash grows by less than 2^31 + 0x110000 per character, so for keys
      shorter than 2^21 characters every intermediate value is an integer a
      double holds exactly, and unbounded arithmetic agrees with JavaScript. */
  lemma {:induction false} HashBound(s: string)
    ensures -|s| * (TwoTo31 + 0x11_0000) <= HashOf(s) <= |s| * (TwoTo31 + 0x11_0000)
  {
    if s != [] {
      HashBound(s[..|s| - 1]);
    }
  }

  // ---------------------------------------------------------------------
  // The connection state machine

  /** The chat state of the `App` component, with the relay pool reduced to
      the set of subscriptions it keeps open. */
  class ChatSession {
    var pk: Option<string>
    var channel: string
    var protocol: string
    var connected: bool
    var initialDone: bool     // initialChangeChannelDone
    var pool: bool            // poolRef.current is set
    var sub: Option<nat>      // subRef.current
    var live: set<nat>        // subscriptions the pool keeps open
    var nextSub: nat
    var messages: seq<Message>
    var draft: string         // the message being typed
    ghost var opens: nat
    ghost var closes: nat
    ghost var subChannel: string   // channel and protocol of the latest subscription
    ghost var subProtocol: string

    /** At most one subscription is open and it is the one `subRef` holds;
        nothing is open before the first `connect`; the buffer keeps its
        invariant. */
    ghost predicate Consistent()
      reads this
    {
      live <= (if sub.Some? then {sub.value} else {})
      && (sub.Some? ==> pool && sub.value < nextSub)
      && (!connected ==> live == {})
      && Buffered(messages)
    }

    /** After mounting, an open subscription always follows the channel and
        protocol on screen. */
    ghost predicate Valid()
      reads this
    {
      Consistent() && initialDone
      && (live != {} ==> subChannel == channel && subProtocol == protocol)
    }

    /** The first render and the effects it triggers, from the stored
        public key, channel and protocol.  The channel effect only schedules
        the inferred protocol, the protocol effect's first run only sets
        `initialChangeChannelDone`, and the public-key effect connects with
        the protocol of that render.  If the stored protocol differs from
        the inferred one, the next render's protocol effect reconnects. */
    constructor Mount(savedPk: Option<string>, savedChannel: string, savedProtocol: string,
                      now: int, firstOk: bool, secondOk: bool)
      ensures Valid()
      ensures pk == savedPk && channel == savedChannel && protocol == InferProtocol(savedChannel)
      ensures savedPk.None? ==> !connected && opens == 0 && closes == 0 && live == {}
      ensures savedPk.Some? ==> connected && messages == []
      ensures savedPk.Some? && savedProtocol == InferProtocol(savedChannel) ==>
                closes == 0 && opens == (if firstOk then 1 else 0)
      ensures savedPk.Some? && savedProtocol != InferProtocol(savedChannel) && firstOk ==>
                closes == 1 && opens == (if secondOk then 2 else 1)
    {
      pk := savedPk;
      channel := savedChannel;
      protocol := savedProtocol;
      connected := false;
      initialDone := false;
      pool := false;
      sub := None;
      live := {};
      nextSub := 0;
      messages := [];
      draft := "";
      opens := 0;
      closes := 0;
      subChannel := savedChannel;
      subProtocol := savedProtocol;
      new;
      var inferred := InferProtocol(channel);
      initialDone := true;
      if pk.Some? {
        Connect(now, firstOk);
      }
      if inferred != protocol {
        protocol := inferred;
        ProtocolEffect(now, secondOk);
      }
    }

    /** `subRef.current.close()`, leaving `subRef` as it is. */
    method CloseCurrent()
      requires Consistent()
      modifies this`live, this`closes
      ensures Consistent()
      ensures live == {}
      ensures closes == old(closes) + (if sub.Some? then 1 else 0)
    {
      if sub.Some? {
        live := live - {sub.value};
        closes := closes + 1;
      }
    }

    /** `subscribeMany`: a fresh subscription when it succeeds; when it
        throws, `subRef` keeps its value. */
    method Subscribe(subscribeOk: bool)
      requires Consistent() && live == {} && pool && connected
      modifies this`sub, this`live, this`nextSub, this`opens
      ensures Consistent()
      ensures subscribeOk ==> sub == Some(old(nextSub)) && live == {old(nextSub)}
                              && opens == old(opens) + 1
      ensures !subscribeOk ==> sub == old(sub) && live == {} && opens == old(opens)
    {
      if subscribeOk {
        sub := Some(nextSub);
        live := {nextSub};
        nextSub := nextSub + 1;
        opens := opens + 1;
      }
    }

    /** `connect`: nothing without a public key; otherwise closes the
        current subscription, empties the buffer, marks the session
        connected and opens one subscription (unless `subscribeMany` throws,
        which leaves `subRef` as it was). */
    method Connect(now: int, subscribeOk: bool)
      requires Consistent()
      modifies this`live, this`closes, this`pool, this`messages, this`connected,
               this`subChannel, this`subProtocol, this`sub, this`nextSub, this`opens
      ensures Consistent()
      ensures old(pk).None? ==> unchanged(this)
      ensures old(pk).Some? ==> connected && pool && messages == []
      ensures old(pk).Some? ==> closes == old(closes) + (if old(sub).Some? then 1 else 0)
      ensures old(pk).Some? ==> opens == old(opens) + (if subscribeOk then 1 else 0)
      ensures old(pk).Some? && subscribeOk ==> sub.Some? && live == {sub.value} && sub.value !in old(live)
      ensures old(pk).Some? && !subscribeOk ==> live == {} && sub == old(sub)
      ensures old(pk).Some? ==> subChannel == channel && subProtocol == protocol
    {
      if pk.None? {
        return;
      }
      CloseCurrent();
      pool := true;
      EmptyBuffered();
      messages := [];
      connected := true;
      subChannel, subProtocol := channel, protocol;
      Subscribe(subscribeOk);
    }

    /** `changeChannel`: connects when nothing is subscribed yet; otherwise
        closes the subscription, forgets it, empties the buffer and connects. */
    method ChangeChannel(now: int, subscribeOk: bool)
      requires Consistent()
      modifies this`live, this`closes, this`pool, this`messages, this`connected,
               this`subChannel, this`subProtocol, this`sub, this`nextSub, this`opens
      ensures Consistent()
      ensures live != {} ==> subChannel == channel && subProtocol == protocol
      ensures connected == (old(connected) || pk.Some?)
      ensures pk.Some? ==>
                messages == []
                && closes == old(closes) + (if old(sub).Some? then 1 else 0)
                && opens == old(opens) + (if subscribeOk then 1 else 0)
                && (subscribeOk ==> live != {})
      ensures pk.None? ==> opens == old(opens)
    {
      if !pool || sub.None? {
        if pk.Some? {
          Connect(now, subscribeOk);
        }
        return;
      }
      CloseCurrent();
      sub := None;
      EmptyBuffered();
      messages := [];
      Connect(now, subscribeOk);
    }

    /** The effect on `chatProtocol` after its first run: reconnects when
        connected. */
    method ProtocolEffect(now: int, subscribeOk: bool)
      requires Consistent() && initialDone
      modifies this`live, this`closes, this`pool, this`messages, this`connected,
               this`subChannel, this`subProtocol, this`sub, this`nextSub, this`opens
      ensures Valid()
      ensures connected == old(connected)
      ensures !old(connected) ==>
                live == old(live) && messages == old(messages) && opens == old(opens)
                && closes == old(closes) && sub == old(sub)
      ensures old(connected) && pk.Some? ==>
                messages == [] && closes == old(closes) + (if old(sub).Some? then 1 else 0)
                && opens == old(opens) + (if subscribeOk then 1 else 0)
                && (subscribeOk ==> live != {})
    {
      if connected {
        ChangeChannel(now, subscribeOk);
      }
    }

    /** The effect on `channel`: a channel of the other protocol switches
        the protocol, whose effect reconnects; otherwise it reconnects
        itself when connected. */
    method ChannelEffect(now: int, subscribeOk: bool)
      requires Consistent() && initialDone
      requires live != {} ==> subProtocol == protocol
      modifies this`protocol, this`live, this`closes, this`pool, this`messages, this`connected,
               this`subChannel, this`subProtocol, this`sub, this`nextSub, this`opens
      ensures Valid()
      ensures protocol == InferProtocol(channel) && connected == old(connected)
      ensures !old(connected) ==> live == old(live) && messages == old(messages)
                                  && opens == old(opens) && closes == old(closes)
      ensures old(connected) && pk.Some? ==>
                messages == [] && closes == old(closes) + (if old(sub).Some? then 1 else 0)
                && opens == old(opens) + (if subscribeOk then 1 else 0)
                && (subscribeOk ==> live != {})
    {
      var inferred := InferProtocol(channel);
      if inferred != protocol {
        protocol := inferred;
        ProtocolEffect(now, subscribeOk);
      } else if connected {
        ChangeChannel(now, subscribeOk);
      }
    }

    /** `setChannel(c)`: the same value does not re-render; a new one runs
        the channel effect, so a switch while connected closes at most one
        subscription and opens at most one, whichever effect reconnects. */
    method SetChannel(c: string, now: int, subscribeOk: bool)
      requires Valid()
      modifies this`channel, this`protocol, this`live, this`closes, this`pool, this`messages,
               this`connected, this`subChannel, this`subProtocol, this`sub, this`nextSub, this`opens
      ensures Valid()
      ensures c == old(channel) ==> unchanged(this)
      ensures channel == c && connected == old(connected)
      ensures c != old(channel) ==> protocol == InferProtocol(c)
      ensures !old(connected) ==> live == {} && messages == old(messages)
                                  && opens == old(opens) && closes == old(closes)
      ensures c != old(channel) && old(connected) && pk.Some? ==>
                messages == []
                && closes == old(closes) + (if old(sub).Some? then 1 else 0)
                && opens == old(opens) + (if subscribeOk then 1 else 0)
                && (subscribeOk ==> live != {} && subChannel == c)
    {
      if c == channel {
        return;
      }
      channel := c;
      ChannelEffect(now, subscribeOk);
    }

    /** `setChatProtocol(p)` from the protocol toggle. */
    method SetProtocol(p: string, now: int, subscribeOk: bool)
      requires Valid()
      modifies this`protocol, this`live, this`closes, this`pool, this`messages,
               this`connected, this`subChannel, this`subProtocol, this`sub, this`nextSub, this`opens
      ensures Valid()
      ensures p == old(protocol) ==> unchanged(this)
      ensures protocol == p && connected == old(connected)
      ensures !old(connected) ==> live == {} && opens == old(opens) && closes == old(closes)
      ensures p != old(protocol) && old(connected) && pk.Some? ==>
                messages == []
                && closes == old(closes) + (if old(sub).Some? then 1 else 0)
                && opens == old(opens) + (if subscribeOk then 1 else 0)
                && (subscribeOk ==> live != {} && subProtocol == p)
    {
      if p == protocol {
        return;
      }
      protocol := p;
      ProtocolEffect(now, subscribeOk);
    }

    /** `setPk(v)`: a new value runs the cleanup of the previous public-key
        effect, which closes the current subscription without forgetting
        it, then connects only when not yet connected. */
    method SetPk(v: Option<string>, now: int, subscribeOk: bool)
      requires Valid()
      modifies this`pk, this`live, this`closes, this`pool, this`messages, this`connected,
               this`subChannel, this`subProtocol, this`sub, this`nextSub, this`opens
      ensures Valid()
      ensures v == old(pk) ==> unchanged(this)
      ensures pk == v
      ensures v != old(pk) && old(connected) ==>
                live == {} && sub == old(sub) && opens == old(opens) && messages == old(messages)
                && closes == old(closes) + (if old(sub).Some? then 1 else 0)
      ensures v != old(pk) && v.Some? && !old(connected) ==>
                connected && messages == [] && opens == old(opens) + (if subscribeOk then 1 else 0)
    {
      if v == pk {
        return;
      }
      CloseCurrent();
      pk := v;
      if pk.Some? && !connected {
        Connect(now, subscribeOk);
      }
    }

    /** An event arriving on subscription `s`: only an open subscription
        delivers. */
    method Deliver(s: nat, ev: Event)
      requires Valid()
      modifies this`messages
      ensures Valid()
      ensures messages == if s in live then Receive(old(messages), ev) else old(messages)
    {
      if s in live {
        ReceiveKeepsBuffered(messages, ev);
        messages := Receive(messages, ev);
      }
    }

    /** `send`, from the typed message; the input is cleared once the event
        went out, whether or not a relay accepted it. */
    method SendDraft(hasSk: bool, e2e: bool, handle: string, now: int,
                     encrypted: Result<string>, mine: Draft -> Option<Draft>)
      returns (r: SendOutcome)
      requires Valid() && pk.Some?
      modifies this`draft, this`pool
      ensures Valid()
      ensures r == Send(hasSk, old(draft), e2e, channel, protocol, handle, pk.value, now, encrypted, mine)
      ensures draft == if r.Publish? then "" else old(draft)
      ensures pool == (old(pool) || r.Publish?)
    {
      r := Send(hasSk, draft, e2e, channel, protocol, handle, pk.value, now, encrypted, mine);
      if r.Publish? {
        pool := true;
        draft := "";
      }
    }

    /** `deleteEvent`: the message leaves the local buffer only after the
        deletion request was published without an exception. */
    method Delete(eventId: string, hasSk: bool, confirmed: bool, now: int,
                  mine: Draft -> Option<Draft>, publishOk: bool)
      returns (r: DeleteOutcome)
      requires Valid() && pk.Some?
      modifies this`messages, this`pool
      ensures Valid()
      ensures r == DeleteRequest(hasSk, confirmed, eventId, pk.value, now, mine)
      ensures messages == if r.DeletePublish? && publishOk then Remove(old(messages), eventId)
                          else old(messages)
      ensures pool == (old(pool) || r.DeletePublish?)
    {
      r := DeleteRequest(hasSk, confirmed, eventId, pk.value, now, mine);
      var kept := messages;
      if r.DeletePublish? && publishOk {
        RemoveKeepsBuffered(messages, eventId);
        kept := Remove(messages, eventId);
      }
      assert Buffered(kept);
      messages := kept;
      pool := pool || r.DeletePublish?;
    }
  }
}
