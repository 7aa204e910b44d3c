# minchat in Dafny

A model of the core of minchat, a Preact client for the nostr protocol, with
proofs of what its code promises. The model covers:

- **The chat room.** This is src/app.jsx: connecting, subscribing and
  resubscribing per channel and protocol, and the message buffer the
  subscription fills (newest first, no id twice). It also covers composing
  kind-1 (nostr) and kind-20000 (bitchat) events, and deleting one's own
  posts. It covers the relay-list initialiser and the colour hash of a
  public key as well.
- **The message list of the chat tab.** This is src/tabs/chat/Chat.jsx: the
  author label, the indicators, the copy and delete actions, the protocol
  toggle, the channel prompt and select, the image button, and how a
  decrypted message is displayed. That includes the markdown-image regular
  expression `!\[.*?\]\((.*?)\)`.
- **The direct-message tab.** This is src/tabs/dm/Dm.jsx: per-peer threads
  (oldest first, no id twice), unread counts and the badge, the
  conversation list, and the global and per-conversation gift-wrap
  handlers. It also covers starting, renaming and adding conversations.
- **The two feeds.** These are src/tabs/market/Market.jsx (kind-30402
  classified listings) and src/tabs/explore/Explore.jsx (kind-30023
  long-form articles): their filters, how events become posts, and the
  ordered, duplicate-free lists the feeds keep.
- **The settings tab.** This is src/tabs/settings/Settings.jsx: the
  sanitising of the channel and handle inputs, the channel options and the
  key reset.
- **The channel cipher.** This is src/encryption.js: the derived key, the
  rule that only 16-, 24- or 32-byte keys import, the framing of IV and
  ciphertext, and base64. Base64 follows section 4 of RFC 4648 for `btoa`,
  and `atob` follows the forgiving decoder of the HTML standard.

State the source mutates is modelled as classes:

- `App.ChatSession` holds the chat room's refs and state.
- `Dm.DmStore` holds the DM tab's state.
- `Market.MarketFeed` and `Explore.LongformFeed` hold the two feeds.

React state updaters, which are pure functions of the previous state, are
modelled as functions. So is everything else that only computes. JavaScript
semantics the code relies on are written out: stable `sort` (an insertion
sort), `||` falsiness, `parseInt`, `Number`, `padEnd`/`slice`, `trim`, and
`ToInt32` of `<<`.

Effects are modelled as methods that run when a render changes their
dependency. Each subscription has a number, and the ghost counters `opens`
and `closes` record what was opened and closed. The class invariant
`ChatSession.Valid` states that at most one subscription is live, that it
is the one `subRef` holds, and that it follows the channel and protocol on
screen.

Randomness, the clock, cryptography, relays and the nostr-tools primitives
are parameters of the model:

- `now` stands for the clock.
- `iv` stands for `crypto.getRandomValues`.
- The `Aead` pair stands for AES-GCM.
- `mine` stands for the proof-of-work miner.
- `subscribeOk`/`publishOk` stand for relay success.
- `unwrapped` stands for `nip17.unwrapEvent`.
- `decoded` stands for `nip19.decode`, and `officialKey` for its decoding of the built-in npub.

## Model

| member | source | states |
|---|---|---|
| App.Receive | src/app.jsx:310-315 | an event whose id is already buffered leaves the buffer as it was; otherwise the buffer gains exactly that message; afterwards the id is held |
| App.ReceiveNew | src/app.jsx:312-315 | a new event lands after every buffered message at least as new and before every older one, and the buffer stays newest first without duplicate ids |
| App.ReceiveKeepsBuffered | src/app.jsx:312-315 | the buffer invariant (newest first, ids unique) survives every delivery |
| App.ReceiveRepeated | src/app.jsx:312-314 | delivering the same event any positive number of times gives what one delivery gives |
| App.Remove | src/app.jsx:618 | after deletion no message with the id is left; an id not buffered leaves the buffer unchanged |
| App.RemoveKeepsOthers | src/app.jsx:618 | every other message stays, and nothing not buffered before appears |
| App.RemoveKeepsBuffered | src/app.jsx:618 | deletion keeps the buffer newest first with unique ids |
| App.InferProtocol | src/app.jsx:167-181 | the protocol is nostr exactly when the channel is one of the kind-1 channels, bitchat otherwise |
| App.OutgoingShape | src/app.jsx:361-385 | the event is kind 1 under nostr and 20000 otherwise; its first tag is `t` or `g` with the channel; an `n` tag appears exactly for a real handle outside nostr; an `encrypted` tag appears exactly with e2e outside nostr |
| App.Send | src/app.jsx:342-397 | nothing is published without a secret key or with an empty message; an encryption failure, only possible with e2e on a non-kind-1 channel, stops the send; otherwise the draft is published, mined when mining succeeds |
| App.SendTagAndCipherCanDisagree | src/app.jsx:350-376 | on a kind-1 channel under bitchat the content is encrypted but carries no `encrypted` tag, and on a bitchat channel under nostr the converse |
| App.SentEventMatchesFilter | src/app.jsx:280-296 | what is sent under a channel and protocol matches the filter a subscription to that channel and protocol uses (bitchat within five hours) |
| App.ProtocolsSeparate | src/app.jsx:280-296 | an event sent under one protocol never matches the other protocol's filter |
| App.DeleteRequest | src/app.jsx:580-606 | a deletion is published exactly when a secret key is present and the user confirms; without a key the refusal comes before any confirmation; when mining fails exactly the kind-5 draft tagging the id with content `deleted` is published unmined, and otherwise the mined event |
| App.LoadRelays | src/app.jsx:234-258 | defaults are written exactly when the stored revision is missing or differs; saved lists are used exactly when the revision matches and a non-empty saved list parses; that saved list is removed exactly when it fails to parse |
| App.ToInt32 | src/app.jsx:626 | the result is a signed 32-bit integer congruent to the input modulo 2^32 |
| App.UserHash | src/app.jsx:621-627 | the loop computes the hash fold `HashOf` over the public key |
| App.HashBound | src/app.jsx:621-627 | the hash of a key stays within a bound linear in its length |
| App.ChatSession.Mount | src/app.jsx:167-228 | after the first render's effects, with a stored key, the session is connected with one subscription (two opens and a close when the stored protocol differs from the inferred one); without a key nothing is opened |
| App.ChatSession.CloseCurrent | src/app.jsx:271-273 | the held subscription is closed and nothing stays live |
| App.ChatSession.Subscribe | src/app.jsx:298-321 | a successful subscribe makes a fresh subscription the only live one; a throwing one leaves nothing live |
| App.ChatSession.Connect | src/app.jsx:264-322 | without a key nothing changes; with one the previous subscription is closed, the buffer emptied and at most one new subscription opened for the current channel and protocol |
| App.ChatSession.ChangeChannel | src/app.jsx:324-339 | reconnects, or connects when no subscription exists, so that a live subscription follows the channel and protocol |
| App.ChatSession.ProtocolEffect | src/app.jsx:192-203 | when connected the session resubscribes once; when not it does nothing |
| App.ChatSession.ChannelEffect | src/app.jsx:167-181 | the protocol becomes the inferred one and a connected session resubscribes exactly once, through one effect or the other |
| App.ChatSession.SetChannel | src/app.jsx:167-181 | the same channel changes nothing; a new one while connected closes at most one subscription and opens at most one, for the new channel |
| App.ChatSession.SetProtocol | src/app.jsx:192-203 | the same protocol changes nothing; a new one while connected resubscribes under it |
| App.ChatSession.SetPk | src/app.jsx:206-228 | a new key closes the live subscription and connects only a session not yet connected |
| App.ChatSession.Deliver | src/app.jsx:299-316 | only a live subscription's events reach the buffer, through `Receive` |
| App.ChatSession.SendDraft | src/app.jsx:342-410 | the outcome is `Send`'s, and the draft is cleared exactly when an event is published |
| App.ChatSession.Delete | src/app.jsx:580-618 | the outcome is `DeleteRequest`'s, and the message leaves the buffer exactly when the deletion is published |
| Ordering.AcceptContents | src/app.jsx:312-315 | the updater keeps the list as it was for a known id, and otherwise adds exactly the new element |
| Ordering.AcceptKeepsInvariant | src/app.jsx:312-315 | the updater keeps a list sorted by its key and free of duplicate ids |
| Ordering.AcceptIdempotent | src/app.jsx:312-314 | applying the updater twice with one element equals applying it once |
| Ordering.SortBy | src/app.jsx:315 | the stable sort yields a permutation of its input |
| Ordering.SortByOrders | src/app.jsx:315 | the stable sort yields a list ordered by the key |
| Ordering.SortBySorted | src/app.jsx:315 | the stable sort leaves an already ordered list as it is |
| Ordering.InsertSorted | src/app.jsx:315 | inserting into a sorted list after every element with a key at least as large keeps it sorted |
| Ordering.DropRemoves | src/app.jsx:618 | filtering by id leaves no element with that id |
| Ordering.DropKeepsOthers | src/app.jsx:618 | filtering by id keeps every other element with its multiplicity |
| Chat.ExactlyOneAction | src/tabs/chat/Chat.jsx:149-161 | each message shows exactly one of copy and delete, and copy when logged out |
| Chat.AuthorName | src/tabs/chat/Chat.jsx:140 | the name a mention inserts is the first `n` tag's second element, `anon` without an `n` tag, and the text `undefined` for an `n` tag without a value |
| Chat.ShownName | src/tabs/chat/Chat.jsx:144 | the name the header shows is the first `n` tag's second element, `anon` without an `n` tag, and nothing for an `n` tag without a value |
| Chat.AuthorLabel | src/tabs/chat/Chat.jsx:144 | the header label is `@`, the shown name, `#` and the last four characters of the key |
| Chat.Mention | src/tabs/chat/Chat.jsx:140 | the draft is kept and followed by `@`, the mention's name, `#`, the last four characters of the key and a space |
| Chat.MentionInsertsLabel | src/tabs/chat/Chat.jsx:140-144 | a mention inserts exactly the label the header shows, except when the first `n` tag has no value: then the header shows `@#abcd` |
| Chat.LabelShowsHandle | src/tabs/chat/Chat.jsx:144 | an event sent with a handle is labelled and mentioned with that handle |
| Chat.ToggleProtocol | src/tabs/chat/Chat.jsx:45-49 | the toggle always changes the protocol and yields nostr or bitchat |
| Chat.ToggleTwice | src/tabs/chat/Chat.jsx:45-49 | toggling twice restores the protocol |
| Chat.PromptChannel | src/tabs/chat/Chat.jsx:65-68 | a cancelled or empty answer keeps the channel; otherwise the channel has no `#` and at most 20 characters |
| Chat.PromptKeepsPlainName | src/tabs/chat/Chat.jsx:65-68 | a short answer without `#` becomes the channel unchanged |
| Chat.SelectShowsChannel | src/tabs/chat/Chat.jsx:215-228 | the current channel is always selectable, listed separately exactly when it is not configured |
| Chat.AppendImage | src/tabs/chat/Chat.jsx:247-250 | an http(s) URL is appended as a markdown image; anything else leaves the draft |
| Chat.ExtractImage | src/tabs/chat/Chat.jsx:103-112 | an image is taken exactly when the first match's URL is non-empty and starts with `http://` or `https://`, and removing it shortens the text; without one the text is as decrypted |
| Chat.ExtractImageSpec | src/tabs/chat/Chat.jsx:103-112 | what is cut out is a whole `![alt](url)` whose URL is the image and holds no `)`, and the text is what surrounds the match |
| Chat.CloseParenSpec | src/tabs/chat/Chat.jsx:103 | the URL part runs to the first `)` and crosses no line terminator |
| Chat.AltEndSpec | src/tabs/chat/Chat.jsx:103 | the alternative text ends at a `](` whose URL part closes, and crosses no line terminator |
| Chat.AltEndFirst | src/tabs/chat/Chat.jsx:103 | the lazy alternative text is the shortest: no earlier `](` is followed by a closing URL part |
| Chat.FirstImageSpec | src/tabs/chat/Chat.jsx:103-104 | a match found is `![`, an alternative text and a URL part, and no match starts earlier |
| Chat.FirstImageNone | src/tabs/chat/Chat.jsx:103-104 | when no match is found, no position starts `![` followed by an alternative text and a closing URL part |
| Chat.AppendedImageExtracted | src/tabs/chat/Chat.jsx:103-112 | an image the image button appended to a draft without `!` is extracted again, leaving the draft and a space |
| Chat.AfterDecrypt | src/tabs/chat/Chat.jsx:117-119 | a failed decryption displays the failure text; a successful one goes through image extraction |
| Chat.Body | src/tabs/chat/Chat.jsx:92-132 | only encrypted messages with e2e on are decrypted; until the result is cached they show `[Encrypted]`; then a non-empty image shows with the text, and otherwise a non-empty text shows alone while an empty one keeps `[Encrypted]` |
| Dm.ToMessage | src/tabs/dm/Dm.jsx:105-112 | the message id is the rumor's when present and non-empty, else the wrap's |
| Dm.Store | src/tabs/dm/Dm.jsx:116-129 | a message is new exactly when its thread lacks the id; a known one changes nothing |
| Dm.StoreContents | src/tabs/dm/Dm.jsx:116-129 | after storing, the thread holds the id and gains exactly the new message |
| Dm.StoreKeepsChronological | src/tabs/dm/Dm.jsx:127 | every thread stays oldest first with unique ids |
| Dm.StoreNewPosition | src/tabs/dm/Dm.jsx:127 | a new message goes after every message not newer than it |
| Dm.BumpUnread | src/tabs/dm/Dm.jsx:132-137 | the peer's count rises by one from zero or its previous value; other counts stay |
| Dm.ClearUnread | src/tabs/dm/Dm.jsx:76-83 | the peer's count is removed and the others kept |
| Dm.Badge | src/tabs/dm/Dm.jsx:492-495 | a badge shows exactly for a positive count, `99+` above 99 and the count's digits otherwise |
| Dm.FindPeer | src/tabs/dm/Dm.jsx:139-161 | a conversation is found exactly for a listed peer, and it is that peer's |
| Dm.DefaultName | src/tabs/dm/Dm.jsx:145 | a new peer is named `User#` and the last four characters of its key |
| Dm.Touch | src/tabs/dm/Dm.jsx:236-262 | the peer's conversation gets the message and time; every other entry is unchanged |
| Dm.TouchKeepsPeers | src/tabs/dm/Dm.jsx:236-262 | updating the last message keeps the list's peers and their uniqueness |
| Dm.NoteGlobal | src/tabs/dm/Dm.jsx:139-161 | an unknown peer is appended; a known one is updated only by a newer message |
| Dm.NoteAny | src/tabs/dm/Dm.jsx:236-262 | an unknown peer is appended; a known one is always updated |
| Dm.NoteKeepsUnique | src/tabs/dm/Dm.jsx:139-161 | both handlers list each peer once and list the sender afterwards |
| Dm.Rename | src/tabs/dm/Dm.jsx:294-299 | only the peer's entries take the new name |
| Dm.RenameKeepsUnique | src/tabs/dm/Dm.jsx:294-299 | renaming keeps peers unique |
| Dm.DisplaySortIdempotent | src/tabs/dm/Dm.jsx:482-483 | sorting the displayed list twice gives what one sort gives |
| Dm.NpubIsNotHex | src/tabs/dm/Dm.jsx:369-379 | an npub is never accepted as a hex key without decoding |
| Dm.CheckRecipient | src/tabs/dm/Dm.jsx:363-386 | a blank input is ignored, an undecodable npub rejected, and only a 64-digit hex key, typed or decoded, is added |
| Dm.GlobalFilter | src/tabs/dm/Dm.jsx:90-97 | the global subscription exists exactly with a pool, a public key and a secret key, for kind 1059 addressed to the key |
| Dm.ConversationSeesGlobal | src/tabs/dm/Dm.jsx:180-185 | whatever the global subscription sees the conversation subscription sees too, and it is at most thirty days old |
| Dm.OfficialName | src/tabs/dm/Dm.jsx:23 | the official conversation is named `Minchat#` and the last four characters of its key |
| Dm.InitialConversations | src/tabs/dm/Dm.jsx:12-31 | the stored list when there is one; otherwise the single conversation with the decoded official key, its greeting and the current time, or no conversation when decoding fails |
| Dm.InitialConversationsUnique | src/tabs/dm/Dm.jsx:12-31 | a fresh tab lists the official account, and the starting list has no peer twice when the stored one has none |
| Dm.DmStore.constructor | src/tabs/dm/Dm.jsx:12-47 | threads and counts start from storage or empty, the conversation list is `InitialConversations`'s, and nothing is selected |
| Dm.DmStore.Select | src/tabs/dm/Dm.jsx:71-87 | opening a conversation selects it and clears its unread count |
| Dm.DmStore.Deselect | src/tabs/dm/Dm.jsx:388-391 | going back clears the selection |
| Dm.DmStore.StoreIncoming | src/tabs/dm/Dm.jsx:116-137 | the thread update is `Store`'s, and the count rises only for a new message that counts |
| Dm.DmStore.NoteConversation | src/tabs/dm/Dm.jsx:139-161 | the list update is `NoteGlobal`'s and keeps peers unique |
| Dm.DmStore.ReceiveGlobal | src/tabs/dm/Dm.jsx:100-165 | as written: a kind-14 rumor is stored, counted unless the selection captured when subscribing is its peer, and listed |
| Dm.DmStore.ReceiveGlobalCurrent | src/tabs/dm/Dm.jsx:100-165 | as intended: the current selection decides, so the open conversation never carries an unread count |
| Dm.DmStore.ReceiveSelected | src/tabs/dm/Dm.jsx:187-265 | a kind-14 rumor is stored, counted only when it is not from the open peer, and listed; the open conversation stays read |
| Dm.DmStore.NoteSelectedConversation | src/tabs/dm/Dm.jsx:236-262 | the open peer's entry is touched and any other peer noted, keeping peers unique |
| Dm.DmStore.StartConversation | src/tabs/dm/Dm.jsx:274-290 | a known peer is selected; an unknown one is appended and selected, and its count cleared |
| Dm.DmStore.UpdateConversationHandle | src/tabs/dm/Dm.jsx:292-308 | a blank edit or no selection changes nothing; otherwise the peer's entries and the selection take the trimmed name |
| Dm.DmStore.AddNewConversation | src/tabs/dm/Dm.jsx:363-386 | the outcome is `CheckRecipient`'s; only an accepted key starts a conversation |
| Dm.DmStore.SortForDisplay | src/tabs/dm/Dm.jsx:482-483 | the list is permuted into newest-first order |
| Dm.StaleSelectionCountsOpenMessage | src/tabs/dm/Dm.jsx:131-137 | a handler subscribed with nothing open counts a message from the conversation opened since |
| Market.PublishedAtOf | src/tabs/market/Market.jsx:42 | a missing, unparsable or zero `published_at` falls back to the creation time; otherwise its integer prefix is used |
| Market.PublishedAtDecimal | src/tabs/market/Market.jsx:42 | a positive decimal `published_at` is read as its value |
| Market.PriceOf | src/tabs/market/Market.jsx:44-51 | a price is shown exactly when a `price` tag exists |
| Market.FormatFullPrice | src/tabs/market/Market.jsx:47-50 | a full price tag shows amount, upper-case currency, and ` / ` with the frequency only when the frequency is not empty |
| Market.FormatAmountCurrency | src/tabs/market/Market.jsx:47-50 | a price tag without a frequency shows amount and upper-case currency |
| Market.FormatAmountOnly | src/tabs/market/Market.jsx:47-50 | a price tag with only an amount shows it followed by a space |
| Market.FormatNoAmount | src/tabs/market/Market.jsx:47-50 | a bare price tag shows `undefined` |
| Market.Project | src/tabs/market/Market.jsx:34-53 | a listing copies the event's id, key, content, time and tags; its title is the first `title` tag's non-empty value or `Untitled`, its summary the first `summary` tag's value or empty, its location a non-empty `location` value or none; its price is `PriceOf`'s, its publication time `PublishedAtOf`'s and its images the values of every `image` tag in order |
| Market.ProjectListing | src/tabs/market/Market.jsx:34-53 | a listing with a title and full price shows them, with empty summary, no location, no images and the creation time |
| Market.MarketFilterMatches | src/tabs/market/Market.jsx:19-29 | the subscription admits exactly kind-30402 events of the last thirty days, and when a topic is typed only those carrying it as a `t` tag |
| Market.ToggleImages | src/tabs/market/Market.jsx:74-79 | only the toggled listing's flag flips |
| Market.ToggleTwice | src/tabs/market/Market.jsx:74-79 | toggling twice restores what is shown |
| Market.MarketFeed.constructor | src/app.jsx:481-493 | the feed starts from the stored listings, not loading, showing no images |
| Market.MarketFeed.Fetch | src/tabs/market/Market.jsx:15-29 | a fetch empties the list, starts loading and asks for `MarketFilter` |
| Market.MarketFeed.Receive | src/tabs/market/Market.jsx:55-58 | a listing is added once, and the list stays ordered by publication time, newest first |
| Market.MarketFeed.Timeout | src/tabs/market/Market.jsx:66-69 | the timeout ends loading |
| Market.MarketFeed.Toggle | src/tabs/market/Market.jsx:74-79 | toggling flips whether that listing's images show |
| Explore.Project | src/tabs/explore/Explore.jsx:30-39 | an article copies the event's id, key, content, time and tags; its title is the first `title` tag's non-empty value or `Untitled`, its summary the first `summary` tag's value or empty; a non-empty `published_at` is kept as text, else the creation time |
| Explore.StampKeyDecimal | src/tabs/explore/Explore.jsx:38-43 | a decimal `published_at` orders by its value |
| Explore.ExploreFilterMatches | src/tabs/explore/Explore.jsx:17-26 | the subscription admits exactly kind-30023 events of the last seven days, and when a topic is typed only those carrying it as a `t` tag |
| Explore.AfterFetch | src/tabs/explore/Explore.jsx:41-44 | after a fetch every received article's id is listed |
| Explore.LongformFeed.constructor | src/app.jsx:437-447 | the feed starts from the stored articles, not loading |
| Explore.LongformFeed.Fetch | src/tabs/explore/Explore.jsx:13-26 | a fetch empties the list, starts loading and asks for `ExploreFilter` |
| Explore.LongformFeed.Receive | src/tabs/explore/Explore.jsx:41-44 | an article is added once and the list stays ordered by publication time, newest first |
| Explore.LongformFeed.Timeout | src/tabs/explore/Explore.jsx:52-55 | the timeout ends loading |
| Nostr.TopicTags | src/tabs/market/Market.jsx:26-29 | the topic tag filter is set exactly when the topic is not blank |
| Settings.SanitizeChannel | src/tabs/settings/Settings.jsx:66 | the channel input loses every `#` and is cut to 32 characters |
| Settings.SanitizeHandle | src/tabs/settings/Settings.jsx:138 | the handle loses every `@`, is cut to 20 characters, and becomes `anon` when nothing is left |
| Settings.HandleField | src/tabs/settings/Settings.jsx:137 | the field shows the handle, and is empty for `anon` |
| Settings.SanitizeHandleIdempotent | src/tabs/settings/Settings.jsx:138 | sanitising a sanitised handle changes nothing |
| Settings.HandleFieldRoundTrip | src/tabs/settings/Settings.jsx:137-138 | typing back what the field shows keeps the handle |
| Settings.SanitizeChannelIdempotent | src/tabs/settings/Settings.jsx:66 | sanitising a sanitised channel changes nothing |
| Settings.WithoutFavoritesMembers | src/tabs/settings/Settings.jsx:50-56 | a channel is offered exactly when it is configured and not a favourite |
| Settings.ChannelOptions | src/tabs/settings/Settings.jsx:50-56 | the options are the kind-1 then the kind-20000 channels without favourites |
| Settings.ChannelOptionsContents | src/tabs/settings/Settings.jsx:50-56 | with no favourites every configured channel is offered, in order |
| Settings.ResetKeyImports | src/tabs/settings/Settings.jsx:168 | the key the reset restores derives to 32 ASCII characters, so the cipher imports it as a 256-bit key |
| Encryption.DeriveKey | src/encryption.js:4 | the key is always 32 characters: a prefix of a long key, a short key padded with `0` |
| Encryption.TrailingZeroSameKey | src/encryption.js:4 | a short key and the same key with a `0` appended are one key |
| Encryption.Utf8Length | src/encryption.js:2-4 | the encoding is never shorter than the string, and as long exactly when it is ASCII |
| Encryption.KeyImportsIffAscii | src/encryption.js:4-11 | the derived key imports exactly when all 32 characters are ASCII |
| Encryption.Sealed | src/encryption.js:1-23 | encryption succeeds exactly when the key imports, and yields whole base64 groups |
| Encryption.Frame | src/encryption.js:19-21 | the combined buffer is the IV followed by the ciphertext |
| Encryption.Encrypt | src/encryption.js:1-23 | the method computes `Sealed` |
| Encryption.Split | src/encryption.js:38-39 | the two slices rebuild the buffer, the first 12 bytes or all of a shorter one being the IV |
| Encryption.SplitFrame | src/encryption.js:38-39 | splitting a framed buffer gives back the IV and the ciphertext |
| Encryption.Decrypt | src/encryption.js:25-51 | a key that does not import, text that is not base64, or a ciphertext that does not open all give the failure text; otherwise the decoded plaintext |
| Encryption.DecryptSealed | src/encryption.js:1-51 | what `encrypt` produced, `decrypt` turns back into the message under the same key |
| Encryption.SameDerivedKeyDecryptsAlike | src/encryption.js:28 | keys with one derived key decrypt alike |
| Base64.Encode | src/encryption.js:22 | `btoa` yields four characters for every three bytes or part of three |
| Base64.Decode | src/encryption.js:37 | `atob` succeeds exactly when, without whitespace and final padding, the text is base64 digits not one more than a multiple of four |
| Base64.DecodeEncode | src/encryption.js:22-37 | `atob(btoa(b))` is `b` for every byte string |
| Base64.UnDigitsDigits | src/encryption.js:22-37 | the digits of a byte string decode back to it |
| Base64.GroupsOfFour | src/encryption.js:22 | digits and padding fill whole groups of four |
| Base64.DecodeSkipsWhitespace | src/encryption.js:37 | whitespace inserted anywhere does not change the decoding |
| JsString.ParseIntDecimal | src/tabs/market/Market.jsx:42 | `parseInt` reads a decimal prefix as its value |
| JsString.ParseIntRejects | src/tabs/market/Market.jsx:42 | `parseInt` of text not starting with a sign, space or digit is NaN |
| JsString.ToNumberDecimal | src/tabs/explore/Explore.jsx:43 | numeric conversion of decimal text is its value |
| JsString.TrimEmptyIffBlank | src/tabs/dm/Dm.jsx:293 | `trim` gives the empty string exactly for blank text |
| JsString.RemoveAll | src/tabs/settings/Settings.jsx:66 | a global replace removes every occurrence of the character and nothing else |
| Tags.Find | src/tabs/chat/Chat.jsx:144 | `tags.find` succeeds exactly when a tag has the key, and returns one of the tags |
| Tags.FindFirst | src/tabs/chat/Chat.jsx:144 | `tags.find` returns the first tag with the key |
| Tags.ValuesAppend | src/tabs/market/Market.jsx:52 | `filter` then `map` over two runs of tags is the two results in order |
| Tags.ValuesSingle | src/tabs/market/Market.jsx:52 | one tag contributes its second element when it has the key, and nothing otherwise |
| Tags.ValuesAbsent | src/tabs/market/Market.jsx:52 | tags without the key contribute nothing |

## Left out

- Relays and networking are not modelled. `SimplePool`, `subscribeMany`, `publish` and the closing of subscriptions become booleans and counters.
- The nostr-tools primitives are parameters. That covers `finalizeEvent`, nip17 wrapping and unwrapping, nip19 encoding and decoding, and nip13 mining.
- AES-GCM and `crypto.getRandomValues` are opaque parameters. The model assumes only what each property states as its precondition.
- `TextDecoder` is a parameter of `Decrypt`. Lone surrogates in `TextEncoder` and AES-GCM's plaintext length limit are not modelled.
- `localStorage` is only modelled as the values read at mount and by `LoadRelays`. The writes of the persistence effects are not modelled.
- Rendering, `isMobile`, locale time strings, the debounce of the settings inputs, and geohash/geolocation channel lookup are not modelled.
- The floating-point hue of `getUserColor` is not modelled. `App.UserHash` models the integer hash before `Math.abs` and `% 360`.
- `App.HashBound`: the hash is bounded linearly rather than kept within 32 bits, because `+` and `-` after `<<` are floating-point in JavaScript.
- Strings are sequences of code points, not UTF-16 code units. `slice(-4)` and lengths differ only for characters outside the Basic Multilingual Plane.
- `JsString.ToUpperAscii` upper-cases ASCII letters only. `toUpperCase` on other letters is not modelled.
- `Explore.StampKey`: an article whose `published_at` is not a number sorts as 0. JavaScript compares with NaN instead, which leaves the order up to the engine's sort.
- `JsString.ToNumber` reads decimal integers only. Fractions, exponents, hex and `Infinity` are treated as NaN.
- The Dm `sendMessage` operation is not modelled, because it only wraps and publishes through nip17 and appends a self message.
- Chat.jsx's asynchronous decrypt writes into the message objects and re-renders. This is modelled as the cached `Decrypted` value that `Chat.Body` reads, not as the mutation loop.
- Selections are compared by value, not by object identity.
- Several references are left as they are: `hexToNpub`, which app.jsx:6, Chat.jsx:7 and Market.jsx:3 import from `encryption.js` although that file exports only `encrypt` and `decrypt` (encryption.js:53), Explore.jsx:28 reading `config.relays`, the `SimplePool` that Market.jsx and Explore.jsx do not import, and Chat.jsx:209 calling an undefined `changeChannel`.
- `App.ChatFilter`, `App.OutgoingDraft` and `App.DeletionDraft` build values. Their properties are stated by `App.OutgoingShape`, `App.SentEventMatchesFilter`, `App.ProtocolsSeparate` and `App.DeleteRequest`.
- `Market.MarketFilter`, `Explore.ExploreFilter`, `Chat.SelectValues`, `Explore.Articles` and `Settings.ResetEncryptionKey` also only build values. What they mean is stated by `Market.MarketFilterMatches`, `Explore.ExploreFilterMatches`, `Chat.SelectShowsChannel`, `Explore.AfterFetch` and `Settings.ResetKeyImports`.

## Findings

| source | as written | input that shows it | evidently intended | confidence | as-written member | corrected member |
|---|---|---|---|---|---|---|
| src/tabs/dm/Dm.jsx:131-137 | the global handler tests `selectedConversation` from the render that subscribed; the effect depends only on `pk`, `sk` and `poolRef.current` (line 172), none of which changes when a conversation is opened, so the value is stale | subscribe with no conversation open, open a peer's conversation, then a new kind-14 message from that peer arrives and the global handler sees it before the per-conversation subscription's handler stores it | a message from the open conversation is not counted as unread | not executed | Dm.DmStore.ReceiveGlobal, Dm.StaleSelectionCountsOpenMessage | Dm.DmStore.ReceiveGlobalCurrent |
