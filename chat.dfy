/** The chat tab (src/tabs/chat/Chat.jsx): how a message is shown (its
    encryption and proof-of-work indicators, its author label, the actions
    offered), the protocol toggle, the channel prompt, the image button and
    the markdown image a decrypted message may carry. */
module Chat {
  import opened Wrappers
  import opened Tags
  import opened JsString
  import Config
  import Settings

  // ---------------------------------------------------------------------
  // Indicators and actions

  /** `msg.tags.some(tag => tag[0] === 'encrypted')` */
  predicate IsEncrypted(tags: seq<Tag>) {
    Has(tags, "encrypted")
  }

  /** Decryption is attempted only for an encrypted message with e2e on. */
  predicate ShouldDecrypt(tags: seq<Tag>, e2e: bool) {
    IsEncrypted(tags) && e2e
  }

  /** The pickaxe shows for a message that carries a proof-of-work nonce. */
  predicate ShowsNonce(tags: seq<Tag>) {
    Has(tags, "nonce")
  }

  /** Delete is offered on one's own messages (`msg.pubkey === pk`). */
  predicate CanDelete(author: string, pk: Option<string>) {
    pk == Some(author)
  }

  /** Copying the author's key is offered on everyone else's messages. */
  predicate CanCopy(author: string, pk: Option<string>) {
    pk != Some(author)
  }

  /** Every message offers exactly one of the two actions. */
  lemma ExactlyOneAction(author: string, pk: Option<string>)
    ensures CanDelete(author, pk) != CanCopy(author, pk)
    ensures pk.None? ==> CanCopy(author, pk)
  {
  }

  // ---------------------------------------------------------------------
  // The author label

  /** The name a mention inserts, through a template literal: the second
      element of the first `n` tag, the text "undefined" when that tag has
      no second element, or "anon" without an `n` tag. */
  function AuthorName(tags: seq<Tag>): (n: string)
    ensures !Has(tags, "n") ==> n == "anon"
    ensures Has(tags, "n") && |Find(tags, "n").value| >= 2 ==> n == Find(tags, "n").value[1]
    ensures Has(tags, "n") && |Find(tags, "n").value| < 2 ==> n == "undefined"
  {
    match Find(tags, "n")
    case None => "anon"
    case Some(t) => Text(Field(t, 1))
  }

  /** The name the header shows, as a JSX child: the same lookup, but a
      missing second element renders as nothing. */
  function ShownName(tags: seq<Tag>): (n: string)
    ensures !Has(tags, "n") ==> n == "anon"
    ensures Has(tags, "n") ==> n == Field(Find(tags, "n").value, 1).GetOr("")
  {
    match Find(tags, "n")
    case None => "anon"
    case Some(t) => Field(t, 1).GetOr("")
  }

  /** The header label `@name#abcd`, `abcd` being the last four characters
      of the author's key. */
  function AuthorLabel(tags: seq<Tag>, author: string): (l: string)
    ensures l == "@" + ShownName(tags) + "#" + TakeLast(author, 4)
    ensures |author| >= 4 ==> |l| == |ShownName(tags)| + 6 && l[|l| - 4..] == author[|author| - 4..]
  {
    "@" + ShownName(tags) + "#" + TakeLast(author, 4)
  }

  /** A click on the label appends `@name#abcd` and a space to the draft,
      the name being the template's. */
  function Mention(draft: string, tags: seq<Tag>, author: string): (r: string)
    ensures |r| == |draft| + |AuthorName(tags)| + |TakeLast(author, 4)| + 3
    ensures r[..|draft|] == draft && r[|r| - 1] == ' '
    ensures r[|draft|..|r| - 1] == "@" + AuthorName(tags) + "#" + TakeLast(author, 4)
  {
    var inserted := "@" + AuthorName(tags) + "#" + TakeLast(author, 4);
    assert (draft + inserted + " ")[|draft|..|draft| + |inserted|] == inserted;
    draft + inserted + " "
  }

  /** The two names differ only for an `n` tag without a value. */
  lemma NamesAgree(tags: seq<Tag>)
    ensures !Has(tags, "n") || |Find(tags, "n").value| >= 2 ==> AuthorName(tags) == ShownName(tags)
    ensures Has(tags, "n") && |Find(tags, "n").value| < 2 ==> AuthorName(tags) == "undefined" && ShownName(tags) == ""
  {
  }

  /** `draft@n#tail ` is `draft`, then `@shown#tail`, then a space, exactly
      when the two names are one. */
  lemma LabelSplices(draft: string, n: string, shown: string, tail: string)
    ensures draft + "@" + n + "#" + tail + " " == draft + ("@" + shown + "#" + tail) + " " <==> n == shown
  {
    var a, b := draft + "@" + n + "#" + tail + " ", draft + ("@" + shown + "#" + tail) + " ";
    if a == b {
      assert |n| == |shown|;
      forall i | 0 <= i < |n| ensures n[i] == shown[i] {
        assert a[|draft| + 1 + i] == b[|draft| + 1 + i];
      }
    }
  }

  /** The mention inserts exactly the label the header shows, except for an
      `n` tag without a value: the header shows `@#abcd` and the mention
      `@undefined#abcd`. */
  lemma MentionInsertsLabel(draft: string, tags: seq<Tag>, author: string)
    ensures !Has(tags, "n") || |Find(tags, "n").value| >= 2
            <==> Mention(draft, tags, author) == draft + AuthorLabel(tags, author) + " "
    ensures Has(tags, "n") && |Find(tags, "n").value| < 2 ==>
              AuthorLabel(tags, author) == "@#" + TakeLast(author, 4)
  {
    NamesAgree(tags);
    LabelSplices(draft, AuthorName(tags), ShownName(tags), TakeLast(author, 4));
  }

  /** Whatever the tags hold, the label starts with `@` and the name is
      the first `n` tag's, so a sender's handle is what others see. */
  lemma LabelShowsHandle(handle: string, channelTag: Tag, author: string)
    requires handle != "" && handle != "anon"
    requires !Keyed(channelTag, "n")
    ensures ShownName([channelTag, ["n", handle]]) == handle
    ensures AuthorName([channelTag, ["n", handle]]) == handle
    ensures AuthorLabel([channelTag, ["n", handle]], author)[0] == '@'
  {
    FindFirst([channelTag, ["n", handle]], "n", 1);
  }

  // ---------------------------------------------------------------------
  // Header controls

  /** A click on the protocol label: nostr becomes bitchat, anything else nostr. */
  function ToggleProtocol(p: string): (r: string)
    ensures r != p
    ensures r == "nostr" || r == "bitchat"
  {
    if p == "nostr" then "bitchat" else "nostr"
  }

  /** Toggling twice is the identity on the two protocols. */
  lemma ToggleTwice(p: string)
    requires p == "nostr" || p == "bitchat"
    ensures ToggleProtocol(ToggleProtocol(p)) == p
  {
  }

  /** The channel prompt: a cancelled (`None`) or empty answer keeps the
      channel; otherwise every `#` is removed and the rest cut to 20
      characters. */
  function PromptChannel(answer: Option<string>, channel: string): (r: string)
    ensures answer.None? || answer.value == "" ==> r == channel
    ensures answer.Some? && answer.value != "" ==> '#' !in r && |r| <= 20
    ensures answer.Some? && answer.value != "" ==> r == Take(RemoveAll(answer.value, '#'), 20)
  {
    if answer.Some? && answer.value != "" then Take(RemoveAll(answer.value, '#'), 20) else channel
  }

  /** A prompt answer that is already a short channel name is taken as it is. */
  lemma PromptKeepsPlainName(answer: string, channel: string)
    requires answer != "" && '#' !in answer && |answer| <= 20
    ensures PromptChannel(Some(answer), channel) == answer
  {
  }

  /** The channel appears as an extra select option when neither list holds it. */
  predicate ShowsExtraOption(channel: string) {
    channel !in Config.Kind1Channels && channel !in Config.Kind20000Channels
  }

  /** The values the chat tab's select offers: the current channel first
      when it is extra, then the options the settings tab lists. */
  function SelectValues(channel: string): (r: seq<string>)
    ensures r == (if ShowsExtraOption(channel) then [channel] else []) + Settings.ChannelOptions()
  {
    (if ShowsExtraOption(channel) then [channel] else []) + Settings.ChannelOptions()
  }

  /** The select can always show the current channel: as one of the listed
      channels, or as the extra option; and it is offered once. */
  lemma SelectShowsChannel(channel: string)
    ensures channel in SelectValues(channel)
    ensures ShowsExtraOption(channel) <==> channel !in Settings.ChannelOptions()
  {
    Settings.ChannelOptionsContents();
  }

  // ---------------------------------------------------------------------
  // Images

  predicate IsHttpUrl(u: string) {
    StartsWith(u, "http://") || StartsWith(u, "https://")
  }

  /** The image button: an http(s) answer is appended as ` ![Image](url)`;
      anything else (a cancel included) leaves the draft as it is. */
  function AppendImage(draft: string, answer: Option<string>): (r: string)
    ensures answer.Some? && IsHttpUrl(answer.value) ==> r == draft + " ![Image](" + answer.value + ")"
    ensures answer.None? || !IsHttpUrl(answer.value) ==> r == draft
  {
    if answer.Some? && answer.value != "" && IsHttpUrl(answer.value) then
      draft + " ![Image](" + answer.value + ")"
    else draft
  }

  /** What `.` in a regular expression does not match. */
  predicate IsLineTerminator(c: char) {
    c == '\n' || c == '\r' || c == '\U{2028}' || c == '\U{2029}'
  }

  /** The `(.*?)\)` part from index `k`: the first `)` at or after `k`,
      provided no line terminator comes before it. */
  function CloseParen(s: string, k: nat): (p: Option<nat>)
    decreases |s| - k
    ensures p.Some? ==> k <= p.value < |s| && s[p.value] == ')'
  {
    if k >= |s| || IsLineTerminator(s[k]) then None
    else if s[k] == ')' then Some(k)
    else CloseParen(s, k + 1)
  }

  /** The lazy `.*?\]\(` part from index `j`: the first `](` at or after `j`
      whose url part closes, with no line terminator skipped on the way.
      The result is the index of the `]` and of the closing `)`. */
  function AltEnd(s: string, j: nat): (r: Option<(nat, nat)>)
    decreases |s| - j
    ensures r.Some? ==> j <= r.value.0 && r.value.0 + 2 <= r.value.1 < |s|
  {
    if j + 1 >= |s| then None
    else if s[j] == ']' && s[j + 1] == '(' && CloseParen(s, j + 2).Some? then
      Some((j, CloseParen(s, j + 2).value))
    else if IsLineTerminator(s[j]) then None
    else AltEnd(s, j + 1)
  }

  /** A match of `!\[.*?\]\((.*?)\)`: `s[start..close + 1]` is the whole
      match, `s[bracket]` its `]` and `s[bracket + 2..close]` the url. */
  datatype ImageMatch = ImageMatch(start: nat, bracket: nat, close: nat)

  /** The first match at or after index `i`, as `String.prototype.match`
      finds it: the leftmost start, then the shortest alternative text. */
  function FirstImage(s: string, i: nat): (m: Option<ImageMatch>)
    decreases |s| - i
    ensures m.Some? ==> i <= m.value.start && m.value.start + 2 <= m.value.bracket
                        && m.value.bracket + 2 <= m.value.close < |s|
  {
    if i + 1 >= |s| then None
    else if s[i] == '!' && s[i + 1] == '[' && AltEnd(s, i + 2).Some? then
      Some(ImageMatch(i, AltEnd(s, i + 2).value.0, AltEnd(s, i + 2).value.1))
    else FirstImage(s, i + 1)
  }

  /** What the decrypt callback stores on the message. */
  datatype Decrypted = Decrypted(image: Option<string>, text: string)

  /** The first markdown image of a plaintext, when its url is http(s),
      becomes the image and the match is cut out of the text; otherwise the
      whole plaintext is the text. */
  function ExtractImage(plain: string): (d: Decrypted)
    ensures d.image.Some? ==> IsHttpUrl(d.image.value) && |d.text| + |d.image.value| + 5 <= |plain|
    ensures d.image.None? ==> d.text == plain
    ensures d.image.Some? <==>
              var f := FirstImage(plain, 0);
              f.Some? && plain[f.value.bracket + 2..f.value.close] != ""
              && IsHttpUrl(plain[f.value.bracket + 2..f.value.close])
  {
    match FirstImage(plain, 0)
    case None => Decrypted(None, plain)
    case Some(m) =>
      var url := plain[m.bracket + 2..m.close];
      if url != "" && IsHttpUrl(url) then Decrypted(Some(url), plain[..m.start] + plain[m.close + 1..])
      else Decrypted(None, plain)
  }

  /** The callback's outcome: a failed decryption reads "[Decryption failed]". */
  function AfterDecrypt(r: Result<string>): (d: Decrypted)
    ensures r.Err? ==> d == Decrypted(None, "[Decryption failed]")
    ensures r.Ok? ==> d == ExtractImage(r.value)
  {
    match r
    case Ok(plain) => ExtractImage(plain)
    case Err(_) => Decrypted(None, "[Decryption failed]")
  }

  /** What the message body shows. */
  datatype Shown = Plain(text: string) | WithImage(url: string, caption: string)

  /** The body of a message: its content, or for a message it decrypts the
      cached result once there is one (an image, else a non-empty text) and
      "[Encrypted]" before. */
  function Body(tags: seq<Tag>, content: string, e2e: bool, cached: Option<Decrypted>): (b: Shown)
    ensures !ShouldDecrypt(tags, e2e) ==> b == Plain(content)
    ensures ShouldDecrypt(tags, e2e) && cached.None? ==> b == Plain("[Encrypted]")
    ensures (ShouldDecrypt(tags, e2e) && cached.Some? && cached.value.image.Some?
             && cached.value.image.value != "") ==> b == WithImage(cached.value.image.value, cached.value.text)
    ensures (ShouldDecrypt(tags, e2e) && cached.Some?
             && (cached.value.image.None? || cached.value.image.value == "")) ==>
              b == Plain(if cached.value.text != "" then cached.value.text else "[Encrypted]")
  {
    if !ShouldDecrypt(tags, e2e) then Plain(content)
    else match cached
      case None => Plain("[Encrypted]")
      case Some(d) =>
        if d.image.Some? && d.image.value != "" then WithImage(d.image.value, d.text)
        else if d.text != "" then Plain(d.text)
        else Plain("[Encrypted]")
  }

  lemma {:induction false} FirstImageSkips(s: string, i: nat, n: nat)
    requires i <= n < |s|
    requires forall q :: i <= q < n ==> s[q] != '!'
    ensures FirstImage(s, i) == FirstImage(s, n)
    decreases n - i
  {
    if i < n {
      assert s[i] != '!' && i + 1 < |s|;
      assert FirstImage(s, i) == FirstImage(s, i + 1);
      FirstImageSkips(s, i + 1, n);
    }
  }

  lemma {:induction false} CloseParenAt(s: string, k: nat, p: nat)
    requires k <= p < |s| && s[p] == ')'
    requires forall q :: k <= q < p ==> s[q] != ')' && !IsLineTerminator(s[q])
    ensures CloseParen(s, k) == Some(p)
    decreases p - k
  {
    if k < p {
      CloseParenAt(s, k + 1, p);
    }
  }

  lemma {:induction false} AltEndSkips(s: string, j: nat, n: nat)
    requires j <= n && n + 1 < |s|
    requires forall q :: j <= q < n ==> s[q] != ']' && !IsLineTerminator(s[q])
    ensures AltEnd(s, j) == AltEnd(s, n)
    decreases n - j
  {
    if j < n {
      AltEndSkips(s, j + 1, n);
    }
  }

  /** The url part runs to the first `)` and holds no line terminator. */
  lemma {:induction false} CloseParenSpec(s: string, k: nat)
    ensures CloseParen(s, k).Some? ==>
              forall q :: k <= q < CloseParen(s, k).value ==> s[q] != ')' && !IsLineTerminator(s[q])
    decreases |s| - k
  {
    if k < |s| && !IsLineTerminator(s[k]) && s[k] != ')' {
      CloseParenSpec(s, k + 1);
    }
  }

  /** The alternative text ends at a `](` followed by a closing url part,
      and holds no line terminator. */
  lemma {:induction false} AltEndSpec(s: string, j: nat)
    ensures AltEnd(s, j).Some? ==>
              var (b, c) := AltEnd(s, j).value;
              && s[b] == ']' && s[b + 1] == '(' && CloseParen(s, b + 2) == Some(c)
              && forall q :: j <= q < b ==> !IsLineTerminator(s[q])
    decreases |s| - j
  {
    if j + 1 < |s| && !(s[j] == ']' && s[j + 1] == '(' && CloseParen(s, j + 2).Some?)
       && !IsLineTerminator(s[j]) {
      AltEndSpec(s, j + 1);
    }
  }

  /** The alternative text is the shortest: no earlier `](` is followed by
      a closing url part. */
  lemma {:induction false} AltEndFirst(s: string, j: nat)
    ensures AltEnd(s, j).Some? ==>
              forall q :: j <= q < AltEnd(s, j).value.0 ==> !(s[q] == ']' && s[q + 1] == '(' && CloseParen(s, q + 2).Some?)
    decreases |s| - j
  {
    if j + 1 < |s| && !(s[j] == ']' && s[j + 1] == '(' && CloseParen(s, j + 2).Some?)
       && !IsLineTerminator(s[j]) {
      AltEndFirst(s, j + 1);
    }
  }

  /** The match found is a match of the expression, `s[start..close + 1]`
      being `![alt](url)`, and no match starts earlier. */
  lemma {:induction false} FirstImageSpec(s: string, i: nat)
    ensures FirstImage(s, i).Some? ==>
              var m := FirstImage(s, i).value;
              && s[m.start] == '!' && s[m.start + 1] == '['
              && AltEnd(s, m.start + 2) == Some((m.bracket, m.close))
              && forall k :: i <= k < m.start ==> !(s[k] == '!' && s[k + 1] == '[' && AltEnd(s, k + 2).Some?)
    decreases |s| - i
  {
    if i + 1 < |s| && !(s[i] == '!' && s[i + 1] == '[' && AltEnd(s, i + 2).Some?) {
      FirstImageSpec(s, i + 1);
    }
  }

  /** No match is missed: when the search fails, no position from `i` on
      starts `![` followed by an alternative text and a closing url part. */
  lemma {:induction false} FirstImageNone(s: string, i: nat)
    ensures FirstImage(s, i).None? ==>
              forall k :: i <= k && k + 1 < |s| ==> !(s[k] == '!' && s[k + 1] == '[' && AltEnd(s, k + 2).Some?)
    decreases |s| - i
  {
    if i + 1 < |s| && !(s[i] == '!' && s[i + 1] == '[' && AltEnd(s, i + 2).Some?) {
      FirstImageNone(s, i + 1);
    }
  }

  /** What the extraction cuts out is a whole `![alt](url)` with an http(s)
      url: the text is what surrounds it. */
  lemma ExtractImageSpec(plain: string)
    ensures var d := ExtractImage(plain);
            d.image.Some? ==>
              var m := FirstImage(plain, 0).value;
              && plain[m.start] == '!' && plain[m.start + 1] == '['
              && plain[m.bracket] == ']' && plain[m.bracket + 1] == '('
              && plain[m.close] == ')'
              && d.image.value == plain[m.bracket + 2..m.close]
              && ')' !in d.image.value
              && d.text == plain[..m.start] + plain[m.close + 1..]
  {
    var d := ExtractImage(plain);
    if d.image.Some? {
      var m := FirstImage(plain, 0).value;
      assert d == Decrypted(Some(plain[m.bracket + 2..m.close]), plain[..m.start] + plain[m.close + 1..]);
      FirstImageSpec(plain, 0);
      AltEndSpec(plain, m.start + 2);
      UrlHasNoParen(plain, m.bracket + 2);
    }
  }

  lemma UrlHasNoParen(s: string, k: nat)
    requires CloseParen(s, k).Some?
    ensures ')' !in s[k..CloseParen(s, k).value]
  {
    CloseParenSpec(s, k);
    var url := s[k..CloseParen(s, k).value];
    forall q | 0 <= q < |url| ensures url[q] != ')' {
      assert url[q] == s[k + q];
    }
  }

  /** The characters of a draft with an image appended. */
  lemma AppendedLayout(draft: string, url: string)
    requires IsHttpUrl(url)
    ensures var s := AppendImage(draft, Some(url));
            && |s| == |draft| + |url| + 11
            && s[..|draft| + 1] == draft + " "
            && s[|draft| + 1] == '!' && s[|draft| + 2] == '['
            && (forall q :: |draft| + 3 <= q < |draft| + 8 ==> s[q] != ']' && !IsLineTerminator(s[q]))
            && s[|draft| + 8] == ']' && s[|draft| + 9] == '('
            && s[|draft| + 10..|s| - 1] == url
            && s[|s| - 1] == ')'
  {
    var s := AppendImage(draft, Some(url));
    assert s == (draft + " ") + "![Image](" + url + ")";
    forall q | |draft| + 3 <= q < |draft| + 8 ensures s[q] != ']' && !IsLineTerminator(s[q]) {
      assert s[q] == "Image"[q - |draft| - 3];
    }
  }

  /** A string laid out as `text![Image](url)`, `text` free of `!`,
      yields that url and `text`. */
  lemma ExtractFromLayout(s: string, n: nat, url: string)
    requires |s| == n + |url| + 10
    requires forall q :: 0 <= q < n ==> s[q] != '!'
    requires s[n] == '!' && s[n + 1] == '['
    requires forall q :: n + 2 <= q < n + 7 ==> s[q] != ']' && !IsLineTerminator(s[q])
    requires s[n + 7] == ']' && s[n + 8] == '('
    requires s[n + 9..|s| - 1] == url && s[|s| - 1] == ')'
    requires IsHttpUrl(url) && ')' !in url
    requires forall q :: 0 <= q < |url| ==> !IsLineTerminator(url[q])
    ensures ExtractImage(s) == Decrypted(Some(url), s[..n])
  {
    var j := n + 7;
    var p := |s| - 1;
    FirstImageSkips(s, 0, n);
    AltEndSkips(s, n + 2, j);
    forall q | j + 2 <= q < p ensures s[q] != ')' && !IsLineTerminator(s[q]) {
      assert s[q] == s[j + 2..p][q - j - 2] == url[q - j - 2];
    }
    CloseParenAt(s, j + 2, p);
    assert AltEnd(s, j) == Some((j, p));
    assert FirstImage(s, n) == Some(ImageMatch(n, j, p));
    assert s[p + 1..] == [];
  }

  /** The image button and the extraction agree: an image appended to a
      draft without `!` comes back out of the decrypted text as that url,
      leaving the draft and the separating space. */
  lemma AppendedImageExtracted(draft: string, url: string)
    requires '!' !in draft
    requires IsHttpUrl(url) && ')' !in url
    requires forall q :: 0 <= q < |url| ==> !IsLineTerminator(url[q])
    ensures ExtractImage(AppendImage(draft, Some(url))) == Decrypted(Some(url), draft + " ")
  {
    var s := AppendImage(draft, Some(url));
    AppendedLayout(draft, url);
    forall q | 0 <= q < |draft| + 1 ensures s[q] != '!' {
      assert s[q] == s[..|draft| + 1][q] == (draft + " ")[q];
    }
    ExtractFromLayout(s, |draft| + 1, url);
  }
}
