/** The settings tab (src/tabs/settings/Settings.jsx): the channel and
    handle inputs' sanitisers, the handle field's display rule, the channel
    options and the encryption key reset. */
module Settings {
  import opened JsString
  import Config
  import Encryption

  /** The channel text input: every `#` removed, at most 32 characters. */
  function SanitizeChannel(input: string): (r: string)
    ensures '#' !in r && |r| <= 32
    ensures r == Take(RemoveAll(input, '#'), 32)
  {
    Take(RemoveAll(input, '#'), 32)
  }

  /** The handle input: every `@` removed, at most 20 characters, and
      "anon" when nothing is left. */
  function SanitizeHandle(input: string): (r: string)
    ensures '@' !in r && 1 <= |r| <= 20
    ensures r == "anon" <==> Take(RemoveAll(input, '@'), 20) == "" || Take(RemoveAll(input, '@'), 20) == "anon"
    ensures r != "anon" ==> r == Take(RemoveAll(input, '@'), 20)
  {
    var t := Take(RemoveAll(input, '@'), 20);
    if t == "" then "anon" else t
  }

  /** The handle field shows nothing for "anon" or an empty handle. */
  function HandleField(handle: string): (r: string)
    ensures r == "" <==> handle == "anon" || handle == ""
    ensures r != "" ==> r == handle
  {
    if handle == "anon" || handle == "" then "" else handle
  }

  /** Sanitising is idempotent: a handle the input produced is produced
      again when typed back in. */
  lemma SanitizeHandleIdempotent(input: string)
    ensures SanitizeHandle(SanitizeHandle(input)) == SanitizeHandle(input)
  {
  }

  /** Typing what the field shows gives the handle back, "anon" included. */
  lemma HandleFieldRoundTrip(input: string)
    ensures SanitizeHandle(HandleField(SanitizeHandle(input))) == SanitizeHandle(input)
  {
  }

  lemma SanitizeChannelIdempotent(input: string)
    ensures SanitizeChannel(SanitizeChannel(input)) == SanitizeChannel(input)
  {
  }

  /** `chs.filter(ch => !favoriteChannels.includes(ch))` */
  function WithoutFavorites(chs: seq<string>): (r: seq<string>)
    ensures |r| <= |chs|
  {
    if chs == [] then []
    else
      var rest := WithoutFavorites(chs[1..]);
      if chs[0] in Config.FavoriteChannels then rest else [chs[0]] + rest
  }

  /** The filter keeps exactly the channels that are not favourites. */
  lemma {:induction false} WithoutFavoritesMembers(chs: seq<string>, c: string)
    ensures c in WithoutFavorites(chs) <==> c in chs && c !in Config.FavoriteChannels
  {
    if chs != [] {
      WithoutFavoritesMembers(chs[1..], c);
      assert c in chs <==> c == chs[0] || c in chs[1..] by {
        assert chs == [chs[0]] + chs[1..];
      }
    }
  }

  /** Filtering keeps the order: it distributes over concatenation. */
  lemma {:induction false} WithoutFavoritesAppend(a: seq<string>, b: seq<string>)
    ensures WithoutFavorites(a + b) == WithoutFavorites(a) + WithoutFavorites(b)
  {
    if a != [] {
      assert (a + b)[0] == a[0] && (a + b)[1..] == a[1..] + b;
      WithoutFavoritesAppend(a[1..], b);
    } else {
      assert a + b == b;
    }
  }

  /** The selectable channels: the kind-1 channels, then the kind-20000 ones,
      favourites left out of both. */
  function ChannelOptions(): (r: seq<string>)
    ensures r == WithoutFavorites(Config.Kind1Channels + Config.Kind20000Channels)
  {
    WithoutFavoritesAppend(Config.Kind1Channels, Config.Kind20000Channels);
    WithoutFavorites(Config.Kind1Channels) + WithoutFavorites(Config.Kind20000Channels)
  }

  /** With no favourites configured, the options are the two lists. */
  lemma ChannelOptionsContents()
    ensures ChannelOptions() == Config.Kind1Channels + Config.Kind20000Channels
    ensures forall c :: c in ChannelOptions() <==> c in Config.Kind1Channels || c in Config.Kind20000Channels
  {
    NoFavoritesKeepsAll(Config.Kind1Channels + Config.Kind20000Channels);
  }

  lemma {:induction false} NoFavoritesKeepsAll(chs: seq<string>)
    requires Config.FavoriteChannels == []
    ensures WithoutFavorites(chs) == chs
  {
    if chs != [] {
      NoFavoritesKeepsAll(chs[1..]);
      assert [chs[0]] + chs[1..] == chs;
    }
  }

  /** The reset button puts back the built-in key. */
  function ResetEncryptionKey(): (k: string)
    ensures k == Config.EncryptionKey
  {
    Config.EncryptionKey
  }

  /** The built-in key is one the cipher accepts: its 32 derived characters
      are ASCII, so the raw key is 256 bits. */
  lemma ResetKeyImports()
    ensures Encryption.KeyImports(Encryption.KeyData(ResetEncryptionKey()))
    ensures |Encryption.KeyData(ResetEncryptionKey())| == 32
  {
    var key := ResetEncryptionKey();
    var k := Encryption.DeriveKey(key);
    assert Encryption.IsAscii(key);
    forall i | 0 <= i < |k| ensures k[i] as int < 0x80 {
      if i < |key| { assert k[i] == key[i]; }
    }
    Encryption.KeyImportsIffAscii(key);
    Encryption.Utf8Length(k);
  }
}
