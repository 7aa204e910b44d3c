/** The client's built-in configuration (src/app.jsx, `config`). */
module Config {
  const Revision: string := "2025-10-18"
  const Kind1Channels: seq<string> := ["nostr", "tech", "news", "politics", "netsequ\U{00E9}"]
  const Kind20000Channels: seq<string> := ["bitchat", "penpalclub", "minchat", "9q", "6g", "c2"]
  const FavoriteChannels: seq<string> := []
  const DefaultChannel: string := "minchat"
  const PowDifficulty: nat := 8
  const EncryptionKey: string := "minchat-demo-key-0001"
}
