/** The configuration file's contents and the defaulting `loadConfig` applies after
    decoding it. */
module Configuration {

  /** The decoded configuration: provider credentials, the sync interval (a duration
      string such as "10m") and the domains to keep in sync. */
  datatype Config = Config(apiKey: string, apiEmail: string, interval: string, domains: seq<string>)

  /** The interval used when the file leaves it empty. */
  const DefaultInterval: string := "10m"

  /** Fills in the default interval: an empty interval becomes "10m"; a configuration
      with an interval is returned unchanged; no other field is touched. */
  function WithDefaultInterval(c: Config): (r: Config)
    ensures r.interval != ""
    ensures c.interval != "" ==> r == c
    ensures c.interval == "" ==> r.interval == DefaultInterval
    ensures r.apiKey == c.apiKey && r.apiEmail == c.apiEmail && r.domains == c.domains
  {
    if c.interval == "" then c.(interval := DefaultInterval) else c
  }

  /** Defaulting twice is defaulting once. */
  lemma DefaultIdempotent(c: Config)
    ensures WithDefaultInterval(WithDefaultInterval(c)) == WithDefaultInterval(c)
  {
  }
}
