# cf-dns-updater, modelled in Dafny

cf-dns-updater is a dynamic-DNS synchroniser. On each pass it finds the host's
outbound IP. It then makes the Cloudflare "A" record of every configured domain point
at that IP. This project models the program's decision logic as pure functions and
proves properties about it:

- `domains.dfy` (module `Domains`): Go's `strings.Split` on `.`, and `getBaseDomain`.
  `getBaseDomain` takes a domain's last two labels as its zone.
- `provider.dfy` (module `Provider`): the fields of a DNS record that the program
  touches, and the Cloudflare client. The client's answers are inputs: an `Api` value
  of functions from call arguments to results. Its write calls are emitted values
  (`Write`). `ApplyWrites` says what accepted writes do to a zone's record list. It is
  used only to state the steady-state property.
- `reconciler.dfy` (module `Reconciler`): `updateCloudFlare`. For one domain and IP,
  it gives the ordered write calls issued and the error returned.
- `sync_pass.dfy` (module `SyncPass`): `sync`. It runs the reconciler over the
  configured domains, in order, with one IP per pass.
- `configuration.dfy` (module `Configuration`): the interval default that `loadConfig`
  applies.

Two facts about main.go shape the model:

- The result of `UpdateDNSRecord` is discarded (main.go:122), and `updateCloudFlare`
  returns nil after the loop (main.go:125). Update failures are therefore never
  reported.
- A domain without a dot makes `getBaseDomain` index `tmp[-1]` (main.go:85), which
  panics. This is why `BaseDomain`, `Reconcile` and `Sync` require every domain to
  contain a dot.

## Model

| member | source | states |
|---|---|---|
| Domains.Split | main.go:84 | Splitting at `.` gives one more label than the string has dots. No label contains a dot, and joining the labels with `.` gives back the input. |
| Domains.SplitJoin | main.go:84 | The other half of the round trip: splitting the join of dot-free labels gives back those labels. |
| Domains.BaseDomain | main.go:83-86 | For a domain with a dot, the base zone is a suffix of the domain with exactly one dot. It is either the whole domain or starts right after a dot, so it is the last two labels joined by `.`. |
| Domains.BaseDomainUnique | main.go:83-86 | Any suffix with that shape equals the base zone, so the contract above determines the result completely. |
| Domains.BaseDomainIdempotent | main.go:84-85 | The base zone has a dot, and taking the base zone of it gives it back unchanged. |
| Domains.BaseDomainExample | domain_test.go:9-13 | The base zone of `asdf.test.jonaz.net` is `jonaz.net`. |
| Domains.BaseDomainPublicSuffix | main.go:83-86 | The naive rule is kept as written: `www.example.co.uk` gets `co.uk` as its zone. |
| Reconciler.StalePositions | main.go:115-119 | Gives the positions of records whose content differs from the IP. They are in strictly increasing order, and every such record's position is included. |
| Reconciler.UpdatePlan | main.go:115-123 | The updates are one per stale record, in list order. Each is addressed by that record's own ID and carries the record with its content set to the IP. |
| Reconciler.Reconcile | main.go:88-126 | A failed zone lookup or listing returns that error with no writes. An empty listing gives exactly one create, with ID `""`, name = domain, type `A`, content = IP, TTL 1 and not proxied, and the create's error is returned. Otherwise it issues exactly the updates for stale records, in order, and returns success. |
| Reconciler.InSyncRecordsSkipped | main.go:115-122 | A record already holding the IP causes no update. A record with other content causes an update. |
| Reconciler.UpdatesOnlyContent | main.go:120-122 | Every write for a non-empty listing is an update in the domain's zone. It goes to a listed stale record's ID and sends that record with only its content replaced. |
| Reconciler.InSyncIsQuiet | main.go:115-125 | If every listed record already holds the IP, there are no writes and the result is success. |
| Reconciler.SecondPassQuiet | main.go:100-125 | Suppose a reconciliation succeeds and the provider applies its writes. Then a second reconciliation with the same IP writes nothing and succeeds. |
| SyncPass.Sync | main.go:73-81 | A pass gives one report per configured domain, in list order. Each report is the reconciler's outcome for that domain and the pass's single IP. |
| SyncPass.SyncAppend | main.go:75-80 | A pass over two lists concatenated equals the pass over the first followed by the pass over the second. |
| SyncPass.FailureIsolated | main.go:75-80 | Removing any domain, failing or not, leaves the other domains' reports unchanged. An error never stops or alters the rest of the pass. |
| SyncPass.QuietPass | main.go:73-81 | If every domain's records already hold the IP, the pass issues no writes. |
| Configuration.WithDefaultInterval | main.go:137-140 | After defaulting, the interval is never empty. An empty interval becomes `10m`. A non-empty interval leaves the configuration unchanged. No other field is changed. |
| Configuration.DefaultIdempotent | main.go:137-140 | Applying the default twice gives the same result as applying it once. |

## Left out

- The `main` loop (main.go:31-71) is left out: flag parsing, log levels, the ticker
  and its `select`, SIGINT/SIGTERM handling and `log.Fatal`. It is timer- and
  signal-driven control with no state of its own. A pass is modelled by `Sync`.
- `GetOutboundIP` (main.go:145-155) is left out because it is network I/O (a UDP dial).
  Its result and `net.IP.String()` are modelled as an opaque IP string passed to
  `Sync`.
- The Cloudflare calls `ZoneIDByName`, `DNSRecords`, `CreateDNSRecord` and
  `UpdateDNSRecord` are foreign remote calls. Their answers are inputs (`Api`). The
  answer of `UpdateDNSRecord` is discarded at main.go:122, so it is not modelled.
- `DnsRecord` keeps only the six fields the program reads or sets: ID, Name, Type,
  Content, TTL and Proxied. `cloudflare.DNSRecord` has more. main.go:122 sends the
  whole listed record back, so those other fields pass through unchanged. They are not
  modelled.
- The `Api` answers are fixed for the whole pass. A provider whose state changes
  between the calls of one pass (for example, a domain listed twice) is not modelled.
  `SecondPassQuiet` shows the effect of writes with two separate `Api` values instead.
- The log and print statements (main.go:78, 101, 111, 117, 120, 138) are left out. `Sync`
  keeps every domain's error in its report in their place.
- `loadConfig` (main.go:128-142): file opening, JSON decoding and the `log.Fatal` on an
  open failure are I/O. Only the empty-interval default is modelled. The decode error
  is returned alongside the defaulted configuration and needs no model.
- `time.ParseDuration` of the interval and `cloudflare.New` are library calls and are
  left out.
- Reconciler.Reconcile and SyncPass.Sync require every domain to contain a dot. In
  main.go, a domain without a dot panics in `getBaseDomain` (main.go:85) and ends the
  process. The
  model does not represent that crash.
