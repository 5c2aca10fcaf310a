/** One reconciliation pass (`sync` in main.go): the reconciler applied to every
    configured domain, in list order, with the one IP discovered for the pass. A domain's
    error is only reported; it never stops the pass. */
module SyncPass {
  import opened Domains
  import opened Provider
  import opened Reconciler

  /** What the pass did for one domain. */
  datatype Report = Report(domain: string, outcome: Outcome)

  /** Every configured domain has at least two labels. */
  predicate ValidDomains(domains: seq<string>)
  {
    forall i :: 0 <= i < |domains| ==> '.' in domains[i]
  }

  /** One pass over `domains` with the current IP `ip`: one report per domain, in list
      order, each the reconciler's outcome for that domain and `ip`, whatever the
      outcomes of the other domains. */
  function Sync(api: Api, domains: seq<string>, ip: string): (reports: seq<Report>)
    requires ValidDomains(domains)
    ensures |reports| == |domains|
    ensures forall i :: 0 <= i < |domains| ==>
      reports[i] == Report(domains[i], Reconcile(api, domains[i], ip))
  {
    if domains == [] then []
    else
      assert forall i :: 0 <= i < |domains| - 1 ==> domains[1..][i] == domains[i + 1];
      [Report(domains[0], Reconcile(api, domains[0], ip))] + Sync(api, domains[1..], ip)
  }

  /** All write calls of a pass, in the order they are issued. */
  function PassWrites(reports: seq<Report>): seq<Write>
  {
    if reports == [] then [] else reports[0].outcome.writes + PassWrites(reports[1..])
  }

  /** A pass over two lists is the pass over the first followed by the pass over the
      second: nothing done for a domain depends on an earlier domain's outcome. */
  lemma SyncAppend(api: Api, front: seq<string>, back: seq<string>, ip: string)
    requires ValidDomains(front) && ValidDomains(back) && ValidDomains(front + back)
    ensures Sync(api, front + back, ip) == Sync(api, front, ip) + Sync(api, back, ip)
  {
    // a corollary of Sync's pointwise contract
  }

  /** `s` with its entry at position `k` removed. */
  function RemoveAt<T>(s: seq<T>, k: nat): (r: seq<T>)
    requires k < |s|
    ensures |r| == |s| - 1
    ensures forall i :: 0 <= i < |r| ==> r[i] == s[if i < k then i else i + 1]
  {
    s[..k] + s[k + 1..]
  }

  /** A failing domain does not hold back the others: whatever domain `k`'s outcome, the
      reports of the remaining domains are those of a pass run without domain `k`. */
  lemma FailureIsolated(api: Api, domains: seq<string>, ip: string, k: nat)
    requires ValidDomains(domains) && k < |domains|
    ensures ValidDomains(RemoveAt(domains, k))
    ensures RemoveAt(Sync(api, domains, ip), k) == Sync(api, RemoveAt(domains, k), ip)
  {
    // a corollary of the pointwise contracts of Sync and RemoveAt
  }

  /** The zone and the non-empty record list of `domain` are found, and every record
      already holds `ip`. */
  predicate InSync(api: Api, domain: string, ip: string)
    requires '.' in domain
  {
    && api.zoneIdByName(BaseDomain(domain)).Ok?
    && var listing := api.dnsRecords(api.zoneIdByName(BaseDomain(domain)).value, Query(domain));
    && listing.Ok?
    && listing.value != []
    && forall i :: 0 <= i < |listing.value| ==> listing.value[i].content == ip
  }

  /** A pass writes nothing when every domain's records already hold the current IP. */
  lemma {:induction false} QuietPass(api: Api, domains: seq<string>, ip: string)
    requires ValidDomains(domains)
    requires forall i :: 0 <= i < |domains| ==> InSync(api, domains[i], ip)
    ensures PassWrites(Sync(api, domains, ip)) == []
  {
    if domains != [] {
      var d := domains[0];
      var recs := api.dnsRecords(api.zoneIdByName(BaseDomain(d)).value, Query(d)).value;
      InSyncIsQuiet(api, d, ip, recs);
      assert forall i :: 0 <= i < |domains| - 1 ==> domains[1..][i] == domains[i + 1];
      QuietPass(api, domains[1..], ip);
      assert Sync(api, domains, ip)[1..] == Sync(api, domains[1..], ip);
    }
  }
}
