/** The decision logic of `updateCloudFlare` in main.go: for one domain and the current
    IP, the write calls issued to the provider and the error returned. The provider's
    answers are inputs (an `Api`); the calls' effects are not part of this function. */
module Reconciler {
  import opened Domains
  import opened Provider

  /** The filter the record listing is asked with: records named `domain` of type "A",
      every other field left at its zero value. */
  function Query(domain: string): DnsRecord
  {
    DnsRecord("", domain, "A", "", 0, false)
  }

  /** The record created for a domain that has no "A" record yet. */
  function NewRecord(domain: string, ip: string): DnsRecord
  {
    DnsRecord("", domain, "A", ip, 1, false)
  }

  /** The update sent for a record whose content is not `ip`: addressed by the record's
      own id, carrying the record with only its content replaced. */
  function Refresh(zone: string, r: DnsRecord, ip: string): Write
  {
    Update(zone, r.id, r.(content := ip))
  }

  /** The positions, in increasing order, of the records whose content differs from `ip`. */
  function StalePositions(recs: seq<DnsRecord>, ip: string): (pos: seq<nat>)
    ensures forall j :: 0 <= j < |pos| ==> pos[j] < |recs| && recs[pos[j]].content != ip
    ensures forall i :: 0 <= i < |recs| && recs[i].content != ip ==> i in pos
    ensures forall j, k :: 0 <= j < k < |pos| ==> pos[j] < pos[k]
    decreases |recs|
  {
    if recs == [] then []
    else
      var n := |recs| - 1;
      var front := StalePositions(recs[..n], ip);
      assert forall i :: 0 <= i < n ==> recs[..n][i] == recs[i];
      front + (if recs[n].content != ip then [n] else [])
  }

  /** A list whose records all hold `ip` has no stale position. */
  lemma {:induction false} NoStalePositions(recs: seq<DnsRecord>, ip: string)
    requires forall i :: 0 <= i < |recs| ==> recs[i].content == ip
    ensures StalePositions(recs, ip) == []
    decreases |recs|
  {
    if recs != [] {
      var n := |recs| - 1;
      assert forall i :: 0 <= i < n ==> recs[..n][i] == recs[i];
      NoStalePositions(recs[..n], ip);
    }
  }

  /** The loop over a non-empty record list: in list order, nothing for a record that
      already holds `ip`, one update for every other record. */
  function UpdatePlan(zone: string, recs: seq<DnsRecord>, ip: string): (ws: seq<Write>)
    ensures |ws| == |StalePositions(recs, ip)|
    ensures forall j :: 0 <= j < |ws| ==>
      ws[j] == Refresh(zone, recs[StalePositions(recs, ip)[j]], ip)
    decreases |recs|
  {
    if recs == [] then []
    else
      var n := |recs| - 1;
      assert forall i :: 0 <= i < n ==> recs[..n][i] == recs[i];
      UpdatePlan(zone, recs[..n], ip) + (if recs[n].content != ip then [Refresh(zone, recs[n], ip)] else [])
  }

  /** What one call of the reconciler produced: the writes issued, in order, and the
      error returned (None for success). */
  datatype Outcome = Outcome(writes: seq<Write>, err: Option<ProviderError>)

  /** Reconciles one domain against the current IP. A failed zone lookup or record
      listing is returned with no write; an empty listing leads to exactly one creation,
      whose error is returned; otherwise every record not yet holding `ip` gets one update
      and the result is success, whatever the updates answer. */
  function Reconcile(api: Api, domain: string, ip: string): (o: Outcome)
    requires '.' in domain
    ensures var zone := api.zoneIdByName(BaseDomain(domain));
      zone.Err? ==> o == Outcome([], Some(zone.error))
    ensures var zone := api.zoneIdByName(BaseDomain(domain));
      zone.Ok? && api.dnsRecords(zone.value, Query(domain)).Err? ==>
        o == Outcome([], Some(api.dnsRecords(zone.value, Query(domain)).error))
    ensures var zone := api.zoneIdByName(BaseDomain(domain));
      zone.Ok? && api.dnsRecords(zone.value, Query(domain)) == Ok([]) ==>
        && |o.writes| == 1
        && o.writes[0].Create?
        && o.writes[0].zone == zone.value
        && o.writes[0].record.id == ""
        && o.writes[0].record.name == domain
        && o.writes[0].record.rtype == "A"
        && o.writes[0].record.content == ip
        && o.writes[0].record.ttl == 1
        && !o.writes[0].record.proxied
        && o.err == api.createDnsRecord(zone.value, o.writes[0].record)
    ensures var zone := api.zoneIdByName(BaseDomain(domain));
      zone.Ok? && api.dnsRecords(zone.value, Query(domain)).Ok? ==>
        var recs := api.dnsRecords(zone.value, Query(domain)).value;
        recs != [] ==>
          && o.err == None
          && |o.writes| == |StalePositions(recs, ip)|
          && forall j :: 0 <= j < |o.writes| ==>
               o.writes[j] == Refresh(zone.value, recs[StalePositions(recs, ip)[j]], ip)
  {
    match api.zoneIdByName(BaseDomain(domain))
    case Err(e) => Outcome([], Some(e))
    case Ok(zone) =>
      match api.dnsRecords(zone, Query(domain))
      case Err(e) => Outcome([], Some(e))
      case Ok(recs) =>
        if |recs| == 0 then
          var record := NewRecord(domain, ip);
          Outcome([Create(zone, record)], api.createDnsRecord(zone, record))
        else
          Outcome(UpdatePlan(zone, recs, ip), None)
  }

  /** The zone lookup and record listing for `domain` succeed and return `recs`. */
  predicate Lists(api: Api, domain: string, recs: seq<DnsRecord>)
    requires '.' in domain
  {
    && api.zoneIdByName(BaseDomain(domain)).Ok?
    && api.dnsRecords(api.zoneIdByName(BaseDomain(domain)).value, Query(domain)) == Ok(recs)
  }

  /** A record that already holds `ip` causes no write: with a non-empty listing, the
      updates issued are exactly one per record whose content differs from `ip`. */
  lemma InSyncRecordsSkipped(api: Api, domain: string, ip: string, recs: seq<DnsRecord>, i: nat)
    requires '.' in domain && Lists(api, domain, recs) && recs != []
    requires i < |recs|
    ensures recs[i].content == ip ==>
      forall j :: 0 <= j < |Reconcile(api, domain, ip).writes| ==> StalePositions(recs, ip)[j] != i
    ensures recs[i].content != ip ==>
      exists j :: 0 <= j < |Reconcile(api, domain, ip).writes| && StalePositions(recs, ip)[j] == i
  {
    var pos := StalePositions(recs, ip);
    if recs[i].content != ip {
      assert i in pos;
      var j :| 0 <= j < |pos| && pos[j] == i;
    }
  }

  /** Every update changes only the content of the record it addresses: it is sent for a
      listed record that does not hold `ip`, under that record's id, and the record sent
      equals the listed one except that its content is `ip`. */
  lemma UpdatesOnlyContent(api: Api, domain: string, ip: string, recs: seq<DnsRecord>)
    requires '.' in domain && Lists(api, domain, recs) && recs != []
    ensures forall w :: w in Reconcile(api, domain, ip).writes ==>
      && w.Update?
      && w.zone == api.zoneIdByName(BaseDomain(domain)).value
      && exists i :: 0 <= i < |recs| && recs[i].content != ip &&
           w.recordId == recs[i].id && w.record == recs[i].(content := ip)
  {
    // a corollary of the update clause of Reconcile's contract
  }

  /** Steady state: when every listed record already holds `ip`, nothing is written and
      the result is success. */
  lemma InSyncIsQuiet(api: Api, domain: string, ip: string, recs: seq<DnsRecord>)
    requires '.' in domain && Lists(api, domain, recs) && recs != []
    requires forall i :: 0 <= i < |recs| ==> recs[i].content == ip
    ensures Reconcile(api, domain, ip) == Outcome([], None)
  {
    NoStalePositions(recs, ip);
  }

  /** If the provider accepts every write of a successful reconciliation, the next
      reconciliation with the same IP (same zone, listing now showing those writes)
      writes nothing and succeeds. */
  lemma SecondPassQuiet(api: Api, api': Api, domain: string, ip: string, recs: seq<DnsRecord>)
    requires '.' in domain && Lists(api, domain, recs)
    requires Reconcile(api, domain, ip).err == None
    requires api'.zoneIdByName(BaseDomain(domain)) == api.zoneIdByName(BaseDomain(domain))
    requires Lists(api', domain, ApplyWrites(recs, Reconcile(api, domain, ip).writes))
    ensures Reconcile(api', domain, ip) == Outcome([], None)
  {
    var zone := api.zoneIdByName(BaseDomain(domain)).value;
    var ws := Reconcile(api, domain, ip).writes;
    var after := ApplyWrites(recs, ws);
    if recs == [] {
      assert ws == [Create(zone, NewRecord(domain, ip))];
      assert ApplyWrites([], ws) == ApplyWrites([NewRecord(domain, ip)], []);
      assert after == [NewRecord(domain, ip)];
    } else {
      var pos := StalePositions(recs, ip);
      forall j | 0 <= j < |ws| ensures ws[j].Update? && ws[j].record.content == ip {
        assert ws[j] == Refresh(zone, recs[pos[j]], ip);
      }
      ApplyUpdatesContent(recs, ws, ip);
      forall i | 0 <= i < |recs| && recs[i].content != ip ensures Targets(ws, recs[i].id) {
        assert i in pos;
        var j :| 0 <= j < |pos| && pos[j] == i;
        assert ws[j].recordId == recs[i].id;
      }
    }
    InSyncIsQuiet(api', domain, ip, after);
  }
}
