/** The DNS provider (the Cloudflare API) as this program sees it: the record shape, the
    answers of its read calls, the write calls the program issues, and what those writes
    do to a zone's record list. */
module Provider {

  /** An error returned by a provider call, carrying its message. */
  datatype ProviderError = ProviderError(message: string)

  /** A provider answer: a value, or the error the call returned. */
  datatype Result<T> = Ok(value: T) | Err(error: ProviderError)

  /** An optional value; `None` for "no error" (Go's nil). */
  datatype Option<T> = None | Some(value: T)

  /** The fields of a DNS record that the program reads or writes. */
  datatype DnsRecord = DnsRecord(
    id: string,
    name: string,
    rtype: string,
    content: string,
    ttl: int,
    proxied: bool)

  /** The answers of the provider's calls, given as functions of the call's arguments:
      the zone id for a zone name, the records of a zone matching a filter record, and
      the error (if any) of creating a record in a zone. */
  datatype Api = Api(
    zoneIdByName: string -> Result<string>,
    dnsRecords: (string, DnsRecord) -> Result<seq<DnsRecord>>,
    createDnsRecord: (string, DnsRecord) -> Option<ProviderError>)

  /** A write call the program issues: a record creation in a zone, or an update of the
      record with id `recordId` in a zone. */
  datatype Write =
    | Create(zone: string, record: DnsRecord)
    | Update(zone: string, recordId: string, record: DnsRecord)

  /** The effect of one write on a zone's record list, when the provider accepts it:
      a creation appends the record, an update replaces every record carrying the
      addressed id by the sent record, keeping that id. */
  function ApplyWrite(recs: seq<DnsRecord>, w: Write): (after: seq<DnsRecord>)
    ensures w.Create? ==> after == recs + [w.record]
    ensures w.Update? ==> |after| == |recs|
    ensures w.Update? ==> forall i :: 0 <= i < |recs| ==>
      after[i] == (if recs[i].id == w.recordId then w.record.(id := w.recordId) else recs[i])
  {
    match w
    case Create(_, r) => recs + [r]
    case Update(_, id, r) =>
      seq(|recs|, i requires 0 <= i < |recs| => if recs[i].id == id then r.(id := id) else recs[i])
  }

  /** The effect of a sequence of accepted writes, applied in order. */
  function ApplyWrites(recs: seq<DnsRecord>, ws: seq<Write>): seq<DnsRecord>
    decreases |ws|
  {
    if ws == [] then recs else ApplyWrites(ApplyWrite(recs, ws[0]), ws[1..])
  }

  /** Some update in `ws` addresses the record id `id`. */
  predicate Targets(ws: seq<Write>, id: string)
  {
    exists j :: 0 <= j < |ws| && ws[j].Update? && ws[j].recordId == id
  }

  /** Accepted updates that all send content `ip` keep every record's id and leave with
      content `ip` every record that already had it or that some update addresses. */
  lemma {:induction false} ApplyUpdatesContent(recs: seq<DnsRecord>, ws: seq<Write>, ip: string)
    requires forall j :: 0 <= j < |ws| ==> ws[j].Update? && ws[j].record.content == ip
    ensures |ApplyWrites(recs, ws)| == |recs|
    ensures forall i :: 0 <= i < |recs| ==> ApplyWrites(recs, ws)[i].id == recs[i].id
    ensures forall i :: 0 <= i < |recs| && (recs[i].content == ip || Targets(ws, recs[i].id)) ==>
      ApplyWrites(recs, ws)[i].content == ip
    decreases |ws|
  {
    if ws != [] {
      var next := ApplyWrite(recs, ws[0]);
      ApplyUpdatesContent(next, ws[1..], ip);
      forall i | 0 <= i < |recs| && (recs[i].content == ip || Targets(ws, recs[i].id))
        ensures ApplyWrites(recs, ws)[i].content == ip
      {
        if recs[i].content != ip && recs[i].id != ws[0].recordId {
          var j :| 0 <= j < |ws| && ws[j].Update? && ws[j].recordId == recs[i].id;
          assert j != 0;
          assert ws[1..][j - 1] == ws[j];
          assert Targets(ws[1..], next[i].id);
        }
      }
    }
  }
}
