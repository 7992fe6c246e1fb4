/** From an upstream response to a cached answer: what put stores and what a later hit says. */
module DnsServed {
  import opened Common
  import opened WireBytes
  import opened CacheReply
  import opened DnsName
  import opened DnsRecords
  import opened DnsPatched
  import opened DnsTemplate
  import opened DnsHit
  import DnsCache
  import DnsShard

  /** What put stores for a response it accepts. */
  function StoredFor(msg: seq<byte>, t: Template, inserted: int): DnsCache.Stored {
    DnsCache.Stored(inserted, t.lifetime, msg, Table(t.patches), t.negative)
  }

  /** A prepared response is a template the shard accepts under a key with that question. */
  lemma {:induction false} PreparedStores(msg: seq<byte>, room: nat, maxNegative: uint32, inserted: int)
    requires Prepare(msg, room, maxNegative).Ok?
    ensures ParseQuestion(msg).Ok?
    ensures DnsShard.Template(StoredFor(msg, Prepare(msg, room, maxNegative).value, inserted), |QuestionOf(msg).name.wire|)
  {
    hide Prepare, ScanMessage, ParseQuestion, Table, TableFits;
    PreparedFits(msg, room, maxNegative);
  }

  /**
   Whenever the shard serves a stored response, the client gets a message that scans to the same response code,
   question, EDNS data, records and canonical names as the upstream's, with TTLs that with the age make up what the
   template kept and are at least one while fresh, and the stale TTL otherwise; negative answers are never stale.
   */
  lemma {:induction false} ServedMeansUpstream(msg: seq<byte>, room: nat, maxNegative: uint32, inserted: int, c: Client, tick: int, maxStale: uint32, staleTTL: uint32, buffer: nat)
    requires Prepare(msg, room, maxNegative).Ok? && ParseQuestion(msg).Ok? && ScanMessage(msg).Ok?
    requires Fold(c.question) == Canonical(QuestionOf(msg).name)
    requires DnsShard.Serves(StoredFor(msg, Prepare(msg, room, maxNegative).value, inserted), tick, maxStale, buffer)
    ensures var t := Prepare(msg, room, maxNegative).value;
      var v := StoredFor(msg, t, inserted);
      var age, stale := DnsShard.Age(v, tick), DnsShard.HitResult(v, tick).stale;
      && TableFits(v.message, v.table, v.lifetime, |c.question|)
      && var r := Personal(v.message, v.table, c, age, stale, staleTTL);
         && ScanMessage(r).Ok? && SameMessage(ScanMessage(msg).value, ScanMessage(r).value)
         && U16(r, 0) == c.id && FlagsServed(U16(msg, 2), ClientFlags(c.flagsHigh, c.flagsLow), U16(r, 2))
         && (stale ==> !t.negative)
         && (forall i | 0 <= i < |RecordsOf(msg)| && RecordsOf(msg)[i].ttlOffset.Some? ::
               AgedTTL(msg, RecordsOf(msg)[i], t.negative, maxNegative, age, stale, staleTTL, RecordsOf(r)[i].ttl))
  {
    hide Prepare, ScanMessage, ParseQuestion, Table, TableFits, AgedTTL, SameMessage, Personal, SameRecord, FlagsServed, U16;
    var t := Prepare(msg, room, maxNegative).value;
    var v := StoredFor(msg, t, inserted);
    HitKeepsMeaning(msg, room, maxNegative, c, DnsShard.Age(v, tick), DnsShard.HitResult(v, tick).stale, staleTTL);
  }
}
