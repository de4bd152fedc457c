/**
 * The per-user context store: for every user id a sparse record of
 * field name -> string value (`idiom`, `poem`, `last_meta_op`, ...).
 * Its real implementation (a Redis hash per user) is not part of this
 * model; what the arbitration engine relies on is the observable
 * behaviour of get / set / delete / reset / flush, stated here on maps.
 */
module ContextStore {
  import opened Wrappers

  type Record = map<string, string>
  type Records = map<string, Record>

  /** The record of one user; an unknown user has the empty record, never an error. */
  function RecordOf(recs: Records, uid: string): Record
  {
    if uid in recs then recs[uid] else map[]
  }

  /** `ctx.get(field)`: the value of a field, or None when it is absent. */
  function Lookup(r: Record, field: string): Option<string>
  {
    if field in r then Some(r[field]) else None
  }

  /** The store never persists an absent or empty value. */
  predicate Persistable(value: Option<string>)
  {
    value.Some? && |value.value| > 0
  }

  /** The records after `set(uid, field, value)`. */
  function AfterSet(recs: Records, uid: string, field: string, value: Option<string>): (r: Records)
    ensures Lookup(RecordOf(r, uid), field) ==
              (if Persistable(value) then value else Lookup(RecordOf(recs, uid), field))
    ensures forall f :: f != field ==> Lookup(RecordOf(r, uid), f) == Lookup(RecordOf(recs, uid), f)
    ensures forall u :: u != uid ==> RecordOf(r, u) == RecordOf(recs, u)
  {
    if Persistable(value) then recs[uid := RecordOf(recs, uid)[field := value.value]] else recs
  }

  /** The records after `delete(uid, field)`. */
  function AfterDelete(recs: Records, uid: string, field: string): (r: Records)
    ensures Lookup(RecordOf(r, uid), field) == None
    ensures forall f :: f != field ==> Lookup(RecordOf(r, uid), f) == Lookup(RecordOf(recs, uid), f)
    ensures forall u :: u != uid ==> RecordOf(r, u) == RecordOf(recs, u)
  {
    if uid in recs then recs[uid := recs[uid] - {field}] else recs
  }

  /** The records after `reset(uid)`: that user's whole record is gone. */
  function AfterReset(recs: Records, uid: string): (r: Records)
    ensures RecordOf(r, uid) == map[]
    ensures forall u :: u != uid ==> RecordOf(r, u) == RecordOf(recs, u)
  {
    recs - {uid}
  }

  /** The records after `flush()`: every user's record is gone. */
  function AfterFlush(): (r: Records)
    ensures forall u :: RecordOf(r, u) == map[]
  {
    map[]
  }

  /** Two records that agree on every field are the same record. */
  lemma RecordsAgree(a: Record, b: Record)
    requires forall f :: Lookup(a, f) == Lookup(b, f)
    ensures a == b
  {
    assert a.Keys == b.Keys by {
      forall f ensures f in a <==> f in b {
        assert Lookup(a, f).Some? <==> Lookup(b, f).Some?;
      }
    }
    forall f | f in a ensures a[f] == b[f] {
      assert Lookup(a, f) == Lookup(b, f);
    }
  }

  /** The store object: one mutable map from user id to that user's record. */
  class Store {
    var records: Records

    constructor ()
      ensures records == map[]
    {
      records := map[];
    }

    method Get(uid: string) returns (ctx: Record)
      ensures ctx == RecordOf(records, uid)
    {
      ctx := if uid in records then records[uid] else map[];
    }

    method Set(uid: string, field: string, value: Option<string>)
      modifies this
      ensures records == AfterSet(old(records), uid, field, value)
    {
      if value.Some? && |value.value| > 0 {
        var r := if uid in records then records[uid] else map[];
        records := records[uid := r[field := value.value]];
      }
    }

    method Delete(uid: string, field: string)
      modifies this
      ensures records == AfterDelete(old(records), uid, field)
    {
      if uid in records {
        records := records[uid := records[uid] - {field}];
      }
    }

    method Reset(uid: string)
      modifies this
      ensures records == AfterReset(old(records), uid)
    {
      records := records - {uid};
    }

    method Flush()
      modifies this
      ensures records == AfterFlush()
    {
      records := map[];
    }
  }
}
