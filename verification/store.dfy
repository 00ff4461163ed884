/**
 * The durable document store, seen only through the two calls the service
 * makes: a point read of a document and an atomic batch of `set(..., {merge: true})`
 * writes. Documents are addressed by (collection, date); each holds one record per
 * RTU id, and a merge write updates only the fields it names.
 */
module Store {
  import opened Wrappers
  import opened Readings

  datatype Energy = Energy(monthly: real, yearly: real)

  /**
   * The fields the service writes under an RTU id: the `ActivePower` map keyed by
   * "HH:mm", its `updatedAt` stamp, the daily `energy` object and its `timestamp`
   * stamp. Stamps are `new Date()` values, kept as epoch milliseconds.
   */
  datatype RtuRecord = RtuRecord(
    activePower: map<string, real>,
    updatedAt: Option<int>,
    energy: Option<Energy>,
    timestamp: Option<int>)

  const EmptyRecord: RtuRecord := RtuRecord(map[], None, None, None)

  datatype DocKey = DocKey(collection: LoadName, date: string)

  type Doc = map<string, RtuRecord>

  type Docs = map<DocKey, Doc>

  /** One merge write of a batch. */
  datatype Write =
    | PowerWrite(load: LoadName, date: string, rtuId: string, slot: string, value: real, updatedAt: int)
    | EnergyWrite(load: LoadName, date: string, rtuId: string, monthly: real, yearly: real, timestamp: int)
  {
    function Target(): DocKey {
      DocKey(load, date)
    }
  }

  /** The record of `rtuId` in document `key`; a missing document or field reads as the empty record. */
  function Record(docs: Docs, key: DocKey, rtuId: string): RtuRecord {
    if key in docs && rtuId in docs[key] then docs[key][rtuId] else EmptyRecord
  }

  /**
   * Deep merge of one write into a record: a power write adds or replaces one
   * time slot and the `updatedAt` stamp; an energy write replaces both energy
   * counters and the `timestamp` stamp. Nothing else in the record changes.
   */
  function Merge(rec: RtuRecord, w: Write): (r: RtuRecord)
    ensures w.PowerWrite? ==> r.energy == rec.energy && r.timestamp == rec.timestamp
    ensures w.PowerWrite? ==> r.activePower.Keys == rec.activePower.Keys + {w.slot}
    ensures w.PowerWrite? ==> r.activePower[w.slot] == w.value && r.updatedAt == Some(w.updatedAt)
    ensures w.PowerWrite? ==> forall t :: t in rec.activePower && t != w.slot ==> r.activePower[t] == rec.activePower[t]
    ensures w.EnergyWrite? ==> r.activePower == rec.activePower && r.updatedAt == rec.updatedAt
    ensures w.EnergyWrite? ==> r.energy == Some(Energy(w.monthly, w.yearly)) && r.timestamp == Some(w.timestamp)
  {
    match w
    case PowerWrite(_, _, _, slot, value, at) =>
      rec.(activePower := rec.activePower[slot := value], updatedAt := Some(at))
    case EnergyWrite(_, _, _, monthly, yearly, at) =>
      rec.(energy := Some(Energy(monthly, yearly)), timestamp := Some(at))
  }

  /** Applying one write: only the written RTU's record in the target document changes. */
  function ApplyWrite(docs: Docs, w: Write): (r: Docs)
    ensures Record(r, w.Target(), w.rtuId) == Merge(Record(docs, w.Target(), w.rtuId), w)
    ensures forall key, id :: (key != w.Target() || id != w.rtuId) ==> Record(r, key, id) == Record(docs, key, id)
  {
    var key := w.Target();
    var doc := if key in docs then docs[key] else map[];
    docs[key := doc[w.rtuId := Merge(Record(docs, key, w.rtuId), w)]]
  }

  /** Committing a batch: its writes, in order, all or none. */
  function ApplyBatch(docs: Docs, batch: seq<Write>): (r: Docs)
    ensures docs.Keys <= r.Keys
    ensures forall k :: 0 <= k < |batch| ==> batch[k].Target() in r
    decreases |batch|
  {
    if batch == [] then docs else ApplyBatch(ApplyWrite(docs, batch[0]), batch[1..])
  }

  /** The documents after a sequence of committed batches. */
  function ApplyLog(docs: Docs, log: seq<seq<Write>>): Docs
    decreases |log|
  {
    if log == [] then docs else ApplyBatch(ApplyLog(docs, log[..|log| - 1]), log[|log| - 1])
  }

  /** `mainSnap.data()?.[rtuId]?.energy`: the daily energy of `rtuId` is already in Main/<date>. */
  predicate HasDailyEnergy(docs: Docs, date: string, rtuId: string) {
    Record(docs, DocKey(Main, date), rtuId).energy.Some?
  }

  /** A batch that names neither the document nor the RTU leaves that record as it was. */
  lemma {:induction false} ApplyBatchUntouched(docs: Docs, batch: seq<Write>, key: DocKey, id: string)
    requires forall k :: 0 <= k < |batch| ==> batch[k].Target() != key || batch[k].rtuId != id
    ensures Record(ApplyBatch(docs, batch), key, id) == Record(docs, key, id)
    decreases |batch|
  {
    if batch != [] {
      ApplyBatchUntouched(ApplyWrite(docs, batch[0]), batch[1..], key, id);
    }
  }

  /** Daily energy, once stored, is never removed by later writes of either kind. */
  lemma {:induction false} ApplyBatchKeepsDailyEnergy(docs: Docs, batch: seq<Write>, date: string, id: string)
    requires HasDailyEnergy(docs, date, id)
    ensures HasDailyEnergy(ApplyBatch(docs, batch), date, id)
    decreases |batch|
  {
    if batch != [] {
      var w := batch[0];
      assert HasDailyEnergy(ApplyWrite(docs, w), date, id) by {
        if w.Target() == DocKey(Main, date) && w.rtuId == id {
          assert Record(ApplyWrite(docs, w), DocKey(Main, date), id) == Merge(Record(docs, DocKey(Main, date), id), w);
        }
      }
      ApplyBatchKeepsDailyEnergy(ApplyWrite(docs, w), batch[1..], date, id);
    }
  }

  /** A batch holding an energy write into Main/<date> for `id` leaves that RTU's daily energy recorded. */
  lemma {:induction false} ApplyBatchRecordsDailyEnergy(docs: Docs, batch: seq<Write>, k: nat, date: string, id: string)
    requires k < |batch| && batch[k].EnergyWrite?
    requires batch[k].Target() == DocKey(Main, date) && batch[k].rtuId == id
    ensures HasDailyEnergy(ApplyBatch(docs, batch), date, id)
    decreases |batch|
  {
    if k == 0 {
      assert HasDailyEnergy(ApplyWrite(docs, batch[0]), date, id);
      ApplyBatchKeepsDailyEnergy(ApplyWrite(docs, batch[0]), batch[1..], date, id);
    } else {
      ApplyBatchRecordsDailyEnergy(ApplyWrite(docs, batch[0]), batch[1..], k - 1, date, id);
    }
  }

  /** Power snapshots never create daily energy: a batch of power writes leaves the daily guard as it was. */
  lemma {:induction false} PowerBatchKeepsGuard(docs: Docs, batch: seq<Write>, date: string, id: string)
    requires forall k :: 0 <= k < |batch| ==> batch[k].PowerWrite?
    ensures HasDailyEnergy(ApplyBatch(docs, batch), date, id) == HasDailyEnergy(docs, date, id)
    decreases |batch|
  {
    if batch != [] {
      var w := batch[0];
      assert HasDailyEnergy(ApplyWrite(docs, w), date, id) == HasDailyEnergy(docs, date, id) by {
        if w.Target() == DocKey(Main, date) && w.rtuId == id {
          assert Record(ApplyWrite(docs, w), DocKey(Main, date), id) == Merge(Record(docs, DocKey(Main, date), id), w);
        }
      }
      PowerBatchKeepsGuard(ApplyWrite(docs, w), batch[1..], date, id);
    }
  }

  /**
   * The durable store: the current documents, the documents that existed when
   * the process started, and the ghost log of every batch committed since.
   */
  class DocStore {
    var docs: Docs
    ghost var initial: Docs
    ghost var log: seq<seq<Write>>

    ghost predicate Valid()
      reads this
    {
      docs == ApplyLog(initial, log)
    }

    constructor (existing: Docs)
      ensures Valid() && docs == existing && initial == existing && log == []
    {
      docs := existing;
      initial := existing;
      log := [];
    }

    /** `await batch.commit()` that succeeds: the batch is applied atomically and logged. */
    method Commit(batch: seq<Write>)
      requires Valid()
      modifies this
      ensures Valid()
      ensures docs == ApplyBatch(old(docs), batch)
      ensures log == old(log) + [batch] && initial == old(initial)
    {
      docs := ApplyBatch(docs, batch);
      log := log + [batch];
      assert log[..|log| - 1] == old(log);
    }
  }
}
