/**
 * The reductions the service commits: which reading each RTU contributes to a
 * scheduler tick, the batch a reading turns into, and the in-memory markers
 * that keep each ten-minute slot and each day to one save per RTU.
 */
module Aggregator {
  import opened Wrappers
  import opened Readings
  import opened Timing
  import opened Buffer
  import opened Store

  /** The two save paths: `saveActivePowerPerDay` and `saveLastReadingPerDay`. */
  datatype Pipeline = TenMinutePower | DailyEnergy

  /**
   * The merge write for one load category present in the reading: its active
   * power under the "HH:mm" slot, or its monthly and yearly energy; an absent
   * value is written as 0 (`?? 0`).
   */
  function WriteFor(p: Pipeline, d: Reading, load: LoadName, rtuId: string, c: Clock): (w: Write)
    requires load in d.loads
    ensures w.load == load && w.rtuId == rtuId && w.date == c.date
    ensures w.PowerWrite? <==> p == TenMinutePower
    ensures w.PowerWrite? ==> w.slot == TimeSlot(c) && w.value == d.loads[load].activePower.GetOr(0.0)
    ensures w.EnergyWrite? ==>
      w.monthly == d.loads[load].energyMonthly.GetOr(0.0) && w.yearly == d.loads[load].energyYearly.GetOr(0.0)
  {
    var ld := d.loads[load];
    match p
    case TenMinutePower =>
      PowerWrite(load, c.date, rtuId, TimeSlot(c), ld.activePower.GetOr(0.0), c.epochMs)
    case DailyEnergy =>
      EnergyWrite(load, c.date, rtuId, ld.energyMonthly.GetOr(0.0), ld.energyYearly.GetOr(0.0), c.epochMs)
  }

  /**
   * The `loads.forEach` over the categories `ls`, keeping those the reading has.
   * The reading leads the termination measure so that a batch over the fixed
   * category list is unfolded only where a proof asks for it.
   */
  function BatchOver(p: Pipeline, d: Reading, ls: seq<LoadName>, rtuId: string, c: Clock): seq<Write>
    decreases d, |ls|
  {
    if ls == [] then []
    else
      (if ls[0] in d.loads then [WriteFor(p, d, ls[0], rtuId, c)] else [])
      + BatchOver(p, d, ls[1..], rtuId, c)
  }

  /** One step of the `forEach`: the category at `i` contributes its write, if present, ahead of the rest. */
  lemma BatchOverStep(p: Pipeline, d: Reading, ls: seq<LoadName>, i: nat, rtuId: string, c: Clock)
    requires i < |ls|
    ensures BatchOver(p, d, ls[i..], rtuId, c)
      == (if ls[i] in d.loads then [WriteFor(p, d, ls[i], rtuId, c)] else []) + BatchOver(p, d, ls[i + 1..], rtuId, c)
  {
    assert ls[i..][0] == ls[i] && ls[i..][1..] == ls[i + 1..];
  }

  /** The batch one save commits. */
  function BatchFor(p: Pipeline, d: Reading, rtuId: string, c: Clock): seq<Write>
  {
    BatchOver(p, d, AllLoads, rtuId, c)
  }

  lemma {:induction false} BatchOverSpec(p: Pipeline, d: Reading, ls: seq<LoadName>, rtuId: string, c: Clock)
    ensures forall l :: l in d.loads && l in ls ==> WriteFor(p, d, l, rtuId, c) in BatchOver(p, d, ls, rtuId, c)
    ensures forall k :: 0 <= k < |BatchOver(p, d, ls, rtuId, c)| ==> BatchShape(p, d, rtuId, c, BatchOver(p, d, ls, rtuId, c)[k])
    decreases |ls|
  {
    if ls != [] {
      BatchOverSpec(p, d, ls[1..], rtuId, c);
      var b := BatchOver(p, d, ls, rtuId, c);
      var rest := BatchOver(p, d, ls[1..], rtuId, c);
      forall k | 0 <= k < |b|
        ensures BatchShape(p, d, rtuId, c, b[k])
      {
        if ls[0] in d.loads && k == 0 {
          assert b[0] == WriteFor(p, d, ls[0], rtuId, c);
        } else if ls[0] in d.loads {
          assert b[k] == rest[k - 1];
        } else {
          assert b[k] == rest[k];
        }
      }
    }
  }

  /**
   * A write of a save: for a category the reading has, under the saved RTU and
   * the clock's date, of the save's kind, carrying the category's `ActivePower
   * ?? 0` under the "HH:mm" slot, or its `EnergyMonthly ?? 0` and `EnergyYearly ?? 0`.
   */
  predicate BatchShape(p: Pipeline, d: Reading, rtuId: string, c: Clock, w: Write) {
    && w.load in d.loads && w.rtuId == rtuId && w.date == c.date && (w.PowerWrite? <==> p == TenMinutePower)
    && (w.PowerWrite? ==> w.slot == TimeSlot(c) && w.value == d.loads[w.load].activePower.GetOr(0.0))
    && (w.EnergyWrite? ==>
          w.monthly == d.loads[w.load].energyMonthly.GetOr(0.0) && w.yearly == d.loads[w.load].energyYearly.GetOr(0.0))
  }

  /** Over distinct categories, the `forEach` writes each category at most once, and only categories it visits. */
  lemma {:induction false} BatchOverDistinct(p: Pipeline, d: Reading, ls: seq<LoadName>, rtuId: string, c: Clock)
    requires forall i, j :: 0 <= i < j < |ls| ==> ls[i] != ls[j]
    ensures forall k :: 0 <= k < |BatchOver(p, d, ls, rtuId, c)| ==> BatchOver(p, d, ls, rtuId, c)[k].load in ls
    ensures forall i, j :: 0 <= i < j < |BatchOver(p, d, ls, rtuId, c)| ==>
      BatchOver(p, d, ls, rtuId, c)[i].load != BatchOver(p, d, ls, rtuId, c)[j].load
    decreases |ls|
  {
    if ls != [] {
      var rest := BatchOver(p, d, ls[1..], rtuId, c);
      BatchOverDistinct(p, d, ls[1..], rtuId, c);
      assert ls[0] !in ls[1..] by {
        forall j | 0 <= j < |ls[1..]| ensures ls[1..][j] != ls[0] { assert ls[1..][j] == ls[j + 1]; }
      }
      var b := BatchOver(p, d, ls, rtuId, c);
      forall k | 0 <= k < |rest| ensures rest[k].load in ls { assert rest[k].load in ls[1..]; }
      if ls[0] in d.loads {
        assert b == [WriteFor(p, d, ls[0], rtuId, c)] + rest;
        forall k | 0 < k < |b| ensures b[k] == rest[k - 1] && b[k].load != ls[0] {
          assert rest[k - 1].load in ls[1..];
        }
      } else {
        assert b == rest;
      }
    }
  }

  /**
   * A save's batch holds a write for every load category present in the
   * reading and for no other category, at most one per category, and every
   * write in it is for the saved RTU, the clock's date and the save's kind,
   * with the category's values.
   */
  lemma BatchForSpec(p: Pipeline, d: Reading, rtuId: string, c: Clock)
    ensures forall l :: l in d.loads ==> WriteFor(p, d, l, rtuId, c) in BatchFor(p, d, rtuId, c)
    ensures forall k :: 0 <= k < |BatchFor(p, d, rtuId, c)| ==> BatchShape(p, d, rtuId, c, BatchFor(p, d, rtuId, c)[k])
    ensures forall i, j :: 0 <= i < j < |BatchFor(p, d, rtuId, c)| ==>
      BatchFor(p, d, rtuId, c)[i].load != BatchFor(p, d, rtuId, c)[j].load
  {
    AllLoadsComplete();
    BatchOverSpec(p, d, AllLoads, rtuId, c);
    BatchOverDistinct(p, d, AllLoads, rtuId, c);
  }

  /** The write stores zero. */
  predicate IsZeroWrite(w: Write) {
    match w
    case PowerWrite(_, _, _, _, value, _) => value == 0.0
    case EnergyWrite(_, _, _, monthly, yearly, _) => monthly == 0.0 && yearly == 0.0
  }

  /** A reading with all five categories gives a batch of five writes. */
  lemma FullBatch(p: Pipeline, d: Reading, rtuId: string, c: Clock)
    requires forall l: LoadName :: l in d.loads
    ensures |BatchFor(p, d, rtuId, c)| == 5
  {
    var ls := AllLoads;
    assert |BatchOver(p, d, ls[5..], rtuId, c)| == 0;
    assert |BatchOver(p, d, ls[4..], rtuId, c)| == 1;
    assert |BatchOver(p, d, ls[3..], rtuId, c)| == 2;
    assert |BatchOver(p, d, ls[2..], rtuId, c)| == 3;
    assert |BatchOver(p, d, ls[1..], rtuId, c)| == 4;
  }

  lemma {:induction false} ZeroBatchOver(p: Pipeline, d: Reading, ls: seq<LoadName>, rtuId: string, c: Clock)
    requires forall l :: l in d.loads ==> IsZeroLoad(d.loads[l])
    ensures forall k :: 0 <= k < |BatchOver(p, d, ls, rtuId, c)| ==> IsZeroWrite(BatchOver(p, d, ls, rtuId, c)[k])
    decreases |ls|
  {
    if ls != [] {
      ZeroBatchOver(p, d, ls[1..], rtuId, c);
      var b := BatchOver(p, d, ls, rtuId, c);
      var rest := BatchOver(p, d, ls[1..], rtuId, c);
      forall k | 0 <= k < |b|
        ensures IsZeroWrite(b[k])
      {
        if ls[0] in d.loads && k == 0 {
          assert IsZeroLoad(d.loads[ls[0]]);
        } else if ls[0] in d.loads {
          assert b[k] == rest[k - 1];
        } else {
          assert b[k] == rest[k];
        }
      }
    }
  }

  /** An offline RTU's save writes zero into all five load categories. */
  lemma ZeroFillBatch(p: Pipeline, rtuId: string, name: string, c: Clock)
    ensures |BatchFor(p, CreateZeroData(rtuId, name), rtuId, c)| == 5
    ensures forall k :: 0 <= k < |BatchFor(p, CreateZeroData(rtuId, name), rtuId, c)| ==>
      IsZeroWrite(BatchFor(p, CreateZeroData(rtuId, name), rtuId, c)[k])
  {
    AllLoadsComplete();
    FullBatch(p, CreateZeroData(rtuId, name), rtuId, c);
    ZeroBatchOver(p, CreateZeroData(rtuId, name), AllLoads, rtuId, c);
  }

  /**
   * The durable daily guard: committing the daily batch of a reading that has a
   * Main category records the RTU's energy in Main/<date>; a reading without
   * Main leaves the guard as it was, so only the in-memory marker then stops a
   * second daily save.
   */
  lemma DailyBatchSetsGuard(docs: Docs, d: Reading, rtuId: string, c: Clock)
    ensures Main in d.loads ==> HasDailyEnergy(ApplyBatch(docs, BatchFor(DailyEnergy, d, rtuId, c)), c.date, rtuId)
    ensures Main !in d.loads ==>
      HasDailyEnergy(ApplyBatch(docs, BatchFor(DailyEnergy, d, rtuId, c)), c.date, rtuId) == HasDailyEnergy(docs, c.date, rtuId)
  {
    var b := BatchFor(DailyEnergy, d, rtuId, c);
    BatchForSpec(DailyEnergy, d, rtuId, c);
    if Main in d.loads {
      var w := WriteFor(DailyEnergy, d, Main, rtuId, c);
      var k :| 0 <= k < |b| && b[k] == w;
      ApplyBatchRecordsDailyEnergy(docs, b, k, c.date, rtuId);
    } else {
      ApplyBatchUntouched(docs, b, DocKey(Main, c.date), rtuId);
    }
  }

  /** A ten-minute power batch never sets or clears the daily guard. */
  lemma PowerBatchKeepsDailyGuard(docs: Docs, d: Reading, rtuId: string, c: Clock, date: string, id: string)
    ensures HasDailyEnergy(ApplyBatch(docs, BatchFor(TenMinutePower, d, rtuId, c)), date, id) == HasDailyEnergy(docs, date, id)
  {
    BatchForSpec(TenMinutePower, d, rtuId, c);
    PowerBatchKeepsGuard(docs, BatchFor(TenMinutePower, d, rtuId, c), date, id);
  }

  /**
   * What the registry promises: every known RTU has between one and `Capacity`
   * readings, and every reading stored under an id yields that id.
   */
  ghost predicate RegistryConsistent(data: map<string, seq<Entry>>) {
    forall id :: id in data ==>
      && 0 < |data[id]| <= Capacity
      && forall k {:trigger Attributed(data[id][k], id)} :: 0 <= k < |data[id]| ==> Attributed(data[id][k], id)
  }

  /** A stored reading yields the id it is stored under. */
  predicate Attributed(e: Entry, id: string) {
    ExtractRTUId(e.reading) == id
  }

  /**
   * The handler's three registries agree: the buffers are consistent, every
   * known RTU has an arrival time and nothing else has, and the key order lists
   * every known RTU exactly once.
   */
  ghost predicate Registered(data: map<string, seq<Entry>>, order: seq<string>, lastTs: map<string, int>) {
    && RegistryConsistent(data)
    && data.Keys == lastTs.Keys
    && (forall id :: id in data <==> id in order)
    && (forall i, j :: 0 <= i < j < |order| ==> order[i] != order[j])
  }

  /** Storing a reading in the bounded buffer of the id it yields keeps the buffers consistent. */
  lemma PushKeepsConsistent(data: map<string, seq<Entry>>, id: string, e: Entry)
    requires RegistryConsistent(data) && ExtractRTUId(e.reading) == id
    ensures RegistryConsistent(data[id := Retain(if id in data then data[id] else [], e)])
  {
    var buf := if id in data then data[id] else [];
    RetainBounded(buf, e);
    RetainFrom(buf, e);
  }

  /**
   * Recording a reading's arrival (stamping its time, appending an unknown id
   * to the key order, and storing the reading in the bounded buffer of the id it
   * yields) keeps the registries in agreement.
   */
  lemma ArrivalKeepsRegistered(data: map<string, seq<Entry>>, order: seq<string>, lastTs: map<string, int>,
                               id: string, e: Entry, now: int)
    requires Registered(data, order, lastTs) && ExtractRTUId(e.reading) == id
    ensures Registered(data[id := Retain(if id in data then data[id] else [], e)],
                       if id in data then order else order + [id],
                       lastTs[id := now])
  {
    PushKeepsConsistent(data, id, e);
    var data' := data[id := Retain(if id in data then data[id] else [], e)];
    assert data'.Keys == data.Keys + {id};
    if id !in data {
      AppendFreshKey(data.Keys, order, id);
    }
  }

  /** Appending a key not yet listed to a duplicate-free key order keeps it duplicate-free and listing exactly the keys. */
  lemma AppendFreshKey(keys: set<string>, order: seq<string>, id: string)
    requires forall x :: x in keys <==> x in order
    requires forall i, j :: 0 <= i < j < |order| ==> order[i] != order[j]
    requires id !in keys
    ensures forall x :: x in keys + {id} <==> x in order + [id]
    ensures forall i, j :: 0 <= i < j < |order + [id]| ==> (order + [id])[i] != (order + [id])[j]
  {
    var order' := order + [id];
    forall x ensures x in keys + {id} <==> x in order' {
      assert x in order' <==> x in order || x == id;
    }
    forall i, j | 0 <= i < j < |order'| ensures order'[i] != order'[j] {
      assert order'[i] == order[i];
      if j == |order| {
        assert order'[j] == id;
      } else {
        assert order'[j] == order[j];
      }
    }
  }

  /** The latest reading of a known RTU. */
  function Latest(id: string, data: map<string, seq<Entry>>): Reading
    requires id in data && |data[id]| > 0
  {
    data[id][|data[id]| - 1].reading
  }

  /**
   * What a tick saves for a known RTU: when it is offline, the zero reading
   * labelled with the first field of its latest reading's customer tag (or
   * "Unknown"); otherwise its latest reading.
   */
  function Select(id: string, data: map<string, seq<Entry>>, lastTs: map<string, int>, now: int): (r: Reading)
    requires id in data && |data[id]| > 0
    ensures !IsOffline(Lookup(lastTs, id), now) ==> r == data[id][|data[id]| - 1].reading
    ensures IsOffline(Lookup(lastTs, id), now) ==>
      (forall l: LoadName :: l in r.loads) && forall l :: l in r.loads ==> IsZeroLoad(r.loads[l])
  {
    AllLoadsComplete();
    if IsOffline(Lookup(lastTs, id), now) then CreateZeroData(id, CustomerName(Latest(id, data)))
    else Latest(id, data)
  }

  /**
   * Zero fill keeps a device's identity: whether or not the RTU is offline, the
   * reading a tick selects yields the same RTU id and the same customer name as
   * its latest reading.
   */
  lemma SelectKeepsIdentity(id: string, data: map<string, seq<Entry>>, lastTs: map<string, int>, now: int)
    requires RegistryConsistent(data) && id in data
    ensures ExtractRTUId(Select(id, data, lastTs, now)) == id
    ensures CustomerName(Select(id, data, lastTs, now)) == CustomerName(Latest(id, data))
  {
    var last := Latest(id, data);
    assert Attributed(data[id][|data[id]| - 1], id);
    ZeroRoundTrip(id, CustomerName(last));
  }

  /** The (RTU id, reading) pairs a tick saves, in registry order; the default RTU when none is known. */
  function TickSelection(order: seq<string>, data: map<string, seq<Entry>>, lastTs: map<string, int>, now: int)
    : (sel: seq<(string, Reading)>)
    requires forall i :: 0 <= i < |order| ==> order[i] in data && |data[order[i]]| > 0
    ensures |order| > 0 ==> |sel| == |order|
    ensures |order| == 0 ==> |sel| == 1
  {
    if |order| == 0 then [(DefaultRtuId, CreateZeroData(DefaultRtuId, UnknownCustomer))]
    else SelectAll(order, data, lastTs, now)
  }

  /** The RTUs `ids`, in order, each paired with the reading a tick selects for it. */
  function SelectAll(ids: seq<string>, data: map<string, seq<Entry>>, lastTs: map<string, int>, now: int)
    : (sel: seq<(string, Reading)>)
    requires forall i :: 0 <= i < |ids| ==> ids[i] in data && |data[ids[i]]| > 0
    ensures |sel| == |ids|
    decreases |ids|
  {
    if ids == [] then []
    else [(ids[0], Select(ids[0], data, lastTs, now))] + SelectAll(ids[1..], data, lastTs, now)
  }

  /** The `k`-th pair of a selection is the `k`-th RTU with its selected reading. */
  lemma {:induction false} SelectAllAt(ids: seq<string>, data: map<string, seq<Entry>>, lastTs: map<string, int>, now: int, k: nat)
    requires forall i :: 0 <= i < |ids| ==> ids[i] in data && |data[ids[i]]| > 0
    requires k < |ids|
    ensures SelectAll(ids, data, lastTs, now)[k] == (ids[k], Select(ids[k], data, lastTs, now))
    decreases k
  {
    var rest := ids[1..];
    assert SelectAll(ids, data, lastTs, now) == [(ids[0], Select(ids[0], data, lastTs, now))] + SelectAll(rest, data, lastTs, now);
    if k > 0 {
      assert forall i :: 0 <= i < |rest| ==> rest[i] == ids[i + 1];
      SelectAllAt(rest, data, lastTs, now, k - 1);
      assert rest[k - 1] == ids[k];
    }
  }

  /** With RTUs known, a tick's `k`-th pair is the `k`-th known RTU with its selected reading. */
  lemma TickSelectionAt(order: seq<string>, data: map<string, seq<Entry>>, lastTs: map<string, int>, now: int, k: nat)
    requires forall i :: 0 <= i < |order| ==> order[i] in data && |data[order[i]]| > 0
    requires k < |order|
    ensures TickSelection(order, data, lastTs, now)[k] == (order[k], Select(order[k], data, lastTs, now))
  {
    SelectAllAt(order, data, lastTs, now, k);
  }

  /**
   * Every tick saves each known RTU once, in registry order, with a reading that
   * yields that RTU's id; with an empty registry it saves only the default RTU's
   * zero reading.
   */
  lemma TickSelectionAttributable(order: seq<string>, data: map<string, seq<Entry>>, lastTs: map<string, int>, now: int)
    requires RegistryConsistent(data)
    requires forall i :: 0 <= i < |order| ==> order[i] in data
    ensures |order| > 0 ==>
      && |TickSelection(order, data, lastTs, now)| == |order|
      && forall k :: 0 <= k < |order| ==> TickSelection(order, data, lastTs, now)[k].0 == order[k]
    ensures |order| == 0 ==> TickSelection(order, data, lastTs, now) == [(DefaultRtuId, CreateZeroData(DefaultRtuId, UnknownCustomer))]
    ensures forall k :: 0 <= k < |TickSelection(order, data, lastTs, now)| ==>
      ExtractRTUId(TickSelection(order, data, lastTs, now)[k].1) == TickSelection(order, data, lastTs, now)[k].0
  {
    var sel := TickSelection(order, data, lastTs, now);
    if |order| == 0 {
      ZeroRoundTrip(DefaultRtuId, UnknownCustomer);
    } else {
      forall k | 0 <= k < |sel|
        ensures sel[k].0 == order[k] && ExtractRTUId(sel[k].1) == sel[k].0
      {
        TickSelectionAt(order, data, lastTs, now, k);
        SelectKeepsIdentity(order[k], data, lastTs, now);
      }
    }
  }

  /** The RTU ids of a selection. */
  function Ids(sel: seq<(string, Reading)>): (ids: seq<string>)
    ensures |ids| == |sel| && forall k :: 0 <= k < |sel| ==> ids[k] == sel[k].0
  {
    seq(|sel|, k requires 0 <= k < |sel| => sel[k].0)
  }

  /** `saveActivePowerPerDay` goes past its two guards: a slot minute, and a marker not already on this slot. */
  predicate PowerDue(markers: map<string, string>, id: string, c: Clock): (due: bool)
    ensures due <==> Lookup(MarkSlot(markers, id, c), id) != Lookup(markers, id)
  {
    IsSlotMinute(c) && Lookup(markers, id) != Some(SlotKey(c))
  }

  /** The slot marker after a save attempt; it is set before the commit, so also when the commit fails. */
  function MarkSlot(markers: map<string, string>, id: string, c: Clock): (r: map<string, string>)
    ensures IsSlotMinute(c) ==> Lookup(r, id) == Some(SlotKey(c))
    ensures !IsSlotMinute(c) ==> r == markers
  {
    if IsSlotMinute(c) then markers[id := SlotKey(c)] else markers
  }

  /**
   * Ten-minute dedup: once an RTU has been attempted in a slot, a later attempt
   * is due exactly when it falls in a different slot.
   */
  lemma SameSlotOnce(markers: map<string, string>, id: string, c1: Clock, c2: Clock)
    requires IsSlotMinute(c1) && IsSlotMinute(c2)
    ensures PowerDue(MarkSlot(markers, id, c1), id, c2) <==>
      !(c1.date == c2.date && c1.hour == c2.hour && c1.minute == c2.minute)
  {
    SlotKeyInjective(c1, c2);
  }

  /** The markers after a tick attempted every RTU of `sel`. */
  function MarkAll(markers: map<string, string>, sel: seq<(string, Reading)>, c: Clock): map<string, string>
    decreases |sel|
  {
    if sel == [] then markers else MarkAll(MarkSlot(markers, sel[0].0, c), sel[1..], c)
  }

  /** The batches a tick commits: per RTU in turn, its batch when due and its commit succeeds. */
  function TickCommits(sel: seq<(string, Reading)>, markers: map<string, string>, c: Clock, ok: string -> bool)
    : (commits: seq<seq<Write>>)
    ensures |commits| <= |sel|
    decreases |sel|
  {
    if sel == [] then []
    else
      var (id, d) := sel[0];
      (if PowerDue(markers, id, c) && ok(id) then [BatchFor(TenMinutePower, d, id, c)] else [])
      + TickCommits(sel[1..], MarkSlot(markers, id, c), c, ok)
  }

  /** One step of a tick: the RTU at `i` is attempted, then the ones after it. */
  lemma TickStep(sel: seq<(string, Reading)>, i: nat, markers: map<string, string>, c: Clock, ok: string -> bool)
    requires i < |sel|
    ensures MarkAll(markers, sel[i..], c) == MarkAll(MarkSlot(markers, sel[i].0, c), sel[i + 1..], c)
    ensures TickCommits(sel[i..], markers, c, ok)
      == (if PowerDue(markers, sel[i].0, c) && ok(sel[i].0) then [BatchFor(TenMinutePower, sel[i].1, sel[i].0, c)] else [])
         + TickCommits(sel[i + 1..], MarkSlot(markers, sel[i].0, c), c, ok)
  {
    assert sel[i..][0] == sel[i] && sel[i..][1..] == sel[i + 1..];
  }

  /** One step of a tick over known RTUs: the RTU at `i` is attempted with its selected reading, then the ones after it. */
  lemma SelectionStep(ids: seq<string>, data: map<string, seq<Entry>>, lastTs: map<string, int>, now: int, i: nat,
                      markers: map<string, string>, c: Clock, ok: string -> bool)
    requires forall k :: 0 <= k < |ids| ==> ids[k] in data && |data[ids[k]]| > 0
    requires i < |ids|
    ensures var sel := SelectAll(ids, data, lastTs, now);
      MarkAll(markers, sel[i..], c) == MarkAll(MarkSlot(markers, ids[i], c), sel[i + 1..], c)
    ensures var sel := SelectAll(ids, data, lastTs, now);
      TickCommits(sel[i..], markers, c, ok)
        == (if PowerDue(markers, ids[i], c) && ok(ids[i])
            then [BatchFor(TenMinutePower, Select(ids[i], data, lastTs, now), ids[i], c)] else [])
           + TickCommits(sel[i + 1..], MarkSlot(markers, ids[i], c), c, ok)
  {
    SelectAllAt(ids, data, lastTs, now, i);
    TickStep(SelectAll(ids, data, lastTs, now), i, markers, c, ok);
  }

  /** After a tick at a slot minute, every RTU it attempted carries the slot's marker; the others keep theirs. */
  lemma {:induction false} MarkAllCovers(markers: map<string, string>, sel: seq<(string, Reading)>, c: Clock)
    requires IsSlotMinute(c)
    ensures forall k :: 0 <= k < |sel| ==> Lookup(MarkAll(markers, sel, c), sel[k].0) == Some(SlotKey(c))
    ensures forall id :: id !in Ids(sel) ==> Lookup(MarkAll(markers, sel, c), id) == Lookup(markers, id)
    ensures forall id :: id in Ids(sel) ==> Lookup(MarkAll(markers, sel, c), id) == Some(SlotKey(c))
    decreases |sel|
  {
    if sel != [] {
      var m' := MarkSlot(markers, sel[0].0, c);
      MarkAllCovers(m', sel[1..], c);
      assert Ids(sel) == [sel[0].0] + Ids(sel[1..]);
      forall k | 0 <= k < |sel|
        ensures Lookup(MarkAll(markers, sel, c), sel[k].0) == Some(SlotKey(c))
      {
        if k > 0 {
          assert sel[k] == sel[1..][k - 1];
        } else if sel[0].0 !in Ids(sel[1..]) {
          assert Lookup(m', sel[0].0) == Some(SlotKey(c));
        } else {
          var j :| 0 <= j < |sel[1..]| && Ids(sel[1..])[j] == sel[0].0;
          assert sel[1..][j].0 == sel[0].0;
        }
      }
    }
  }

  /** A tick whose RTUs all carry the slot's marker commits nothing. */
  lemma {:induction false} CoveredTickCommitsNothing(sel: seq<(string, Reading)>, markers: map<string, string>, c: Clock, ok: string -> bool)
    requires forall k :: 0 <= k < |sel| ==> Lookup(markers, sel[k].0) == Some(SlotKey(c))
    ensures TickCommits(sel, markers, c, ok) == []
    decreases |sel|
  {
    if sel != [] {
      var m' := MarkSlot(markers, sel[0].0, c);
      forall k | 0 <= k < |sel[1..]|
        ensures Lookup(m', sel[1..][k].0) == Some(SlotKey(c))
      {
        assert sel[1..][k] == sel[k + 1];
      }
      CoveredTickCommitsNothing(sel[1..], m', c, ok);
    }
  }

  /** A tick off the slot minutes commits nothing. */
  lemma {:induction false} OffMinuteTickCommitsNothing(sel: seq<(string, Reading)>, markers: map<string, string>, c: Clock, ok: string -> bool)
    requires !IsSlotMinute(c)
    ensures TickCommits(sel, markers, c, ok) == []
    decreases |sel|
  {
    if sel != [] {
      OffMinuteTickCommitsNothing(sel[1..], MarkSlot(markers, sel[0].0, c), c, ok);
    }
  }

  /**
   * Bucket idempotence: a later tick in the same slot minute (any second, any
   * `Date.now()`), over RTUs the first tick already attempted, commits nothing,
   * whatever the first tick's commits did.
   */
  lemma SameSlotTickIdempotent(sel1: seq<(string, Reading)>, sel2: seq<(string, Reading)>,
                               markers: map<string, string>, c1: Clock, c2: Clock, ok: string -> bool)
    requires c1.date == c2.date && c1.hour == c2.hour && c1.minute == c2.minute
    requires forall k :: 0 <= k < |sel2| ==> sel2[k].0 in Ids(sel1)
    ensures TickCommits(sel2, MarkAll(markers, sel1, c1), c2, ok) == []
  {
    if IsSlotMinute(c1) {
      MarkAllCovers(markers, sel1, c1);
      SlotKeyInjective(c1, c2);
      CoveredTickCommitsNothing(sel2, MarkAll(markers, sel1, c1), c2, ok);
    } else {
      OffMinuteTickCommitsNothing(sel2, MarkAll(markers, sel1, c1), c2, ok);
    }
  }

  /** Reference: each RTU in turn commits its power batch when its commit succeeds. */
  function CommitEach(sel: seq<(string, Reading)>, c: Clock, ok: string -> bool): seq<seq<Write>>
    decreases |sel|
  {
    if sel == [] then []
    else
      (if ok(sel[0].0) then [BatchFor(TenMinutePower, sel[0].1, sel[0].0, c)] else [])
      + CommitEach(sel[1..], c, ok)
  }

  /**
   * The first tick of a slot, over distinct RTUs none of which has been
   * attempted in this slot, commits exactly one batch per RTU whose commit
   * succeeds, in registry order.
   */
  lemma {:induction false} FirstTickCommitsEach(sel: seq<(string, Reading)>, markers: map<string, string>, c: Clock, ok: string -> bool)
    requires IsSlotMinute(c)
    requires forall i, j :: 0 <= i < j < |sel| ==> sel[i].0 != sel[j].0
    requires forall k :: 0 <= k < |sel| ==> Lookup(markers, sel[k].0) != Some(SlotKey(c))
    ensures TickCommits(sel, markers, c, ok) == CommitEach(sel, c, ok)
    decreases |sel|
  {
    if sel != [] {
      var m' := MarkSlot(markers, sel[0].0, c);
      forall k | 0 <= k < |sel[1..]|
        ensures Lookup(m', sel[1..][k].0) != Some(SlotKey(c))
      {
        assert sel[1..][k] == sel[k + 1];
        assert sel[0].0 != sel[k + 1].0;
      }
      FirstTickCommitsEach(sel[1..], m', c, ok);
    }
  }

  /** A tick over one RTU commits that RTU's batch exactly when it is due and its commit succeeds. */
  lemma SingleTick(id: string, d: Reading, markers: map<string, string>, c: Clock, ok: string -> bool)
    ensures TickCommits([(id, d)], markers, c, ok)
      == if PowerDue(markers, id, c) && ok(id) then [BatchFor(TenMinutePower, d, id, c)] else []
  {
    assert [(id, d)][1..] == [];
  }

  /** With no RTU known, a slot tick saves the default RTU's zero reading once, under the default id. */
  lemma EmptyRegistryTick(data: map<string, seq<Entry>>, lastTs: map<string, int>, markers: map<string, string>,
                          c: Clock, ok: string -> bool)
    ensures TickCommits(TickSelection([], data, lastTs, c.epochMs), markers, c, ok)
      == if PowerDue(markers, DefaultRtuId, c) && ok(DefaultRtuId)
         then [BatchFor(TenMinutePower, CreateZeroData(DefaultRtuId, UnknownCustomer), DefaultRtuId, c)]
         else []
  {
    SingleTick(DefaultRtuId, CreateZeroData(DefaultRtuId, UnknownCustomer), markers, c, ok);
  }

  /** `saveLastReadingPerDay` goes past its two in-memory guards: the submit window, and a date marker not on this date. */
  predicate EnergyDue(markers: map<string, string>, id: string, date: string, c: Clock): (due: bool)
    ensures due ==> c.hour == 23 && c.minute == 59 && c.second >= 50
    ensures due <==> InSubmitWindow(c) && Lookup(markers[id := date], id) != Lookup(markers, id)
  {
    InSubmitWindow(c) && Lookup(markers, id) != Some(date)
  }
}
