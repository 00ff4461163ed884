/**
 * The service's in-memory state and its three entry points: the WebSocket
 * `message` handler, the ten-minute scheduler tick, and the two save paths they
 * call. Time, parse results and the outcome of each store call are inputs.
 */
module Session {
  import opened Wrappers
  import opened Readings
  import opened Timing
  import opened Buffer
  import opened Store
  import opened Broadcast
  import opened Aggregator

  /**
   * The `loads.forEach(...)` that adds one `batch.set` per load category of
   * `loads` the reading has; both save paths pass `AllLoads`.
   */
  method BuildBatch(p: Pipeline, d: Reading, loads: seq<LoadName>, rtuId: string, c: Clock) returns (batch: seq<Write>)
    ensures batch == BatchOver(p, d, loads, rtuId, c)
  {
    batch := [];
    for i := 0 to |loads|
      invariant batch + BatchOver(p, d, loads[i..], rtuId, c) == BatchOver(p, d, loads, rtuId, c)
    {
      var load := loads[i];
      BatchOverStep(p, d, loads, i, rtuId, c);
      if load in d.loads {
        var w := WriteFor(p, d, load, rtuId, c);
        AppendAssociative(batch, [w], BatchOver(p, d, loads[i + 1..], rtuId, c));
        batch := batch + [w];
      } else {
        assert BatchOver(p, d, loads[i..], rtuId, c) == BatchOver(p, d, loads[i + 1..], rtuId, c);
      }
    }
  }

  lemma AppendAssociative<T>(a: seq<T>, b: seq<T>, c: seq<T>)
    ensures (a + b) + c == a + (b + c)
  {
  }

  class Telemetry {
    /** `esp32DataByRTU`: the bounded history of each known RTU. */
    var data: map<string, seq<Entry>>
    /** The key order of `esp32DataByRTU`, which `Object.keys` returns: first arrival first. */
    var order: seq<string>
    /** `lastESP32TimestampByRTU`: when each RTU's latest reading arrived. */
    var lastTs: map<string, int>
    /** `lastActivePowerSlotByRTU`: the last ten-minute slot each RTU was saved in. */
    var lastSlot: map<string, string>
    /** `lastSubmittedDateByRTU`: the last date each RTU's daily energy was committed for. */
    var lastDate: map<string, string>
    /** The connected WebSocket clients. */
    const hub: Hub
    /** The durable store. */
    const store: DocStore

    ghost predicate Valid()
      reads this, store
    {
      && store.Valid()
      && Registered(data, order, lastTs)
    }

    constructor (hub: Hub, store: DocStore)
      requires store.Valid()
      ensures Valid() && this.hub == hub && this.store == store
      ensures data == map[] && order == [] && lastTs == map[] && lastSlot == map[] && lastDate == map[]
    {
      this.hub := hub;
      this.store := store;
      data := map[];
      order := [];
      lastTs := map[];
      lastSlot := map[];
      lastDate := map[];
    }

    /**
     * `ws.on("message")`: broadcast the frame, then, if it parsed, stamp the
     * RTU's arrival time, store the reading in its bounded buffer and run the
     * daily save with it. `parsed` is the outcome of `JSON.parse`; `readOk` and
     * `commitOk` are the outcomes of the daily save's store read and commit.
     */
    method OnMessage(frame: string, parsed: Option<Reading>, clock: Clock, readOk: bool, commitOk: bool)
      requires Valid()
      modifies this`data, this`order, this`lastTs, this`lastDate, hub`sent, store
      ensures Valid()
      ensures hub.sent == old(hub.sent) + Deliveries(hub.clients, frame)
      ensures lastSlot == old(lastSlot) && store.initial == old(store.initial)
      ensures parsed.None? ==>
        && data == old(data) && order == old(order) && lastTs == old(lastTs)
        && lastDate == old(lastDate) && store.log == old(store.log) && store.docs == old(store.docs)
      ensures parsed.Some? ==>
        var rtuId := ExtractRTUId(parsed.value);
        var buf := if rtuId in old(data) then old(data)[rtuId] else [];
        && lastTs == old(lastTs)[rtuId := clock.epochMs]
        && data == old(data)[rtuId := Retain(buf, Entry(parsed.value, clock.epochMs))]
        && order == (if rtuId in old(data) then old(order) else old(order) + [rtuId])
      ensures parsed.Some? ==>
        var rtuId := ExtractRTUId(parsed.value);
        var wrote := EnergyDue(old(lastDate), rtuId, clock.date, clock) && readOk
                     && !HasDailyEnergy(old(store.docs), clock.date, rtuId) && commitOk;
        && lastDate == (if wrote then old(lastDate)[rtuId := clock.date] else old(lastDate))
        && store.log == old(store.log) + (if wrote then [BatchFor(DailyEnergy, parsed.value, rtuId, clock)] else [])
    {
      hub.Broadcast(frame);
      if parsed.None? {
        return;
      }
      var reading := parsed.value;
      var rtuId := Arrive(reading, clock);
      SaveLastReading(reading, rtuId, clock, readOk, commitOk);
    }

    /**
     * The handler's bookkeeping for a parsed reading: stamp the arrival time of
     * the RTU the reading names, register an unknown RTU (an empty buffer at the
     * end of the key order), and push the reading into its bounded buffer.
     */
    method Arrive(reading: Reading, clock: Clock) returns (rtuId: string)
      requires Valid()
      modifies this`data, this`order, this`lastTs
      ensures Valid() && rtuId == ExtractRTUId(reading)
      ensures
        var buf := if rtuId in old(data) then old(data)[rtuId] else [];
        && lastTs == old(lastTs)[rtuId := clock.epochMs]
        && data == old(data)[rtuId := Retain(buf, Entry(reading, clock.epochMs))]
        && order == (if rtuId in old(data) then old(order) else old(order) + [rtuId])
    {
      rtuId := ExtractRTUId(reading);
      var entry := Entry(reading, clock.epochMs);
      ArrivalKeepsRegistered(data, order, lastTs, rtuId, entry, clock.epochMs);
      lastTs := lastTs[rtuId := clock.epochMs];
      var buf: seq<Entry> := [];
      if rtuId in data {
        buf := data[rtuId];
      } else {
        order := order + [rtuId];
      }
      data := data[rtuId := Retain(buf, entry)];
    }

    /**
     * `saveLastReadingPerDay` with the clock's date: inside the end-of-day window,
     * for an RTU whose date marker is not on this date, read Main/<date> and, if
     * the RTU's energy is not there yet, commit the daily batch of the reading (a
     * zero reading when the RTU is offline) and only then set the date marker.
     */
    method SaveLastReading(reading: Reading, rtuId: string, clock: Clock, readOk: bool, commitOk: bool)
      requires store.Valid()
      modifies this`lastDate, store
      ensures store.Valid() && store.initial == old(store.initial)
      ensures
        var final := if IsOffline(Lookup(lastTs, rtuId), clock.epochMs)
                     then CreateZeroData(rtuId, CustomerName(reading)) else reading;
        var wrote := EnergyDue(old(lastDate), rtuId, clock.date, clock) && readOk
                     && !HasDailyEnergy(old(store.docs), clock.date, rtuId) && commitOk;
        && lastDate == (if wrote then old(lastDate)[rtuId := clock.date] else old(lastDate))
        && store.log == old(store.log) + (if wrote then [BatchFor(DailyEnergy, final, rtuId, clock)] else [])
        && store.docs == (if wrote then ApplyBatch(old(store.docs), BatchFor(DailyEnergy, final, rtuId, clock))
                          else old(store.docs))
    {
      var date := clock.date;
      if !InSubmitWindow(clock) {
        return;
      }
      if rtuId in lastDate && lastDate[rtuId] == date {
        return;
      }
      var lastTimestamp := Lookup(lastTs, rtuId);
      var offline := IsOffline(lastTimestamp, clock.epochMs);
      var finalData := if offline then CreateZeroData(rtuId, CustomerName(reading)) else reading;
      if !readOk {
        return;
      }
      if HasDailyEnergy(store.docs, date, rtuId) {
        return;
      }
      var batch := BuildBatch(DailyEnergy, finalData, AllLoads, rtuId, clock);
      if !commitOk {
        return;
      }
      store.Commit(batch);
      lastDate := lastDate[rtuId := date];
    }

    /**
     * `saveActivePowerPerDay`: at a slot minute, for an RTU whose slot marker is
     * not on this slot, set the marker and then commit one ActivePower write per
     * load category the reading has. The marker stays set when the commit fails.
     */
    method SaveActivePower(reading: Reading, rtuId: string, clock: Clock, commitOk: bool)
      requires store.Valid()
      modifies this`lastSlot, store
      ensures store.Valid() && store.initial == old(store.initial)
      ensures lastSlot == MarkSlot(old(lastSlot), rtuId, clock)
      ensures
        var wrote := PowerDue(old(lastSlot), rtuId, clock) && commitOk;
        && store.log == old(store.log) + (if wrote then [BatchFor(TenMinutePower, reading, rtuId, clock)] else [])
        && store.docs == (if wrote then ApplyBatch(old(store.docs), BatchFor(TenMinutePower, reading, rtuId, clock))
                          else old(store.docs))
    {
      if !IsSlotMinute(clock) {
        return;
      }
      var slotKey := SlotKey(clock);
      if rtuId in lastSlot && lastSlot[rtuId] == slotKey {
        assert lastSlot[rtuId := slotKey] == lastSlot;
        return;
      }
      lastSlot := lastSlot[rtuId := slotKey];
      var batch := BuildBatch(TenMinutePower, reading, AllLoads, rtuId, clock);
      if commitOk {
        store.Commit(batch);
      }
    }

    /**
     * One known RTU's turn in a tick: its latest reading, or the zero reading
     * carrying that reading's customer name when the RTU is offline, goes to
     * `saveActivePowerPerDay`.
     */
    method SaveSelected(rtuId: string, clock: Clock, commitOk: bool)
      requires store.Valid() && rtuId in data && |data[rtuId]| > 0
      modifies this`lastSlot, store
      ensures store.Valid() && store.initial == old(store.initial)
      ensures lastSlot == MarkSlot(old(lastSlot), rtuId, clock)
      ensures
        var wrote := PowerDue(old(lastSlot), rtuId, clock) && commitOk;
        store.log == old(store.log)
          + (if wrote then [BatchFor(TenMinutePower, Select(rtuId, data, lastTs, clock.epochMs), rtuId, clock)] else [])
    {
      var buf := data[rtuId];
      var lastTimestamp := Lookup(lastTs, rtuId);
      var offline := IsOffline(lastTimestamp, clock.epochMs);
      var dataToSave;
      if offline {
        var lastData := buf[|buf| - 1];
        dataToSave := CreateZeroData(rtuId, CustomerName(lastData.reading));
      } else {
        dataToSave := buf[|buf| - 1].reading;
      }
      assert dataToSave == Select(rtuId, data, lastTs, clock.epochMs) by {
        assert buf[|buf| - 1].reading == Latest(rtuId, data);
      }
      SaveActivePower(dataToSave, rtuId, clock, commitOk);
    }

    /**
     * One ten-minute scheduler tick: off the slot minutes nothing happens;
     * otherwise each known RTU, in key order, is saved with its selected reading,
     * and with no RTU known the default RTU is saved with the zero reading.
     * `commitOk` gives each RTU's commit outcome.
     */
    method Tick(clock: Clock, commitOk: string -> bool)
      requires Valid()
      modifies this`lastSlot, store
      ensures Valid() && store.initial == old(store.initial)
      ensures !IsSlotMinute(clock) ==> lastSlot == old(lastSlot) && store.log == old(store.log) && store.docs == old(store.docs)
      ensures IsSlotMinute(clock) ==>
        var sel := TickSelection(order, data, lastTs, clock.epochMs);
        && lastSlot == MarkAll(old(lastSlot), sel, clock)
        && store.log == old(store.log) + TickCommits(sel, old(lastSlot), clock, commitOk)
    {
      if !IsSlotMinute(clock) {
        return;
      }
      if |order| == 0 {
        SaveDefault(clock, commitOk);
      } else {
        SaveAll(clock, commitOk);
      }
    }

    /** A tick with no RTU known: the default RTU is saved with the zero reading. */
    method SaveDefault(clock: Clock, commitOk: string -> bool)
      requires store.Valid() && |order| == 0
      modifies this`lastSlot, store
      ensures store.Valid() && store.initial == old(store.initial)
      ensures lastSlot == MarkAll(old(lastSlot), TickSelection(order, data, lastTs, clock.epochMs), clock)
      ensures store.log == old(store.log) + TickCommits(TickSelection(order, data, lastTs, clock.epochMs), old(lastSlot), clock, commitOk)
    {
      ghost var sel := TickSelection(order, data, lastTs, clock.epochMs);
      assert sel == [(DefaultRtuId, CreateZeroData(DefaultRtuId, UnknownCustomer))];
      assert MarkAll(lastSlot, sel, clock) == MarkSlot(lastSlot, DefaultRtuId, clock) by {
        assert sel[1..] == [];
      }
      EmptyRegistryTick(data, lastTs, lastSlot, clock, commitOk);
      SaveActivePower(CreateZeroData(DefaultRtuId, UnknownCustomer), DefaultRtuId, clock, commitOk(DefaultRtuId));
    }

    /** The loop of a tick with RTUs known: each RTU of `order`, in turn, saved with its selected reading. */
    method SaveAll(clock: Clock, commitOk: string -> bool)
      requires store.Valid()
      requires forall i :: 0 <= i < |order| ==> order[i] in data && |data[order[i]]| > 0
      modifies this`lastSlot, store
      ensures store.Valid() && store.initial == old(store.initial)
      ensures lastSlot == MarkAll(old(lastSlot), SelectAll(order, data, lastTs, clock.epochMs), clock)
      ensures store.log == old(store.log) + TickCommits(SelectAll(order, data, lastTs, clock.epochMs), old(lastSlot), clock, commitOk)
    {
      ghost var sel := SelectAll(order, data, lastTs, clock.epochMs);
      for i := 0 to |order|
        invariant store.Valid() && store.initial == old(store.initial)
        invariant MarkAll(old(lastSlot), sel, clock) == MarkAll(lastSlot, sel[i..], clock)
        invariant old(store.log) + TickCommits(sel, old(lastSlot), clock, commitOk)
                  == store.log + TickCommits(sel[i..], lastSlot, clock, commitOk)
      {
        var rtuId := order[i];
        SelectionStep(order, data, lastTs, clock.epochMs, i, lastSlot, clock, commitOk);
        ghost var log := store.log;
        ghost var step := if PowerDue(lastSlot, rtuId, clock) && commitOk(rtuId)
                          then [BatchFor(TenMinutePower, Select(rtuId, data, lastTs, clock.epochMs), rtuId, clock)] else [];
        ghost var rest := TickCommits(sel[i + 1..], MarkSlot(lastSlot, rtuId, clock), clock, commitOk);
        SaveSelected(rtuId, clock, commitOk(rtuId));
        AppendAssociative(log, step, rest);
      }
    }
  }
}
