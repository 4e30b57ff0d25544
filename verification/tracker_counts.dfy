/** What the tracker has on record over every run, in terms of the calls that were made. */
module TrackerCounts {
  import opened IO
  import opened Tracking
  import opened TrackerRuns

  /** The last call of a run was made for this transfer, and was accepted. */
  predicate LastAccepted(events: seq<Event>, retention: int, id: TransferId)
    requires events != []
  {
    var n := |events| - 1;
    var e := events[n];
    && !e.call.Cleanup? && e.call.id == id
    && Step(Run(events[..n], retention), e.call, e.now, retention).error == None
  }

  /** The number given by the last accepted update since the last start; 0 if there was none. */
  function LastCount(events: seq<Event>, retention: int, id: TransferId): int {
    if events == [] then 0
    else
      var n := |events| - 1;
      var call := events[n].call;
      if LastAccepted(events, retention, id) && call.Start? then 0
      else if LastAccepted(events, retention, id) && call.Update? then call.bytes
      else LastCount(events[..n], retention, id)
  }

  /** The size given by the last accepted start or resize. */
  function LastTotal(events: seq<Event>, retention: int, id: TransferId): int {
    if events == [] then 0
    else
      var n := |events| - 1;
      var call := events[n].call;
      if LastAccepted(events, retention, id) && (call.Start? || call.Resize?) then call.total
      else LastTotal(events[..n], retention, id)
  }

  /** The error given by the last accepted failure since the last start. */
  function LastFault(events: seq<Event>, retention: int, id: TransferId): Option<Error> {
    if events == [] then None
    else
      var n := |events| - 1;
      var call := events[n].call;
      if LastAccepted(events, retention, id) && call.Start? then None
      else if LastAccepted(events, retention, id) && call.Fail? then Some(call.error)
      else LastFault(events[..n], retention, id)
  }

  /** Of the starts, updates and resizes that were accepted, the last was an update that reached the size. */
  predicate Reached(events: seq<Event>, retention: int, id: TransferId) {
    if events == [] then false
    else
      var n := |events| - 1;
      var call := events[n].call;
      if LastAccepted(events, retention, id) && call.Update? then
        0 < LastTotal(events[..n], retention, id) <= call.bytes
      else
        !(LastAccepted(events, retention, id) && (call.Start? || call.Resize?)) && Reached(events[..n], retention, id)
  }

  /** A count in percent of a size, if there is one. */
  function Percent(count: int, total: int): real {
    if total > 0 then count as real * 100.0 / total as real else 0.0
  }

  predicate OnRecord(r: Record, count: int, total: int, reached: bool, fault: Option<Error>) {
    && r.transferred == count && r.total == total && r.error == fault
    && r.percentage == if reached then 100.0 else Percent(count, total)
  }

  lemma ShareInPercent(count: int, total: int)
    requires total > 0
    ensures count as real / total as real * 100.0 == Percent(count, total)
  {
    var q := count as real / total as real;
    assert q * total as real == count as real;
    assert (q * 100.0) * total as real == count as real * 100.0;
  }

  /** What one accepted call does to the numbers on record. */
  lemma Recorded(call: Call, r: Record, now: int)
    requires !call.Cleanup?
    ensures var e := EffectOf(call, r, now);
            if e.error.Some? then e.record == r
            else match call
              case Start(_, total) => OnRecord(e.record, 0, total, false, None)
              case Update(_, bytes) => OnRecord(e.record, bytes, r.total, 0 < r.total <= bytes, r.error)
              case Resize(_, total) => OnRecord(e.record, r.transferred, total, false, r.error)
              case Fail(_, error) =>
                e.record.(status := r.status, lastUpdate := r.lastUpdate, error := r.error) == r
                && e.record.error == Some(error)
              case _ => e.record.(status := r.status, lastUpdate := r.lastUpdate) == r
  {
    if call.Resize? && call.total > 0 {
      ShareInPercent(r.transferred, call.total);
    }
  }

  /**
   * In every run: a record holds the number of the last accepted update since its last start, the size
   * of the last start or resize, and the error it was failed with; its percentage is 100 once an update
   * reached the size, and else that number in percent of the size.
   */
  lemma {:induction false} CountsHold(events: seq<Event>, retention: int, id: TransferId)
    ensures var s := Run(events, retention);
            id in s.transfers ==>
              OnRecord(s.transfers[id], LastCount(events, retention, id), LastTotal(events, retention, id),
                       Reached(events, retention, id), LastFault(events, retention, id))
    decreases |events|
  {
    hide EffectOf, Percent;
    if events != [] {
      var n := |events| - 1;
      var e, before := events[n], Run(events[..n], retention);
      CountsHold(events[..n], retention, id);
      if !e.call.Cleanup? && e.call.id == id {
        if id in before.transfers {
          Recorded(e.call, before.transfers[id], e.now);
        } else {
          NothingCounted();
        }
      }
    }
  }

  lemma NothingCounted()
    ensures forall total :: Percent(0, total) == 0.0
  {
    forall total ensures Percent(0, total) == 0.0 {
      assert 0 as real * 100.0 == 0.0;
    }
  }

  // ----- which calls are accepted, and where they lead -----

  /**
   * A call on a transfer that is on record, in terms of the transition table: when it is accepted, and
   * the status it leads to. A call that is not accepted changes and notifies nothing.
   */
  lemma CallsFollowTable(state: State, call: Call, now: int, retention: int)
    requires !call.Cleanup? && call.id in state.transfers
    ensures var reply := Step(state, call, now, retention);
            var from := state.transfers[call.id].status;
            && call.id in reply.state.transfers
            && (reply.error.Some? ==> reply.state == state)
            && (reply.error.None? ==> reply.state.transfers.Keys == state.transfers.Keys)
            && var to := reply.state.transfers[call.id].status;
               match call
               case Start(_, _) =>
                 && (reply.error.None? <==> from == Completed || ValidTransition(from, Initializing))
                 && (reply.error.None? ==> to == Initializing)
               case Update(_, bytes) =>
                 && (reply.error.None? <==> from == Transferring || ValidTransition(from, Transferring))
                 && (reply.error.None? ==>
                       to == if 0 < state.transfers[call.id].total <= bytes then Completed else Transferring)
               case SetStatus(_, status) =>
                 && (reply.error.None? <==> ValidTransition(from, status))
                 && (reply.error.None? ==> to == status)
               case Stop(_) => reply.error.None? && to == if ValidTransition(from, Cancelled) then Cancelled else from
               case Pause(_) =>
                 && (reply.error.None? <==> ValidTransition(from, Paused) && from != Resuming)
                 && (reply.error.None? ==> to == Paused)
               case Resume(_) =>
                 && (reply.error.None? <==> ValidTransition(from, Resuming))
                 && (reply.error.None? ==> to == Resuming)
               case Fail(_, _) =>
                 && (reply.error.None? <==> from == Failed || ValidTransition(from, Failed))
                 && (reply.error.None? ==> to == Failed)
               case Resize(_, _) => reply.error.None? && to == from
  {
    if state.transfers[call.id] == EffectOf(call, state.transfers[call.id], now).record {
      assert state.transfers[call.id := state.transfers[call.id]] == state.transfers;
    }
  }

  /** A call on a transfer that is not on record is accepted exactly if it is a start. */
  lemma UnknownTransfer(state: State, call: Call, now: int, retention: int)
    requires !call.Cleanup? && call.id !in state.transfers
    ensures var reply := Step(state, call, now, retention);
            if call.Start? then reply.error == None && call.id in reply.state.transfers
            else reply == Reply(state, Some(TransferNotFound))
  {
  }

  /** The transition table, read backwards: from where each status is reached. */
  lemma ReachedFrom(from: TransferStatus, to: TransferStatus)
    ensures ValidTransition(from, to) <==>
            match to
            case Initializing => from in {Failed, Cancelled}
            case Transferring => from in {Initializing, Resuming}
            case Paused => from in {Initializing, Transferring, Resuming}
            case Resuming => from == Paused
            case Completed => from == Transferring
            case Failed => from in {Initializing, Transferring, Paused, Resuming}
            case Cancelled => from in {Initializing, Transferring, Paused, Resuming}
  {
  }

  /**
   * Progress is told at the first report that is a step beyond what was told last, and at the one that
   * reaches the size: a step is 10 percent below 1 MiB, 5 below 100 MiB, and 1 from there.
   */
  lemma ProgressTold(state: State, id: TransferId, bytes: int, now: int, retention: int)
    requires id in state.transfers
    requires Step(state, Update(id, bytes), now, retention).error.None?
    ensures var r, after := state.transfers[id], Step(state, Update(id, bytes), now, retention).state;
            var percent := Percent(bytes, r.total);
            var step := if r.total < 0x10_0000 then 10.0 else if r.total < 0x640_0000 then 5.0 else 1.0;
            var due := percent - r.lastNotified >= step || (percent >= 100.0 && !r.completionNotified);
            && id in after.transfers
            && state.notices <= after.notices
            && (due <==> Progress(id, r.total, bytes, percent) in after.notices[|state.notices|..])
            && after.transfers[id].lastNotified == (if due then percent else r.lastNotified)
            && (0 < r.total <= bytes <==> Completion(id, r.total) in after.notices[|state.notices|..])
  {
    hide Percentage;
    SamePercent(bytes, state.transfers[id].total);
    var e := Progressed(id, state.transfers[id], bytes, now);
    var after := Step(state, Update(id, bytes), now, retention).state;
    assert after.notices[|state.notices|..] == e.notices;
  }

  lemma SamePercent(count: int, total: int)
    ensures Percentage(count, total) == Percent(count, total)
  {
  }

  /** After any accepted call but a resize, a transfer that is not over was touched within the last 200 ms. */
  lemma Touched(state: State, call: Call, now: int, retention: int)
    requires !call.Cleanup? && !call.Resize? && Step(state, call, now, retention).error.None?
    ensures var after := Step(state, call, now, retention).state;
            && call.id in after.transfers
            && (now - after.transfers[call.id].lastUpdate <= 200_000_000
                || (call.Stop? && call.id in state.transfers && after.transfers[call.id] == state.transfers[call.id]))
  {
  }

  /** Cleanup drops a record exactly if its transfer is over, and was last touched longer ago than records are kept. */
  lemma CleanupDrops(state: State, id: TransferId, now: int, retention: int)
    requires id in state.transfers
    ensures var after, r := Step(state, Cleanup, now, retention).state, state.transfers[id];
            && (id !in after.transfers <==>
                r.status in {Completed, Failed, Cancelled} && r.lastUpdate + retention < now)
            && (id in after.transfers ==> after.transfers[id] == r)
            && after.notices == state.notices
  {
  }
}
