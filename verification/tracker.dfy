/** The progress tracker: one record per transfer, changed by calls, observed through notices. */
module Tracking {
  import opened IO
  import opened Sizes

  datatype TransferStatus = Initializing | Transferring | Paused | Resuming | Completed | Failed | Cancelled
  {
    predicate Terminal() {
      Completed? || Failed? || Cancelled?
    }
  }

  predicate ValidTransition(from: TransferStatus, to: TransferStatus) {
    match from
    case Initializing => to.Transferring? || to.Paused? || to.Failed? || to.Cancelled?
    case Transferring => to.Paused? || to.Completed? || to.Failed? || to.Cancelled?
    case Paused => to.Resuming? || to.Failed? || to.Cancelled?
    case Resuming => to.Transferring? || to.Paused? || to.Failed? || to.Cancelled?
    case Completed => false
    case Failed => to.Initializing?
    case Cancelled => to.Initializing?
  }

  type TransferId = string

  /** Times are in nanoseconds. */
  datatype Record = Record(
    total: int,
    transferred: int,
    percentage: real,
    status: TransferStatus,
    startTime: int,
    lastUpdate: int,
    lastNotified: real,
    completionNotified: bool,
    error: Option<Error>)

  datatype Notice =
    | StatusChange(id: TransferId, from: TransferStatus, to: TransferStatus)
    | Progress(id: TransferId, total: int, transferred: int, percentage: real)
    | Failure(id: TransferId, error: Error)
    | Completion(id: TransferId, total: int)

  datatype TrackerError =
    | TransferNotFound
    | TransferAlreadyActive
    | TransferPaused
    | TransferCancelled
    | TransferFailed
    | TransferCompleted
    | CannotPause
    | CannotResume
    | CannotMarkFailed
    | InvalidStatusTransition

  const SPEED_INTERVAL := 200_000_000

  // ----- what each call does to one record -----

  datatype Effect = Effect(record: Record, notices: seq<Notice>, error: Option<TrackerError>)

  function Refused(r: Record, error: TrackerError): Effect {
    Effect(r, [], Some(error))
  }

  /** A plain status change at a time. */
  function Moved(id: TransferId, r: Record, to: TransferStatus, now: int): Effect {
    Effect(r.(status := to, lastUpdate := now), [StatusChange(id, r.status, to)], None)
  }

  function NewRecord(total: int, now: int): Record {
    Record(total, 0, 0.0, Initializing, now, now, 0.0, false, None)
  }

  /** A record that has ended may be started again; its old status is always notified as Cancelled. */
  function Restarted(id: TransferId, r: Record, total: int, now: int): Effect {
    if r.status.Terminal() then
      Effect(NewRecord(total, now), [StatusChange(id, Cancelled, Initializing)], None)
    else Refused(r, TransferAlreadyActive)
  }

  function Percentage(transferred: int, total: int): real {
    if total > 0 then transferred as real * 100.0 / total as real else 0.0
  }

  function NoticeThreshold(total: int): real {
    if total < 1024 * KB then 10.0 else if total < 100 * 1024 * KB then 5.0 else 1.0
  }

  predicate NoticeDue(r: Record) {
    || r.percentage - r.lastNotified >= NoticeThreshold(r.total)
    || (r.percentage >= 100.0 && !r.completionNotified)
  }

  /** The record with its bytes counted, before any notice of them. */
  function Counted(r: Record, bytes: int, now: int): Record {
    r.(status := Transferring, transferred := bytes, percentage := Percentage(bytes, r.total),
       lastUpdate := if now - r.lastUpdate > SPEED_INTERVAL then now else r.lastUpdate)
  }

  function Progressed(id: TransferId, r: Record, bytes: int, now: int): Effect {
    match r.status
    case Paused => Refused(r, TransferPaused)
    case Cancelled => Refused(r, TransferCancelled)
    case Failed => Refused(r, TransferFailed)
    case Completed => Refused(r, TransferCompleted)
    case _ =>
      var begun := if r.status.Transferring? then [] else [StatusChange(id, r.status, Transferring)];
      var counted := Counted(r, bytes, now);
      var told := if NoticeDue(counted) then [Progress(id, r.total, bytes, counted.percentage)] else [];
      var noted := if NoticeDue(counted) then counted.(lastNotified := counted.percentage) else counted;
      if bytes >= r.total > 0 then
        Effect(
          noted.(status := Completed, percentage := 100.0, completionNotified := true),
          begun + told + [StatusChange(id, Transferring, Completed), Completion(id, r.total)],
          None)
      else Effect(noted, begun + told, None)
  }

  function StatusSet(id: TransferId, r: Record, to: TransferStatus, now: int): Effect {
    if ValidTransition(r.status, to) then Moved(id, r, to, now) else Refused(r, InvalidStatusTransition)
  }

  function Stopped(id: TransferId, r: Record, now: int): Effect {
    if r.status.Completed? || r.status.Failed? then Effect(r, [], None) else Moved(id, r, Cancelled, now)
  }

  function PausedBy(id: TransferId, r: Record, now: int): Effect {
    if r.status.Transferring? || r.status.Initializing? then Moved(id, r, Paused, now) else Refused(r, CannotPause)
  }

  function ResumedBy(id: TransferId, r: Record, now: int): Effect {
    if r.status.Paused? then Moved(id, r, Resuming, now) else Refused(r, CannotResume)
  }

  function FailedBy(id: TransferId, r: Record, error: Error, now: int): Effect {
    if r.status.Completed? || r.status.Cancelled? then Refused(r, CannotMarkFailed)
    else
      var moved := Moved(id, r, Failed, now);
      Effect(moved.record.(error := Some(error)), moved.notices + [Failure(id, error)], None)
  }

  function Resized(r: Record, total: int): Effect {
    Effect(r.(total := total, percentage := if total > 0 then r.transferred as real / total as real * 100.0 else 0.0),
           [], None)
  }

  predicate Expired(r: Record, now: int, retention: int) {
    r.status.Terminal() && now - r.lastUpdate > retention
  }

  // ----- calls on the whole tracker -----

  datatype Call =
    | Start(id: TransferId, total: int)
    | Update(id: TransferId, bytes: int)
    | SetStatus(id: TransferId, status: TransferStatus)
    | Stop(id: TransferId)
    | Pause(id: TransferId)
    | Resume(id: TransferId)
    | Fail(id: TransferId, error: Error)
    | Resize(id: TransferId, total: int)
    | Cleanup

  datatype State = State(transfers: map<TransferId, Record>, notices: seq<Notice>)

  datatype Reply = Reply(state: State, error: Option<TrackerError>)

  function EffectOf(call: Call, r: Record, now: int): Effect
    requires !call.Cleanup?
  {
    match call
    case Start(id, total) => Restarted(id, r, total, now)
    case Update(id, bytes) => Progressed(id, r, bytes, now)
    case SetStatus(id, status) => StatusSet(id, r, status, now)
    case Stop(id) => Stopped(id, r, now)
    case Pause(id) => PausedBy(id, r, now)
    case Resume(id) => ResumedBy(id, r, now)
    case Fail(id, error) => FailedBy(id, r, error, now)
    case Resize(id, total) => Resized(r, total)
  }

  /** One call at one time. Cleanup drops the records that ended longer than `retention` ago. */
  function Step(state: State, call: Call, now: int, retention: int): Reply {
    if call.Cleanup? then
      Reply(State(map id | id in state.transfers && !Expired(state.transfers[id], now, retention) :: state.transfers[id],
                  state.notices), None)
    else if call.id in state.transfers then
      var e := EffectOf(call, state.transfers[call.id], now);
      Reply(State(state.transfers[call.id := e.record], state.notices + e.notices), e.error)
    else if call.Start? then
      Reply(State(state.transfers[call.id := NewRecord(call.total, now)],
                  state.notices + [StatusChange(call.id, Initializing, Initializing)]), None)
    else Reply(state, Some(TransferNotFound))
  }

  /** The part of UpdateProgress that follows its status check. */
  method Advance(id: TransferId, before: Record, bytes: int, now: int) returns (record: Record, raised: seq<Notice>)
    requires before.status.Initializing? || before.status.Transferring? || before.status.Resuming?
    ensures Progressed(id, before, bytes, now) == Effect(record, raised, None)
  {
    record, raised := before, [];
    if !record.status.Transferring? {
      raised := raised + [StatusChange(id, record.status, Transferring)];
      record := record.(status := Transferring);
    }
    record := record.(transferred := bytes, percentage := Percentage(bytes, record.total));
    if now - record.lastUpdate > SPEED_INTERVAL {
      record := record.(lastUpdate := now);
    }
    if NoticeDue(record) {
      raised := raised + [Progress(id, record.total, record.transferred, record.percentage)];
      record := record.(lastNotified := record.percentage);
    }
    if bytes >= record.total > 0 {
      raised := raised + [StatusChange(id, record.status, Completed), Completion(id, record.total)];
      record := record.(status := Completed, percentage := 100.0, completionNotified := true);
    }
  }

  // ----- the tracker object -----

  class ProgressTracker {
    var transfers: map<TransferId, Record>
    var notices: seq<Notice>
    const retention: int

    constructor (retention: int)
      ensures transfers == map[] && notices == [] && this.retention == retention
    {
      transfers, notices, this.retention := map[], [], retention;
    }

    ghost function Now(): State
      reads this
    {
      State(transfers, notices)
    }

    method StartTracking(id: TransferId, total: int, now: int) returns (error: Option<TrackerError>)
      modifies this
      ensures Step(old(Now()), Start(id, total), now, retention) == Reply(Now(), error)
    {
      if id in transfers {
        var record := transfers[id];
        if !record.status.Terminal() {
          return Some(TransferAlreadyActive);
        }
        transfers := transfers[id := NewRecord(total, now)];
        notices := notices + [StatusChange(id, Cancelled, Initializing)];
        return None;
      }
      transfers := transfers[id := NewRecord(total, now)];
      notices := notices + [StatusChange(id, Initializing, Initializing)];
      return None;
    }

    method UpdateProgress(id: TransferId, bytes: int, now: int) returns (error: Option<TrackerError>)
      modifies this
      ensures Step(old(Now()), Update(id, bytes), now, retention) == Reply(Now(), error)
    {
      if id !in transfers {
        return Some(TransferNotFound);
      }
      var record := transfers[id];
      match record.status {
        case Paused => return Some(TransferPaused);
        case Cancelled => return Some(TransferCancelled);
        case Failed => return Some(TransferFailed);
        case Completed => return Some(TransferCompleted);
        case _ =>
      }
      var raised;
      record, raised := Advance(id, record, bytes, now);
      transfers, notices := transfers[id := record], notices + raised;
      return None;
    }

    method UpdateStatus(id: TransferId, status: TransferStatus, now: int) returns (error: Option<TrackerError>)
      modifies this
      ensures Step(old(Now()), SetStatus(id, status), now, retention) == Reply(Now(), error)
    {
      if id !in transfers {
        return Some(TransferNotFound);
      }
      if !ValidTransition(transfers[id].status, status) {
        return Some(InvalidStatusTransition);
      }
      ChangeStatus(id, status, now);
      return None;
    }

    method StopTracking(id: TransferId, now: int) returns (error: Option<TrackerError>)
      modifies this
      ensures Step(old(Now()), Stop(id), now, retention) == Reply(Now(), error)
    {
      if id !in transfers {
        return Some(TransferNotFound);
      }
      if !transfers[id].status.Completed? && !transfers[id].status.Failed? {
        ChangeStatus(id, Cancelled, now);
      }
      return None;
    }

    method PauseTracking(id: TransferId, now: int) returns (error: Option<TrackerError>)
      modifies this
      ensures Step(old(Now()), Pause(id), now, retention) == Reply(Now(), error)
    {
      if id !in transfers {
        return Some(TransferNotFound);
      }
      if !transfers[id].status.Transferring? && !transfers[id].status.Initializing? {
        return Some(CannotPause);
      }
      ChangeStatus(id, Paused, now);
      return None;
    }

    method ResumeTracking(id: TransferId, now: int) returns (error: Option<TrackerError>)
      modifies this
      ensures Step(old(Now()), Resume(id), now, retention) == Reply(Now(), error)
    {
      if id !in transfers {
        return Some(TransferNotFound);
      }
      if !transfers[id].status.Paused? {
        return Some(CannotResume);
      }
      ChangeStatus(id, Resuming, now);
      return None;
    }

    method MarkFailed(id: TransferId, cause: Error, now: int) returns (error: Option<TrackerError>)
      modifies this
      ensures Step(old(Now()), Fail(id, cause), now, retention) == Reply(Now(), error)
    {
      if id !in transfers {
        return Some(TransferNotFound);
      }
      if transfers[id].status.Completed? || transfers[id].status.Cancelled? {
        return Some(CannotMarkFailed);
      }
      ChangeStatus(id, Failed, now);
      transfers := transfers[id := transfers[id].(error := Some(cause))];
      notices := notices + [Failure(id, cause)];
      return None;
    }

    method UpdateTotalSize(id: TransferId, total: int) returns (error: Option<TrackerError>)
      modifies this
      ensures Step(old(Now()), Resize(id, total), 0, retention) == Reply(Now(), error)
    {
      if id !in transfers {
        return Some(TransferNotFound);
      }
      var record := transfers[id].(total := total);
      if record.total > 0 {
        record := record.(percentage := record.transferred as real / record.total as real * 100.0);
      } else {
        record := record.(percentage := 0.0);
      }
      transfers := transfers[id := record];
      return None;
    }

    /** One tick of the cleanup routine. */
    method CleanupTick(now: int)
      modifies this
      ensures Step(old(Now()), Cleanup, now, retention) == Reply(Now(), None)
    {
      var ids := transfers.Keys;
      while ids != {}
        invariant ids <= old(transfers).Keys
        invariant notices == old(notices)
        invariant forall id :: id in ids ==> id in transfers
        invariant forall id :: id in transfers ==> id in old(transfers) && transfers[id] == old(transfers)[id]
        invariant forall id :: id in old(transfers) && id !in ids ==>
                    (id in transfers <==> !Expired(old(transfers)[id], now, retention))
        decreases ids
      {
        var id :| id in ids;
        if Expired(transfers[id], now, retention) {
          transfers := transfers - {id};
        }
        ids := ids - {id};
      }
    }

    /** The change of status that most calls share: the record, its time and the notice. */
    method ChangeStatus(id: TransferId, to: TransferStatus, now: int)
      requires id in transfers
      modifies this
      ensures var e := Moved(id, old(transfers)[id], to, now);
              transfers == old(transfers)[id := e.record] && notices == old(notices) + e.notices
    {
      var record := transfers[id];
      notices := notices + [StatusChange(id, record.status, to)];
      transfers := transfers[id := record.(status := to, lastUpdate := now)];
    }
  }
}
