/** What holds over every run of tracker calls, whatever the calls and their times. */
module TrackerRuns {
  import opened IO
  import opened Tracking

  datatype Event = Event(call: Call, now: int)

  function Run(events: seq<Event>, retention: int): State {
    if events == [] then State(map[], [])
    else
      var last := events[|events| - 1];
      Step(Run(events[..|events| - 1], retention), last.call, last.now, retention).state
  }

  lemma RunStep(events: seq<Event>, k: nat, retention: int)
    requires k < |events|
    ensures Run(events[..k + 1], retention) ==
            Step(Run(events[..k], retention), events[k].call, events[k].now, retention).state
  {
    assert events[..k + 1][..k] == events[..k];
  }

  /**
   * The notices tell a path through the transition table from one status to another: each names the
   * status the previous one left, and moves along an edge or repeats the status.
   */
  predicate Path(from: TransferStatus, notices: seq<Notice>, to: TransferStatus)
    decreases |notices|
  {
    if notices == [] then from == to
    else if notices[0].StatusChange? then
      && notices[0].from == from
      && (notices[0].to == from || ValidTransition(from, notices[0].to))
      && Path(notices[0].to, notices[1..], to)
    else Path(from, notices[1..], to)
  }

  /**
   * A call takes a transfer along one edge of the table, or along none, exactly if it is not a start
   * of a completed one. Only an update may take two edges; its notices name both.
   */
  predicate EdgesTaken(call: Call, from: TransferStatus, to: TransferStatus) {
    !call.Update? ==> (from == to || ValidTransition(from, to) <==> !(call.Start? && from.Completed?))
  }

  /** The notices tell the path taken, exactly if the call is not a start of a completed or failed transfer. */
  predicate Told(call: Call, from: TransferStatus, raised: seq<Notice>, to: TransferStatus) {
    Path(from, raised, to) <==> !(call.Start? && (from.Completed? || from.Failed?))
  }

  /** What a single call may do to one transfer, given the notices it raised. */
  predicate Allowed(before: State, e: Event, retention: int, raised: seq<Notice>, after: State, id: TransferId) {
    if id in before.transfers && id in after.transfers then
      var from, to := before.transfers[id].status, after.transfers[id].status;
      if e.call.Cleanup? || e.call.id != id then after.transfers[id] == before.transfers[id]
      else EdgesTaken(e.call, from, to) && Told(e.call, from, raised, to)
    else if id in before.transfers then
      e.call.Cleanup? && Expired(before.transfers[id], e.now, retention)
    else if id in after.transfers then
      e.call.Start? && e.call.id == id && after.transfers[id] == NewRecord(e.call.total, e.now)
    else true
  }

  /**
   * In every run, each call moves each transfer along edges of the transition table, unless it
   * starts a completed transfer again, and notifies the edges taken, unless it starts a completed or
   * a failed one again. Both exceptions are exact. Records appear only by a start and vanish only by
   * cleanup, which takes none that is still active.
   */
  lemma RunEdges(events: seq<Event>, k: nat, retention: int, id: TransferId)
    requires k < |events|
    ensures var before, after := Run(events[..k], retention), Run(events[..k + 1], retention);
            && before.notices <= after.notices
            && Allowed(before, events[k], retention, after.notices[|before.notices|..], after, id)
  {
    RunStep(events, k, retention);
    var state := Run(events[..k], retention);
    var call := events[k].call;
    if !call.Cleanup? && call.id in state.transfers {
      var e := EffectOf(call, state.transfers[call.id], events[k].now);
      assert (state.notices + e.notices)[|state.notices|..] == e.notices;
      EffectPath(call, state.transfers[call.id], events[k].now);
    }
  }

  lemma EffectPath(call: Call, r: Record, now: int)
    requires !call.Cleanup?
    ensures var e := EffectOf(call, r, now);
            EdgesTaken(call, r.status, e.record.status) && Told(call, r.status, e.notices, e.record.status)
  {
    if call.Update? && (r.status.Initializing? || r.status.Transferring? || r.status.Resuming?) {
      UpdatePath(call.id, r, call.bytes, now);
    } else if call.Fail? {
      var e := EffectOf(call, r, now);
      assert |e.notices| > 0 ==> Path(Failed, e.notices[1..], Failed);
    }
  }

  lemma {:induction false} PathAppend(a: TransferStatus, p: seq<Notice>, b: TransferStatus, q: seq<Notice>, c: TransferStatus)
    requires Path(a, p, b) && Path(b, q, c)
    ensures Path(a, p + q, c)
    decreases |p|
  {
    if p == [] {
      assert p + q == q;
    } else {
      assert (p + q)[1..] == p[1..] + q;
      PathAppend(if p[0].StatusChange? then p[0].to else a, p[1..], b, q, c);
    }
  }

  lemma PathOfOne(from: TransferStatus, p: seq<Notice>, to: TransferStatus)
    requires |p| <= 1
    requires if p != [] && p[0].StatusChange? then p[0].from == from && p[0].to == to && ValidTransition(from, to) else from == to
    ensures Path(from, p, to)
  {
  }

  lemma PathOfEnd(p: seq<Notice>, to: TransferStatus)
    requires if to.Transferring? then p == []
             else to.Completed? && |p| == 2 && p[0] == StatusChange(p[0].id, Transferring, Completed) && p[1].Completion?
    ensures Path(Transferring, p, to)
  {
    if p != [] {
      assert Path(Completed, p[1..], Completed);
    }
  }

  /** An update that begins a transfer, tells its progress and completes it does so in this order. */
  lemma UpdateParts(id: TransferId, r: Record, bytes: int, now: int)
    returns (begun: seq<Notice>, told: seq<Notice>, ended: seq<Notice>)
    requires r.status.Initializing? || r.status.Transferring? || r.status.Resuming?
    ensures begun == if r.status.Transferring? then [] else [StatusChange(id, r.status, Transferring)]
    ensures told == [] || (|told| == 1 && told[0].Progress?)
    ensures ended == if bytes >= r.total > 0 then [StatusChange(id, Transferring, Completed), Completion(id, r.total)] else []
    ensures var e := Progressed(id, r, bytes, now);
            && e.notices == begun + told + ended
            && e.record.status == (if bytes >= r.total > 0 then Completed else Transferring)
            && (bytes >= r.total > 0 ==> e.record.completionNotified)
  {
    hide Percentage, NoticeThreshold, NoticeDue;
    var counted := Counted(r, bytes, now);
    begun := if r.status.Transferring? then [] else [StatusChange(id, r.status, Transferring)];
    ended := if bytes >= r.total > 0 then [StatusChange(id, Transferring, Completed), Completion(id, r.total)] else [];
    told := if NoticeDue(counted) then [Progress(id, r.total, bytes, counted.percentage)] else [];
    assert begun + told + [] == begun + told;
  }

  lemma UpdatePath(id: TransferId, r: Record, bytes: int, now: int)
    requires r.status.Initializing? || r.status.Transferring? || r.status.Resuming?
    ensures var e := Progressed(id, r, bytes, now);
            Path(r.status, e.notices, e.record.status)
  {
    hide Progressed, Path;
    var to := Progressed(id, r, bytes, now).record.status;
    var begun, told, ended := UpdateParts(id, r, bytes, now);
    PathOfOne(r.status, begun, Transferring);
    PathOfOne(Transferring, told, Transferring);
    PathOfEnd(ended, to);
    PathAppend(r.status, begun, Transferring, told, Transferring);
    PathAppend(r.status, begun + told, Transferring, ended, to);
  }

  /** Completed is left only by a start of that transfer, or by cleanup. */
  lemma CompletedStays(events: seq<Event>, k: nat, retention: int, id: TransferId)
    requires k < |events|
    requires var before := Run(events[..k], retention);
             id in before.transfers && before.transfers[id].status.Completed?
    ensures var after := Run(events[..k + 1], retention);
            if id in after.transfers then
              after.transfers[id].status.Completed? || (events[k].call.Start? && events[k].call.id == id)
            else events[k].call.Cleanup?
  {
    RunStep(events, k, retention);
  }

  // ----- completion -----

  /** How often the completion of a transfer was announced. */
  function Completions(notices: seq<Notice>, id: TransferId): nat {
    if notices == [] then 0
    else
      (if notices[|notices| - 1].Completion? && notices[|notices| - 1].id == id then 1 else 0)
      + Completions(notices[..|notices| - 1], id)
  }

  lemma {:induction false} CompletionsAppend(a: seq<Notice>, b: seq<Notice>, id: TransferId)
    ensures Completions(a + b, id) == Completions(a, id) + Completions(b, id)
  {
    if b == [] {
      assert a + b == a;
    } else {
      assert (a + b)[..|a + b| - 1] == a + b[..|b| - 1];
      CompletionsAppend(a, b[..|b| - 1], id);
    }
  }

  /** How often StartTracking succeeded for a transfer. */
  function Starts(events: seq<Event>, retention: int, id: TransferId): nat {
    if events == [] then 0
    else
      var before, last := events[..|events| - 1], events[|events| - 1];
      var started := last.call.Start? && last.call.id == id
                     && Step(Run(before, retention), last.call, last.now, retention).error == None;
      (if started then 1 else 0) + Starts(before, retention, id)
  }

  lemma {:induction false} NoCompletion(notices: seq<Notice>, id: TransferId)
    requires forall n :: n in notices ==> !(n.Completion? && n.id == id)
    ensures Completions(notices, id) == 0
  {
    if notices != [] {
      NoCompletion(notices[..|notices| - 1], id);
    }
  }

  /** A call announces a completion only while it moves its own transfer to Completed, and only once. */
  lemma EffectCompletes(call: Call, r: Record, now: int, id: TransferId)
    requires !call.Cleanup?
    ensures var e := EffectOf(call, r, now);
            var completes := call.id == id && !r.status.Completed? && e.record.status.Completed? && e.record.completionNotified;
            Completions(e.notices, id) == 0 || (Completions(e.notices, id) == 1 && completes)
  {
    hide Completions, Progressed;
    if call.Update? && (r.status.Initializing? || r.status.Transferring? || r.status.Resuming?) {
      var begun, told, ended := UpdateParts(call.id, r, call.bytes, now);
      NoCompletion(begun + told, id);
      CompletionsAppend(begun + told, ended, id);
      EndCompletions(ended, call.id, id);
    } else {
      RaisesNone(call, r, now);
      NoCompletion(EffectOf(call, r, now).notices, id);
    }
  }

  lemma RaisesNone(call: Call, r: Record, now: int)
    requires !call.Cleanup?
    requires !(call.Update? && (r.status.Initializing? || r.status.Transferring? || r.status.Resuming?))
    ensures forall n :: n in EffectOf(call, r, now).notices ==> !n.Completion?
  {
  }

  lemma EndCompletions(ended: seq<Notice>, own: TransferId, id: TransferId)
    requires ended == [] || (|ended| == 2 && ended[0].StatusChange? && ended[1].Completion? && ended[1].id == own)
    ensures Completions(ended, id) == if ended != [] && own == id then 1 else 0
  {
    if ended != [] {
      NoCompletion(ended[..1], id);
    }
  }

  /** The mark of an announced record: only a start takes it off, and only completing puts it on. */
  lemma EffectMarks(call: Call, r: Record, now: int)
    requires !call.Cleanup? && (r.completionNotified ==> r.status.Completed?)
    ensures var e := EffectOf(call, r, now);
            && (e.record.completionNotified ==> e.record.status.Completed?)
            && (if call.Start? && e.error == None then !e.record.completionNotified
                else r.completionNotified ==> e.record.completionNotified)
  {
  }

  /** At most one announcement per start, and an announced record is completed. */
  predicate Once(state: State, starts: nat, id: TransferId) {
    && Completions(state.notices, id) <= starts
    && (id in state.transfers ==>
          if state.transfers[id].completionNotified then state.transfers[id].status.Completed?
          else Completions(state.notices, id) < starts)
  }

  lemma OnceStep(state: State, e: Event, retention: int, starts: nat, id: TransferId)
    requires Once(state, starts, id)
    ensures var r := Step(state, e.call, e.now, retention);
            var started := e.call.Start? && e.call.id == id && r.error == None;
            Once(r.state, if started then starts + 1 else starts, id)
  {
    hide EffectOf, Completions;
    if e.call.Cleanup? {
    } else if e.call.id in state.transfers {
      var r := state.transfers[e.call.id];
      var effect := EffectOf(e.call, r, e.now);
      EffectCompletes(e.call, r, e.now, id);
      if e.call.id == id {
        EffectMarks(e.call, r, e.now);
      }
      CompletionsAppend(state.notices, effect.notices, id);
    } else if e.call.Start? {
      var raised := [StatusChange(e.call.id, Initializing, Initializing)];
      CompletionsAppend(state.notices, raised, id);
      NoCompletion(raised, id);
    }
  }

  /**
   * In every run: a record marked as announced is completed, and the completion of a transfer is
   * announced at most once for each time it was started.
   */
  lemma {:induction false} CompletionOnce(events: seq<Event>, retention: int, id: TransferId)
    ensures Once(Run(events, retention), Starts(events, retention, id), id)
  {
    if events == [] {
    } else {
      var before, last := events[..|events| - 1], events[|events| - 1];
      CompletionOnce(before, retention, id);
      OnceStep(Run(before, retention), last, retention, Starts(before, retention, id), id);
    }
  }
}
