/**
 * The listener: a bounded queue of incoming streams between a handler and Accept, closed by hand or
 * by an idle watchdog. Goroutines interleave between atomic steps; every method is one such step.
 */
module Listening {
  import opened IO

  type Stream = int

  /** A stream that reached the handler, and whether the handler queued it. */
  datatype Arrival = Arrival(stream: Stream, queued: bool)

  /**
   * The watchdog between two of its steps. While Holding it has read the counters but not yet acted
   * on them; while Exiting it has set the closed flag but not yet cancelled.
   */
  datatype Watchdog =
    | Off
    | Starting
    | Idle(lastAccepted: nat, lastDropped: nat, lastActivity: int)
    | Holding(lastAccepted: nat, lastDropped: nat, lastActivity: int, accepted: nat, dropped: nat)
    | Exiting
    | Stopped

  /**
   * The state of a listener. Besides its queue, flags, counters and watchdog it has the Accept calls
   * that passed their check of the closed flag (`waiting`), those that now block in their select
   * (`parked`), the streams taken or refused but not yet counted, and the history: arrivals,
   * deliveries, and the times at which something was counted.
   */
  datatype State = State(
    queue: seq<Stream>,
    closed: bool,
    cancelled: bool,
    accepted: nat,
    dropped: nat,
    waiting: nat,
    parked: nat,
    taken: nat,
    refused: nat,
    watchdog: Watchdog,
    clock: int,
    arrivals: seq<Arrival>,
    delivered: seq<Stream>,
    counted: seq<int>)

  datatype Options = Options(bufferSize: nat, idleTimeout: int)

  datatype Event =
    | Enqueue(stream: Stream)
    | Refuse(stream: Stream)
    | CountDrop
    | EnterAccept
    | Park
    | Dequeue
    | LeaveAccept
    | CountAccept
    | SetClosed
    | Cancel
    | StartWatchdog
    | Snapshot
    | Decide
    | StopWatchdog
    | Tick(now: int)

  function Initial(options: Options, clock: int): State {
    State([], false, false, 0, 0, 0, 0, 0, 0, if options.idleTimeout > 0 then Starting else Off, clock, [], [], [])
  }

  /** A watchdog that saw no new count for longer than the timeout closes the listener. */
  predicate TimesOut(options: Options, w: Watchdog, now: int) {
    && w.Holding?
    && w.accepted <= w.lastAccepted && w.dropped <= w.lastDropped
    && now - w.lastActivity > options.idleTimeout
  }

  /** A stream can be sent: to an Accept that blocks, or into the queue. Without a queue only the former. */
  predicate CanSend(options: Options, s: State) {
    s.parked > 0 || |s.queue| < options.bufferSize
  }

  predicate Enabled(options: Options, s: State, e: Event) {
    match e
    case Enqueue(_) => CanSend(options, s)
    case Refuse(_) => s.cancelled || !CanSend(options, s)
    case CountDrop => s.refused > 0
    case EnterAccept => !s.closed
    case Park => s.waiting > 0 && s.queue == [] && !s.cancelled
    case Dequeue => s.waiting > 0 && s.queue != []
    case LeaveAccept => s.waiting > 0 && s.cancelled
    case CountAccept => s.taken > 0
    case SetClosed => !s.closed
    case Cancel => s.closed
    case StartWatchdog => s.watchdog.Starting?
    case Snapshot => s.watchdog.Idle?
    case Decide => s.watchdog.Holding?
    case StopWatchdog => (s.watchdog.Idle? && s.cancelled) || s.watchdog.Exiting?
    case Tick(now) => s.clock <= now
  }

  /** Cancelling ends the Accept calls that block. */
  function Cancelled(s: State): State {
    s.(cancelled := true, parked := 0)
  }

  function Next(options: Options, s: State, e: Event): State
    requires Enabled(options, s, e)
  {
    match e
    case Enqueue(stream) =>
      var t := s.(arrivals := s.arrivals + [Arrival(stream, true)]);
      if s.parked > 0 then t.(parked := s.parked - 1, taken := s.taken + 1, delivered := s.delivered + [stream])
      else t.(queue := s.queue + [stream])
    case Refuse(stream) => s.(refused := s.refused + 1, arrivals := s.arrivals + [Arrival(stream, false)])
    case CountDrop => s.(refused := s.refused - 1, dropped := s.dropped + 1, counted := s.counted + [s.clock])
    case EnterAccept => s.(waiting := s.waiting + 1)
    case Park => s.(waiting := s.waiting - 1, parked := s.parked + 1)
    case Dequeue => s.(waiting := s.waiting - 1, queue := s.queue[1..], taken := s.taken + 1,
                       delivered := s.delivered + [s.queue[0]])
    case LeaveAccept => s.(waiting := s.waiting - 1)
    case CountAccept => s.(taken := s.taken - 1, accepted := s.accepted + 1, counted := s.counted + [s.clock])
    case SetClosed => s.(closed := true)
    case Cancel => Cancelled(s)
    case StartWatchdog => s.(watchdog := Idle(0, 0, s.clock))
    case Snapshot =>
      var w := s.watchdog;
      s.(watchdog := Holding(w.lastAccepted, w.lastDropped, w.lastActivity, s.accepted, s.dropped))
    case Decide =>
      var w := s.watchdog;
      if w.accepted > w.lastAccepted || w.dropped > w.lastDropped then
        s.(watchdog := Idle(w.accepted, w.dropped, s.clock))
      else if TimesOut(options, w, s.clock) then s.(closed := true, watchdog := Exiting)
      else s.(watchdog := Idle(w.lastAccepted, w.lastDropped, w.lastActivity))
    case StopWatchdog => Cancelled(s).(watchdog := Stopped)
    case Tick(now) => s.(clock := now)
  }

  // ----- what holds in every reachable state -----

  function Queued(arrivals: seq<Arrival>): seq<Stream> {
    if arrivals == [] then []
    else
      var last := arrivals[|arrivals| - 1];
      Queued(arrivals[..|arrivals| - 1]) + if last.queued then [last.stream] else []
  }

  /**
   * Arrivals that were sent on are exactly those delivered, in order, followed by those in the queue;
   * no Accept blocks beside a stream in the queue.
   */
  predicate InOrder(s: State) {
    && Queued(s.arrivals) == s.delivered + s.queue
    && (s.parked > 0 ==> s.queue == [])
  }

  /** The queue keeps its bound, and every arrival is in exactly one account. */
  predicate Balanced(options: Options, s: State) {
    && |s.queue| <= options.bufferSize
    && |s.delivered| == s.accepted + s.taken
    && |s.arrivals| == s.accepted + s.taken + |s.queue| + s.dropped + s.refused
  }

  /** Nothing is cancelled before it is closed, and no Accept blocks after that. */
  predicate ClosesFirst(s: State) {
    && (s.cancelled ==> s.closed && s.parked == 0)
    && (s.watchdog.Exiting? || s.watchdog.Stopped? ==> s.closed)
  }

  /** Every count is on record, in the past. */
  predicate Recorded(s: State) {
    && |s.counted| == s.accepted + s.dropped
    && (forall i :: 0 <= i < |s.counted| ==> s.counted[i] <= s.clock)
  }

  /** The first n counts do not lie behind this time. */
  predicate NoneAfter(counted: seq<int>, n: nat, time: int) {
    n <= |counted| && forall i :: 0 <= i < n ==> counted[i] <= time
  }

  lemma NoneAfterMore(counted: seq<int>, n: nat, time: int, now: int)
    requires NoneAfter(counted, n, time)
    ensures NoneAfter(counted + [now], n, time)
  {
  }

  lemma NoneAfterNow(s: State, n: nat)
    requires Recorded(s) && n <= |s.counted|
    ensures NoneAfter(s.counted, n, s.clock)
  {
  }

  /** The counts that the watchdog has seen do not lie behind the activity it remembers. */
  predicate WatchdogKnows(s: State) {
    s.watchdog.Idle? || s.watchdog.Holding? ==>
      var w := s.watchdog;
      && w.lastAccepted <= s.accepted && w.lastDropped <= s.dropped
      && NoneAfter(s.counted, w.lastAccepted + w.lastDropped, w.lastActivity)
      && (w.Holding? ==> w.lastAccepted <= w.accepted <= s.accepted && w.lastDropped <= w.dropped <= s.dropped)
  }

  predicate Inv(options: Options, s: State) {
    InOrder(s) && Balanced(options, s) && ClosesFirst(s) && Recorded(s) && WatchdogKnows(s)
  }

  lemma QueuedAppend(arrivals: seq<Arrival>, a: Arrival)
    ensures Queued(arrivals + [a]) == Queued(arrivals) + if a.queued then [a.stream] else []
  {
    assert (arrivals + [a])[..|arrivals|] == arrivals;
  }

  lemma SentOn(delivered: seq<Stream>, queue: seq<Stream>, stream: Stream)
    ensures delivered + queue + [stream] == delivered + (queue + [stream])
    ensures queue == [] ==> delivered + queue + [stream] == delivered + [stream] + queue
    ensures queue != [] ==> delivered + queue == delivered + [queue[0]] + queue[1..]
    ensures delivered + queue + [] == delivered + queue
  {
  }

  lemma OrderHolds(options: Options, s: State, e: Event)
    requires InOrder(s) && Enabled(options, s, e)
    ensures InOrder(Next(options, s, e))
  {
    hide Queued;
    if e.Enqueue? || e.Refuse? {
      QueuedAppend(s.arrivals, Arrival(e.stream, e.Enqueue?));
      SentOn(s.delivered, s.queue, e.stream);
    } else if e.Dequeue? {
      SentOn(s.delivered, s.queue, 0);
    }
  }

  lemma BalanceHolds(options: Options, s: State, e: Event)
    requires InOrder(s) && Balanced(options, s) && Enabled(options, s, e)
    ensures Balanced(options, Next(options, s, e))
  {
  }

  lemma ClosingHolds(options: Options, s: State, e: Event)
    requires ClosesFirst(s) && Enabled(options, s, e)
    ensures ClosesFirst(Next(options, s, e))
  {
  }

  lemma RecordHolds(options: Options, s: State, e: Event)
    requires Recorded(s) && Enabled(options, s, e)
    ensures Recorded(Next(options, s, e))
  {
  }

  lemma WatchdogHolds(options: Options, s: State, e: Event)
    requires Recorded(s) && WatchdogKnows(s) && Enabled(options, s, e)
    ensures WatchdogKnows(Next(options, s, e))
  {
    hide NoneAfter;
    var w := s.watchdog;
    if w.Idle? || w.Holding? {
      NoneAfterMore(s.counted, w.lastAccepted + w.lastDropped, w.lastActivity, s.clock);
    }
    if w.Holding? {
      NoneAfterNow(s, w.accepted + w.dropped);
    }
    NoneAfterNow(s, 0);
  }

  lemma InvHolds(options: Options, s: State, e: Event)
    requires Inv(options, s) && Enabled(options, s, e)
    ensures Inv(options, Next(options, s, e))
  {
    hide Next, InOrder, Balanced, ClosesFirst, Recorded, WatchdogKnows;
    OrderHolds(options, s, e);
    BalanceHolds(options, s, e);
    ClosingHolds(options, s, e);
    RecordHolds(options, s, e);
    WatchdogHolds(options, s, e);
  }

  /** A run: events that were all enabled in turn. */
  predicate Runs(options: Options, s: State, events: seq<Event>)
    decreases |events|
  {
    if events == [] then true
    else Enabled(options, s, events[0]) && Runs(options, Next(options, s, events[0]), events[1..])
  }

  function After(options: Options, s: State, events: seq<Event>): State
    requires Runs(options, s, events)
    decreases |events|
  {
    if events == [] then s else After(options, Next(options, s, events[0]), events[1..])
  }

  lemma {:induction false} InvAfter(options: Options, s: State, events: seq<Event>)
    requires Inv(options, s) && Runs(options, s, events)
    ensures Inv(options, After(options, s, events))
    decreases |events|
  {
    if events != [] {
      InvHolds(options, s, events[0]);
      InvAfter(options, Next(options, s, events[0]), events[1..]);
    }
  }

  /** In every reachable state of every listener the accounts are right. */
  lemma ReachableAccounts(options: Options, start: int, events: seq<Event>)
    requires Runs(options, Initial(options, start), events)
    ensures var s := After(options, Initial(options, start), events);
            && Queued(s.arrivals) == s.delivered + s.queue
            && |s.queue| <= options.bufferSize
            && |s.arrivals| == s.accepted + s.dropped + |s.queue| + s.taken + s.refused
            && (s.parked > 0 ==> s.queue == [] && !s.cancelled)
            && (s.cancelled ==> s.closed)
  {
    InvAfter(options, Initial(options, start), events);
  }

  /**
   * The watchdog closes a listener only after idleness: of everything counted before it read the
   * counters, nothing was counted within the timeout that ends when it decides.
   */
  lemma WatchdogSeesIdleness(options: Options, start: int, events: seq<Event>)
    requires Runs(options, Initial(options, start), events)
    requires var s := After(options, Initial(options, start), events);
             Enabled(options, s, Decide) && !s.closed && Next(options, s, Decide).closed
    ensures var s := After(options, Initial(options, start), events);
            && s.watchdog.accepted + s.watchdog.dropped <= |s.counted|
            && (forall i :: 0 <= i < s.watchdog.accepted + s.watchdog.dropped ==>
                  s.clock - s.counted[i] > options.idleTimeout)
  {
    InvAfter(options, Initial(options, start), events);
  }

  /** A listener has a watchdog exactly if it has a positive timeout; one that has none never closes by itself. */
  lemma {:induction false} WatchdogIfTimeout(options: Options, s: State, events: seq<Event>)
    requires s.watchdog.Off? <==> options.idleTimeout <= 0
    requires Runs(options, s, events)
    ensures After(options, s, events).watchdog.Off? <==> options.idleTimeout <= 0
    decreases |events|
  {
    if events != [] {
      WatchdogIfTimeout(options, Next(options, s, events[0]), events[1..]);
    }
  }

  lemma ReachableWatchdog(options: Options, start: int, events: seq<Event>)
    requires Runs(options, Initial(options, start), events)
    ensures After(options, Initial(options, start), events).watchdog.Off? <==> options.idleTimeout <= 0
  {
    WatchdogIfTimeout(options, Initial(options, start), events);
  }

  /** Nothing is counted by these events. */
  predicate CountsNothing(events: seq<Event>) {
    forall i :: 0 <= i < |events| ==> !events[i].CountAccept? && !events[i].CountDrop?
  }

  /** The watchdog has seen all counts, and remembers this time of the last activity. */
  predicate UpToDate(s: State, activity: int) {
    match s.watchdog
    case Idle(a, d, at) => a == s.accepted && d == s.dropped && at == activity
    case Holding(a, d, at, accepted, dropped) =>
      a == accepted == s.accepted && d == dropped == s.dropped && at == activity
    case Exiting => true
    case Stopped => true
    case _ => false
  }

  lemma {:induction false} StaysUpToDate(options: Options, s: State, events: seq<Event>, activity: int)
    requires UpToDate(s, activity) && CountsNothing(events) && Runs(options, s, events)
    ensures UpToDate(After(options, s, events), activity)
    decreases |events|
  {
    if events != [] {
      StaysUpToDate(options, Next(options, s, events[0]), events[1..], activity);
    }
  }

  /**
   * The watchdog closes an idle listener: while nothing is counted, each of its decisions closes if and
   * only if more time than the timeout has passed since the last activity it noted; else it waits on,
   * with that same time in mind.
   */
  lemma IdleListenerCloses(options: Options, s: State, events: seq<Event>)
    requires s.watchdog.Idle? && s.watchdog == Idle(s.accepted, s.dropped, s.watchdog.lastActivity)
    requires CountsNothing(events) && Runs(options, s, events)
    requires After(options, s, events).watchdog.Holding?
    ensures var t := After(options, s, events);
            var u := Next(options, t, Decide);
            if t.clock - s.watchdog.lastActivity > options.idleTimeout then u.closed && u.watchdog == Exiting
            else u == t.(watchdog := Idle(s.accepted, s.dropped, s.watchdog.lastActivity))
  {
    hide Runs, After;
    NothingCounted(options, s, events);
    StaysUpToDate(options, s, events, s.watchdog.lastActivity);
  }

  lemma {:induction false} NothingCounted(options: Options, s: State, events: seq<Event>)
    requires CountsNothing(events) && Runs(options, s, events)
    ensures After(options, s, events).accepted == s.accepted && After(options, s, events).dropped == s.dropped
    decreases |events|
  {
    if events != [] {
      NothingCounted(options, Next(options, s, events[0]), events[1..]);
    }
  }

  /** A decision after something was counted notes the time, and closes nothing. */
  lemma ActivityIsNoted(options: Options, start: int, events: seq<Event>)
    requires Runs(options, Initial(options, start), events)
    requires After(options, Initial(options, start), events).watchdog.Holding?
    ensures var t := After(options, Initial(options, start), events);
            var w, u := t.watchdog, Next(options, t, Decide);
            w.accepted + w.dropped > w.lastAccepted + w.lastDropped ==>
              u == t.(watchdog := Idle(w.accepted, w.dropped, t.clock))
  {
    InvAfter(options, Initial(options, start), events);
  }

  /** Once it is closed and no Accept call is under way, a listener delivers nothing any more. */
  lemma {:induction false} ClosedForGood(options: Options, s: State, events: seq<Event>)
    requires s.closed && s.waiting == 0 && s.parked == 0
    requires Runs(options, s, events)
    ensures var t := After(options, s, events);
            t.closed && t.waiting == 0 && t.parked == 0 && t.delivered == s.delivered && s.queue <= t.queue
    decreases |events|
  {
    if events != [] {
      ClosedForGood(options, Next(options, s, events[0]), events[1..]);
    }
  }

  /**
   * A listener that is not cancelled refuses a stream exactly if its queue is full and no Accept
   * blocks; with a queue of any length, none ever blocks while the queue is full.
   */
  lemma RefusesOnlyWhenFull(options: Options, start: int, events: seq<Event>, stream: Stream)
    requires Runs(options, Initial(options, start), events)
    ensures var s := After(options, Initial(options, start), events);
            && (!s.cancelled ==> (Enabled(options, s, Refuse(stream)) <==> |s.queue| == options.bufferSize && s.parked == 0))
            && (!Enabled(options, s, Enqueue(stream)) <==> |s.queue| == options.bufferSize && s.parked == 0)
            && (options.bufferSize > 0 && |s.queue| == options.bufferSize ==> s.parked == 0)
  {
    InvAfter(options, Initial(options, start), events);
  }

  // ----- the listener object -----

  /** Each method is one atomic step of one goroutine, and takes the listener along that step. */
  class Listener {
    const options: Options
    var streamCh: seq<Stream>
    var closed: bool
    var cancelled: bool
    var accepted: nat
    var dropped: nat
    var watchdog: Watchdog
    ghost var waiting: nat
    ghost var parked: nat
    ghost var taken: nat
    ghost var refused: nat
    ghost var clock: int
    ghost var arrivals: seq<Arrival>
    ghost var delivered: seq<Stream>
    ghost var counted: seq<int>

    ghost function Now(): State
      reads this
    {
      State(streamCh, closed, cancelled, accepted, dropped, waiting, parked, taken, refused, watchdog, clock, arrivals,
            delivered, counted)
    }

    constructor (options: Options, ghost start: int)
      ensures this.options == options && Now() == Initial(options, start)
    {
      this.options := options;
      streamCh, closed, cancelled, accepted, dropped := [], false, false, 0, 0;
      watchdog := if options.idleTimeout > 0 then Starting else Off;
      waiting, parked, taken, refused, clock, arrivals, delivered, counted := 0, 0, 0, 0, start, [], [], [];
    }

    /**
     * The handler's select. `blocked` tells whether some Accept blocks, which then gets the stream;
     * `doneFirst` says which case is taken when both are ready.
     */
    method Handle(stream: Stream, blocked: bool, doneFirst: bool) returns (sent: bool)
      requires blocked == (parked > 0)
      modifies this
      ensures sent <==> CanSend(options, old(Now())) && !(old(cancelled) && doneFirst)
      ensures var e := if sent then Enqueue(stream) else Refuse(stream);
              Enabled(options, old(Now()), e) && Now() == Next(options, old(Now()), e)
    {
      sent := (blocked || |streamCh| < options.bufferSize) && !(cancelled && doneFirst);
      if !sent {
        refused := refused + 1;
      } else if blocked {
        parked, taken, delivered := parked - 1, taken + 1, delivered + [stream];
      } else {
        streamCh := streamCh + [stream];
      }
      arrivals := arrivals + [Arrival(stream, sent)];
    }

    method CountDropped()
      requires Enabled(options, Now(), CountDrop)
      modifies this
      ensures Now() == Next(options, old(Now()), CountDrop)
    {
      dropped := dropped + 1;
      refused, counted := refused - 1, counted + [clock];
    }

    /** The check of the closed flag with which Accept begins. */
    method BeginAccept() returns (open: bool)
      modifies this
      ensures open == Enabled(options, old(Now()), EnterAccept)
      ensures Now() == if open then Next(options, old(Now()), EnterAccept) else old(Now())
    {
      open := !closed;
      if open {
        waiting := waiting + 1;
      }
    }

    /** The select of Accept blocks; the step that makes a case ready then ends it. */
    method BlockAccept()
      requires Enabled(options, Now(), Park)
      modifies this
      ensures Now() == Next(options, old(Now()), Park)
    {
      waiting, parked := waiting - 1, parked + 1;
    }

    /** The select of Accept, if one of its cases is ready. */
    method FinishAccept(doneFirst: bool) returns (stream: Option<Stream>)
      requires Enabled(options, Now(), Dequeue) || Enabled(options, Now(), LeaveAccept)
      modifies this
      ensures stream.Some? <==> old(streamCh) != [] && !(old(cancelled) && doneFirst)
      ensures stream.Some? ==>
                stream.value == old(streamCh)[0] && Now() == Next(options, old(Now()), Dequeue)
      ensures stream.None? ==> Enabled(options, old(Now()), LeaveAccept) && Now() == Next(options, old(Now()), LeaveAccept)
    {
      waiting := waiting - 1;
      if streamCh != [] && !(cancelled && doneFirst) {
        stream := Some(streamCh[0]);
        delivered, taken := delivered + [streamCh[0]], taken + 1;
        streamCh := streamCh[1..];
      } else {
        stream := None;
      }
    }

    method CountAccepted()
      requires Enabled(options, Now(), CountAccept)
      modifies this
      ensures Now() == Next(options, old(Now()), CountAccept)
    {
      accepted := accepted + 1;
      taken, counted := taken - 1, counted + [clock];
    }

    /** Close, up to its cancel; a second Close does nothing. */
    method BeginClose() returns (first: bool)
      modifies this
      ensures first == Enabled(options, old(Now()), SetClosed)
      ensures Now() == if first then Next(options, old(Now()), SetClosed) else old(Now())
    {
      first := !closed;
      closed := true;
    }

    method FinishClose()
      requires Enabled(options, Now(), Cancel)
      modifies this
      ensures Now() == Next(options, old(Now()), Cancel)
    {
      cancelled, parked := true, 0;
    }

    /** On a tick the watchdog reads both counters at once. */
    method ReadCounters()
      requires Enabled(options, Now(), Snapshot)
      modifies this
      ensures Now() == Next(options, old(Now()), Snapshot)
    {
      watchdog := Holding(watchdog.lastAccepted, watchdog.lastDropped, watchdog.lastActivity, accepted, dropped);
    }

    /** Then it compares them with the last ones, and either notes activity, waits on, or closes. */
    method CheckIdle(now: int) returns (close: bool)
      requires Enabled(options, Now(), Decide) && now == clock
      modifies this
      ensures close == TimesOut(options, old(watchdog), now)
      ensures Now() == Next(options, old(Now()), Decide)
    {
      var w := watchdog;
      close := false;
      if w.accepted > w.lastAccepted || w.dropped > w.lastDropped {
        watchdog := Idle(w.accepted, w.dropped, now);
      } else if now - w.lastActivity > options.idleTimeout {
        closed, close, watchdog := true, true, Exiting;
      } else {
        watchdog := Idle(w.lastAccepted, w.lastDropped, w.lastActivity);
      }
    }

    /** The watchdog ends, and its deferred cancel runs. */
    method EndWatchdog()
      requires Enabled(options, Now(), StopWatchdog)
      modifies this
      ensures Now() == Next(options, old(Now()), StopWatchdog)
    {
      cancelled, parked, watchdog := true, 0, Stopped;
    }
  }
}
