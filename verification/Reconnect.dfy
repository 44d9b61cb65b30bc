/**
 The browser's reconnecting socket. The page is single-threaded: each event runs its handler to the end. Timers
 are never cleared, and a socket that lost its connection reports its close event only later.
 */
module Reconnect {
  import opened Basics

  const MaxRetryDelay := 30000

  datatype Ready = Connecting | Open | Closing | Closed

  /** `handler`: whether onclose is still attached. */
  datatype Socket = Socket(poll: string, ready: Ready, handler: bool)

  /**
   The refs, every socket ever made, and the timers still to fire. The empty poll id stands for none. `delays` lists
   every delay a timer was ever set to.
   */
  datatype View = View(
    mounted: bool,
    sockets: seq<Socket>,
    socketRef: Option<nat>,
    retryRef: nat,
    shouldReconnectRef: bool,
    pollIdRef: string,
    timers: nat,
    delays: seq<nat>)

  datatype Event =
    | Render(pollId: string)   // first mount, or the effect run again for a changed poll id
    | Unmount
    | Opens(socket: nat)
    | Loses(socket: nat)       // the connection fails or the server starts closing it
    | Closes(socket: nat)      // the close event
    | Fires                    // one of the pending timers

  function Pow2(n: nat): nat {
    if n == 0 then 1 else 2 * Pow2(n - 1)
  }

  function Delay(retry: nat): nat {
    var wanted := 1000 * Pow2(retry);
    if wanted < MaxRetryDelay then wanted else MaxRetryDelay
  }

  predicate IsLive(s: Socket) {
    s.ready == Open || s.ready == Connecting
  }

  predicate CurrentIsLive(v: View) {
    v.socketRef.Some? && v.socketRef.value < |v.sockets| && IsLive(v.sockets[v.socketRef.value])
  }

  function Connect(v: View): View {
    if v.pollIdRef == "" || CurrentIsLive(v) then v
    else v.(sockets := v.sockets + [Socket(v.pollIdRef, Connecting, true)], socketRef := Some(|v.sockets|))
  }

  function OnOpen(v: View, i: nat): View
    requires i < |v.sockets|
  {
    v.(sockets := v.sockets[i := v.sockets[i].(ready := Open)], retryRef := 0)
  }

  function OnClose(v: View, i: nat): View
    requires i < |v.sockets|
  {
    var w := v.(sockets := v.sockets[i := v.sockets[i].(ready := Closed)]);
    if !v.sockets[i].handler then w
    else if !v.shouldReconnectRef then w.(socketRef := None)
    else w.(retryRef := v.retryRef + 1, timers := v.timers + 1, delays := v.delays + [Delay(v.retryRef)])
  }

  function Fire(v: View): View
    requires v.timers > 0
  {
    var w := v.(timers := v.timers - 1);
    if v.shouldReconnectRef then Connect(w) else w
  }

  function CloseByPage(s: Socket): Socket {
    Socket(s.poll, if IsLive(s) then Closing else s.ready, false)
  }

  function Cleanup(v: View): View {
    var w := v.(shouldReconnectRef := false, mounted := false);
    if v.socketRef.Some? && v.socketRef.value < |v.sockets| then
      var i := v.socketRef.value;
      w.(sockets := v.sockets[i := CloseByPage(v.sockets[i])], socketRef := None)
    else w
  }

  function RunEffects(v: View, pollId: string): View {
    Connect(v.(mounted := true, pollIdRef := pollId, shouldReconnectRef := true, retryRef := 0))
  }

  /** An event that cannot happen now changes nothing, so every list of events is a history. */
  function Step(v: View, e: Event): View {
    match e
    case Render(p) => RunEffects(if v.mounted then Cleanup(v) else v, p)
    case Unmount => if v.mounted then Cleanup(v) else v
    case Opens(i) => if i < |v.sockets| && v.sockets[i].ready == Connecting then OnOpen(v, i) else v
    case Loses(i) =>
      if i < |v.sockets| && IsLive(v.sockets[i]) then
        v.(sockets := v.sockets[i := v.sockets[i].(ready := Closing)])
      else v
    case Closes(i) => if i < |v.sockets| && v.sockets[i].ready == Closing then OnClose(v, i) else v
    case Fires => if v.timers > 0 then Fire(v) else v
  }

  const Fresh := View(false, [], None, 0, true, "", 0, [])

  function After(history: seq<Event>): View {
    if history == [] then Fresh else Step(After(history[..|history| - 1]), history[|history| - 1])
  }

  // ----- Safety -----

  predicate Safe(v: View) {
    && (v.socketRef.Some? ==> v.socketRef.value < |v.sockets|)
    && (forall i | 0 <= i < |v.sockets| && IsLive(v.sockets[i]) ::
          v.mounted && v.socketRef == Some(i) && v.sockets[i].poll == v.pollIdRef && v.pollIdRef != "")
    && (v.mounted ==> v.shouldReconnectRef)
    && (!v.mounted ==> v.socketRef == None && (v.shouldReconnectRef ==> v.timers == 0 && v.sockets == []))
  }

  lemma SafeStep(v: View, e: Event)
    requires Safe(v)
    ensures Safe(Step(v, e))
  {
  }

  /**
   Over every history at most one socket is connecting or open, it is the current one and belongs to the current poll,
   and an unmounted page has none.
   */
  lemma {:induction false} SingleSocket(history: seq<Event>)
    ensures var v := After(history);
      && (forall i, j | 0 <= i < |v.sockets| && 0 <= j < |v.sockets|
            && IsLive(v.sockets[i]) && IsLive(v.sockets[j]) :: i == j)
      && (forall i | 0 <= i < |v.sockets| && IsLive(v.sockets[i]) ::
            v.socketRef == Some(i) && v.sockets[i].poll == v.pollIdRef && v.mounted)
    ensures Safe(After(history))
  {
    if history != [] {
      SingleSocket(history[..|history| - 1]);
      SafeStep(After(history[..|history| - 1]), history[|history| - 1]);
    }
  }

  lemma QuietStep(v: View, e: Event)
    requires Safe(v) && !e.Render? && (v.mounted ==> e.Unmount?)
    ensures !Step(v, e).mounted && |Step(v, e).sockets| == |v.sockets|
  {
  }

  /**
   Once unmounted the page stays quiet until it is rendered again: no socket lives, and no timer, open or close event
   still to come makes another one.
   */
  lemma {:induction false} UnmountedIsQuiet(history: seq<Event>, n: nat)
    requires n < |history| && history[n] == Unmount && forall k | n < k < |history| :: !history[k].Render?
    ensures var v, w := After(history[..n]), After(history);
      && !w.mounted && |w.sockets| == |v.sockets|
      && forall i | 0 <= i < |w.sockets| :: !IsLive(w.sockets[i])
  {
    var before := history[..|history| - 1];
    if n < |before| {
      UnmountedIsQuiet(before, n);
      assert before[..n] == history[..n];
    }
    SingleSocket(before);
    SafeStep(After(before), history[|history| - 1]);
    QuietStep(After(before), history[|history| - 1]);
  }

  // ----- Never stuck -----

  predicate CloseIsDue(v: View) {
    exists i | 0 <= i < |v.sockets| :: v.sockets[i].ready == Closing && v.sockets[i].handler
  }

  predicate Hopeful(v: View) {
    v.mounted && v.pollIdRef != "" ==> CurrentIsLive(v) || v.timers > 0 || CloseIsDue(v)
  }

  predicate LiveHaveHandlers(v: View) {
    forall i | 0 <= i < |v.sockets| && IsLive(v.sockets[i]) :: v.sockets[i].handler
  }

  lemma HopefulStep(v: View, e: Event)
    requires Safe(v) && Hopeful(v) && LiveHaveHandlers(v)
    ensures Hopeful(Step(v, e)) && LiveHaveHandlers(Step(v, e))
  {
    var w := Step(v, e);
    match e
    case Render(p) =>
    case Unmount =>
    case Opens(i) =>
      if CloseIsDue(v) {
        var k :| 0 <= k < |v.sockets| && v.sockets[k].ready == Closing && v.sockets[k].handler;
        assert w.sockets[k] == v.sockets[k];
      }
    case Loses(i) =>
      if i < |v.sockets| && IsLive(v.sockets[i]) {
        assert w.sockets[i].ready == Closing && w.sockets[i].handler;
      }
    case Closes(i) =>
      if CloseIsDue(v) {
        var k :| 0 <= k < |v.sockets| && v.sockets[k].ready == Closing && v.sockets[k].handler;
        assert k != i ==> w.sockets[k] == v.sockets[k];
      }
    case Fires =>
  }

  /**
   A mounted page with a poll is never stuck without a socket: one is connecting or open, or a close event with its
   handler is still to come, or a retry timer is pending.
   */
  lemma {:induction false} NeverStuck(history: seq<Event>)
    ensures Hopeful(After(history)) && LiveHaveHandlers(After(history))
  {
    if history != [] {
      NeverStuck(history[..|history| - 1]);
      SingleSocket(history[..|history| - 1]);
      HopefulStep(After(history[..|history| - 1]), history[|history| - 1]);
    }
  }

  // ----- Back-off -----

  lemma {:induction false} Pow2Grows(m: nat, n: nat)
    requires m <= n
    ensures 1 <= Pow2(m) <= Pow2(n)
  {
    if m == n {
      if m > 0 {
        Pow2Grows(m - 1, m - 1);
      }
    } else {
      Pow2Grows(m, n - 1);
    }
  }

  lemma DelayGrows(m: nat, n: nat)
    requires m <= n
    ensures 1000 <= Delay(m) <= Delay(n) <= 30000
    ensures n == m + 1 ==> Delay(n) == if 2 * Delay(m) < 30000 then 2 * Delay(m) else 30000
  {
    Pow2Grows(m, n);
  }

  /** The event closes a socket that still has its handler, on a page that wants to reconnect: a retry is scheduled. */
  predicate Schedules(v: View, e: Event) {
    && e.Closes? && e.socket < |v.sockets| && v.sockets[e.socket].ready == Closing && v.sockets[e.socket].handler
    && v.shouldReconnectRef
  }

  /** A connection has come to stand, or the effect has run. */
  predicate Resets(v: View, e: Event) {
    e.Render? || (e.Opens? && e.socket < |v.sockets| && v.sockets[e.socket].ready == Connecting)
  }

  /** Retries scheduled since the last open or effect run. */
  function Failures(history: seq<Event>): nat {
    if history == [] then 0
    else
      var before, e := history[..|history| - 1], history[|history| - 1];
      if Resets(After(before), e) then 0
      else Failures(before) + One(Schedules(After(before), e))
  }

  lemma {:induction false} RetryRefCountsFailures(history: seq<Event>)
    ensures After(history).retryRef == Failures(history)
  {
    if history != [] {
      RetryRefCountsFailures(history[..|history| - 1]);
    }
  }

  /**
   After every history, a close event that schedules a retry sets one timer, to 1000 ms doubled once for every retry
   scheduled since the last open or effect run, or to 30000 ms if that is less; no other event sets a timer.
   */
  lemma DelayIsExact(history: seq<Event>, e: Event)
    ensures var v, w := After(history), After(history + [e]);
      var wanted := 1000 * Pow2(Failures(history));
      if Schedules(v, e) then
        w.timers == v.timers + 1 && w.delays == v.delays + [if wanted < 30000 then wanted else 30000]
      else w.timers <= v.timers && w.delays == v.delays
  {
    RetryRefCountsFailures(history);
    assert (history + [e])[..|history|] == history;
  }

  /** The k-th event schedules a retry. */
  predicate SchedulesAt(history: seq<Event>, k: nat)
    requires k < |history|
  {
    Schedules(After(history[..k]), history[k])
  }

  predicate ResetsAt(history: seq<Event>, k: nat)
    requires k < |history|
  {
    Resets(After(history[..k]), history[k])
  }

  /** The delay the k-th event chose. */
  function DelayAt(history: seq<Event>, k: nat): nat
    requires k < |history|
  {
    var delays := After(history[..k + 1]).delays;
    if delays == [] then 0 else delays[|delays| - 1]
  }

  lemma DelayAtIsExact(history: seq<Event>, k: nat)
    requires k < |history| && SchedulesAt(history, k)
    ensures DelayAt(history, k) == Delay(Failures(history[..k]))
    ensures 1000 <= DelayAt(history, k) <= 30000
  {
    assert history[..k + 1] == history[..k] + [history[k]];
    DelayIsExact(history[..k], history[k]);
    DelayGrows(0, Failures(history[..k]));
  }

  lemma FailuresStep(history: seq<Event>, k: nat)
    requires k < |history| && !ResetsAt(history, k)
    ensures Failures(history[..k + 1]) == Failures(history[..k]) + One(SchedulesAt(history, k))
  {
    assert history[..k + 1][..k] == history[..k];
  }

  lemma {:induction false} FailuresGrow(history: seq<Event>, a: nat, b: nat)
    requires a <= b <= |history| && forall k | a <= k < b :: !ResetsAt(history, k)
    ensures Failures(history[..a]) <= Failures(history[..b])
    decreases b - a
  {
    if a < b {
      FailuresStep(history, a);
      FailuresGrow(history, a + 1, b);
    }
  }

  lemma {:induction false} FailuresStay(history: seq<Event>, a: nat, b: nat)
    requires a <= b <= |history| && forall k | a <= k < b :: !ResetsAt(history, k) && !SchedulesAt(history, k)
    ensures Failures(history[..a]) == Failures(history[..b])
    decreases b - a
  {
    if a < b {
      FailuresStep(history, a);
      FailuresStay(history, a + 1, b);
    }
  }

  /** The first retry after an open or an effect run waits one second. */
  lemma FirstRetryWaitsOneSecond(history: seq<Event>, r: nat, k: nat)
    requires r < k < |history| && ResetsAt(history, r) && SchedulesAt(history, k)
    requires forall x | r < x < k :: !ResetsAt(history, x) && !SchedulesAt(history, x)
    ensures DelayAt(history, k) == 1000
  {
    assert history[..r + 1][..r] == history[..r];
    FailuresStay(history, r + 1, k);
    DelayAtIsExact(history, k);
  }

  /**
   Of two retries with no open and no effect run between them the later never waits less, and the very next one waits
   twice as long, up to 30 seconds.
   */
  lemma BackOff(history: seq<Event>, j: nat, k: nat)
    requires j < k < |history| && SchedulesAt(history, j) && SchedulesAt(history, k)
    requires forall x | j < x < k :: !ResetsAt(history, x)
    ensures 1000 <= DelayAt(history, j) <= DelayAt(history, k) <= 30000
    ensures (forall x | j < x < k :: !SchedulesAt(history, x)) ==>
      DelayAt(history, k) == if 2 * DelayAt(history, j) < 30000 then 2 * DelayAt(history, j) else 30000
  {
    DelayAtIsExact(history, j);
    DelayAtIsExact(history, k);
    FailuresStep(history, j);
    FailuresGrow(history, j + 1, k);
    if forall x | j < x < k :: !SchedulesAt(history, x) {
      FailuresStay(history, j + 1, k);
    }
    DelayGrows(Failures(history[..j]), Failures(history[..k]));
  }

  // ----- The hook itself -----

  /** The hook's refs and its handlers, each run to the end by one event. */
  class Hook {
    var mounted: bool
    var sockets: seq<Socket>
    var socketRef: Option<nat>
    var retryRef: nat
    var shouldReconnectRef: bool
    var pollIdRef: string
    var timers: nat
    ghost var delays: seq<nat>

    ghost function Now(): View
      reads this
    {
      View(mounted, sockets, socketRef, retryRef, shouldReconnectRef, pollIdRef, timers, delays)
    }

    constructor ()
      ensures Now() == Fresh
    {
      mounted, sockets, socketRef := false, [], None;
      retryRef, shouldReconnectRef, pollIdRef, timers := 0, true, "", 0;
      delays := [];
    }

    /** The current socket is connecting or open. */
    predicate HasLive()
      reads this
    {
      socketRef.Some? && socketRef.value < |sockets| && sockets[socketRef.value].ready in {Open, Connecting}
    }

    method DoConnect()
      modifies this`sockets, this`socketRef
      ensures Now() == Connect(old(Now()))
      ensures pollIdRef == "" || old(HasLive()) ==> sockets == old(sockets) && socketRef == old(socketRef)
      ensures pollIdRef != "" && !old(HasLive()) ==>
        sockets == old(sockets) + [Socket(pollIdRef, Connecting, true)] && socketRef == Some(|old(sockets)|)
    {
      if pollIdRef == "" {
        return;
      }
      if socketRef.Some? && socketRef.value < |sockets| {
        var current := sockets[socketRef.value];
        if current.ready == Open || current.ready == Connecting {
          return;
        }
      }
      socketRef := Some(|sockets|);
      sockets := sockets + [Socket(pollIdRef, Connecting, true)];
    }

    method DoOpen(i: nat)
      requires i < |sockets| && sockets[i].ready == Connecting
      modifies this`sockets, this`retryRef
      ensures Now() == Step(old(Now()), Opens(i))
      ensures sockets == old(sockets)[i := Socket(old(sockets)[i].poll, Open, old(sockets)[i].handler)]
      ensures retryRef == 0
    {
      sockets := sockets[i := sockets[i].(ready := Open)];
      retryRef := 0;
    }

    method DoClose(i: nat)
      requires i < |sockets| && sockets[i].ready == Closing
      modifies this`sockets, this`socketRef, this`retryRef, this`timers, this`delays
      ensures Now() == Step(old(Now()), Closes(i))
      ensures sockets == old(sockets)[i := Socket(old(sockets)[i].poll, Closed, old(sockets)[i].handler)]
      ensures socketRef == if old(sockets)[i].handler && !shouldReconnectRef then None else old(socketRef)
      ensures var retries := if old(sockets)[i].handler && shouldReconnectRef then 1 else 0;
        retryRef == old(retryRef) + retries && timers == old(timers) + retries && |delays| == |old(delays)| + retries
    {
      sockets := sockets[i := sockets[i].(ready := Closed)];
      if !sockets[i].handler {
        return;
      }
      if !shouldReconnectRef {
        socketRef := None;
        return;
      }
      var backOff := 1000 * Pow2(retryRef);
      var delay := if backOff < MaxRetryDelay then backOff else MaxRetryDelay;
      retryRef := retryRef + 1;
      timers := timers + 1;
      delays := delays + [delay];
    }

    method DoTimer()
      requires timers > 0
      modifies this`timers, this`sockets, this`socketRef
      ensures Now() == Step(old(Now()), Fires)
      ensures timers == old(timers) - 1
      ensures !shouldReconnectRef || pollIdRef == "" || old(HasLive()) ==>
        sockets == old(sockets) && socketRef == old(socketRef)
      ensures shouldReconnectRef && pollIdRef != "" && !old(HasLive()) ==>
        sockets == old(sockets) + [Socket(pollIdRef, Connecting, true)] && socketRef == Some(|old(sockets)|)
    {
      timers := timers - 1;
      if shouldReconnectRef {
        DoConnect();
      }
    }

    method DoCleanup()
      modifies this`mounted, this`shouldReconnectRef, this`sockets, this`socketRef
      ensures Now() == Cleanup(old(Now()))
      ensures !mounted && !shouldReconnectRef && |sockets| == |old(sockets)|
      ensures forall k | 0 <= k < |sockets| && old(socketRef) != Some(k) :: sockets[k] == old(sockets)[k]
      ensures old(socketRef.Some? && socketRef.value < |sockets|) ==>
        var k := old(socketRef).value;
        && socketRef == None && !sockets[k].handler && sockets[k].poll == old(sockets)[k].poll
        && sockets[k].ready == if old(HasLive()) then Closing else old(sockets)[k].ready
    {
      shouldReconnectRef := false;
      mounted := false;
      if socketRef.Some? && socketRef.value < |sockets| {
        var i := socketRef.value;
        sockets := sockets[i := sockets[i].(handler := false)];
        if sockets[i].ready == Open || sockets[i].ready == Connecting {
          sockets := sockets[i := sockets[i].(ready := Closing)];
        }
        socketRef := None;
      }
    }

    /** The effects of a render: the previous run's cleanup, the poll id, then the connection. */
    method DoRender(pollId: string)
      modifies this`mounted, this`pollIdRef, this`shouldReconnectRef, this`retryRef, this`sockets, this`socketRef
      ensures Now() == Step(old(Now()), Render(pollId))
      ensures mounted && pollIdRef == pollId && shouldReconnectRef && retryRef == 0
      ensures old(mounted) && old(socketRef.Some? && socketRef.value < |sockets|) ==>
        !sockets[old(socketRef).value].handler && sockets[old(socketRef).value].ready !in {Open, Connecting}
      ensures old(mounted) && old(socketRef.Some? && socketRef.value < |sockets|) && pollId != "" ==>
        socketRef == Some(|old(sockets)|) && sockets[|old(sockets)|..] == [Socket(pollId, Connecting, true)]
    {
      if mounted {
        DoCleanup();
      }
      mounted := true;
      pollIdRef := pollId;
      shouldReconnectRef := true;
      retryRef := 0;
      DoConnect();
    }
  }
}
