/**
 The WebSocket hub. Register and Unregister are each two sections under different locks, and a stopped subscriber is
 cancelled only after the second lock is released. Each connection is a thread; one step runs one section.
 */
module Hub {
  import opened Basics

  /** `done`: the goroutine has returned, which it does only once its context is cancelled. */
  datatype Subscriber = Subscriber(poll: string, cancelled: bool, done: bool)

  /** What the locks guard, and every subscriber goroutine ever started. A poll without viewers has no client entry. */
  datatype Shared = Shared(clients: map<string, set<nat>>, subs: map<string, nat>, subscribers: seq<Subscriber>)

  // ----- The sections -----

  function ClientsOf(h: Shared, p: string): set<nat> {
    if p in h.clients then h.clients[p] else {}
  }

  /** Register under mu. The flag tells whether the client is the poll's only one. */
  function RegisterSection(h: Shared, p: string, c: nat): (Shared, bool) {
    var set' := ClientsOf(h, p) + {c};
    (h.(clients := h.clients[p := set']), |set'| == 1)
  }

  /** Unregister under mu. The flag tells whether the poll has no entry left. */
  function UnregisterSection(h: Shared, p: string, c: nat): (Shared, bool) {
    var left := ClientsOf(h, p) - {c};
    var h' := if p !in h.clients then h
              else if left == {} then h.(clients := h.clients - {p})
              else h.(clients := h.clients[p := left]);
    (h', p !in h'.clients)
  }

  /** ensureSubscription under subsMu; `ok` is whether Redis accepted the subscription. */
  function EnsureSection(h: Shared, p: string, ok: bool): Shared {
    if p in h.subs || !ok then h
    else h.(subs := h.subs[p := |h.subscribers|], subscribers := h.subscribers + [Subscriber(p, false, false)])
  }

  /** stopSubscription under subsMu: take the entry out. */
  function StopSection(h: Shared, p: string): (Shared, Option<nat>) {
    (h.(subs := h.subs - {p}), if p in h.subs then Some(h.subs[p]) else None)
  }

  function CancelSection(h: Shared, k: nat): Shared {
    if k < |h.subscribers| then h.(subscribers := h.subscribers[k := h.subscribers[k].(cancelled := true)]) else h
  }

  /** The goroutine sees its context cancelled and closes `done`. */
  function FinishSection(h: Shared, k: nat): Shared {
    if k < |h.subscribers| && h.subscribers[k].cancelled then
      h.(subscribers := h.subscribers[k := h.subscribers[k].(done := true)])
    else h
  }

  predicate IsDone(h: Shared, k: nat) {
    k < |h.subscribers| && h.subscribers[k].done
  }

  // ----- Threads -----

  datatype Pc =
    | Arriving              // about to register
    | EnsureDue             // registered as the first viewer, about to ensure the subscription
    | Watching
    | StopDue               // unregistered as the last viewer, about to stop the subscription
    | CancelDue(sub: nat)   // took the entry out, about to cancel it
    | Waiting(sub: nat)     // until the subscriber is done, or two seconds
    | Gone

  datatype Thread = Thread(poll: string, pc: Pc)

  datatype State = State(hub: Shared, threads: seq<Thread>)

  /** `ok`: whether Redis accepts a subscription, or whether a wait's two seconds are not over yet. */
  datatype Step =
    | Connect(poll: string)
    | Do(thread: nat, ok: bool)
    | Finish(sub: nat)

  ghost function Act(s: State, i: nat, ok: bool): State
    requires i < |s.threads|
  {
    var p := s.threads[i].poll;
    match s.threads[i].pc
    case Arriving =>
      var (h, first) := RegisterSection(s.hub, p, i);
      State(h, s.threads[i := Thread(p, if first then EnsureDue else Watching)])
    case EnsureDue => State(EnsureSection(s.hub, p, ok), s.threads[i := Thread(p, Watching)])
    case Watching =>
      var (h, last) := UnregisterSection(s.hub, p, i);
      State(h, s.threads[i := Thread(p, if last then StopDue else Gone)])
    case StopDue =>
      var (h, sub) := StopSection(s.hub, p);
      State(h, s.threads[i := Thread(p, if sub.Some? then CancelDue(sub.value) else Gone)])
    case CancelDue(k) => State(CancelSection(s.hub, k), s.threads[i := Thread(p, Waiting(k))])
    case Waiting(k) => if IsDone(s.hub, k) || !ok then s.(threads := s.threads[i := Thread(p, Gone)]) else s
    case Gone => s
  }

  ghost function Next(s: State, step: Step): State {
    match step
    case Connect(p) => s.(threads := s.threads + [Thread(p, Arriving)])
    case Do(i, ok) => if i < |s.threads| then Act(s, i, ok) else s
    case Finish(k) => s.(hub := FinishSection(s.hub, k))
  }

  const Start := State(Shared(map[], map[], []), [])

  ghost function After(run: seq<Step>): State {
    if run == [] then Start else Next(After(run[..|run| - 1]), run[|run| - 1])
  }

  // ----- Viewers -----

  predicate Views(t: Thread, p: string) {
    t.poll == p && (t.pc.EnsureDue? || t.pc.Watching?)
  }

  predicate Viewed(s: State, p: string) {
    p in s.hub.clients
  }

  predicate ClientRight(s: State, p: string, i: nat) {
    i in ClientsOf(s.hub, p) <==> i < |s.threads| && Views(s.threads[i], p)
  }

  ghost predicate ClientsRight(s: State) {
    && (forall p | p in s.hub.clients :: s.hub.clients[p] != {})
    && (forall p, i: nat :: ClientRight(s, p, i))
  }

  /** At most one thread of a poll is between registering as first and its ensure. */
  predicate OneEnsure(s: State) {
    forall i, j | 0 <= i < |s.threads| && 0 <= j < |s.threads| && s.threads[i].poll == s.threads[j].poll
      && s.threads[i].pc.EnsureDue? && s.threads[j].pc.EnsureDue? :: i == j
  }

  lemma FirstMeansAlone(h: Shared, p: string, c: nat)
    requires p in h.clients ==> h.clients[p] != {}
    requires c !in ClientsOf(h, p)
    ensures RegisterSection(h, p, c).1 <==> p !in h.clients
  {
    if p in h.clients {
      var d :| d in h.clients[p];
      assert |ClientsOf(h, p) + {c}| == |ClientsOf(h, p)| + 1;
      assert |ClientsOf(h, p)| >= |{d}| by {
        assert |ClientsOf(h, p) - {d}| == |ClientsOf(h, p)| - 1;
      }
    }
  }

  lemma ClientsAfterRegister(h: Shared, p: string, c: nat, q: string, d: nat)
    ensures d in ClientsOf(RegisterSection(h, p, c).0, q) <==> d in ClientsOf(h, q) || (q == p && d == c)
  {
  }

  lemma ClientsAfterUnregister(h: Shared, p: string, c: nat, q: string, d: nat)
    ensures d in ClientsOf(UnregisterSection(h, p, c).0, q) <==> d in ClientsOf(h, q) && !(q == p && d == c)
  {
  }

  /** Only registering and unregistering touch the client map or change who views. */
  lemma OthersKeepClients(s: State, i: nat, ok: bool, p: string)
    requires i < |s.threads| && !s.threads[i].pc.Arriving? && !s.threads[i].pc.Watching?
    ensures var s' := Act(s, i, ok);
      && s'.hub.clients == s.hub.clients
      && s'.threads == s.threads[i := s'.threads[i]]
      && (Views(s'.threads[i], p) <==> Views(s.threads[i], p))
  {
    assert s.threads[i := s.threads[i]] == s.threads;
  }

  lemma ActClients(s: State, i: nat, ok: bool, p: string, c: nat)
    requires ClientsRight(s) && i < |s.threads|
    ensures ClientRight(Act(s, i, ok), p, c)
  {
    assert ClientRight(s, p, c);
    var q := s.threads[i].poll;
    match s.threads[i].pc
    case Arriving => ClientsAfterRegister(s.hub, q, i, p, c);
    case Watching => ClientsAfterUnregister(s.hub, q, i, p, c);
    case _ => OthersKeepClients(s, i, ok, p);
  }

  lemma ClientStep(s: State, step: Step, p: string, c: nat)
    requires ClientsRight(s)
    ensures ClientRight(Next(s, step), p, c)
  {
    assert ClientRight(s, p, c);
    match step
    case Do(i, ok) =>
      if i < |s.threads| {
        ActClients(s, i, ok, p, c);
      }
    case Connect(_) =>
    case Finish(k) => assert FinishSection(s.hub, k).clients == s.hub.clients;
  }

  lemma ClientsStep(s: State, step: Step)
    requires ClientsRight(s)
    ensures ClientsRight(Next(s, step))
  {
    forall p, c: nat ensures ClientRight(Next(s, step), p, c) {
      ClientStep(s, step, p, c);
    }
    NoEmptyEntry(s, step);
  }

  lemma NoEmptyEntry(s: State, step: Step)
    requires forall p | p in s.hub.clients :: s.hub.clients[p] != {}
    ensures forall p | p in Next(s, step).hub.clients :: Next(s, step).hub.clients[p] != {}
  {
  }

  /** A thread becomes due to ensure only when its poll had no viewer, so no other thread of the poll is. */
  lemma OneEnsureStep(s: State, step: Step)
    requires ClientsRight(s) && OneEnsure(s)
    ensures OneEnsure(Next(s, step))
  {
    if step.Do? && step.thread < |s.threads| && s.threads[step.thread].pc.Arriving? {
      var i := step.thread;
      var p := s.threads[i].poll;
      assert ClientRight(s, p, i);
      FirstMeansAlone(s.hub, p, i);
      forall j | 0 <= j < |s.threads| && s.threads[j].poll == p && s.threads[j].pc.EnsureDue?
        ensures p in s.hub.clients
      {
        assert ClientRight(s, p, j);
      }
    }
  }

  lemma {:induction false} ViewersAreClients(run: seq<Step>)
    ensures ClientsRight(After(run)) && OneEnsure(After(run))
  {
    if run != [] {
      ViewersAreClients(run[..|run| - 1]);
      ClientsStep(After(run[..|run| - 1]), run[|run| - 1]);
      OneEnsureStep(After(run[..|run| - 1]), run[|run| - 1]);
    } else {
      forall p, i: nat ensures ClientRight(Start, p, i) {
      }
    }
  }

  // ----- No leak -----

  predicate StopPending(s: State, p: string) {
    exists i | 0 <= i < |s.threads| :: s.threads[i] == Thread(p, StopDue)
  }

  /** Every thread is watching or gone. */
  predicate Quiet(s: State) {
    forall i | 0 <= i < |s.threads| :: s.threads[i].pc.Watching? || s.threads[i].pc.Gone?
  }

  predicate EntryJustified(s: State, p: string) {
    p in s.hub.subs ==> Viewed(s, p) || StopPending(s, p)
  }

  lemma JustifiedStep(s: State, step: Step, p: string)
    requires ClientsRight(s) && EntryJustified(s, p)
    ensures EntryJustified(Next(s, step), p)
  {
    var s' := Next(s, step);
    if p in s'.hub.subs && step.Do? && step.thread < |s.threads| {
      var i := step.thread;
      if StopPending(s, p) {
        var j :| 0 <= j < |s.threads| && s.threads[j] == Thread(p, StopDue);
        assert j != i ==> s'.threads[j] == Thread(p, StopDue);
      }
      if s.threads[i].poll == p && s.threads[i].pc.EnsureDue? {
        assert ClientRight(s, p, i);
      }
      assert s'.threads[i] == Thread(p, StopDue) ==> StopPending(s', p);
    } else if p in s'.hub.subs && StopPending(s, p) {
      var j :| 0 <= j < |s.threads| && s.threads[j] == Thread(p, StopDue);
      assert s'.threads[j] == Thread(p, StopDue);
    }
  }

  /**
   No leaked subscription in any interleaving: an entry means the poll has a viewer or a thread is still due to stop it.
   So once every thread is watching or gone, only viewed polls are subscribed.
   */
  lemma {:induction false} NoLeak(run: seq<Step>, p: string)
    ensures EntryJustified(After(run), p)
    ensures Quiet(After(run)) && p in After(run).hub.subs ==> p in After(run).hub.clients
  {
    if run != [] {
      NoLeak(run[..|run| - 1], p);
      ViewersAreClients(run[..|run| - 1]);
      JustifiedStep(After(run[..|run| - 1]), run[|run| - 1], p);
    }
  }

  // ----- One subscriber per poll -----

  function LiveSubscribers(subscribers: seq<Subscriber>, p: string): nat {
    if subscribers == [] then 0
    else
      var last := subscribers[|subscribers| - 1];
      LiveSubscribers(subscribers[..|subscribers| - 1], p) + One(last.poll == p && !last.cancelled)
  }

  predicate Holds(t: Thread, p: string) {
    t.poll == p && t.pc.CancelDue?
  }

  function Holders(threads: seq<Thread>, p: string): nat {
    if threads == [] then 0
    else
      var last := threads[|threads| - 1];
      Holders(threads[..|threads| - 1], p) + One(Holds(last, p))
  }

  lemma {:induction false} HoldersUpdated(threads: seq<Thread>, i: nat, t: Thread, p: string)
    requires i < |threads|
    ensures Holders(threads[i := t], p) + One(Holds(threads[i], p)) == Holders(threads, p) + One(Holds(t, p))
  {
    var n := |threads| - 1;
    if i == n {
      assert threads[i := t][..n] == threads[..n];
    } else {
      HoldersUpdated(threads[..n], i, t, p);
      assert threads[i := t][..n] == threads[..n][i := t];
    }
  }

  lemma {:induction false} LiveUpdated(subscribers: seq<Subscriber>, k: nat, p: string)
    requires k < |subscribers|
    ensures LiveSubscribers(subscribers[k := subscribers[k].(cancelled := true)], p)
      + One(subscribers[k].poll == p && !subscribers[k].cancelled) == LiveSubscribers(subscribers, p)
  {
    var n := |subscribers| - 1;
    var u := subscribers[k := subscribers[k].(cancelled := true)];
    if k == n {
      assert u[..n] == subscribers[..n];
    } else {
      LiveUpdated(subscribers[..n], k, p);
      assert u[..n] == subscribers[..n][k := subscribers[..n][k].(cancelled := true)];
    }
  }

  predicate IsLive(h: Shared, k: nat, p: string) {
    k < |h.subscribers| && h.subscribers[k].poll == p && !h.subscribers[k].cancelled
  }

  /** Entries and holders point to live subscribers of their own poll, and no two of them to the same one. */
  predicate HeldOnce(s: State) {
    && (forall p | p in s.hub.subs :: IsLive(s.hub, s.hub.subs[p], p))
    && (forall i | 0 <= i < |s.threads| && s.threads[i].pc.CancelDue? ::
          && IsLive(s.hub, s.threads[i].pc.sub, s.threads[i].poll)
          && (s.threads[i].poll in s.hub.subs ==> s.hub.subs[s.threads[i].poll] != s.threads[i].pc.sub))
    && (forall i, j | 0 <= i < |s.threads| && 0 <= j < |s.threads|
          && s.threads[i].pc.CancelDue? && s.threads[j].pc.CancelDue?
          && s.threads[i].pc.sub == s.threads[j].pc.sub :: i == j)
  }

  /** Every live subscriber is the one in the map or held by a stopper between its delete and its cancel. */
  predicate NoneLost(s: State) {
    forall k | 0 <= k < |s.hub.subscribers| && !s.hub.subscribers[k].cancelled ::
      || (s.hub.subscribers[k].poll in s.hub.subs && s.hub.subs[s.hub.subscribers[k].poll] == k)
      || Thread(s.hub.subscribers[k].poll, CancelDue(k)) in s.threads
  }

  predicate Balanced(s: State, p: string) {
    LiveSubscribers(s.hub.subscribers, p) == One(p in s.hub.subs) + Holders(s.threads, p)
  }

  lemma HeldStep(s: State, step: Step)
    requires HeldOnce(s)
    ensures HeldOnce(Next(s, step))
  {
    if step.Do? && step.thread < |s.threads| {
      var i, s' := step.thread, Next(s, step);
      match s.threads[i].pc
      case Arriving => assert s'.hub.subs == s.hub.subs && s'.hub.subscribers == s.hub.subscribers;
      case EnsureDue =>
      case Watching => assert s'.hub.subs == s.hub.subs && s'.hub.subscribers == s.hub.subscribers;
      case StopDue =>
      case CancelDue(k) => assert IsLive(s.hub, k, s.threads[i].poll);
      case Waiting(_) =>
      case Gone =>
    }
  }

  lemma NoneLostStep(s: State, step: Step)
    requires HeldOnce(s) && NoneLost(s)
    ensures NoneLost(Next(s, step))
  {
    var s' := Next(s, step);
    forall k | 0 <= k < |s'.hub.subscribers| && !s'.hub.subscribers[k].cancelled
      ensures (s'.hub.subscribers[k].poll in s'.hub.subs && s'.hub.subs[s'.hub.subscribers[k].poll] == k)
        || Thread(s'.hub.subscribers[k].poll, CancelDue(k)) in s'.threads
    {
      var p := s'.hub.subscribers[k].poll;
      var t := Thread(p, CancelDue(k));
      if t in s.threads {
        var j :| 0 <= j < |s.threads| && s.threads[j] == t;
        assert !step.Do? || step.thread != j ==> s'.threads[j] == t;
      }
      if step.Do? && step.thread < |s.threads| {
        assert s'.threads[step.thread] in s'.threads;
      }
    }
  }

  lemma {:induction false} LiveAfterFinish(subscribers: seq<Subscriber>, k: nat, p: string)
    requires k < |subscribers|
    ensures LiveSubscribers(subscribers[k := subscribers[k].(done := true)], p) == LiveSubscribers(subscribers, p)
  {
    var n := |subscribers| - 1;
    var u := subscribers[k := subscribers[k].(done := true)];
    if k == n {
      assert u[..n] == subscribers[..n];
    } else {
      LiveAfterFinish(subscribers[..n], k, p);
      assert u[..n] == subscribers[..n][k := subscribers[..n][k].(done := true)];
    }
  }

  lemma LiveAfterEnsure(h: Shared, p: string, ok: bool, q: string)
    ensures var h' := EnsureSection(h, p, ok);
      LiveSubscribers(h'.subscribers, q) + One(q in h.subs) == LiveSubscribers(h.subscribers, q) + One(q in h'.subs)
  {
    assert (h.subscribers + [Subscriber(p, false, false)])[..|h.subscribers|] == h.subscribers;
  }

  /** A section keeps live subscribers, map entry and its own thread's holding in balance. */
  lemma SectionBalance(s: State, i: nat, ok: bool, p: string)
    requires HeldOnce(s) && i < |s.threads|
    ensures var s' := Act(s, i, ok);
      && s'.threads == s.threads[i := s'.threads[i]]
      && LiveSubscribers(s'.hub.subscribers, p) + One(p in s.hub.subs) + One(Holds(s.threads[i], p))
           == LiveSubscribers(s.hub.subscribers, p) + One(p in s'.hub.subs) + One(Holds(s'.threads[i], p))
  {
    match s.threads[i].pc
    case EnsureDue => LiveAfterEnsure(s.hub, s.threads[i].poll, ok, p);
    case CancelDue(k) => LiveUpdated(s.hub.subscribers, k, p);
    case Waiting(k) => assert s.threads[i := s.threads[i]] == s.threads;
    case Gone => assert s.threads[i := s.threads[i]] == s.threads;
    case Arriving =>
    case Watching =>
    case StopDue =>
  }

  lemma BalancedStep(s: State, step: Step, p: string)
    requires HeldOnce(s) && Balanced(s, p)
    ensures Balanced(Next(s, step), p)
  {
    match step
    case Connect(q) => assert (s.threads + [Thread(q, Arriving)])[..|s.threads|] == s.threads;
    case Do(i, ok) =>
      if i < |s.threads| {
        SectionBalance(s, i, ok, p);
        HoldersUpdated(s.threads, i, Act(s, i, ok).threads[i], p);
      }
    case Finish(k) =>
      if k < |s.hub.subscribers| {
        LiveAfterFinish(s.hub.subscribers, k, p);
      }
  }

  /**
   In any interleaving the live subscribers of a poll are exactly the one in the map, if any, and those held by
   stoppers that have not cancelled yet; so at most one beyond the stoppers.
   */
  lemma {:induction false} SingleSubscriber(run: seq<Step>, p: string)
    ensures var s := After(run);
      && LiveSubscribers(s.hub.subscribers, p) == One(p in s.hub.subs) + Holders(s.threads, p)
      && NoneLost(s) && HeldOnce(s)
  {
    if run != [] {
      SingleSubscriber(run[..|run| - 1], p);
      var s, step := After(run[..|run| - 1]), run[|run| - 1];
      HeldStep(s, step);
      NoneLostStep(s, step);
      BalancedStep(s, step, p);
    }
  }

  // ----- Nobody waits in vain -----

  /** A finished subscriber was cancelled, and a waiting thread's subscriber is cancelled, so it can finish. */
  predicate WaitsEnd(s: State) {
    && (forall k | 0 <= k < |s.hub.subscribers| && s.hub.subscribers[k].done :: s.hub.subscribers[k].cancelled)
    && (forall i | 0 <= i < |s.threads| && s.threads[i].pc.Waiting? ::
          && s.threads[i].pc.sub < |s.hub.subscribers| && s.hub.subscribers[s.threads[i].pc.sub].cancelled
          && s.hub.subscribers[s.threads[i].pc.sub].poll == s.threads[i].poll)
  }

  lemma WaitsEndStep(s: State, step: Step)
    requires HeldOnce(s) && WaitsEnd(s)
    ensures WaitsEnd(Next(s, step))
  {
    if step.Do? && step.thread < |s.threads| {
      match s.threads[step.thread].pc
      case CancelDue(k) => assert IsLive(s.hub, k, s.threads[step.thread].poll);
      case _ =>
    }
  }

  /** One step of its goroutine, or the two seconds, lets a waiting thread go. */
  lemma WaitLetsGo(s: State, i: nat)
    requires WaitsEnd(s) && i < |s.threads| && s.threads[i].pc.Waiting?
    ensures Next(Next(s, Finish(s.threads[i].pc.sub)), Do(i, true)).threads[i].pc.Gone?
    ensures Next(s, Do(i, false)).threads[i].pc.Gone?
    ensures Next(s, Do(i, true)).threads[i].pc.Gone? <==> s.hub.subscribers[s.threads[i].pc.sub].done
  {
    var k := s.threads[i].pc.sub;
    var s1 := Next(s, Finish(k));
    assert IsDone(s1.hub, k) && s1.threads[i].pc == Waiting(k);
  }

  lemma {:induction false} WaitsEndAlways(run: seq<Step>)
    ensures WaitsEnd(After(run))
  {
    if run != [] {
      var before := run[..|run| - 1];
      SingleSubscriber(before, "");
      WaitsEndAlways(before);
      WaitsEndStep(After(before), run[|run| - 1]);
    }
  }

  /**
   In any interleaving a subscriber only ends after it was cancelled, so never while it is in the map, and whoever waits
   for one has cancelled it: one step of that goroutine, or the two seconds, lets the thread go, and nothing else does.
   */
  lemma WaitsCanEnd(run: seq<Step>, p: string)
    ensures var s := After(run);
      && WaitsEnd(s)
      && (p in s.hub.subs ==> !IsDone(s.hub, s.hub.subs[p]))
      && forall i | 0 <= i < |s.threads| && s.threads[i].pc.Waiting? ::
           && Next(Next(s, Finish(s.threads[i].pc.sub)), Do(i, true)).threads[i].pc.Gone?
           && Next(s, Do(i, false)).threads[i].pc.Gone?
           && (Next(s, Do(i, true)).threads[i].pc.Gone? <==> s.hub.subscribers[s.threads[i].pc.sub].done)
  {
    SingleSubscriber(run, p);
    WaitsEndAlways(run);
    var s := After(run);
    if p in s.hub.subs {
      assert IsLive(s.hub, s.hub.subs[p], p);
    }
    forall i | 0 <= i < |s.threads| && s.threads[i].pc.Waiting?
      ensures Next(Next(s, Finish(s.threads[i].pc.sub)), Do(i, true)).threads[i].pc.Gone?
      ensures Next(s, Do(i, false)).threads[i].pc.Gone?
      ensures Next(s, Do(i, true)).threads[i].pc.Gone? <==> s.hub.subscribers[s.threads[i].pc.sub].done
    {
      WaitLetsGo(s, i);
    }
  }
}
