/** The hub as the program holds it: two maps changed in place. Its methods run the sections of `Hub` back to back. */
module HubService {
  import opened Basics
  import opened Hub

  /** Register run whole. */
  function Enter(h: Shared, p: string, c: nat, ok: bool): Shared {
    var (h1, first) := RegisterSection(h, p, c);
    if first then EnsureSection(h1, p, ok) else h1
  }

  /** stopSubscription run whole; `inTime` is whether the goroutine ends within the two seconds waited for it. */
  function Stop(h: Shared, p: string, inTime: bool): Shared {
    var (h1, sub) := StopSection(h, p);
    if sub.None? then h1
    else
      var h2 := CancelSection(h1, sub.value);
      if inTime then FinishSection(h2, sub.value) else h2
  }

  /** Unregister run whole. */
  function Leave(h: Shared, p: string, c: nat, inTime: bool): Shared {
    var (h1, last) := UnregisterSection(h, p, c);
    if last then Stop(h1, p, inTime) else h1
  }

  class WebSocketHub {
    var clients: map<string, set<nat>>
    var subs: map<string, nat>
    var subscribers: seq<Subscriber>

    function Now(): Shared
      reads this
    {
      Shared(clients, subs, subscribers)
    }

    constructor ()
      ensures Now() == Shared(map[], map[], [])
    {
      clients, subs, subscribers := map[], map[], [];
    }

    method Register(pollID: string, c: nat, redisUp: bool)
      modifies this
      ensures Now() == Enter(old(Now()), pollID, c, redisUp)
      ensures clients == old(clients)[pollID := (if pollID in old(clients) then old(clients)[pollID] else {}) + {c}]
      ensures if |clients[pollID]| == 1 && pollID !in old(subs) && redisUp then
          && subs == old(subs)[pollID := |old(subscribers)|]
          && subscribers == old(subscribers) + [Subscriber(pollID, false, false)]
        else subs == old(subs) && subscribers == old(subscribers)
    {
      if pollID !in clients {
        clients := clients[pollID := {}];
      }
      clients := clients[pollID := clients[pollID] + {c}];
      var first := |clients[pollID]| == 1;
      if first {
        EnsureSubscription(pollID, redisUp);
      }
    }

    method Unregister(pollID: string, c: nat, inTime: bool)
      modifies this
      ensures Now() == Leave(old(Now()), pollID, c, inTime)
      ensures var left := if pollID in old(clients) then old(clients)[pollID] - {c} else {};
        if left == {} then clients == old(clients) - {pollID} && Stopped(old(Now()), pollID, inTime)
        else clients == old(clients)[pollID := left] && subs == old(subs) && subscribers == old(subscribers)
    {
      if pollID in clients {
        clients := clients[pollID := clients[pollID] - {c}];
        if clients[pollID] == {} {
          clients := clients - {pollID};
        }
      }
      var last := pollID !in clients;
      if last {
        StopSubscription(pollID, inTime);
      }
    }

    /** The entry the poll had is gone, the goroutine it named is cancelled, and ended if it was in time for that. */
    predicate Stopped(before: Shared, pollID: string, inTime: bool)
      reads this
    {
      && subs == before.subs - {pollID} && |subscribers| == |before.subscribers|
      && forall k | 0 <= k < |subscribers| ::
           var was := before.subscribers[k];
           subscribers[k] ==
             if pollID in before.subs && before.subs[pollID] == k then Subscriber(was.poll, true, was.done || inTime)
             else was
    }

    method EnsureSubscription(pollID: string, redisUp: bool)
      modifies this`subs, this`subscribers
      ensures Now() == EnsureSection(old(Now()), pollID, redisUp)
      ensures if pollID !in old(subs) && redisUp then
          && subs == old(subs)[pollID := |old(subscribers)|]
          && subscribers == old(subscribers) + [Subscriber(pollID, false, false)]
        else subs == old(subs) && subscribers == old(subscribers)
    {
      if pollID in subs {
        return;
      }
      if !redisUp {
        return;
      }
      subs := subs[pollID := |subscribers|];
      subscribers := subscribers + [Subscriber(pollID, false, false)];
    }

    method StopSubscription(pollID: string, inTime: bool)
      modifies this`subs, this`subscribers
      ensures Now() == Stop(old(Now()), pollID, inTime)
      ensures Stopped(old(Now()), pollID, inTime)
    {
      var sub: Option<nat> := if pollID in subs then Some(subs[pollID]) else None;
      subs := subs - {pollID};
      if sub.Some? && sub.value < |subscribers| {
        subscribers := subscribers[sub.value := subscribers[sub.value].(cancelled := true)];
        if inTime {
          AwaitDone(sub.value);
        }
      }
    }

    /** The wait in which the cancelled goroutine closes `done`. */
    method AwaitDone(k: nat)
      requires k < |subscribers| && subscribers[k].cancelled
      modifies this`subscribers
      ensures Now() == FinishSection(old(Now()), k) && IsDone(Now(), k)
    {
      subscribers := subscribers[k := subscribers[k].(done := true)];
    }

    method ClientCount(pollID: string) returns (n: nat)
      ensures n == |ClientsOf(Now(), pollID)|
    {
      n := if pollID in clients then |clients[pollID]| else 0;
    }
  }

  /** A whole Register is what its thread does when nobody else moves. */
  lemma RegisterIsARun(s: State, p: string, ok: bool)
    ensures var i := |s.threads|;
      var s2 := Next(Next(s, Connect(p)), Do(i, true));
      var s3 := if s2.threads[i].pc.EnsureDue? then Next(s2, Do(i, ok)) else s2;
      s3 == State(Enter(s.hub, p, i, ok), s.threads + [Thread(p, Watching)])
  {
    var i := |s.threads|;
    var (h, first) := RegisterSection(s.hub, p, i);
    var s2 := Next(Next(s, Connect(p)), Do(i, true));
    assert s2 == State(h, s.threads + [Thread(p, if first then EnsureDue else Watching)]);
  }

  /** The wait's end: the goroutine finishes and the thread sees it, or the two seconds pass. */
  ghost function EndWait(s: State, i: nat, inTime: bool): State
    requires i < |s.threads|
  {
    if !s.threads[i].pc.Waiting? then s
    else if inTime then Next(Next(s, Finish(s.threads[i].pc.sub)), Do(i, true))
    else Next(s, Do(i, false))
  }

  /** A whole Unregister is what its thread does when nobody else but the cancelled subscriber moves. */
  lemma UnregisterIsARun(s: State, i: nat, p: string, inTime: bool)
    requires i < |s.threads| && s.threads[i] == Thread(p, Watching)
    requires p in s.hub.subs ==> IsLive(s.hub, s.hub.subs[p], p)
    ensures var s1 := Next(s, Do(i, true));
      var s2 := if s1.threads[i].pc.StopDue? then Next(s1, Do(i, true)) else s1;
      var s3 := if s2.threads[i].pc.CancelDue? then Next(s2, Do(i, true)) else s2;
      EndWait(s3, i, inTime) == State(Leave(s.hub, p, i, inTime), s.threads[i := Thread(p, Gone)])
  {
    var (h, last) := UnregisterSection(s.hub, p, i);
    var s1 := Next(s, Do(i, true));
    assert s1 == State(h, s.threads[i := Thread(p, if last then StopDue else Gone)]);
    if last {
      var (h2, sub) := StopSection(h, p);
      var s2 := Next(s1, Do(i, true));
      assert s2 == State(h2, s.threads[i := Thread(p, if sub.Some? then CancelDue(sub.value) else Gone)]);
      if sub.Some? {
        var s3 := Next(s2, Do(i, true));
        assert s3 == State(CancelSection(h2, sub.value), s.threads[i := Thread(p, Waiting(sub.value))]);
      }
    }
  }

  // ----- Whole calls, one after the other -----

  datatype Visit = Arrival(poll: string, client: nat) | Departure(poll: string, client: nat, inTime: bool)

  function Run(visits: seq<Visit>): Shared {
    if visits == [] then Shared(map[], map[], [])
    else
      var h := Run(visits[..|visits| - 1]);
      match visits[|visits| - 1]
      case Arrival(p, c) => Enter(h, p, c, true)
      case Departure(p, c, inTime) => Leave(h, p, c, inTime)
  }

  /** Entries and live subscribers name each other. */
  predicate EntriesTidy(h: Shared) {
    && (forall p | p in h.subs :: IsLive(h, h.subs[p], p))
    && (forall k | 0 <= k < |h.subscribers| && !h.subscribers[k].cancelled ::
          h.subscribers[k].poll in h.subs && h.subs[h.subscribers[k].poll] == k)
  }

  predicate Tidy(h: Shared) {
    && h.clients.Keys == h.subs.Keys
    && (forall p | p in h.clients :: h.clients[p] != {})
    && EntriesTidy(h)
  }

  lemma EnterKeepsTidy(h: Shared, p: string, c: nat)
    requires Tidy(h)
    ensures Tidy(Enter(h, p, c, true))
  {
    if p !in h.clients {
      assert ClientsOf(h, p) + {c} == {c};
    }
  }

  lemma LeaveKeepsTidy(h: Shared, p: string, c: nat, inTime: bool)
    requires Tidy(h)
    ensures Tidy(Leave(h, p, c, inTime))
  {
    var (h1, last) := UnregisterSection(h, p, c);
    if last && p in h.subs {
      StopKeepsTidy(h1, p, inTime);
    }
  }

  /** Between its two sections Unregister has an entry for a poll nobody views; the stop removes it. */
  lemma StopKeepsTidy(h: Shared, p: string, inTime: bool)
    requires p in h.subs && p !in h.clients && EntriesTidy(h)
    requires h.clients.Keys == h.subs.Keys - {p} && forall q | q in h.clients :: h.clients[q] != {}
    ensures Tidy(Stop(h, p, inTime))
  {
    assert IsLive(h, h.subs[p], p);
    var h' := Stop(h, p, inTime);
    assert h'.clients == h.clients && h'.subs == h.subs - {p};
    assert forall k | 0 <= k < |h.subscribers| && k != h.subs[p] :: h'.subscribers[k] == h.subscribers[k];
    assert h'.subscribers[h.subs[p]].cancelled;
  }

  /**
   When calls do not overlap and Redis refuses nothing, the subscribed polls are exactly the viewed polls, and each has
   exactly one live subscriber.
   */
  lemma {:induction false} WholeCallsKeepKeysEqual(visits: seq<Visit>)
    ensures var h := Run(visits);
      && h.clients.Keys == h.subs.Keys
      && (forall k | 0 <= k < |h.subscribers| :: !h.subscribers[k].cancelled <==>
            h.subscribers[k].poll in h.clients && h.subs[h.subscribers[k].poll] == k)
    ensures Tidy(Run(visits))
  {
    if visits != [] {
      WholeCallsKeepKeysEqual(visits[..|visits| - 1]);
      var h := Run(visits[..|visits| - 1]);
      match visits[|visits| - 1]
      case Arrival(p, c) => EnterKeepsTidy(h, p, c);
      case Departure(p, c, inTime) => LeaveKeepsTidy(h, p, c, inTime);
    }
  }
}
