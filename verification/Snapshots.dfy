/** What the published poll_update events say, in runs where Redis keeps its keys. */
module Snapshots {
  import opened Basics
  import opened Models
  import opened Results
  import opened Protocol
  import opened Structure
  import opened Conservation
  import opened Voters
  import opened Scenario

  predicate HasSnapshot(c: Call) {
    c.VoteCall? && (c.vote.Publish? || c.vote.Published?)
  }

  function SnapshotOf(c: Call): seq<OptionResult>
    requires HasSnapshot(c)
  {
    c.vote.results
  }

  predicate AtMost(a: seq<OptionResult>, b: seq<OptionResult>) {
    |a| == |b| && forall x | 0 <= x < |a| :: a[x].votes <= b[x].votes
  }

  /** Without key loss a live count never goes down. */
  lemma {:induction false} LiveIsMonotone(run: seq<Step>, n: nat, p: string, o: string)
    requires KeepsKeys(run) && n <= |run|
    ensures Live(After(run[..n]).stores, p, o) <= Live(After(run).stores, p, o)
  {
    if n == |run| {
      assert run[..n] == run;
    } else {
      var before := run[..|run| - 1];
      assert before[..n] == run[..n];
      LiveIsMonotone(before, n, p, o);
      CacheInvariant(before);
      Reachable(before);
      var s, step := After(before), run[|run| - 1];
      if step.Do? && CanMove(s, step.call) {
        CacheCommand(s.stores, s.calls[step.call], step.env, p, o);
        StaysCounted(s.stores, s.calls[step.call], step.env, p, o);
      }
    }
  }

  lemma StaysCounted(st: Stores, c: Call, env: Env, p: string, o: string)
    ensures Matches(Counted(p, o), c) ==> Matches(Counted(p, o), Command(st, c, env).1)
  {
  }

  /** The moment `n` at which call `i` read its snapshot: the snapshot is what the hash held then. */
  ghost predicate ReadAt(run: seq<Step>, n: nat, i: nat, results: seq<OptionResult>)
    requires n <= |run|
  {
    var s := After(run[..n]);
    && i < |s.calls| && s.calls[i].VoteCall? && s.calls[i].vote.ReadOwn? && s.calls[i].out.Running?
    && results == GetResults(s.stores, s.calls[i].pollId, s.calls[i].vote.options)
  }

  lemma SnapshotCommand(st: Stores, c: Call, env: Env)
    requires c.out.Running? && HasSnapshot(Command(st, c, env).1)
    ensures var c' := Command(st, c, env).1;
      && c.VoteCall? && c'.pollId == c.pollId && c'.optionId == c.optionId
      && if c.vote.ReadOwn? then SnapshotOf(c') == GetResults(st, c.pollId, c.vote.options)
         else HasSnapshot(c) && SnapshotOf(c') == SnapshotOf(c)
  {
  }

  /** Every snapshot a call holds was really read from the hash at some earlier moment of the run. */
  lemma {:induction false} SnapshotWasRead(run: seq<Step>, i: nat) returns (n: nat)
    requires i < |After(run).calls| && HasSnapshot(After(run).calls[i])
    ensures n <= |run| && ReadAt(run, n, i, SnapshotOf(After(run).calls[i]))
    ensures After(run[..n]).calls[i].pollId == After(run).calls[i].pollId
    ensures After(run[..n]).calls[i].optionId == After(run).calls[i].optionId
  {
    var before, step := run[..|run| - 1], run[|run| - 1];
    var s := After(before);
    if step.Do? && CanMove(s, step.call) && step.call == i {
      SnapshotCommand(s.stores, s.calls[i], step.env);
      if s.calls[i].vote.ReadOwn? {
        n := |before|;
        return;
      }
    }
    n := SnapshotWasRead(before, i);
    assert before[..n] == run[..n];
  }

  lemma EventCommand(st: Stores, c: Call, env: Env)
    ensures var (st', c') := Command(st, c, env);
      && (st'.events == st.events || (|st'.events| == |st.events| + 1 && st.events == st'.events[..|st.events|]))
      && (|st'.events| > |st.events| && st'.events[|st.events|].PollUpdate? ==>
            && c.VoteCall? && c.vote.Publish? && c'.vote == Published(c.vote.results) && c'.pollId == c.pollId
            && st'.events[|st.events|] == PollUpdate(c.pollId, Sum(Votes(c.vote.results)), c.vote.results))
      && (c.VoteCall? && c'.vote.Published? && !c.vote.Published? ==> |st'.events| > |st.events|)
  {
  }

  lemma PublishedStays(st: Stores, c: Call, env: Env)
    requires c.VoteCall? && c.vote.Published?
    ensures Command(st, c, env).1 == c
  {
  }

  /** Call i published event k. */
  predicate Publishes(s: State, i: nat, k: nat) {
    && k < |s.stores.events| && s.stores.events[k].PollUpdate?
    && var e := s.stores.events[k];
      && i < |s.calls| && s.calls[i].VoteCall? && s.calls[i].pollId == e.pollId
      && s.calls[i].vote == Published(e.results) && e.totalVotes == Sum(Votes(e.results))
  }

  lemma PublisherStays(s: State, step: Step, i: nat, k: nat)
    requires Publishes(s, i, k)
    ensures Publishes(Next(s, step), i, k)
  {
    if step.Do? && CanMove(s, step.call) {
      EventCommand(s.stores, s.calls[step.call], step.env);
      if step.call == i {
        PublishedStays(s.stores, s.calls[i], step.env);
      }
    }
  }

  /** Every poll_update was published by a Vote call of that poll, with the snapshot the call had read. */
  lemma {:induction false} EventHasPublisher(run: seq<Step>, k: nat) returns (i: nat)
    requires k < |After(run).stores.events| && After(run).stores.events[k].PollUpdate?
    ensures Publishes(After(run), i, k)
  {
    var before, step := run[..|run| - 1], run[|run| - 1];
    var s := After(before);
    if step.Do? && CanMove(s, step.call) {
      EventCommand(s.stores, s.calls[step.call], step.env);
    }
    if k < |s.stores.events| {
      i := EventHasPublisher(before, k);
      PublisherStays(s, step, i, k);
    } else {
      i := step.call;
    }
  }

  lemma {:induction false} PublishedHasEvent(run: seq<Step>, i: nat) returns (k: nat)
    requires i < |After(run).calls| && After(run).calls[i].VoteCall? && After(run).calls[i].vote.Published?
    ensures var s := After(run);
      var results := s.calls[i].vote.results;
      k < |s.stores.events| && s.stores.events[k] == PollUpdate(s.calls[i].pollId, Sum(Votes(results)), results)
  {
    var before, step := run[..|run| - 1], run[|run| - 1];
    var s := After(before);
    if step.Do? && CanMove(s, step.call) {
      EventCommand(s.stores, s.calls[step.call], step.env);
      if step.call == i && !(s.calls[i].VoteCall? && s.calls[i].vote.Published?) {
        k := |s.stores.events|;
        PublishCommand(s.stores, s.calls[i], step.env);
        return;
      }
      if step.call == i {
        PublishedStays(s.stores, s.calls[i], step.env);
      }
    }
    k := PublishedHasEvent(before, i);
  }

  lemma PublishCommand(st: Stores, c: Call, env: Env)
    requires c.VoteCall? && !c.vote.Published?
    ensures var (st', c') := Command(st, c, env);
      c'.VoteCall? && c'.vote.Published? ==>
        && c'.pollId == c.pollId
        && st'.events == st.events + [PollUpdate(c.pollId, Sum(Votes(c'.vote.results)), c'.vote.results)]
  {
  }

  lemma OptionsAtRead(run: seq<Step>, n: nat, i: nat, results: seq<OptionResult>)
    requires n <= |run| && ReadAt(run, n, i, results)
    ensures var p := After(run[..n]).calls[i].pollId;
      && p in After(run).stores.polls
      && results == GetResults(After(run[..n]).stores, p, After(run).stores.polls[p].options)
      && HasOption(After(run).stores.polls[p].options, After(run[..n]).calls[i].optionId)
  {
    Reachable(run[..n]);
    LaterExtends(run, n);
  }

  /**
   Each published event shows counts the hash really had at one moment n, in the poll's option order. At that moment
   an option's count was the number of calls past their increment, and call i, which published the event, was one of
   them, so its own option shows at least its own vote.
   */
  lemma EventIsRealAndIncludesPublisher(run: seq<Step>, k: nat) returns (n: nat, i: nat)
    requires KeepsKeys(run)
    requires k < |After(run).stores.events| && After(run).stores.events[k].PollUpdate?
    ensures Publishes(After(run), i, k)
    ensures var e := After(run).stores.events[k];
      && n <= |run| && ReadAt(run, n, i, e.results)
      && After(run[..n]).calls[i].pollId == e.pollId && e.pollId in After(run).stores.polls
      && After(run[..n]).calls[i].optionId == After(run).calls[i].optionId
    ensures var e := After(run).stores.events[k];
      var options := After(run).stores.polls[e.pollId].options;
      && Presents(e.results, options, Votes(e.results)) && e.totalVotes == Sum(Votes(e.results))
      && |e.results| == |options|
      && (forall x | 0 <= x < |options| ::
            && e.results[x].optionId == options[x].id
            && e.results[x].votes == CountCalls(After(run[..n]).calls, Counted(e.pollId, options[x].id)))
      && (exists x | 0 <= x < |options| ::
            options[x].id == After(run).calls[i].optionId && e.results[x].votes >= 1)
  {
    var e := After(run).stores.events[k];
    i := EventHasPublisher(run, k);
    n := SnapshotWasRead(run, i);
    OptionsAtRead(run, n, i, e.results);
    var s := After(run[..n]);
    var options := After(run).stores.polls[e.pollId].options;
    CacheInvariant(run[..n]);
    SnapshotPresents(options, Hash(s.stores, e.pollId));
    forall x | 0 <= x < |options| ensures e.results[x].votes == CountCalls(s.calls, Counted(e.pollId, options[x].id)) {
      assert CacheAt(s, e.pollId, options[x].id);
      assert e.results[x].votes == Live(s.stores, e.pollId, options[x].id);
    }
    var x :| 0 <= x < |options| && options[x].id == s.calls[i].optionId;
    CountPositive(s.calls, i, Counted(e.pollId, options[x].id));
    assert e.results[x].votes >= 1;
  }

  lemma ReadsAreOrdered(run: seq<Step>, n: nat, m: nat, p: string, options: seq<PollOption>)
    requires KeepsKeys(run) && n <= m <= |run|
    ensures AtMost(GetResults(After(run[..n]).stores, p, options), GetResults(After(run[..m]).stores, p, options))
  {
    forall x | 0 <= x < |options|
      ensures Live(After(run[..n]).stores, p, options[x].id) <= Live(After(run[..m]).stores, p, options[x].id)
    {
      assert run[..m][..n] == run[..n];
      LiveIsMonotone(run[..m], n, p, options[x].id);
    }
  }

  /** Any two events of one poll are comparable: one is at most the other, option by option. */
  lemma EventsFormAChain(run: seq<Step>, j: nat, k: nat)
    requires KeepsKeys(run)
    requires var events := After(run).stores.events;
      && j < |events| && events[j].PollUpdate?
      && k < |events| && events[k].PollUpdate? && events[j].pollId == events[k].pollId
    ensures var events := After(run).stores.events;
      AtMost(events[j].results, events[k].results) || AtMost(events[k].results, events[j].results)
  {
    var events := After(run).stores.events;
    var n, a := EventIsRealAndIncludesPublisher(run, j);
    var m, b := EventIsRealAndIncludesPublisher(run, k);
    OptionsAtRead(run, n, a, events[j].results);
    OptionsAtRead(run, m, b, events[k].results);
    var p := events[j].pollId;
    var options := After(run).stores.polls[p].options;
    if n <= m {
      ReadsAreOrdered(run, n, m, p, options);
    } else {
      ReadsAreOrdered(run, m, n, p, options);
    }
  }

  // ----- The last increment's snapshot -----

  /** Call i of poll p is about to read, or has read, the hash as it is now. */
  predicate UpToDate(s: State, i: nat, p: string) {
    && i < |s.calls| && s.calls[i].VoteCall? && s.calls[i].pollId == p && p in s.stores.polls
    && (s.calls[i].vote.ReadOwn?
        || (HasSnapshot(s.calls[i]) && SnapshotOf(s.calls[i]) == GetResults(s.stores, p, s.stores.polls[p].options)))
  }

  ghost predicate NoneCounted(s: State, p: string) {
    forall o :: CountCalls(s.calls, Counted(p, o)) == 0
  }

  lemma UpToDateCommand(st: Stores, c: Call, env: Env, p: string)
    requires c.out.Running? && CallOk(st, c) && p in st.results && p in st.polls && StoresOk(st)
    ensures var (st', c') := Command(st, c, env);
      && p in st'.polls && st'.polls[p].options == st.polls[p].options
      && (Hash(st', p) == Hash(st, p) || (c.VoteCall? && c.vote.Increment? && c.pollId == p))
      && (c.VoteCall? && c.vote.Increment? && c.pollId == p ==> c'.vote.ReadOwn? && c'.pollId == p)
      && (c.VoteCall? && c.vote.ReadOwn? && c.pollId == p ==>
            HasSnapshot(c') && c'.pollId == p && SnapshotOf(c') == GetResults(st', p, st.polls[p].options))
      && (HasSnapshot(c) ==> HasSnapshot(c') && SnapshotOf(c') == SnapshotOf(c) && c'.pollId == c.pollId)
  {
  }

  /** Once anything was counted for a poll, some call is about to read, or has read, the current tally. */
  lemma {:induction false} SomeoneIsUpToDate(run: seq<Step>, p: string) returns (i: nat)
    requires KeepsKeys(run) && !NoneCounted(After(run), p)
    ensures UpToDate(After(run), i, p)
  {
    var before, step := run[..|run| - 1], run[|run| - 1];
    var s := After(before);
    Reachable(before);
    CacheInvariant(before);
    var o :| CountCalls(After(run).calls, Counted(p, o)) != 0;
    StepCounts(s, step, Counted(p, o));
    if NoneCounted(s, p) {
      i := step.call;
      FirstCount(s.stores, s.calls[i], step.env, p, o);
    } else {
      i := SomeoneIsUpToDate(before, p);
      i := UpToDateStep(s, step, p, i);
    }
  }

  lemma UpToDateStep(s: State, step: Step, p: string, i: nat) returns (j: nat)
    requires Shape(s) && AllSeeded(s) && !Loses(step) && UpToDate(s, i, p)
    ensures UpToDate(Next(s, step), j, p)
  {
    j := i;
    if step.Do? && CanMove(s, step.call) {
      assert Seeded(s.stores, s.calls[i]);
      UpToDateCommand(s.stores, s.calls[step.call], step.env, p);
      if s.calls[step.call].VoteCall? && s.calls[step.call].vote.Increment? && s.calls[step.call].pollId == p {
        j := step.call;
      }
    }
  }

  lemma FirstCount(st: Stores, c: Call, env: Env, p: string, o: string)
    requires CallOk(st, c) && c.out.Running?
    requires !Matches(Counted(p, o), c) && Matches(Counted(p, o), Command(st, c, env).1)
    ensures var (st', c') := Command(st, c, env);
      c'.VoteCall? && c'.vote.ReadOwn? && c'.pollId == p && p in st'.polls
  {
  }

  // ----- When an event is current -----

  /** The step is an increment for poll p. */
  predicate IncrementsPoll(s: State, step: Step, p: string) {
    && step.Do? && CanMove(s, step.call)
    && s.calls[step.call].VoteCall? && s.calls[step.call].vote.Increment? && s.calls[step.call].pollId == p
  }

  ghost predicate NoIncrementSince(run: seq<Step>, n: nat, p: string) {
    forall m | n <= m < |run| :: !IncrementsPoll(After(run[..m]), run[m], p)
  }

  lemma NoIncrementBefore(run: seq<Step>, n: nat, p: string)
    requires n < |run| && NoIncrementSince(run, n, p)
    ensures var before := run[..|run| - 1];
      NoIncrementSince(before, n, p) && !IncrementsPoll(After(before), run[|run| - 1], p)
  {
    var before := run[..|run| - 1];
    forall m | n <= m < |before| ensures !IncrementsPoll(After(before[..m]), before[m], p) {
      assert before[..m] == run[..m] && before[m] == run[m];
    }
  }

  lemma HashStepWithoutIncrement(s: State, step: Step, p: string)
    requires Shape(s) && !Loses(step) && p in s.stores.results && p in s.stores.polls && !IncrementsPoll(s, step, p)
    ensures var s' := Next(s, step);
      p in s'.stores.results && p in s'.stores.polls && Hash(s'.stores, p) == Hash(s.stores, p)
  {
    if step.Do? && CanMove(s, step.call) {
      UpToDateCommand(s.stores, s.calls[step.call], step.env, p);
      OffsetCommandKeepsHash(s.stores, s.calls[step.call], step.env, p);
    }
  }

  lemma OffsetCommandKeepsHash(st: Stores, c: Call, env: Env, p: string)
    requires p in st.results
    ensures p in Command(st, c, env).0.results
  {
  }

  lemma {:induction false} HashUnchangedWithoutIncrement(run: seq<Step>, n: nat, p: string)
    requires KeepsKeys(run) && n <= |run| && NoIncrementSince(run, n, p)
    requires p in After(run[..n]).stores.results && p in After(run[..n]).stores.polls
    ensures p in After(run).stores.results && p in After(run).stores.polls
    ensures Hash(After(run).stores, p) == Hash(After(run[..n]).stores, p)
  {
    if n == |run| {
      assert run[..n] == run;
    } else {
      var before := run[..|run| - 1];
      assert before[..n] == run[..n];
      NoIncrementBefore(run, n, p);
      HashUnchangedWithoutIncrement(before, n, p);
      Reachable(before);
      HashStepWithoutIncrement(After(before), run[|run| - 1], p);
    }
  }

  lemma IncrementRaises(s: State, step: Step, p: string)
    requires Shape(s) && IncrementsPoll(s, step, p)
    ensures p in s.stores.polls
    ensures var o := s.calls[step.call].optionId;
      HasOption(s.stores.polls[p].options, o) && Live(Next(s, step).stores, p, o) == Live(s.stores, p, o) + 1
  {
    assert CallOk(s.stores, s.calls[step.call]);
  }

  /** An increment after moment n leaves some option of the poll above what it was then. */
  lemma IncrementOutdates(run: seq<Step>, n: nat, m: nat, p: string) returns (o: string)
    requires KeepsKeys(run) && n <= m < |run| && IncrementsPoll(After(run[..m]), run[m], p)
    ensures p in After(run).stores.polls && HasOption(After(run).stores.polls[p].options, o)
    ensures Live(After(run[..n]).stores, p, o) < Live(After(run).stores, p, o)
  {
    var s := After(run[..m]);
    o := s.calls[run[m].call].optionId;
    Reachable(run[..m]);
    IncrementRaises(s, run[m], p);
    LaterExtends(run, m);
    assert run[..m + 1][..m] == run[..m];
    LiveIsMonotone(run, m + 1, p, o);
    assert run[..m][..n] == run[..n];
    LiveIsMonotone(run[..m], n, p, o);
  }

  lemma SameResultsSameLive(st: Stores, st': Stores, p: string, options: seq<PollOption>, o: string)
    requires HasOption(options, o) && Votes(GetResults(st, p, options)) == Votes(GetResults(st', p, options))
    ensures Live(st, p, o) == Live(st', p, o)
  {
    var x :| 0 <= x < |options| && options[x].id == o;
    assert Votes(GetResults(st, p, options))[x] == Live(st, p, o);
    assert Votes(GetResults(st', p, options))[x] == Live(st', p, o);
  }

  /**
   Every event, read at moment n of the run, shows what the hash holds now if and only if no call has incremented its
   poll since it was read. The order of publishing has no part in it.
   */
  lemma EventIsCurrentIff(run: seq<Step>, k: nat) returns (n: nat, i: nat)
    requires KeepsKeys(run)
    requires k < |After(run).stores.events| && After(run).stores.events[k].PollUpdate?
    ensures var st := After(run).stores;
      var e := st.events[k];
      && Publishes(After(run), i, k) && e.pollId in st.polls
      && n <= |run| && ReadAt(run, n, i, e.results) && After(run[..n]).calls[i].pollId == e.pollId
      && (e.results == GetResults(st, e.pollId, st.polls[e.pollId].options) <==> NoIncrementSince(run, n, e.pollId))
      && (Votes(e.results) == Votes(GetResults(st, e.pollId, st.polls[e.pollId].options)) <==>
            NoIncrementSince(run, n, e.pollId))
  {
    var st := After(run).stores;
    var e := st.events[k];
    var p := e.pollId;
    n, i := EventIsRealAndIncludesPublisher(run, k);
    OptionsAtRead(run, n, i, e.results);
    if NoIncrementSince(run, n, p) {
      CacheInvariant(run[..n]);
      Reachable(run[..n]);
      assert Seeded(After(run[..n]).stores, After(run[..n]).calls[i]);
      HashUnchangedWithoutIncrement(run, n, p);
    } else {
      var m :| n <= m < |run| && IncrementsPoll(After(run[..m]), run[m], p);
      var o := IncrementOutdates(run, n, m, p);
      if Votes(e.results) == Votes(GetResults(st, p, st.polls[p].options)) {
        SameResultsSameLive(After(run[..n]).stores, st, p, st.polls[p].options, o);
      }
    }
  }

  // ----- The final tally -----

  /** No Vote call of the poll stands between its increment and its event. */
  predicate NoneUnpublished(s: State, p: string) {
    forall i | 0 <= i < |s.calls| && s.calls[i].VoteCall? && s.calls[i].pollId == p ::
      !s.calls[i].vote.ReadOwn? && !s.calls[i].vote.Publish?
  }

  /** No event exceeds what the hash holds now. */
  lemma EventAtMostNow(run: seq<Step>, j: nat)
    requires KeepsKeys(run)
    requires j < |After(run).stores.events| && After(run).stores.events[j].PollUpdate?
    ensures var st := After(run).stores;
      var p := st.events[j].pollId;
      p in st.polls && AtMost(st.events[j].results, GetResults(st, p, st.polls[p].options))
  {
    var n, i := EventIsRealAndIncludesPublisher(run, j);
    var e := After(run).stores.events[j];
    OptionsAtRead(run, n, i, e.results);
    ReadsAreOrdered(run, n, |run|, e.pollId, After(run).stores.polls[e.pollId].options);
    assert run[..|run|] == run;
  }

  /**
   Once something was counted and no call stands between its increment and its event, some event shows exactly what the
   hash holds now and no event of the poll exceeds it anywhere. What it lacks of the stored votes is, option by option,
   the calls in flight or stranded before their increment.
   */
  lemma LargestEventIsLiveTally(run: seq<Step>, p: string) returns (k: nat)
    requires KeepsKeys(run) && !NoneCounted(After(run), p) && NoneUnpublished(After(run), p)
    ensures var st := After(run).stores;
      && p in st.polls && k < |st.events| && st.events[k].PollUpdate? && st.events[k].pollId == p
      && st.events[k].results == GetResults(st, p, st.polls[p].options)
      && st.events[k].totalVotes == Sum(Votes(st.events[k].results))
    ensures var st := After(run).stores;
      forall j | 0 <= j < |st.events| && st.events[j].PollUpdate? && st.events[j].pollId == p ::
        AtMost(st.events[j].results, st.events[k].results)
    ensures var s := After(run);
      var options := s.stores.polls[p].options;
      forall x | 0 <= x < |options| ::
        CountDocuments(s.stores.votes, ForOption(p, options[x].id)) - s.stores.events[k].results[x].votes
          == CountCalls(s.calls, InFlight(p, options[x].id)) + CountCalls(s.calls, Stranded(p, options[x].id))
  {
    var s := After(run);
    var i := SomeoneIsUpToDate(run, p);
    k := PublishedHasEvent(run, i);
    var options := s.stores.polls[p].options;
    forall j | 0 <= j < |s.stores.events| && s.stores.events[j].PollUpdate? && s.stores.events[j].pollId == p
      ensures AtMost(s.stores.events[j].results, s.stores.events[k].results)
    {
      EventAtMostNow(run, j);
    }
    forall x | 0 <= x < |options|
      ensures CountDocuments(s.stores.votes, ForOption(p, options[x].id)) - s.stores.events[k].results[x].votes
        == CountCalls(s.calls, InFlight(p, options[x].id)) + CountCalls(s.calls, Stranded(p, options[x].id))
    {
      LiveCountsAreConserved(run, p, options[x].id);
      assert s.stores.events[k].results[x].votes == Live(s.stores, p, options[x].id);
    }
  }

  /** Every Vote call of the poll that stored its vote has returned without an error. */
  predicate AllVotesSucceeded(s: State, p: string) {
    forall i | 0 <= i < |s.calls| && s.calls[i].VoteCall? && s.calls[i].pollId == p
      && !s.calls[i].vote.Find? && !s.calls[i].vote.SeedNil? && !s.calls[i].vote.Insert? :: s.calls[i].out.Done?
  }

  lemma {:induction false} NothingOwed(run: seq<Step>, p: string, o: string)
    requires AllVotesSucceeded(After(run), p)
    ensures CountCalls(After(run).calls, InFlight(p, o)) == 0 && CountCalls(After(run).calls, Stranded(p, o)) == 0
  {
    var s := After(run);
    Reachable(run);
    forall i | 0 <= i < |s.calls| ensures !Matches(InFlight(p, o), s.calls[i]) && !Matches(Stranded(p, o), s.calls[i]) {
      assert CallOk(s.stores, s.calls[i]);
    }
    NoMatches(s.calls, InFlight(p, o));
    NoMatches(s.calls, Stranded(p, o));
  }

  /** When every call that stored a vote has returned, no event is to come, and a stored vote means a counted one. */
  lemma SuccessLeavesNothingOpen(run: seq<Step>, p: string)
    requires AllVotesSucceeded(After(run), p)
    ensures NoneUnpublished(After(run), p)
    ensures CountDocuments(After(run).stores.votes, ForPoll(p)) > 0 ==> !NoneCounted(After(run), p)
  {
    var s := After(run);
    Reachable(run);
    forall i | 0 <= i < |s.calls| && s.calls[i].VoteCall? && s.calls[i].pollId == p
      ensures !s.calls[i].vote.ReadOwn? && !s.calls[i].vote.Publish?
    {
      assert CallOk(s.stores, s.calls[i]);
    }
    if CountDocuments(s.stores.votes, ForPoll(p)) > 0 {
      var v := SomeSelected(s.stores.votes, ForPoll(p));
      var o := s.stores.votes[v].optionId;
      CountSelected(s.stores.votes, v, ForOption(p, o));
      NothingOwed(run, p, o);
      VotesAreBooked(run, p, o);
      assert CountCalls(s.calls, Counted(p, o)) > 0;
    }
  }

  /** Then what readers are shown is CountByOption, with CountByPoll as its total. */
  lemma SuccessShowsStoredTally(run: seq<Step>, p: string)
    requires KeepsKeys(run) && AllVotesSucceeded(After(run), p) && p in After(run).stores.polls
    ensures var st := After(run).stores;
      var options := st.polls[p].options;
      && Votes(GetResults(st, p, options)) == VotesOf(options, CountByOption(st.votes, p))
      && Sum(Votes(GetResults(st, p, options))) == CountDocuments(st.votes, ForPoll(p))
  {
    var s := After(run);
    forall o ensures CountCalls(s.calls, InFlight(p, o)) + CountCalls(s.calls, Stranded(p, o)) == 0 {
      NothingOwed(run, p, o);
    }
    ShownResultsNeverOvercount(run, p, s.stores.polls[p].options);
    PollCountsAgree(run, p);
  }

  /**
   When every call that stored a vote has returned without an error, some published event carries the final tally,
   CountByOption with CountByPoll as its total, and no event of the poll exceeds it anywhere.
   */
  lemma LargestEventIsFinalTally(run: seq<Step>, p: string) returns (k: nat)
    requires KeepsKeys(run) && AllVotesSucceeded(After(run), p)
    requires CountDocuments(After(run).stores.votes, ForPoll(p)) > 0
    ensures var st := After(run).stores;
      && k < |st.events| && st.events[k].PollUpdate? && st.events[k].pollId == p && p in st.polls
      && Votes(st.events[k].results) == VotesOf(st.polls[p].options, CountByOption(st.votes, p))
      && st.events[k].totalVotes == CountDocuments(st.votes, ForPoll(p))
      && (forall j | 0 <= j < |st.events| && st.events[j].PollUpdate? && st.events[j].pollId == p ::
            AtMost(st.events[j].results, st.events[k].results))
  {
    SuccessLeavesNothingOpen(run, p);
    k := LargestEventIsLiveTally(run, p);
    SuccessShowsStoredTally(run, p);
  }

  /** k is the last poll_update of poll p. */
  predicate LastUpdate(events: seq<Event>, k: nat, p: string) {
    && k < |events| && events[k].PollUpdate? && events[k].pollId == p
    && forall j | k < j < |events| :: !(events[j].PollUpdate? && events[j].pollId == p)
  }

  lemma {:induction false} FindLastUpdate(events: seq<Event>, j: nat, p: string) returns (k: nat)
    requires j < |events| && events[j].PollUpdate? && events[j].pollId == p
    ensures LastUpdate(events, k, p)
  {
    var last := |events| - 1;
    if events[last].PollUpdate? && events[last].pollId == p {
      k := last;
    } else {
      k := FindLastUpdate(events[..last], j, p);
    }
  }

  /**
   When every call that stored a vote has returned without an error, the poll's last event carries the final tally if
   and only if no call incremented the poll after its publisher had read that event's snapshot.
   */
  lemma LastEventIsFinalIff(run: seq<Step>, p: string) returns (k: nat, n: nat, i: nat)
    requires KeepsKeys(run) && AllVotesSucceeded(After(run), p)
    requires CountDocuments(After(run).stores.votes, ForPoll(p)) > 0
    ensures var st := After(run).stores;
      && LastUpdate(st.events, k, p) && p in st.polls
      && n <= |run| && ReadAt(run, n, i, st.events[k].results)
      && Publishes(After(run), i, k) && After(run[..n]).calls[i].pollId == p
      && (Votes(st.events[k].results) == VotesOf(st.polls[p].options, CountByOption(st.votes, p)) <==>
            NoIncrementSince(run, n, p))
  {
    var largest := LargestEventIsFinalTally(run, p);
    k := FindLastUpdate(After(run).stores.events, largest, p);
    n, i := EventIsCurrentIff(run, k);
    SuccessShowsStoredTally(run, p);
  }

  // ----- The largest event need not be the last -----

  lemma TwoOptionTotal(hash: map<string, nat>)
    ensures var options := NewOptions(["a", "b"]);
      Sum(Votes(Snapshot(options, hash))) == Get(hash, options[0].id) + Get(hash, options[1].id)
  {
    var options := NewOptions(["a", "b"]);
    var votes := Votes(Snapshot(options, hash));
    assert votes[..1][..0] == [] && votes[..1][0] == votes[0];
    assert Sum(votes[..1]) == votes[0];
  }

  const TwoOptions := NewOptions(["a", "b"])
  const ThePoll := Poll(TwoOptions, "u", Active, None)
  const HashOf1 := map[First := 1, TwoOptions[1].id := 0]
  const HashOf2 := map[First := 2, TwoOptions[1].id := 0]
  const Creation := CreateCall("u", ["a", "b"], Created("p"), Done)
  const XVote := Vote("p", First, "x")
  const YVote := Vote("p", First, "y")

  function XCall(pc: VotePc): Call {
    VoteCall("p", First, "x", pc, Running)
  }

  function YCall(pc: VotePc): Call {
    VoteCall("p", First, "y", pc, Running)
  }

  lemma EmptyTally()
    ensures TwoOptions[0].id == First && TwoOptions[1].id != First
    ensures SeedHash(TwoOptions, map[]) == map[First := 0, TwoOptions[1].id := 0]
  {
    NewOptionsDistinct(["a", "b"]);
  }

  lemma OneReadsItsSnapshot() returns (run: seq<Step>)
    ensures KeepsKeys(run)
    ensures After(run) == State(
      Stores(map["p" := ThePoll], [XVote], map["p" := HashOf1], map[("p", First) := 1], []),
      [Creation, XCall(Publish(Snapshot(TwoOptions, HashOf1)))])
  {
    EmptyTally();
    var r0 := OneVoteInFlight();
    Follow(r0, Do(1, AnyEnv));
    var r1 := r0 + [Do(1, AnyEnv)];
    assert After(r1).stores.results["p"] == HashOf1;
    assert After(r1).calls == [Creation, XCall(ReadOwn(TwoOptions))];
    Follow(r1, Do(1, AnyEnv));
    run := r1 + [Do(1, AnyEnv)];
  }

  lemma AnotherVoteIsStored() returns (run: seq<Step>)
    ensures KeepsKeys(run)
    ensures After(run) == State(
      Stores(map["p" := ThePoll], [XVote, YVote], map["p" := HashOf1], map[("p", First) := 1], []),
      [Creation, XCall(Publish(Snapshot(TwoOptions, HashOf1))), YCall(Increment(TwoOptions))])
  {
    assert TwoOptions[0].id == First;
    var cast := Arrive(CastVote("p", First, "y"));
    var r0 := OneReadsItsSnapshot();
    Follow(r0, cast);
    var r1 := r0 + [cast];
    Follow(r1, Do(2, AnyEnv));
    var r2 := r1 + [Do(2, AnyEnv)];
    assert After(r2).calls[2] == YCall(SeedNil(TwoOptions));
    Follow(r2, Do(2, AnyEnv));
    var r3 := r2 + [Do(2, AnyEnv)];
    assert After(r3).calls[2] == YCall(Insert(TwoOptions));
    var y := ForVoter("p", "y");
    assert [XVote][..0] == [] && "x"[0] != "y"[0] && !Selects(y, XVote);
    assert CountDocuments([XVote], y) == 0;
    Follow(r3, Do(2, AnyEnv));
    run := r3 + [Do(2, AnyEnv)];
  }

  lemma BothAreCounted() returns (run: seq<Step>)
    ensures KeepsKeys(run)
    ensures After(run) == State(
      Stores(map["p" := ThePoll], [XVote, YVote], map["p" := HashOf2], map[("p", First) := 2], []),
      [Creation, XCall(Publish(Snapshot(TwoOptions, HashOf1))), YCall(ReadOwn(TwoOptions))])
  {
    EmptyTally();
    var r0 := AnotherVoteIsStored();
    Follow(r0, Do(2, AnyEnv));
    run := r0 + [Do(2, AnyEnv)];
    assert After(run).stores.results["p"] == HashOf2;
  }

  lemma BothHoldSnapshots() returns (run: seq<Step>)
    ensures KeepsKeys(run)
    ensures After(run) == State(
      Stores(map["p" := ThePoll], [XVote, YVote], map["p" := HashOf2], map[("p", First) := 2], []),
      [Creation, XCall(Publish(Snapshot(TwoOptions, HashOf1))), YCall(Publish(Snapshot(TwoOptions, HashOf2)))])
  {
    var r0 := BothAreCounted();
    Follow(r0, Do(2, AnyEnv));
    run := r0 + [Do(2, AnyEnv)];
  }

  /** Two calls read 1 and 2 votes and publish in the other order: the last event is stale although both succeeded. */
  lemma LastEventMayBeStale() returns (run: seq<Step>)
    ensures KeepsKeys(run)
    ensures var s := After(run);
      && |s.calls| == 3 && s.calls[1].out == Done && s.calls[2].out == Done
      && |s.stores.events| == 2 && s.stores.events[0].PollUpdate? && s.stores.events[1].PollUpdate?
      && s.stores.events[0].totalVotes == |s.stores.votes| == 2 && s.stores.events[1].totalVotes == 1
  {
    EmptyTally();
    TwoOptionTotal(HashOf1);
    TwoOptionTotal(HashOf2);
    var r0 := BothHoldSnapshots();
    Follow(r0, Do(2, AnyEnv));
    var r1 := r0 + [Do(2, AnyEnv)];
    Follow(r1, Do(1, AnyEnv));
    run := r1 + [Do(1, AnyEnv)];
  }
}
