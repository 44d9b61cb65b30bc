/** Votes stored against votes counted, over every run; and the first regime, where Redis keeps its keys. */
module Conservation {
  import opened Basics
  import opened Models
  import opened Results
  import opened Protocol
  import opened Structure

  // ----- Every stored vote belongs to exactly one call that inserted it (both regimes) -----

  predicate Booked(s: State, p: string, o: string) {
    CountCalls(s.calls, PastInsert(p, o)) == CountDocuments(s.stores.votes, ForOption(p, o))
  }

  lemma BookedCommand(st: Stores, c: Call, env: Env, p: string, o: string)
    ensures var (st', c') := Command(st, c, env);
      CountDocuments(st'.votes, ForOption(p, o)) + One(Matches(PastInsert(p, o), c))
        == CountDocuments(st.votes, ForOption(p, o)) + One(Matches(PastInsert(p, o), c'))
  {
    CommandInserts(st, c, env, ForOption(p, o));
  }

  lemma BookedStep(s: State, step: Step, p: string, o: string)
    requires Booked(s, p, o)
    ensures Booked(Next(s, step), p, o)
  {
    StepCounts(s, step, PastInsert(p, o));
    if step.Do? && CanMove(s, step.call) {
      BookedCommand(s.stores, s.calls[step.call], step.env, p, o);
    }
  }

  /** In every run: stored votes for an option = calls in flight + stranded + past their increment. */
  lemma {:induction false} VotesAreBooked(run: seq<Step>, p: string, o: string)
    ensures var s := After(run);
      CountDocuments(s.stores.votes, ForOption(p, o)) ==
        CountCalls(s.calls, InFlight(p, o)) + CountCalls(s.calls, Stranded(p, o)) + CountCalls(s.calls, Counted(p, o))
  {
    VotesEqualPastInsert(run, p, o);
    PastInsertSplits(After(run).calls, p, o);
  }

  lemma {:induction false} VotesEqualPastInsert(run: seq<Step>, p: string, o: string)
    ensures Booked(After(run), p, o)
  {
    if run != [] {
      VotesEqualPastInsert(run[..|run| - 1], p, o);
      BookedStep(After(run[..|run| - 1]), run[|run| - 1], p, o);
    }
  }

  // ----- First regime -----

  predicate CacheAt(s: State, p: string, o: string) {
    Live(s.stores, p, o) == Counter(s.stores, p, o) == CountCalls(s.calls, Counted(p, o))
  }

  /** What a call past a seeding command knows; a seed for a missing hash can only be zeros. */
  ghost predicate Seeded(st: Stores, c: Call) {
    && (c.VoteCall? && !c.vote.Find? && !c.vote.SeedNil? ==> c.pollId in st.results)
    && (c.ReadCall? && c.read.Seed? && c.read.todo != [] && c.read.todo[0].id !in st.results ==>
          forall o :: Get(c.read.seed, o) == 0)
  }

  predicate VotesSeeded(st: Stores) {
    forall i | 0 <= i < |st.votes| :: st.votes[i].pollId in st.results
  }

  ghost predicate AllSeeded(s: State) {
    VotesSeeded(s.stores) && forall i | 0 <= i < |s.calls| :: Seeded(s.stores, s.calls[i])
  }

  lemma NoHashNoVotes(st: Stores, f: Filter)
    requires VotesSeeded(st)
    ensures f.pollId !in st.results ==> CountDocuments(st.votes, f) == 0
  {
    if CountDocuments(st.votes, f) > 0 {
      var i := SomeSelected(st.votes, f);
      assert st.votes[i].pollId in st.results;
    }
  }

  lemma SeededCommand(st: Stores, c: Call, env: Env)
    requires CallOk(st, c) && StoresOk(st) && VotesSeeded(st) && Seeded(st, c) && c.out.Running?
    ensures var (st', c') := Command(st, c, env);
      VotesSeeded(st') && Seeded(st', c') && st.results.Keys <= st'.results.Keys
  {
    var (st', c') := Command(st, c, env);
    if c.ReadCall? && c.read.CountVotes? {
      var p := c.read.todo[0].id;
      forall o | p !in st.results ensures Get(c'.read.seed, o) == 0 {
        GetCountByOption(st.votes, p, o);
        NoHashNoVotes(st, ForOption(p, o));
      }
    }
  }

  lemma SeededStep(s: State, step: Step)
    requires Shape(s) && AllSeeded(s) && !Loses(step)
    ensures AllSeeded(Next(s, step))
  {
    if step.Do? && CanMove(s, step.call) {
      SeededCommand(s.stores, s.calls[step.call], step.env);
    }
  }

  lemma SeedingKeepsLive(st: Stores, p: string, options: seq<PollOption>, seed: map<string, nat>, q: string, o: string)
    requires p in st.results || Get(seed, o) == 0
    ensures Live(EnsureResults(st, p, options, seed), q, o) == Live(st, q, o)
  {
  }

  lemma CacheStep(s: State, step: Step, p: string, o: string)
    requires Shape(s) && AllSeeded(s) && CacheAt(s, p, o) && !Loses(step)
    ensures CacheAt(Next(s, step), p, o)
  {
    StepCounts(s, step, Counted(p, o));
    if step.Do? && CanMove(s, step.call) {
      CacheCommand(s.stores, s.calls[step.call], step.env, p, o);
    }
  }

  /** Only an increment moves a live count, and it moves the counter with it. */
  lemma CacheCommand(st: Stores, c: Call, env: Env, p: string, o: string)
    requires CallOk(st, c) && Seeded(st, c) && c.out.Running?
    ensures var (st', c') := Command(st, c, env);
      && Live(st', p, o) == Live(st, p, o) + One(Matches(Counted(p, o), c')) - One(Matches(Counted(p, o), c))
      && Counter(st', p, o) == Counter(st, p, o) + One(Matches(Counted(p, o), c')) - One(Matches(Counted(p, o), c))
  {
    match c
    case VoteCall(q, _, _, vote, _) =>
      if vote.SeedNil? {
        SeedingKeepsLive(st, q, vote.options, map[], p, o);
      }
    case ReadCall(_, read, _, _) =>
      if read.Seed? {
        SeedingKeepsLive(st, read.todo[0].id, read.todo[0].options, read.seed, p, o);
      }
    case CreateCall(_, _, create, _) =>
      if create.SeedNew? {
        SeedingKeepsLive(st, create.id, create.options, map[], p, o);
      }
    case StatusCall(_, _, _, _, _) =>
  }

  lemma {:induction false} CacheInvariant(run: seq<Step>)
    requires KeepsKeys(run)
    ensures AllSeeded(After(run)) && forall p, o :: CacheAt(After(run), p, o)
  {
    if run != [] {
      var before, step := run[..|run| - 1], run[|run| - 1];
      CacheInvariant(before);
      Reachable(before);
      SeededStep(After(before), step);
      forall p, o ensures CacheAt(After(run), p, o) {
        CacheStep(After(before), step, p, o);
      }
    }
  }

  /**
   Conservation: without key loss, in every interleaving and for every poll and option,
   live count + calls between insert and increment + calls stranded there = votes stored.
   The per-option counter always equals the hash entry.
   */
  lemma LiveCountsAreConserved(run: seq<Step>, p: string, o: string)
    requires KeepsKeys(run)
    ensures var s := After(run);
      && Live(s.stores, p, o) + CountCalls(s.calls, InFlight(p, o)) + CountCalls(s.calls, Stranded(p, o))
         == CountDocuments(s.stores.votes, ForOption(p, o))
      && Counter(s.stores, p, o) == Live(s.stores, p, o)
  {
    CacheInvariant(run);
    assert CacheAt(After(run), p, o);
    VotesAreBooked(run, p, o);
  }

  /** A hash exists for every poll with a stored vote, so no seeding, however late, moves any live count. */
  lemma LateSeedingIsHarmless(run: seq<Step>, i: nat, env: Env, p: string, o: string)
    requires KeepsKeys(run)
    requires CanMove(After(run), i)
    requires var c := After(run).calls[i];
      (c.VoteCall? && c.vote.SeedNil?) || (c.ReadCall? && c.read.Seed?) || (c.CreateCall? && c.create.SeedNew?)
    ensures var st, st' := After(run).stores, Next(After(run), Do(i, env)).stores;
      && Live(st', p, o) == Live(st, p, o) && Counter(st', p, o) == Counter(st, p, o)
      && (p in st'.results && p !in st.results ==> CountDocuments(st.votes, ForPoll(p)) == 0)
  {
    CacheInvariant(run);
    Reachable(run);
    var st := After(run).stores;
    CacheCommand(st, After(run).calls[i], env, p, o);
    NoHashNoVotes(st, ForPoll(p));
  }

  lemma {:induction false} TotalBound(options: seq<PollOption>, hash: map<string, nat>, bound: map<string, nat>)
    requires forall o :: Get(hash, o) <= Get(bound, o)
    ensures Sum(VotesOf(options, hash)) <= Sum(VotesOf(options, bound))
    decreases |options|
  {
    if options != [] {
      var rest := options[..|options| - 1];
      TotalBound(rest, hash, bound);
      assert VotesOf(options, hash)[..|options| - 1] == VotesOf(rest, hash);
      assert VotesOf(options, bound)[..|options| - 1] == VotesOf(rest, bound);
      assert Get(hash, options[|options| - 1].id) <= Get(bound, options[|options| - 1].id);
    }
  }

  /**
   What any reader of a poll is shown never exceeds the votes stored, option by option and in total,
   and equals them once no call is in flight or stranded between its insert and its increment.
   */
  lemma ShownResultsNeverOvercount(run: seq<Step>, p: string, options: seq<PollOption>)
    requires KeepsKeys(run)
    ensures var s := After(run);
      var shown := GetResults(s.stores, p, options);
      var stored := CountByOption(s.stores.votes, p);
      && (forall k | 0 <= k < |options| :: shown[k].votes <= Get(stored, options[k].id))
      && Sum(Votes(shown)) <= Sum(VotesOf(options, stored))
      && ((forall o :: CountCalls(s.calls, InFlight(p, o)) + CountCalls(s.calls, Stranded(p, o)) == 0) ==>
            Votes(shown) == VotesOf(options, stored))
  {
    var s := After(run);
    var stored := CountByOption(s.stores.votes, p);
    forall o
      ensures Live(s.stores, p, o) + CountCalls(s.calls, InFlight(p, o)) + CountCalls(s.calls, Stranded(p, o))
        == Get(stored, o)
    {
      LiveCountsAreConserved(run, p, o);
      GetCountByOption(s.stores.votes, p, o);
    }
    forall o ensures Get(Hash(s.stores, p), o) <= Get(stored, o) {
      assert Live(s.stores, p, o) <= Get(stored, o);
    }
    TotalBound(options, Hash(s.stores, p), stored);
    var shown := GetResults(s.stores, p, options);
    assert Votes(shown) == VotesOf(options, Hash(s.stores, p));
    forall k | 0 <= k < |options| ensures shown[k].votes <= Get(stored, options[k].id) {
      assert shown[k].votes == Live(s.stores, p, options[k].id);
    }
    if forall o :: CountCalls(s.calls, InFlight(p, o)) + CountCalls(s.calls, Stranded(p, o)) == 0 {
      forall k | 0 <= k < |options| ensures Votes(shown)[k] == VotesOf(options, stored)[k] {
        assert Live(s.stores, p, options[k].id) == Get(stored, options[k].id);
      }
    }
  }

  // ----- Polls do not disturb each other -----

  /** The step moves no call, or a Vote call of poll p. */
  predicate VotesOn(s: State, step: Step, p: string) {
    match step
    case Arrive(_) => true
    case Abandon(_) => true
    case Do(i, _) => CanMove(s, i) ==> s.calls[i].VoteCall? && s.calls[i].pollId == p
    case LoseHash(_) => false
    case LoseCounter(_, _) => false
  }

  lemma VoteLeavesOtherPolls(st: Stores, c: Call, env: Env, q: string, o: string)
    requires c.VoteCall? && c.pollId != q
    ensures var st' := VoteCommand(st, c, env).0;
      (q in st'.results <==> q in st.results) && Hash(st', q) == Hash(st, q) && Counter(st', q, o) == Counter(st, q, o)
  {
  }

  /** Any run of Vote steps on one poll leaves every other poll's hash, counters and votes as they were. */
  lemma {:induction false} VotesLeaveOtherPolls(run: seq<Step>, n: nat, p: string, q: string, o: string)
    requires n <= |run| && q != p
    requires forall k | n <= k < |run| :: VotesOn(After(run[..k]), run[k], p)
    ensures var st, st' := After(run[..n]).stores, After(run).stores;
      && (q in st'.results <==> q in st.results) && Hash(st', q) == Hash(st, q)
      && Counter(st', q, o) == Counter(st, q, o)
      && CountDocuments(st'.votes, ForOption(q, o)) == CountDocuments(st.votes, ForOption(q, o))
  {
    if n == |run| {
      assert run[..n] == run;
    } else {
      var before := run[..|run| - 1];
      assert before[..n] == run[..n];
      forall k | 0 <= k <= |before| ensures before[..k] == run[..k] {
      }
      VotesLeaveOtherPolls(before, n, p, q, o);
      var s, step := After(before), run[|run| - 1];
      assert VotesOn(After(run[..|run| - 1]), step, p);
      if step.Do? && CanMove(s, step.call) {
        VoteLeavesOtherPolls(s.stores, s.calls[step.call], step.env, q, o);
        CommandInserts(s.stores, s.calls[step.call], step.env, ForOption(q, o));
      }
    }
  }
}
