/**
 The second regime: Redis may drop a results hash or a counter at any moment. Vote then re-seeds with zeros,
 readers re-seed from MongoDB, and an increment may recreate a hash with a single field. Conservation is
 gone; what is left is a bound on over-counting and exact recovery.
 */
module KeyLoss {
  import opened Basics
  import opened Models
  import opened Results
  import opened Protocol
  import opened Structure
  import opened Conservation
  import opened Scenario

  /** The call's next command is EnsureResults. */
  predicate Seeds(c: Call) {
    (c.VoteCall? && c.vote.SeedNil?) || (c.ReadCall? && c.read.Seed?) || (c.CreateCall? && c.create.SeedNew?)
  }

  /** The step runs an EnsureResults that finds no hash for the poll and installs one. */
  ghost predicate Reseeds(s: State, step: Step, p: string) {
    && step.Do? && CanMove(s, step.call)
    && Seeds(s.calls[step.call])
    && p !in s.stores.results && p in Next(s, step).stores.results
  }

  /** Calls in flight for the option when its poll was last seeded. */
  ghost function InFlightAtSeeding(run: seq<Step>, p: string, o: string): nat {
    if run == [] then 0
    else
      var before, step := run[..|run| - 1], run[|run| - 1];
      if Reseeds(After(before), step, p) then CountCalls(After(before).calls, InFlight(p, o))
      else InFlightAtSeeding(before, p, o)
  }

  lemma SeedingIsBounded(st: Stores, p: string, options: seq<PollOption>, seed: map<string, nat>, q: string, o: string)
    ensures Live(EnsureResults(st, p, options, seed), q, o) <=
      if q == p && p !in st.results && options != [] then Get(seed, o) else Live(st, q, o)
  {
  }

  lemma OvercountVote(st: Stores, c: Call, env: Env, p: string, o: string)
    requires c.VoteCall? && CallOk(st, c) && c.out.Running? && !c.vote.SeedNil?
    ensures var (st', c') := VoteCommand(st, c, env);
      var f := ForOption(p, o);
      && Live(st', p, o) + One(Matches(InFlight(p, o), c')) + CountDocuments(st.votes, f)
           == Live(st, p, o) + One(Matches(InFlight(p, o), c)) + CountDocuments(st'.votes, f)
      && (p in st'.results && p !in st.results ==> c.vote.Increment?)
  {
    CommandInserts(st, c, env, ForOption(p, o));
  }

  /** A command that seeds an absent hash installs at most what is stored; any other adds no over-count. */
  lemma OvercountCommand(st: Stores, c: Call, env: Env, p: string, o: string)
    requires CallOk(st, c) && SeedBounded(st.votes, c) && c.out.Running?
    ensures var (st', c') := Command(st, c, env);
      var f := ForOption(p, o);
      if Seeds(c) && p !in st.results && p in st'.results then
        && Live(st', p, o) <= CountDocuments(st'.votes, f)
        && Matches(InFlight(p, o), c') == Matches(InFlight(p, o), c)
      else
        Live(st', p, o) + One(Matches(InFlight(p, o), c')) + CountDocuments(st.votes, f)
          <= Live(st, p, o) + One(Matches(InFlight(p, o), c)) + CountDocuments(st'.votes, f)
  {
    match c
    case VoteCall(q, _, _, vote, _) =>
      if vote.SeedNil? {
        SeedingIsBounded(st, q, vote.options, map[], p, o);
      } else {
        OvercountVote(st, c, env, p, o);
      }
    case ReadCall(_, read, _, _) =>
      if read.Seed? {
        SeedingIsBounded(st, read.todo[0].id, read.todo[0].options, read.seed, p, o);
      }
    case CreateCall(_, _, create, _) =>
      if create.SeedNew? {
        SeedingIsBounded(st, create.id, create.options, map[], p, o);
      }
    case StatusCall(_, _, _, _, _) =>
  }

  lemma OvercountStep(s: State, step: Step, p: string, o: string, slack: nat)
    requires Shape(s) && Booked(s, p, o)
    requires Live(s.stores, p, o) + CountCalls(s.calls, InFlight(p, o))
      <= CountDocuments(s.stores.votes, ForOption(p, o)) + slack
    ensures var s' := Next(s, step);
      Live(s'.stores, p, o) + CountCalls(s'.calls, InFlight(p, o))
        <= CountDocuments(s'.stores.votes, ForOption(p, o)) +
           if Reseeds(s, step, p) then CountCalls(s.calls, InFlight(p, o)) else slack
  {
    StepCounts(s, step, InFlight(p, o));
    PastInsertSplits(s.calls, p, o);
    if step.Do? && CanMove(s, step.call) {
      OvercountCommand(s.stores, s.calls[step.call], step.env, p, o);
    }
  }

  /**
   Whatever Redis loses, in every reachable state
   live count + calls in flight <= votes stored + calls that were in flight at the last seeding.
   */
  lemma {:induction false} OvercountIsBounded(run: seq<Step>, p: string, o: string)
    ensures var s := After(run);
      Live(s.stores, p, o) + CountCalls(s.calls, InFlight(p, o))
        <= CountDocuments(s.stores.votes, ForOption(p, o)) + InFlightAtSeeding(run, p, o)
  {
    if run != [] {
      var before, step := run[..|run| - 1], run[|run| - 1];
      OvercountIsBounded(before, p, o);
      Reachable(before);
      VotesEqualPastInsert(before, p, o);
      OvercountStep(After(before), step, p, o, InFlightAtSeeding(before, p, o));
    }
  }

  // ----- Between losses, increments are counted exactly once -----

  lemma OffsetCommand(st: Stores, c: Call, env: Env, p: string, o: string)
    requires CallOk(st, c) && p in st.results && c.out.Running?
    ensures var (st', c') := Command(st, c, env);
      && p in st'.results
      && Live(st', p, o) + One(Matches(Counted(p, o), c)) == Live(st, p, o) + One(Matches(Counted(p, o), c'))
  {
  }

  lemma OffsetStep(s: State, step: Step, p: string, o: string)
    requires Shape(s) && p in s.stores.results && step != LoseHash(p)
    ensures var s' := Next(s, step);
      && p in s'.stores.results
      && Live(s'.stores, p, o) + CountCalls(s.calls, Counted(p, o))
           == Live(s.stores, p, o) + CountCalls(s'.calls, Counted(p, o))
  {
    StepCounts(s, step, Counted(p, o));
    if step.Do? && CanMove(s, step.call) {
      OffsetCommand(s.stores, s.calls[step.call], step.env, p, o);
    }
  }

  /**
   From any moment the hash exists, and as long as it is not lost again, live count + calls in flight + calls
   stranded moves in step with the votes stored: later seedings and readers change nothing.
   */
  lemma {:induction false} BalanceIsKept(run: seq<Step>, n: nat, p: string, o: string)
    requires n <= |run| && p in After(run[..n]).stores.results
    requires forall k | n <= k < |run| :: run[k] != LoseHash(p)
    ensures var s, s' := After(run[..n]), After(run);
      && p in s'.stores.results
      && Live(s'.stores, p, o) + CountCalls(s'.calls, InFlight(p, o)) + CountCalls(s'.calls, Stranded(p, o))
           - CountDocuments(s'.stores.votes, ForOption(p, o))
         == Live(s.stores, p, o) + CountCalls(s.calls, InFlight(p, o)) + CountCalls(s.calls, Stranded(p, o))
           - CountDocuments(s.stores.votes, ForOption(p, o))
  {
    if n == |run| {
      assert run[..n] == run;
    } else {
      var before := run[..|run| - 1];
      assert before[..n] == run[..n];
      BalanceIsKept(before, n, p, o);
      Reachable(before);
      OffsetStep(After(before), run[|run| - 1], p, o);
      VotesAreBooked(before, p, o);
      VotesAreBooked(run, p, o);
    }
  }

  lemma BalanceCarries(run: seq<Step>, post: seq<Step>, p: string, o: string)
    requires p in After(run).stores.results && forall k | 0 <= k < |post| :: post[k] != LoseHash(p)
    ensures var s, s' := After(run), After(run + post);
      && p in s'.stores.results
      && Live(s'.stores, p, o) + CountCalls(s'.calls, InFlight(p, o)) + CountCalls(s'.calls, Stranded(p, o))
           - CountDocuments(s'.stores.votes, ForOption(p, o))
         == Live(s.stores, p, o) + CountCalls(s.calls, InFlight(p, o)) + CountCalls(s.calls, Stranded(p, o))
           - CountDocuments(s.stores.votes, ForOption(p, o))
  {
    assert (run + post)[..|run|] == run;
    BalanceIsKept(run + post, |run|, p, o);
  }

  // ----- Recovery without a reader -----

  /** The call's next command brings a missing hash of poll p back without looking at the stored votes. */
  predicate BringsBackEmpty(c: Call, p: string) {
    || (c.VoteCall? && c.pollId == p && (c.vote.SeedNil? || c.vote.Increment?))
    || (c.CreateCall? && c.create.SeedNew? && c.create.id == p)
  }

  lemma EmptyReturnCommand(st: Stores, c: Call, env: Env, p: string, o: string)
    requires StoresOk(st) && CallOk(st, c) && c.out.Running? && BringsBackEmpty(c, p) && p !in st.results
    ensures var (st', c') := Command(st, c, env);
      && p in st'.results
      && Live(st', p, o) == One(Matches(InFlight(p, o), c))
      && One(Matches(Counted(p, o), c')) == One(Matches(Counted(p, o), c)) + One(Matches(InFlight(p, o), c))
  {
  }

  lemma ReturnCommand(st: Stores, c: Call, env: Env, p: string)
    requires c.out.Running? && p !in st.results && p in Command(st, c, env).0.results
    ensures BringsBackEmpty(c, p) ||
      (c.ReadCall? && c.read.Seed? && c.read.todo != [] && c.read.todo[0].id == p)
  {
  }

  /** A missing hash comes back in two ways only: from a reader's seed, or empty-handed. */
  lemma HashReturnsInTwoWays(s: State, step: Step, p: string)
    requires p !in s.stores.results && p in Next(s, step).stores.results
    ensures step.Do? && CanMove(s, step.call)
    ensures var c := s.calls[step.call];
      BringsBackEmpty(c, p) || (c.ReadCall? && c.read.Seed? && c.read.todo != [] && c.read.todo[0].id == p)
  {
    if step.Do? && CanMove(s, step.call) {
      ReturnCommand(s.stores, s.calls[step.call], step.env, p);
    }
  }

  lemma EmptyReturnForgetsCounted(pre: seq<Step>, i: nat, env: Env, p: string, o: string)
    requires CanMove(After(pre), i) && BringsBackEmpty(After(pre).calls[i], p) && p !in After(pre).stores.results
    ensures var s, s' := After(pre), After(pre + [Do(i, env)]);
      && p in s'.stores.results
      && CountDocuments(s'.stores.votes, ForOption(p, o)) - Live(s'.stores, p, o)
           - CountCalls(s'.calls, InFlight(p, o)) - CountCalls(s'.calls, Stranded(p, o))
         == CountCalls(s.calls, Counted(p, o))
  {
    var s, step := After(pre), Do(i, env);
    Follow(pre, step);
    Reachable(pre);
    EmptyReturnCommand(s.stores, s.calls[i], env, p, o);
    StepCounts(s, step, Counted(p, o));
    VotesAreBooked(pre + [step], p, o);
  }

  /**
   When Vote's zero seed, a new poll's seed or a bare increment brings a lost hash back, every vote counted before is
   gone from the tally, for good unless the hash is lost again: the tally stays short by exactly that number, whatever
   readers do. So it is right if and only if nothing had been counted for the option.
   */
  lemma EmptyReturnIsExactIff(pre: seq<Step>, post: seq<Step>, i: nat, env: Env, p: string, o: string)
    requires CanMove(After(pre), i) && BringsBackEmpty(After(pre).calls[i], p) && p !in After(pre).stores.results
    requires forall k | 0 <= k < |post| :: post[k] != LoseHash(p)
    ensures var s, s' := After(pre), After(pre + [Do(i, env)] + post);
      var tally := Live(s'.stores, p, o) + CountCalls(s'.calls, InFlight(p, o)) + CountCalls(s'.calls, Stranded(p, o));
      var stored := CountDocuments(s'.stores.votes, ForOption(p, o));
      && p in s'.stores.results
      && stored - tally == CountCalls(s.calls, Counted(p, o))
      && (tally == stored <==> CountCalls(s.calls, Counted(p, o)) == 0)
  {
    EmptyReturnForgetsCounted(pre, i, env, p, o);
    BalanceCarries(pre + [Do(i, env)], post, p, o);
  }

  // ----- Recovery by a reader -----

  predicate Names(step: Step, i: nat) {
    (step.Do? || step.Abandon?) && step.call == i
  }

  lemma {:induction false} UntouchedCall(s: State, mid: seq<Step>, i: nat)
    requires i < |s.calls| && forall k | 0 <= k < |mid| :: !Names(mid[k], i)
    ensures i < |Exec(s, mid).calls| && Exec(s, mid).calls[i] == s.calls[i]
  {
    if mid != [] {
      UntouchedCall(s, mid[..|mid| - 1], i);
      assert !Names(mid[|mid| - 1], i);
    }
  }

  /** A reader about to count the stored votes of poll p. */
  predicate AboutToCount(s: State, i: nat, p: string) {
    && CanMove(s, i) && s.calls[i].ReadCall? && s.calls[i].read.CountVotes?
    && s.calls[i].read.todo != [] && s.calls[i].read.todo[0].id == p
  }

  /**
   A reader counts after `pre`, anything happens in `mid`, then the reader seeds a missing hash. It installs the
   counts of the moment it counted, so the tally the calls in flight will bring the hash to is right if and
   only if exactly as many votes were stored since the count as calls are in flight at the seeding.
   */
  lemma ReseedIsExactIff(pre: seq<Step>, mid: seq<Step>, i: nat, env: Env, p: string, o: string)
    requires AboutToCount(After(pre), i, p)
    requires forall k | 0 <= k < |mid| :: !Names(mid[k], i)
    requires p !in After(pre + [Do(i, env)] + mid).stores.results
    ensures var s0, s2 := After(pre), After(pre + [Do(i, env)] + mid);
      var s3 := Next(s2, Do(i, env));
      var stored := CountDocuments(s3.stores.votes, ForOption(p, o));
      var since := stored - CountDocuments(s0.stores.votes, ForOption(p, o));
      && p in s3.stores.results
      && Live(s3.stores, p, o) == CountDocuments(s0.stores.votes, ForOption(p, o))
      && (Live(s3.stores, p, o) + CountCalls(s3.calls, InFlight(p, o)) == stored <==>
            since == CountCalls(s2.calls, InFlight(p, o)))
  {
    var s0 := After(pre);
    var to1 := pre + [Do(i, env)];
    Follow(pre, Do(i, env));
    ExecSplit(Start, to1, mid);
    var s1, s2 := After(to1), After(to1 + mid);
    UntouchedCall(s1, mid, i);
    Reachable(pre);
    Reachable(to1 + mid);
    GetCountByOption(s0.stores.votes, p, o);
    var c := s2.calls[i];
    assert c == s1.calls[i] && c.read == Seed(s0.calls[i].read.todo, CountByOption(s0.stores.votes, p));
    var s3 := Next(s2, Do(i, env));
    CountUpdated(s2.calls, i, s3.calls[i], InFlight(p, o));
    SeededValue(s0.stores, s2.stores, p, c.read.todo[0].options, o);
  }

  lemma SeededValue(st0: Stores, st: Stores, p: string, options: seq<PollOption>, o: string)
    requires StoresOk(st0) && p in st0.polls && st0.polls[p].options == options && options != [] && p !in st.results
    ensures Live(EnsureResults(st, p, options, CountByOption(st0.votes, p)), p, o)
      == CountDocuments(st0.votes, ForOption(p, o))
  {
    GetCountByOption(st0.votes, p, o);
    if !HasOption(options, o) && CountDocuments(st0.votes, ForOption(p, o)) > 0 {
      var k := SomeSelected(st0.votes, ForOption(p, o));
    }
  }

  /**
   The same at any later time, as long as the hash is not lost again. What the live count lacks of the stored votes is
   exact in every continuation: the votes stored since the reader's count, less the calls in flight at the seeding,
   plus those now in flight or stranded since. So live count and open calls together make the stored count if and
   only if as many votes were stored since the reader's count as calls were in flight at the seeding.
   */
  lemma RecoveryIsExactIff(pre: seq<Step>, mid: seq<Step>, post: seq<Step>, i: nat, env: Env, p: string, o: string)
    requires AboutToCount(After(pre), i, p)
    requires forall k | 0 <= k < |mid| :: !Names(mid[k], i)
    requires p !in After(pre + [Do(i, env)] + mid).stores.results
    requires forall k | 0 <= k < |post| :: post[k] != LoseHash(p)
    ensures var s0, s2 := After(pre), After(pre + [Do(i, env)] + mid);
      var s4 := After(pre + [Do(i, env)] + mid + [Do(i, env)] + post);
      var since := CountDocuments(s2.stores.votes, ForOption(p, o)) - CountDocuments(s0.stores.votes, ForOption(p, o));
      var open := CountCalls(s4.calls, InFlight(p, o)) + CountCalls(s4.calls, Stranded(p, o))
        - CountCalls(s2.calls, Stranded(p, o));
      var stored := CountDocuments(s4.stores.votes, ForOption(p, o));
      && p in s4.stores.results
      && stored - Live(s4.stores, p, o) == since - CountCalls(s2.calls, InFlight(p, o)) + open
      && (Live(s4.stores, p, o) + open == stored <==> since == CountCalls(s2.calls, InFlight(p, o)))
      && (Live(s4.stores, p, o) == stored <==> since + open == CountCalls(s2.calls, InFlight(p, o)))
  {
    var r2 := pre + [Do(i, env)] + mid;
    Follow(r2, Do(i, env));
    ReseedIsExactIff(pre, mid, i, env, p, o);
    SeedingCallIsNoVote(pre, mid, i, env);
    ReaderMovesNoVote(After(r2), i, env, p, o);
    BalanceCarries(r2 + [Do(i, env)], post, p, o);
  }

  lemma ReaderMovesNoVote(s: State, i: nat, env: Env, p: string, o: string)
    requires i < |s.calls| && s.calls[i].ReadCall? && Command(s.stores, s.calls[i], env).1.ReadCall?
    ensures var s' := Next(s, Do(i, env));
      && CountCalls(s'.calls, InFlight(p, o)) == CountCalls(s.calls, InFlight(p, o))
      && CountCalls(s'.calls, Stranded(p, o)) == CountCalls(s.calls, Stranded(p, o))
      && CountDocuments(s'.stores.votes, ForOption(p, o)) == CountDocuments(s.stores.votes, ForOption(p, o))
  {
    StepCounts(s, Do(i, env), InFlight(p, o));
    StepCounts(s, Do(i, env), Stranded(p, o));
    CommandInserts(s.stores, s.calls[i], env, ForOption(p, o));
  }

  lemma SeedingCallIsNoVote(pre: seq<Step>, mid: seq<Step>, i: nat, env: Env)
    requires CanMove(After(pre), i) && After(pre).calls[i].ReadCall?
    requires forall k | 0 <= k < |mid| :: !Names(mid[k], i)
    ensures var s2 := After(pre + [Do(i, env)] + mid);
      && i < |s2.calls| && s2.calls[i].ReadCall?
      && Command(s2.stores, s2.calls[i], env).1.ReadCall?
  {
    Follow(pre, Do(i, env));
    ExecSplit(Start, pre + [Do(i, env)], mid);
    UntouchedCall(After(pre + [Do(i, env)]), mid, i);
  }

  /** The step moves a Vote call on poll p. */
  predicate MovesVoteOn(s: State, step: Step, p: string) {
    step.Do? && CanMove(s, step.call) && s.calls[step.call].VoteCall? && s.calls[step.call].pollId == p
  }

  lemma QuietStep(s: State, step: Step, p: string, o: string)
    requires !MovesVoteOn(s, step, p)
    ensures CountDocuments(Next(s, step).stores.votes, ForOption(p, o))
      == CountDocuments(s.stores.votes, ForOption(p, o))
    ensures CountCalls(Next(s, step).calls, InFlight(p, o)) <= CountCalls(s.calls, InFlight(p, o))
  {
    StepCounts(s, step, InFlight(p, o));
    if step.Do? && CanMove(s, step.call) {
      CommandInserts(s.stores, s.calls[step.call], step.env, ForOption(p, o));
    }
  }

  lemma {:induction false} QuietRun(s: State, mid: seq<Step>, p: string, o: string)
    requires forall k | 0 <= k < |mid| :: !MovesVoteOn(Exec(s, mid[..k]), mid[k], p)
    ensures CountDocuments(Exec(s, mid).stores.votes, ForOption(p, o))
      == CountDocuments(s.stores.votes, ForOption(p, o))
    ensures CountCalls(Exec(s, mid).calls, InFlight(p, o)) <= CountCalls(s.calls, InFlight(p, o))
  {
    if mid != [] {
      var less := mid[..|mid| - 1];
      forall k | 0 <= k < |less| ensures !MovesVoteOn(Exec(s, less[..k]), less[k], p) {
        assert less[..k] == mid[..k];
      }
      QuietRun(s, less, p, o);
      assert mid[..|mid| - 1] == less && !MovesVoteOn(Exec(s, less), mid[|mid| - 1], p);
      QuietStep(Exec(s, less), mid[|mid| - 1], p, o);
    }
  }

  /**
   If the first touch after a loss is a reader, with no vote in flight when it counts and none moving until it has
   seeded, the hash is exactly the stored tally again, and what readers are shown is CountByOption.
   */
  lemma QuietReseedRestoresTally(pre: seq<Step>, mid: seq<Step>, i: nat, env: Env, p: string)
    requires AboutToCount(After(pre), i, p)
    requires forall o :: CountCalls(After(pre).calls, InFlight(p, o)) == 0
    requires forall k | 0 <= k < |mid| :: !Names(mid[k], i)
    requires forall k | 0 <= k < |mid| :: !MovesVoteOn(Exec(After(pre + [Do(i, env)]), mid[..k]), mid[k], p)
    requires p !in After(pre + [Do(i, env)] + mid).stores.results
    ensures var s3 := Next(After(pre + [Do(i, env)] + mid), Do(i, env));
      var options := After(pre).calls[i].read.todo[0].options;
      && (forall o :: Live(s3.stores, p, o) == CountDocuments(s3.stores.votes, ForOption(p, o)))
      && Votes(GetResults(s3.stores, p, options)) == VotesOf(options, CountByOption(s3.stores.votes, p))
  {
    var s1 := After(pre + [Do(i, env)]);
    var s2 := After(pre + [Do(i, env)] + mid);
    var s3 := Next(s2, Do(i, env));
    var options := After(pre).calls[i].read.todo[0].options;
    Follow(pre, Do(i, env));
    ExecSplit(Start, pre + [Do(i, env)], mid);
    forall o ensures Live(s3.stores, p, o) == CountDocuments(s3.stores.votes, ForOption(p, o)) {
      ReseedIsExactIff(pre, mid, i, env, p, o);
      QuietStep(After(pre), Do(i, env), p, o);
      QuietRun(s1, mid, p, o);
      UntouchedCall(s1, mid, i);
      QuietStep(s2, Do(i, env), p, o);
    }
    forall k | 0 <= k < |options|
      ensures Votes(GetResults(s3.stores, p, options))[k] == VotesOf(options, CountByOption(s3.stores.votes, p))[k]
    {
      assert Live(s3.stores, p, options[k].id) == CountDocuments(s3.stores.votes, ForOption(p, options[k].id));
      GetCountByOption(s3.stores.votes, p, options[k].id);
    }
  }

  // ----- Both ways of being wrong occur -----

  /** Stored, hash lost, and counted by a reader while the vote's increment is still to come. */
  lemma CountedWhileInFlight() returns (run: seq<Step>)
    ensures var s := After(run);
      var options := NewOptions(["a", "b"]);
      && "p" !in s.stores.results && s.stores.votes == [Vote("p", First, "x")] && |s.calls| == 3
      && s.calls[1] == VoteCall("p", First, "x", Increment(options), Running)
      && s.calls[2] ==
           ReadCall(ById("p"), Seed([Found("p", options)], CountByOption(s.stores.votes, "p")), [], Running)
  {
    var r0 := OneVoteInFlight();
    Follow(r0, LoseHash("p"));
    var r1 := r0 + [LoseHash("p")];
    Follow(r1, Arrive(GetPoll("p")));
    var r2 := r1 + [Arrive(GetPoll("p"))];
    Follow(r2, Do(2, AnyEnv));
    var r3 := r2 + [Do(2, AnyEnv)];
    Follow(r3, Do(2, AnyEnv));
    run := r3 + [Do(2, AnyEnv)];
  }

  /** The reader seeds that count, then the vote's own increment comes: one vote shows as two. */
  lemma OvercountOccurs() returns (run: seq<Step>)
    ensures Live(After(run).stores, "p", First) == 2
    ensures CountDocuments(After(run).stores.votes, ForOption("p", First)) == 1
  {
    assert NewOptions(["a", "b"])[0].id == First;
    var r0 := CountedWhileInFlight();
    var votes := After(r0).stores.votes;
    assert votes[..0] == [];
    GetCountByOption(votes, "p", First);
    Follow(r0, Do(2, AnyEnv));
    var r1 := r0 + [Do(2, AnyEnv)];
    assert Live(After(r1).stores, "p", First) == 1;
    Follow(r1, Do(1, AnyEnv));
    run := r1 + [Do(1, AnyEnv)];
  }

  lemma CountedThenLost() returns (run: seq<Step>)
    ensures var s := After(run);
      && "p" !in s.stores.results && s.stores.votes == [Vote("p", First, "x")]
      && s.stores.polls == map["p" := Poll(NewOptions(["a", "b"]), "u", Active, None)]
      && |s.calls| == 2 && !s.calls[0].VoteCall? && s.calls[1].VoteCall? && s.calls[1].vote.ReadOwn?
  {
    var r0 := OneVoteInFlight();
    Follow(r0, Do(1, AnyEnv));
    var r1 := r0 + [Do(1, AnyEnv)];
    Follow(r1, LoseHash("p"));
    run := r1 + [LoseHash("p")];
  }

  /** Counted, hash lost, then touched first by a Vote call: its zeros stay although nothing is in flight. */
  lemma UndercountOccurs() returns (run: seq<Step>)
    ensures "p" in After(run).stores.results && Live(After(run).stores, "p", First) == 0
    ensures CountDocuments(After(run).stores.votes, ForOption("p", First)) == 1
    ensures CountCalls(After(run).calls, InFlight("p", First)) == 0
  {
    assert NewOptions(["a", "b"])[0].id == First;
    var r0 := CountedThenLost();
    Follow(r0, Arrive(CastVote("p", First, "y")));
    var r1 := r0 + [Arrive(CastVote("p", First, "y"))];
    Follow(r1, Do(2, AnyEnv));
    var r2 := r1 + [Do(2, AnyEnv)];
    assert After(r2).calls[2] == VoteCall("p", First, "y", SeedNil(NewOptions(["a", "b"])), Running);
    Follow(r2, Do(2, AnyEnv));
    run := r2 + [Do(2, AnyEnv)];
    var votes, calls := After(run).stores.votes, After(run).calls;
    assert votes == [Vote("p", First, "x")] && votes[..0] == [];
    assert |calls| == 3 && !calls[0].VoteCall? && !calls[1].vote.Increment? && !calls[2].vote.Increment?;
    NoMatches(calls, InFlight("p", First));
  }

  const Second := OptionId(1)

  lemma FirstIsNotSecond()
    ensures First != Second
    ensures var options := NewOptions(["a", "b"]); options[0].id == First && options[1].id == Second
  {
    NewOptionsDistinct(["a", "b"]);
    assert NewOptions(["a", "b"])[0].id == First && NewOptions(["a", "b"])[1].id == Second;
  }

  /** x's vote for the first option is counted, and y's for the second has passed its checks. */
  lemma OneCountedOneAdmitted() returns (run: seq<Step>)
    ensures var s := After(run);
      var options := NewOptions(["a", "b"]);
      && "p" in s.stores.results && s.stores.votes == [Vote("p", First, "x")] && |s.calls| == 3
      && !s.calls[0].VoteCall?
      && s.calls[1] == VoteCall("p", First, "x", ReadOwn(options), Running)
      && s.calls[2] == VoteCall("p", Second, "y", SeedNil(options), Running)
  {
    FirstIsNotSecond();
    var cast := Arrive(CastVote("p", Second, "y"));
    var r0 := OneVoteInFlight();
    Follow(r0, Do(1, AnyEnv));
    var r1 := r0 + [Do(1, AnyEnv)];
    assert After(r1).calls[1] == VoteCall("p", First, "x", ReadOwn(NewOptions(["a", "b"])), Running);
    Follow(r1, cast);
    var r2 := r1 + [cast];
    assert After(r2).calls[2] == VoteCall("p", Second, "y", Find, Running);
    Follow(r2, Do(2, AnyEnv));
    run := r2 + [Do(2, AnyEnv)];
  }

  lemma OneCountedOneInFlight() returns (run: seq<Step>)
    ensures var s := After(run);
      var options := NewOptions(["a", "b"]);
      && "p" in s.stores.results && |s.calls| == 3 && !s.calls[0].VoteCall?
      && s.calls[1] == VoteCall("p", First, "x", ReadOwn(options), Running)
      && s.calls[2] == VoteCall("p", Second, "y", Increment(options), Running)
  {
    var r0 := OneCountedOneAdmitted();
    Follow(r0, Do(2, AnyEnv));
    var r1 := r0 + [Do(2, AnyEnv)];
    var votes, y := After(r1).stores.votes, ForVoter("p", "y");
    assert votes == [Vote("p", First, "x")] && votes[..0] == [];
    assert "x"[0] != "y"[0] && !Selects(y, votes[0]) && CountDocuments(votes, y) == 0;
    Follow(r1, Do(2, AnyEnv));
    run := r1 + [Do(2, AnyEnv)];
  }

  lemma CountedStaysShort(pre: seq<Step>, post: seq<Step>, i: nat, env: Env, p: string, o: string)
    requires CanMove(After(pre), i) && BringsBackEmpty(After(pre).calls[i], p) && p !in After(pre).stores.results
    requires forall k | 0 <= k < |post| :: post[k] != LoseHash(p)
    requires CountCalls(After(pre).calls, Counted(p, o)) > 0
    ensures var st := After(pre + [Do(i, env)] + post).stores;
      Live(st, p, o) < CountDocuments(st.votes, ForOption(p, o))
  {
    EmptyReturnIsExactIff(pre, post, i, env, p, o);
  }

  lemma IncrementAlone(pre: seq<Step>, i: nat, env: Env, p: string, o: string)
    requires CanMove(After(pre), i) && After(pre).calls[i].VoteCall? && After(pre).calls[i].vote.Increment?
    requires After(pre).calls[i].pollId == p && After(pre).calls[i].optionId == o && p !in After(pre).stores.results
    ensures var st := After(pre + [Do(i, env)]).stores;
      p in st.results && st.results[p] == map[o := 1]
  {
    Follow(pre, Do(i, env));
  }

  lemma HashLostBeforeIncrement() returns (run: seq<Step>)
    ensures var s := After(run);
      && "p" !in s.stores.results && CanMove(s, 2)
      && s.calls[2] == VoteCall("p", Second, "y", Increment(NewOptions(["a", "b"])), Running)
      && CountCalls(s.calls, Counted("p", First)) > 0
  {
    var r0 := OneCountedOneInFlight();
    Follow(r0, LoseHash("p"));
    run := r0 + [LoseHash("p")];
    CountPositive(After(run).calls, 1, Counted("p", First));
  }

  /**
   One option counted, hash lost, and an increment for the other option in flight: it recreates the hash with its own
   field alone, and the first option stays short by its vote in every continuation that does not lose the hash again.
   */
  lemma PartialHashOccurs() returns (run: seq<Step>)
    ensures "p" in After(run).stores.results && After(run).stores.results["p"] == map[Second := 1]
    ensures forall post: seq<Step> | (forall k | 0 <= k < |post| :: post[k] != LoseHash("p")) ::
      Live(After(run + post).stores, "p", First) < CountDocuments(After(run + post).stores.votes, ForOption("p", First))
  {
    var before := HashLostBeforeIncrement();
    run := before + [Do(2, AnyEnv)];
    IncrementAlone(before, 2, AnyEnv, "p", Second);
    forall post: seq<Step> | forall k | 0 <= k < |post| :: post[k] != LoseHash("p")
      ensures Live(After(run + post).stores, "p", First)
        < CountDocuments(After(run + post).stores.votes, ForOption("p", First))
    {
      CountedStaysShort(before, post, 2, AnyEnv, "p", First);
    }
  }
}
