/** One call run from start to end with nobody in between; at most `faultAt` of its commands get through. */
module Sequential {
  import opened Basics
  import opened Models
  import opened Protocol
  import opened Structure
  import opened Results
  import Validation
  import Decimal

  ghost function RunCall(st: Stores, c: Call, n: nat, env: Env): (Stores, Call)
    decreases n
  {
    if n == 0 || !c.out.Running? then (st, c)
    else
      var (st', c') := Command(st, c, env);
      RunCall(st', c', n - 1, env)
  }

  lemma OneCommand(st: Stores, c: Call, n: nat, env: Env)
    requires n > 0 && c.out.Running?
    ensures var (st', c') := Command(st, c, env);
      RunCall(st, c, n, env) == RunCall(st', c', n - 1, env)
  {
  }

  /** The call's return: an error if the stores could not be reached for its next command. */
  function Return(c: Call): Outcome {
    if c.out.Running? then Failed(StoreDown) else c.out
  }

  ghost function Alone(st: Stores, req: Request, faultAt: nat, env: Env): (Stores, Call) {
    RunCall(st, Begin(req), faultAt, env)
  }

  function Repeat(step: Step, n: nat): (run: seq<Step>)
    ensures |run| == n
  {
    seq(n, _ => step)
  }

  lemma {:induction false} RepeatRuns(s: State, i: nat, n: nat, env: Env)
    requires i < |s.calls|
    ensures var (st, c) := RunCall(s.stores, s.calls[i], n, env);
      Exec(s, Repeat(Do(i, env), n)) == State(st, s.calls[i := c])
    decreases n
  {
    var step := Do(i, env);
    if n == 0 || !s.calls[i].out.Running? {
      StuckRuns(s, i, n, env);
      assert s.calls[i := s.calls[i]] == s.calls;
    } else {
      var s1 := Next(s, step);
      RepeatRuns(s1, i, n - 1, env);
      assert Repeat(step, n) == [step] + Repeat(step, n - 1);
      assert Exec(s, [step]) == s1 by {
        assert [step][..0] == [];
      }
      ExecSplit(s, [step], Repeat(step, n - 1));
      var (st, c) := RunCall(s1.stores, s1.calls[i], n - 1, env);
      assert s1.calls[i := c] == s.calls[i := c];
    }
  }

  lemma {:induction false} StuckRuns(s: State, i: nat, n: nat, env: Env)
    requires i < |s.calls| && (n == 0 || !s.calls[i].out.Running?)
    ensures Exec(s, Repeat(Do(i, env), n)) == s
  {
    if n > 0 {
      StuckRuns(s, i, n - 1, env);
      assert Repeat(Do(i, env), n)[..n - 1] == Repeat(Do(i, env), n - 1);
    }
  }

  lemma ArriveRuns(s: State, req: Request)
    ensures Exec(s, [Arrive(req)]) == s.(calls := s.calls + [Begin(req)])
  {
    assert [Arrive(req)][..0] == [];
  }

  lemma AbandonRuns(s: State, run: seq<Step>, s': State, i: nat)
    requires Exec(s, run) == s' && i < |s'.calls|
    ensures Exec(s, run + [Abandon(i)]) ==
      if s'.calls[i].out.Running? then s'.(calls := s'.calls[i := Fail(s'.calls[i], StoreDown)]) else s'
  {
    assert (run + [Abandon(i)])[..|run|] == run;
  }

  /**
   A call run whole, failing or not, is a run of the protocol from any state with the same stores: it arrives, takes its
   commands and, if it is still running, stops. So whatever holds in every run holds after it.
   */
  lemma WholeCallIsARun(s: State, req: Request, faultAt: nat, env: Env)
    ensures var i := |s.calls|;
      var (st, c) := Alone(s.stores, req, faultAt, env);
      Exec(s, [Arrive(req)] + Repeat(Do(i, env), faultAt) + [Abandon(i)])
        == State(st, s.calls + [if c.out.Running? then Fail(c, StoreDown) else c])
  {
    var i := |s.calls|;
    var commands := Repeat(Do(i, env), faultAt);
    ArriveRuns(s, req);
    var s1 := s.(calls := s.calls + [Begin(req)]);
    ExecSplit(s, [Arrive(req)], commands);
    RepeatRuns(s1, i, faultAt, env);
    var (st, c) := Alone(s.stores, req, faultAt, env);
    assert s1.calls[i := c] == s.calls + [c];
    AbandonRuns(s, [Arrive(req)] + commands, State(st, s.calls + [c]), i);
    assert c.out.Running? ==> (s.calls + [c])[i := Fail(c, StoreDown)] == s.calls + [Fail(c, StoreDown)];
  }

  // ----- What a vote cast on its own does -----

  /** Why a vote is turned away before it reaches the database, if it is. */
  function Refusal(st: Stores, p: string, o: string, now: int): Option<Error> {
    if !Visible(st, p) then Some(PollNotFound)
    else if st.polls[p].status == Closed then Some(PollIsClosed)
    else if Expired(st.polls[p], now) then Some(PollExpired)
    else if !HasOption(st.polls[p].options, o) then Some(VoteInvalid)
    else None
  }

  /** A refused vote changes neither store. */
  lemma RefusedVote(st: Stores, p: string, o: string, k: string, faultAt: nat, env: Env)
    requires Refusal(st, p, o, env.now).Some? && faultAt > 0
    ensures var (st', c) := Alone(st, CastVote(p, o, k), faultAt, env);
      st' == st && Return(c) == Failed(Refusal(st, p, o, env.now).value)
  {
    OneCommand(st, Begin(CastVote(p, o, k)), faultAt, env);
  }

  lemma ToInsert(st: Stores, p: string, o: string, k: string, faultAt: nat, env: Env)
    requires Refusal(st, p, o, env.now) == None && faultAt >= 2
    ensures var options := st.polls[p].options;
      Alone(st, CastVote(p, o, k), faultAt, env)
        == RunCall(EnsureResults(st, p, options, map[]), VoteCall(p, o, k, Insert(options), Running), faultAt - 2, env)
  {
    var options := st.polls[p].options;
    OneCommand(st, Begin(CastVote(p, o, k)), faultAt, env);
    OneCommand(st, VoteCall(p, o, k, SeedNil(options), Running), faultAt - 1, env);
  }

  /** A second vote by the same voter stores nothing, counts nothing and publishes nothing. */
  lemma DuplicateVote(st: Stores, p: string, o: string, k: string, faultAt: nat, env: Env, q: string, r: string)
    requires Refusal(st, p, o, env.now) == None && HasVoted(st, p, k) && faultAt >= 3
    ensures var (st', c) := Alone(st, CastVote(p, o, k), faultAt, env);
      && Return(c) == Failed(VoteAlreadyExists)
      && st'.votes == st.votes && st'.polls == st.polls && st'.events == st.events && st'.counters == st.counters
      && Live(st', q, r) == Live(st, q, r)
  {
    var options := st.polls[p].options;
    ToInsert(st, p, o, k, faultAt, env);
    OneCommand(EnsureResults(st, p, options, map[]), VoteCall(p, o, k, Insert(options), Running), faultAt - 2, env);
  }

  /** The stores an accepted vote leaves when `faultAt` of its commands get through. */
  function Accepted(st: Stores, p: string, o: string, k: string, faultAt: nat): Stores
    requires p in st.polls
  {
    var options := st.polls[p].options;
    var seeded := if faultAt >= 2 then EnsureResults(st, p, options, map[]) else st;
    var stored := if faultAt >= 3 then seeded.(votes := seeded.votes + [Vote(p, o, k)]) else seeded;
    var counted := if faultAt >= 4 then IncrementVote(stored, p, o) else stored;
    if faultAt >= 6 then PublishUpdate(counted, p, GetResults(counted, p, options)) else counted
  }

  lemma AcceptedRun(st: Stores, p: string, o: string, k: string, faultAt: nat, env: Env)
    requires Refusal(st, p, o, env.now) == None && (HasVoted(st, p, k) ==> faultAt < 3)
    ensures var (st', c) := Alone(st, CastVote(p, o, k), faultAt, env);
      st' == Accepted(st, p, o, k, faultAt) && Return(c) == (if faultAt >= 6 then Done else Failed(StoreDown))
  {
    var options := st.polls[p].options;
    if faultAt == 0 {
    } else if faultAt == 1 {
      OneCommand(st, Begin(CastVote(p, o, k)), faultAt, env);
    } else {
      ToInsert(st, p, o, k, faultAt, env);
      FromInsert(EnsureResults(st, p, options, map[]), p, o, k, options, faultAt - 2, env);
    }
  }

  lemma FromInsert(st: Stores, p: string, o: string, k: string, options: seq<PollOption>, n: nat, env: Env)
    requires HasVoted(st, p, k) ==> n == 0
    ensures var (st', c) := RunCall(st, VoteCall(p, o, k, Insert(options), Running), n, env);
      var stored := if n > 0 then st.(votes := st.votes + [Vote(p, o, k)]) else st;
      var counted := if n > 1 then IncrementVote(stored, p, o) else stored;
      && Return(c) == (if n >= 4 then Done else Failed(StoreDown))
      && st' == if n >= 4 then PublishUpdate(counted, p, GetResults(counted, p, options)) else counted
  {
    if n > 0 {
      OneCommand(st, VoteCall(p, o, k, Insert(options), Running), n, env);
      FromIncrement(st.(votes := st.votes + [Vote(p, o, k)]), p, o, k, options, n - 1, env);
    }
  }

  lemma AcceptedCounts(st: Stores, p: string, o: string, k: string, faultAt: nat, q: string, r: string)
    requires p in st.polls
    ensures var st' := Accepted(st, p, o, k, faultAt);
      && Live(st', q, r) == Live(st, q, r) + (if faultAt >= 4 && q == p && r == o then 1 else 0)
      && Counter(st', q, r) == Counter(st, q, r) + (if faultAt >= 4 && q == p && r == o then 1 else 0)
  {
    var seeded := if faultAt >= 2 then EnsureResults(st, p, st.polls[p].options, map[]) else st;
    assert Live(seeded, q, r) == Live(st, q, r) && Counter(seeded, q, r) == Counter(st, q, r);
    assert Live(seeded, p, o) == Live(st, p, o) && Counter(seeded, p, o) == Counter(st, p, o);
  }

  /**
   An accepted first vote: stored once; its option's live count and counter go up by one and no other count moves; the
   published event shows the poll's hash after it. If a store fails on the way, the vote is stored exactly when three
   commands got through and counted exactly when four did.
   */
  lemma AcceptedVote(st: Stores, p: string, o: string, k: string, faultAt: nat, env: Env, q: string, r: string)
    requires Refusal(st, p, o, env.now) == None && !HasVoted(st, p, k)
    ensures var (st', c) := Alone(st, CastVote(p, o, k), faultAt, env);
      && Return(c) == (if faultAt >= 6 then Done else Failed(StoreDown))
      && st'.votes == (if faultAt >= 3 then st.votes + [Vote(p, o, k)] else st.votes)
      && Live(st', q, r) == Live(st, q, r) + (if faultAt >= 4 && q == p && r == o then 1 else 0)
      && Counter(st', q, r) == Counter(st, q, r) + (if faultAt >= 4 && q == p && r == o then 1 else 0)
      && st'.polls == st.polls
      && (if faultAt < 6 then st'.events == st.events
          else
            && |st'.events| == |st.events| + 1 && st.events == st'.events[..|st.events|]
            && EventShows(st'.events[|st.events|], st', p))
  {
    AcceptedRun(st, p, o, k, faultAt, env);
    AcceptedCounts(st, p, o, k, faultAt, q, r);
    AcceptedEvent(st, p, o, k, faultAt);
  }

  /** The event of poll p shows the poll as it is due to be seen in the stores. */
  predicate EventShows(e: Event, st: Stores, p: string) {
    && e.PollUpdate? && e.pollId == p && p in st.polls
    && e.totalVotes == Sum(TallyOf(st, p)) && Presents(e.results, st.polls[p].options, TallyOf(st, p))
  }

  lemma AcceptedEvent(st: Stores, p: string, o: string, k: string, faultAt: nat)
    requires p in st.polls
    ensures var st' := Accepted(st, p, o, k, faultAt);
      if faultAt < 6 then st'.events == st.events
      else
        && |st'.events| == |st.events| + 1 && st.events == st'.events[..|st.events|]
        && EventShows(st'.events[|st.events|], st', p)
  {
    if faultAt >= 6 {
      var counted := Accepted(st, p, o, k, 4);
      var results := GetResults(counted, p, st.polls[p].options);
      ReadIsTally(counted, p);
      PresentedVotes(results, st.polls[p].options, TallyOf(counted, p));
      assert TallyOf(PublishUpdate(counted, p, results), p) == TallyOf(counted, p);
    }
  }

  /** The poll is there and open, the option is its own, and the voter has no vote in it yet. */
  predicate Admissible(st: Stores, p: string, o: string, k: string, now: int) {
    && Visible(st, p) && st.polls[p].status == Active && !Expired(st.polls[p], now)
    && HasOption(st.polls[p].options, o) && !HasVoted(st, p, k)
  }

  /**
   What one vote call does, over every state of the stores and every point of failure: it succeeds if and only if it is
   admissible and nothing fails, it stores its vote if and only if it is admissible and the first three commands got
   through, and a call that stores nothing counts nothing and publishes nothing.
   */
  lemma VoteStoredIff(st: Stores, p: string, o: string, k: string, faultAt: nat, env: Env, q: string, r: string)
    ensures var (st', c) := Alone(st, CastVote(p, o, k), faultAt, env);
      && (Return(c) == Done <==> Admissible(st, p, o, k, env.now) && faultAt >= 6)
      && (st'.votes == st.votes + [Vote(p, o, k)] <==> Admissible(st, p, o, k, env.now) && faultAt >= 3)
      && (st'.votes != st.votes + [Vote(p, o, k)] ==>
            && st'.votes == st.votes && st'.events == st.events && st'.polls == st.polls
            && Live(st', q, r) == Live(st, q, r) && Counter(st', q, r) == Counter(st, q, r))
  {
    if Refusal(st, p, o, env.now).Some? {
      if faultAt > 0 {
        RefusedVote(st, p, o, k, faultAt, env);
      }
    } else if HasVoted(st, p, k) && faultAt >= 3 {
      DuplicateVote(st, p, o, k, faultAt, env, q, r);
    } else {
      AcceptedRun(st, p, o, k, faultAt, env);
      AcceptedCounts(st, p, o, k, faultAt, q, r);
    }
  }

  /**
   Which error a vote call returns, over every state of the stores and every point of failure. The checks come in this
   order: the poll is there, is open, has not expired, has the option; the voter has no vote. Everything else that goes
   wrong is a store that could not be reached.
   */
  lemma VoteErrorsIff(st: Stores, p: string, o: string, k: string, faultAt: nat, env: Env)
    ensures var out := Return(Alone(st, CastVote(p, o, k), faultAt, env).1);
      var there := p in st.polls && st.polls[p].status != Deleted;
      var active := there && st.polls[p].status == Active;
      var open := active && (st.polls[p].expiresAt == None || st.polls[p].expiresAt.value >= env.now);
      var valid := open && exists i | 0 <= i < |st.polls[p].options| :: st.polls[p].options[i].id == o;
      var again := exists i | 0 <= i < |st.votes| :: st.votes[i].pollId == p && st.votes[i].voterKey == k;
      && (out == Failed(PollNotFound) <==> !there && faultAt > 0)
      && (out == Failed(PollIsClosed) <==> there && !active && faultAt > 0)
      && (out == Failed(PollExpired) <==> active && !open && faultAt > 0)
      && (out == Failed(VoteInvalid) <==> open && !valid && faultAt > 0)
      && (out == Failed(VoteAlreadyExists) <==> valid && again && faultAt >= 3)
      && (out == Done <==> valid && !again && faultAt >= 6)
      && (out.Running? || out == Failed(Forbidden) || out == Failed(InvalidOptions) ==> false)
  {
    HasVotedMeans(st, p, k);
    if Refusal(st, p, o, env.now).Some? {
      if faultAt > 0 {
        RefusedVote(st, p, o, k, faultAt, env);
      }
    } else if HasVoted(st, p, k) && faultAt >= 3 {
      DuplicateVote(st, p, o, k, faultAt, env, p, o);
    } else {
      AcceptedRun(st, p, o, k, faultAt, env);
    }
  }

  lemma HasVotedMeans(st: Stores, p: string, k: string)
    ensures HasVoted(st, p, k) <==>
      exists i | 0 <= i < |st.votes| :: st.votes[i].pollId == p && st.votes[i].voterKey == k
  {
    if HasVoted(st, p, k) {
      var i := SomeSelected(st.votes, ForVoter(p, k));
    }
    forall i | 0 <= i < |st.votes| && st.votes[i].pollId == p && st.votes[i].voterKey == k ensures HasVoted(st, p, k) {
      CountSelected(st.votes, i, ForVoter(p, k));
    }
  }

  lemma FromIncrement(st: Stores, p: string, o: string, k: string, options: seq<PollOption>, n: nat, env: Env)
    ensures var (st', c) := RunCall(st, VoteCall(p, o, k, Increment(options), Running), n, env);
      var counted := if n > 0 then IncrementVote(st, p, o) else st;
      && Return(c) == (if n >= 3 then Done else Failed(StoreDown))
      && st' == if n >= 3 then PublishUpdate(counted, p, GetResults(counted, p, options)) else counted
  {
    var c1 := VoteCall(p, o, k, Increment(options), Running);
    if n > 0 {
      OneCommand(st, c1, n, env);
    }
    var counted := IncrementVote(st, p, o);
    var c2 := c1.(vote := ReadOwn(options));
    if n > 1 {
      OneCommand(counted, c2, n - 1, env);
    }
    var c3 := c1.(vote := Publish(GetResults(counted, p, options)));
    if n > 2 {
      OneCommand(counted, c3, n - 2, env);
    }
  }

  // ----- Readers, creation and status changes on their own -----

  /**
   From st to st' readers have passed: no poll, vote, counter or event has changed, no hash that was there either, new
   hashes belong to the listed polls alone, and what is due to be seen of any stored poll is the same as before.
   */
  ghost predicate OnlySeeded(st: Stores, st': Stores, listed: seq<string>) {
    && st'.polls == st.polls && st'.votes == st.votes && st'.counters == st.counters && st'.events == st.events
    && (forall q | q in st.results :: q in st'.results && st'.results[q] == st.results[q])
    && (forall q | q in st'.results :: q in st.results || q in listed)
    && (forall q | q in st.polls :: TallyOf(st', q) == TallyOf(st, q))
  }

  lemma OnlySeededTwice(st: Stores, st1: Stores, st2: Stores, a: seq<string>, b: seq<string>)
    requires OnlySeeded(st, st1, a) && OnlySeeded(st1, st2, b)
    ensures OnlySeeded(st, st2, a + b)
  {
  }

  lemma SeedKeepsTally(st: Stores, p: string)
    requires p in st.polls
    ensures OnlySeeded(st, EnsureResults(st, p, st.polls[p].options, CountByOption(st.votes, p)), [p])
  {
    var options, seed := st.polls[p].options, CountByOption(st.votes, p);
    var st' := EnsureResults(st, p, options, seed);
    forall k | 0 <= k < |options| ensures Tally(st', p, options[k].id) == Tally(st, p, options[k].id) {
      GetCountByOption(st.votes, p, options[k].id);
      assert p !in st.results ==> options[k].id in SeedHash(options, seed);
    }
    assert TallyOf(st', p) == TallyOf(st, p);
    forall q | q in st.polls && q != p ensures TallyOf(st', q) == TallyOf(st, q) {
      assert forall o :: Tally(st', q, o) == Tally(st, q, o);
    }
  }

  /** A seeded poll is read as what was due to be seen of it. */
  lemma ReadIsTally(st: Stores, p: string)
    requires p in st.polls && (st.polls[p].options == [] || p in st.results)
    ensures Presents(GetResults(st, p, st.polls[p].options), st.polls[p].options, TallyOf(st, p))
  {
    var options := st.polls[p].options;
    SnapshotPresents(options, Hash(st, p));
    assert TallyOf(st, p) == Results.VotesOf(options, Hash(st, p));
  }

  predicate UpToDate(st: Stores, todo: seq<Found>) {
    forall k | 0 <= k < |todo| :: todo[k].id in st.polls && st.polls[todo[k].id].options == todo[k].options
  }

  function Ids(todo: seq<Found>): (ids: seq<string>)
    ensures |ids| == |todo|
  {
    seq(|todo|, k requires 0 <= k < |todo| => todo[k].id)
  }

  /** The reader's three commands for the first poll of its list. */
  lemma ReadOne(st: Stores, c: Call, todo: seq<Found>, n: nat, env: Env)
    requires c.ReadCall? && c.out.Running? && c.read == CountVotes(todo) && todo != [] && UpToDate(st, todo)
    ensures var p := todo[0].id;
      var st1 := EnsureResults(st, p, todo[0].options, CountByOption(st.votes, p));
      var shown := GetResults(st1, p, todo[0].options);
      && OnlySeeded(st, st1, [p]) && Presents(shown, todo[0].options, TallyOf(st, p))
      && if n >= 3 then
           RunCall(st, c, n, env) == RunCall(st1, NextPoll(c.(shown := c.shown + [shown]), todo[1..]), n - 3, env)
         else
           var (st', c') := RunCall(st, c, n, env);
           c'.ReadCall? && c'.out.Running? && OnlySeeded(st, st', [p])
  {
    var p, options := todo[0].id, todo[0].options;
    var seed := CountByOption(st.votes, p);
    var st1 := EnsureResults(st, p, options, seed);
    SeedKeepsTally(st, p);
    ReadIsTally(st1, p);
    if n > 0 {
      OneCommand(st, c, n, env);
    }
    if n > 1 {
      OneCommand(st, c.(read := Seed(todo, seed)), n - 1, env);
    }
    if n > 2 {
      OneCommand(st1, c.(read := ReadHash(todo)), n - 2, env);
    }
  }

  /** From st and c a reader's n commands lead to st' and c', and every poll is shown as it was due to be seen in st. */
  ghost predicate ReadsAll(st: Stores, c: Call, todo: seq<Found>, n: nat, st': Stores, c': Call)
    requires c.ReadCall? && UpToDate(st, todo)
  {
    && c'.ReadCall? && OnlySeeded(st, st', Ids(todo))
    && c'.out == (if n >= 3 * |todo| then Done else Running)
    && (c'.out.Done? ==> |c'.shown| == |c.shown| + |todo| && c.shown <= c'.shown)
    && (c'.out.Done? ==> forall k | 0 <= k < |todo| ::
          Presents(c'.shown[|c.shown| + k], todo[k].options, TallyOf(st, todo[k].id)))
  }

  lemma ReadsOneMore(st: Stores, st1: Stores, c: Call, c1: Call, todo: seq<Found>, n: nat, st': Stores, c': Call,
                     shown: seq<OptionResult>)
    requires c.ReadCall? && UpToDate(st, todo) && todo != [] && n >= 3
    requires OnlySeeded(st, st1, [todo[0].id]) && Presents(shown, todo[0].options, TallyOf(st, todo[0].id))
    requires c1.ReadCall? && c1.shown == c.shown + [shown]
    requires UpToDate(st1, todo[1..]) && ReadsAll(st1, c1, todo[1..], n - 3, st', c')
    ensures ReadsAll(st, c, todo, n, st', c')
  {
    assert Ids(todo) == [todo[0].id] + Ids(todo[1..]);
    OnlySeededTwice(st, st1, st', [todo[0].id], Ids(todo[1..]));
    if c'.out.Done? {
      forall k | 0 <= k < |todo| ensures Presents(c'.shown[|c.shown| + k], todo[k].options, TallyOf(st, todo[k].id)) {
        ShownAt(st, st1, c, c1, todo, st', c', n, shown, k);
      }
    }
  }

  lemma ShownAt(st: Stores, st1: Stores, c: Call, c1: Call, todo: seq<Found>, st': Stores, c': Call, n: nat,
                shown: seq<OptionResult>, k: nat)
    requires c.ReadCall? && UpToDate(st, todo) && k < |todo|
    requires st1.polls == st.polls && forall q | q in st.polls :: TallyOf(st1, q) == TallyOf(st, q)
    requires Presents(shown, todo[0].options, TallyOf(st, todo[0].id))
    requires c1.ReadCall? && c1.shown == c.shown + [shown] && n >= 3 && c'.out.Done?
    requires UpToDate(st1, todo[1..]) && ReadsAll(st1, c1, todo[1..], n - 3, st', c')
    ensures |c'.shown| == |c.shown| + |todo|
    ensures Presents(c'.shown[|c.shown| + k], todo[k].options, TallyOf(st, todo[k].id))
  {
    if k == 0 {
      assert c'.shown[|c.shown|] == c1.shown[|c.shown|] == shown;
    } else {
      assert todo[1..][k - 1] == todo[k] && |c1.shown| + (k - 1) == |c.shown| + k;
    }
  }

  /** The reader's own seedings do not change what it shows of the polls that follow. */
  lemma {:induction false} ReadMany(st: Stores, c: Call, todo: seq<Found>, n: nat, env: Env)
    requires c.ReadCall? && UpToDate(st, todo)
    requires todo == [] ==> c.out == Done
    requires todo != [] ==> c.out.Running? && c.read == CountVotes(todo)
    ensures var (st', c') := RunCall(st, c, n, env);
      ReadsAll(st, c, todo, n, st', c')
    decreases |todo|
  {
    if todo == [] {
      assert OnlySeeded(st, st, Ids(todo));
    } else {
      ReadOne(st, c, todo, n, env);
      if n < 3 {
        assert Ids(todo)[0] == todo[0].id;
      } else {
        var st1 := EnsureResults(st, todo[0].id, todo[0].options, CountByOption(st.votes, todo[0].id));
        var shown := GetResults(st1, todo[0].id, todo[0].options);
        var c1 := NextPoll(c.(shown := c.shown + [shown]), todo[1..]);
        ReadMany(st1, c1, todo[1..], n - 3, env);
        var (st', c') := RunCall(st1, c1, n - 3, env);
        ReadsOneMore(st, st1, c, c1, todo, n, st', c', shown);
      }
    }
  }

  /**
   GetPoll on its own, over every state of the stores and every point of failure: a poll that is missing or deleted is
   not found; any other is shown as the live hash has it, or, when the hash is missing, as its votes are stored. It
   leaves everything alone but that poll's missing hash.
   */
  lemma PollReadAlone(st: Stores, p: string, faultAt: nat, env: Env)
    requires faultAt > 0
    ensures var (st', c) := Alone(st, GetPoll(p), faultAt, env);
      if p !in st.polls || st.polls[p].status == Deleted then st' == st && Return(c) == Failed(PollNotFound)
      else
        && c.ReadCall? && Return(c) == (if faultAt >= 4 then Done else Failed(StoreDown))
        && OnlySeeded(st, st', [p])
        && (Return(c) == Done ==>
              |c.shown| == 1 && Presents(c.shown[0], st.polls[p].options, TallyOf(st, p)))
  {
    var c := Begin(GetPoll(p));
    OneCommand(st, c, faultAt, env);
    if Visible(st, p) {
      var todo := [Found(p, st.polls[p].options)];
      ReadMany(st, c.(read := CountVotes(todo)), todo, faultAt - 1, env);
      assert Ids(todo) == [p];
    }
  }

  /**
   GetMyPolls on its own, over every state of the stores: for every listing of the polls the user created and did not
   delete, the k-th list of results is the k-th listed poll's, shown as its own hash has it or as its own votes are
   stored; every poll takes three commands after the listing.
   */
  lemma MyPollsReadAlone(st: Stores, user: string, faultAt: nat, env: Env)
    requires faultAt > 0
    requires forall i, j | 0 <= i < j < |env.listing| :: env.listing[i] != env.listing[j]
    requires forall p :: p in env.listing <==>
      p in st.polls && st.polls[p].status != Deleted && st.polls[p].createdBy == user
    ensures var (st', c) := Alone(st, GetMyPolls(user), faultAt, env);
      && c.ReadCall? && OnlySeeded(st, st', env.listing)
      && Return(c) == (if faultAt >= 1 + 3 * |env.listing| then Done else Failed(StoreDown))
      && (Return(c) == Done ==>
            && |c.shown| == |env.listing|
            && forall k | 0 <= k < |env.listing| :: env.listing[k] in st.polls
                 && Presents(c.shown[k], st.polls[env.listing[k]].options, TallyOf(st, env.listing[k])))
  {
    var c, listing := Begin(GetMyPolls(user)), env.listing;
    assert forall i | 0 <= i < |listing| :: listing[i] in listing;
    ListingCommand(st, c, user, env);
    var todo := FoundPolls(st, listing);
    OneCommand(st, c, faultAt, env);
    ReadMany(st, NextPoll(c, todo), todo, faultAt - 1, env);
    assert Ids(todo) == listing;
  }

  lemma ListingCommand(st: Stores, c: Call, user: string, env: Env)
    requires c == ReadCall(ByCreator(user), Lookup, [], Running)
    requires forall i, j | 0 <= i < j < |env.listing| :: env.listing[i] != env.listing[j]
    requires forall p :: p in env.listing <==>
      p in st.polls && st.polls[p].status != Deleted && st.polls[p].createdBy == user
    ensures forall i | 0 <= i < |env.listing| :: env.listing[i] in st.polls
    ensures var todo := FoundPolls(st, env.listing);
      && Command(st, c, env) == (st, NextPoll(c, todo)) && UpToDate(st, todo)
      && forall k | 0 <= k < |todo| :: todo[k].id == env.listing[k]
  {
    assert IsListing(st, user, env.listing);
    assert forall i | 0 <= i < |env.listing| :: env.listing[i] in env.listing;
  }

  /** What seeding and then reading shows: the seed, or the hash that was there. */
  lemma SeededThenRead(st: Stores, p: string, options: seq<PollOption>, seed: map<string, nat>)
    ensures Results.Votes(GetResults(EnsureResults(st, p, options, seed), p, options))
      == Results.VotesOf(options, if p in st.results then st.results[p] else seed)
  {
    var shown := GetResults(EnsureResults(st, p, options, seed), p, options);
    var expected := Results.VotesOf(options, if p in st.results then st.results[p] else seed);
    forall k | 0 <= k < |options| ensures Results.Votes(shown)[k] == expected[k] {
      assert p !in st.results ==> options[k].id in SeedHash(options, seed);
    }
  }

  /**
   CreatePoll on its own, over every state of the stores and every point of failure: one active poll under the fresh id
   with the texts in order under the ids opt_1, opt_2 and so on, then a hash with one zero per option unless one is
   there. Nothing else changes, and with too few or too many texts or a taken id nothing changes at all.
   */
  lemma PollCreatedAlone(st: Stores, user: string, texts: seq<string>, faultAt: nat, env: Env)
    requires faultAt > 0
    ensures var (st', c) := Alone(st, CreatePoll(user, texts), faultAt, env);
      var p := env.freshId;
      if |texts| < 2 || |texts| > 6 then st' == st && Return(c) == Failed(InvalidOptions)
      else if p in st.polls then st' == st && Return(c) == Failed(StoreDown)
      else
        && Return(c) == (if faultAt >= 2 then Done else Failed(StoreDown))
        && p in st'.polls && st'.polls == st.polls[p := st'.polls[p]]
        && st'.polls[p].createdBy == user && st'.polls[p].status == Active && st'.polls[p].expiresAt == None
        && DistinctIds(st'.polls[p].options) && |st'.polls[p].options| == |texts|
        && (forall k | 0 <= k < |texts| ::
              st'.polls[p].options[k].id == "opt_" + Decimal.Print(k + 1) && st'.polls[p].options[k].text == texts[k])
        && st'.votes == st.votes && st'.counters == st.counters && st'.events == st.events
        && (faultAt < 2 || p in st.results ==> st'.results == st.results)
        && (faultAt >= 2 && p !in st.results ==>
              && p in st'.results && st'.results == st.results[p := st'.results[p]]
              && forall o :: o in st'.results[p] <==> HasOption(st'.polls[p].options, o))
        && (faultAt >= 2 && p !in st.results ==> forall o | o in st'.results[p] :: st'.results[p][o] == 0)
  {
    var p, options := env.freshId, NewOptions(texts);
    NewOptionsDistinct(texts);
    var c := Begin(CreatePoll(user, texts));
    OneCommand(st, c, faultAt, env);
    if p !in st.polls && 2 <= |texts| <= 6 {
      var st1 := st.(polls := st.polls[p := Poll(options, user, Active, None)]);
      assert forall k | 0 <= k < |texts| :: options[k].id == OptionId(k);
      if faultAt >= 2 {
        OneCommand(st1, c.(create := SeedNew(p, options)), faultAt - 1, env);
      }
    }
  }

  /**
   In every reachable state a poll just created starts from nothing: its hash is one zero per option, and no option has
   a live count, a counter or a stored vote.
   */
  lemma NewPollStartsAtZero(run: seq<Step>, user: string, texts: seq<string>, env: Env, o: string)
    requires Validation.MinOptions <= |texts| <= Validation.MaxOptions && env.freshId !in After(run).stores.polls
    ensures var (st', c) := Alone(After(run).stores, CreatePoll(user, texts), 2, env);
      var p := env.freshId;
      && Return(c) == Done && Visible(st', p) && p in st'.results
      && (o in st'.results[p] <==> HasOption(st'.polls[p].options, o))
      && Live(st', p, o) == Counter(st', p, o) == CountDocuments(st'.votes, ForOption(p, o)) == 0
  {
    var st, p, options := After(run).stores, env.freshId, NewOptions(texts);
    Reachable(run);
    ReachableKeysNamePolls(run);
    if CountDocuments(st.votes, ForOption(p, o)) > 0 {
      var i := SomeSelected(st.votes, ForOption(p, o));
    }
    var c := Begin(CreatePoll(user, texts));
    OneCommand(st, c, 2, env);
    var st1 := st.(polls := st.polls[p := Poll(options, user, Active, None)]);
    OneCommand(st1, c.(create := SeedNew(p, options)), 1, env);
    assert p !in st.results && (p, o) !in st.counters;
  }

  /**
   Closing or deleting on its own: only the creator of a visible poll succeeds, only that poll's status changes, and it
   has changed exactly when two commands got through.
   */
  lemma StatusChangedAlone(st: Stores, p: string, user: string, close: bool, faultAt: nat, env: Env)
    requires faultAt > 0
    ensures var req := if close then ClosePoll(p, user) else DeletePoll(p, user);
      var (st', c) := Alone(st, req, faultAt, env);
      if !Visible(st, p) then st' == st && Return(c) == Failed(PollNotFound)
      else if st.polls[p].createdBy != user then st' == st && Return(c) == Failed(Forbidden)
      else
        && Return(c) == (if faultAt >= (if close then 3 else 2) then Done else Failed(StoreDown))
        && st'.polls ==
             (if faultAt < 2 then st.polls
              else st.polls[p := st.polls[p].(status := if close then Closed else Deleted)])
        && st'.events == (if close && faultAt >= 3 then st.events + [PollClosed(p)] else st.events)
        && st'.votes == st.votes && st'.results == st.results && st'.counters == st.counters
        && (Visible(st', p) <==> close || faultAt == 1)
  {
    var status := if close then Closed else Deleted;
    var c := StatusCall(p, user, status, Check, Running);
    OneCommand(st, c, faultAt, env);
    if Visible(st, p) && st.polls[p].createdBy == user && faultAt > 1 {
      OneCommand(st, c.(change := Write), faultAt - 1, env);
      if close && faultAt > 2 {
        OneCommand(UpdateStatus(st, p, status), c.(change := Announce), faultAt - 2, env);
      }
    }
  }
}
