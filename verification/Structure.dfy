/** What every step keeps, with or without key loss: shape of the data, counting, one vote per voter. */
module Structure {
  import opened Basics
  import opened Models
  import opened Protocol
  import Validation

  // ----- Counting calls -----

  /** Sets of calls by where they stand. */
  datatype Watch =
    | PastInsert(pollId: string, optionId: string)  // the vote was stored
    | InFlight(pollId: string, optionId: string)    // running, between its insert and its increment
    | Stranded(pollId: string, optionId: string)    // stopped between its insert and its increment
    | Counted(pollId: string, optionId: string)     // past its increment
    | Cleared(pollId: string)                       // running, past the status check, before its insert

  predicate Matches(w: Watch, c: Call) {
    c.VoteCall? && c.pollId == w.pollId &&
    match w
    case PastInsert(_, o) => c.optionId == o && !c.vote.Find? && !c.vote.SeedNil? && !c.vote.Insert?
    case InFlight(_, o) => c.optionId == o && c.vote.Increment? && c.out.Running?
    case Stranded(_, o) => c.optionId == o && c.vote.Increment? && !c.out.Running?
    case Counted(_, o) => c.optionId == o && (c.vote.ReadOwn? || c.vote.Publish? || c.vote.Published?)
    case Cleared(_) => (c.vote.SeedNil? || c.vote.Insert?) && c.out.Running?
  }

  function CountCalls(calls: seq<Call>, w: Watch): nat {
    if calls == [] then 0
    else CountCalls(calls[..|calls| - 1], w) + One(Matches(w, calls[|calls| - 1]))
  }

  lemma CountAppended(calls: seq<Call>, c: Call, w: Watch)
    ensures CountCalls(calls + [c], w) == CountCalls(calls, w) + One(Matches(w, c))
  {
    assert (calls + [c])[..|calls|] == calls;
  }

  lemma {:induction false} CountUpdated(calls: seq<Call>, i: nat, c: Call, w: Watch)
    requires i < |calls|
    ensures CountCalls(calls[i := c], w) + One(Matches(w, calls[i])) == CountCalls(calls, w) + One(Matches(w, c))
  {
    var n := |calls| - 1;
    if i == n {
      assert calls[i := c][..n] == calls[..n];
    } else {
      CountUpdated(calls[..n], i, c, w);
      assert calls[i := c][..n] == calls[..n][i := c];
    }
  }

  /** How a step moves any count of calls: by what becomes of the one call it names. */
  lemma StepCounts(s: State, step: Step, w: Watch)
    ensures var s' := Next(s, step);
      if step.Do? && CanMove(s, step.call) then
        var c' := Command(s.stores, s.calls[step.call], step.env).1;
        CountCalls(s'.calls, w) + One(Matches(w, s.calls[step.call])) == CountCalls(s.calls, w) + One(Matches(w, c'))
      else if step.Abandon? && CanMove(s, step.call) then
        CountCalls(s'.calls, w) + One(Matches(w, s.calls[step.call]))
          == CountCalls(s.calls, w) + One(Matches(w, Fail(s.calls[step.call], StoreDown)))
      else CountCalls(s'.calls, w) == CountCalls(s.calls, w)
  {
    match step
    case Arrive(req) => CountAppended(s.calls, Begin(req), w);
    case Do(i, env) =>
      if CanMove(s, i) {
        CountUpdated(s.calls, i, Command(s.stores, s.calls[i], env).1, w);
      }
    case Abandon(i) =>
      if CanMove(s, i) {
        CountUpdated(s.calls, i, Fail(s.calls[i], StoreDown), w);
      }
    case LoseHash(_) =>
    case LoseCounter(_, _) =>
  }

  lemma {:induction false} CountPositive(calls: seq<Call>, i: nat, w: Watch)
    requires i < |calls| && Matches(w, calls[i])
    ensures CountCalls(calls, w) > 0
  {
    if i < |calls| - 1 {
      CountPositive(calls[..|calls| - 1], i, w);
    }
  }

  lemma {:induction false} NoMatches(calls: seq<Call>, w: Watch)
    requires forall i | 0 <= i < |calls| :: !Matches(w, calls[i])
    ensures CountCalls(calls, w) == 0
  {
    if calls != [] {
      NoMatches(calls[..|calls| - 1], w);
    }
  }

  lemma {:induction false} PastInsertSplits(calls: seq<Call>, p: string, o: string)
    ensures CountCalls(calls, PastInsert(p, o)) ==
      CountCalls(calls, InFlight(p, o)) + CountCalls(calls, Stranded(p, o)) + CountCalls(calls, Counted(p, o))
  {
    if calls != [] {
      PastInsertSplits(calls[..|calls| - 1], p, o);
    }
  }

  // ----- Counting votes -----

  lemma CountInserted(votes: seq<Vote>, v: Vote, f: Filter)
    ensures CountDocuments(votes + [v], f) == CountDocuments(votes, f) + One(Selects(f, v))
  {
    assert (votes + [v])[..|votes|] == votes;
  }

  lemma OthersInsertNothing(st: Stores, c: Call, env: Env)
    requires !c.VoteCall?
    ensures Command(st, c, env).0.votes == st.votes
  {
  }

  /** Only a vote's insert moves a count of stored votes. */
  lemma CommandInserts(st: Stores, c: Call, env: Env, f: Filter)
    ensures var (st', c') := Command(st, c, env);
      CountDocuments(st'.votes, f) == CountDocuments(st.votes, f) +
        One(c.VoteCall? && c.vote.Insert? && c'.vote.Increment? && Selects(f, Vote(c.pollId, c.optionId, c.voterKey)))
  {
    if c.VoteCall? {
      CountInserted(st.votes, Vote(c.pollId, c.optionId, c.voterKey), f);
    } else {
      OthersInsertNothing(st, c, env);
    }
  }

  lemma {:induction false} CountPrefix(votes: seq<Vote>, more: seq<Vote>, f: Filter)
    requires votes <= more
    ensures CountDocuments(votes, f) <= CountDocuments(more, f)
    decreases |more|
  {
    if |votes| == |more| {
      assert votes == more;
    } else {
      CountPrefix(votes, more[..|more| - 1], f);
    }
  }

  lemma {:induction false} CountSelected(votes: seq<Vote>, i: nat, f: Filter)
    requires i < |votes| && Selects(f, votes[i])
    ensures CountDocuments(votes, f) > 0
  {
    if i < |votes| - 1 {
      CountSelected(votes[..|votes| - 1], i, f);
    }
  }

  lemma {:induction false} SomeSelected(votes: seq<Vote>, f: Filter) returns (i: nat)
    requires CountDocuments(votes, f) > 0
    ensures i < |votes| && Selects(f, votes[i])
  {
    i := |votes| - 1;
    if !Selects(f, votes[i]) {
      i := SomeSelected(votes[..|votes| - 1], f);
    }
  }

  /** Reading the aggregation with Go's zero default gives the count for every option, voted for or not. */
  lemma {:induction false} GetCountByOption(votes: seq<Vote>, p: string, o: string)
    ensures Get(CountByOption(votes, p), o) == CountDocuments(votes, ForOption(p, o))
  {
    if CountDocuments(votes, ForOption(p, o)) > 0 {
      var i := SomeSelected(votes, ForOption(p, o));
      assert votes[i].optionId in CountByOption(votes, p);
    }
  }

  // ----- Shape -----

  predicate PollOk(poll: Poll) {
    && Validation.MinOptions <= |poll.options| <= Validation.MaxOptions
    && DistinctIds(poll.options) && poll.expiresAt == None
  }

  predicate StoresOk(st: Stores) {
    && (forall p | p in st.polls :: PollOk(st.polls[p]))
    && (forall i | 0 <= i < |st.votes| ::
          && st.votes[i].pollId in st.polls
          && HasOption(st.polls[st.votes[i].pollId].options, st.votes[i].optionId))
  }

  /** A local copy of a poll's options still is what the store holds. */
  predicate Current(st: Stores, p: string, options: seq<PollOption>) {
    p in st.polls && st.polls[p].options == options
  }

  predicate AllCurrent(st: Stores, todo: seq<Found>) {
    todo != [] && forall i | 0 <= i < |todo| :: Current(st, todo[i].id, todo[i].options)
  }

  predicate VoteOk(st: Stores, c: Call)
    requires c.VoteCall?
  {
    && (c.out.Done? <==> c.vote.Published?)
    && match c.vote
       case Find => true
       case SeedNil(options) => Current(st, c.pollId, options) && HasOption(options, c.optionId)
       case Insert(options) => Current(st, c.pollId, options) && HasOption(options, c.optionId)
       case Increment(options) => Current(st, c.pollId, options) && HasOption(options, c.optionId)
       case ReadOwn(options) => Current(st, c.pollId, options) && HasOption(options, c.optionId)
       case Publish(_) => c.pollId in st.polls && HasOption(st.polls[c.pollId].options, c.optionId)
       case Published(_) => c.pollId in st.polls && HasOption(st.polls[c.pollId].options, c.optionId)
  }

  predicate ReadOk(st: Stores, c: Call)
    requires c.ReadCall?
  {
    match c.read
    case Lookup => true
    case CountVotes(todo) => AllCurrent(st, todo)
    case Seed(todo, _) => AllCurrent(st, todo)
    case ReadHash(todo) => AllCurrent(st, todo)
    case Shown => true
  }

  predicate CallOk(st: Stores, c: Call) {
    match c
    case VoteCall(_, _, _, _, _) => VoteOk(st, c)
    case ReadCall(_, _, _, _) => ReadOk(st, c)
    case CreateCall(_, _, create, _) => create.SeedNew? ==> Current(st, create.id, create.options)
    case StatusCall(p, user, status, change, _) =>
      status != Active && (change != Check ==> p in st.polls && st.polls[p].createdBy == user)
  }

  /** A seed read from MongoDB never exceeds what is stored now. */
  ghost predicate SeedBounded(votes: seq<Vote>, c: Call) {
    c.ReadCall? && c.read.Seed? && c.read.todo != [] ==>
      forall o :: Get(c.read.seed, o) <= CountDocuments(votes, ForOption(c.read.todo[0].id, o))
  }

  ghost predicate Shape(s: State) {
    && StoresOk(s.stores)
    && (forall i | 0 <= i < |s.calls| :: CallOk(s.stores, s.calls[i]) && SeedBounded(s.stores.votes, s.calls[i]))
  }

  /** Stores only grow in these parts: polls keep options and creator, votes are only appended. */
  predicate Extends(st: Stores, st': Stores) {
    && (forall p | p in st.polls ::
          && p in st'.polls
          && st'.polls[p].options == st.polls[p].options
          && st'.polls[p].createdBy == st.polls[p].createdBy)
    && st.votes <= st'.votes
  }

  lemma CallStaysOk(st: Stores, st': Stores, c: Call)
    requires Extends(st, st') && CallOk(st, c) && SeedBounded(st.votes, c)
    ensures CallOk(st', c) && SeedBounded(st'.votes, c)
  {
    if c.ReadCall? && c.read.Seed? {
      var p := c.read.todo[0].id;
      forall o ensures Get(c.read.seed, o) <= CountDocuments(st'.votes, ForOption(p, o)) {
        CountPrefix(st.votes, st'.votes, ForOption(p, o));
      }
    }
  }

  lemma AppendOk(st: Stores, v: Vote)
    requires StoresOk(st) && v.pollId in st.polls && HasOption(st.polls[v.pollId].options, v.optionId)
    ensures var st' := st.(votes := st.votes + [v]); StoresOk(st') && Extends(st, st')
  {
  }

  lemma VoteStoresOk(st: Stores, c: Call, env: Env)
    requires StoresOk(st) && c.VoteCall? && CallOk(st, c)
    ensures var st' := VoteCommand(st, c, env).0;
      StoresOk(st') && Extends(st, st') && st'.polls == st.polls
  {
    if c.vote.Insert? && !HasVoted(st, c.pollId, c.voterKey) {
      AppendOk(st, Vote(c.pollId, c.optionId, c.voterKey));
    }
  }

  lemma VoteCommandOk(st: Stores, c: Call, env: Env)
    requires StoresOk(st) && c.VoteCall? && CallOk(st, c) && c.out.Running?
    ensures var (st', c') := VoteCommand(st, c, env);
      StoresOk(st') && Extends(st, st') && c'.VoteCall? && CallOk(st', c')
  {
    VoteStoresOk(st, c, env);
  }

  lemma ReadCommandOk(st: Stores, c: Call, env: Env)
    requires StoresOk(st) && c.ReadCall? && CallOk(st, c) && SeedBounded(st.votes, c)
    ensures var (st', c') := ReadCommand(st, c, env);
      StoresOk(st') && Extends(st, st') && CallOk(st', c') && SeedBounded(st'.votes, c')
  {
    var (st', c') := ReadCommand(st, c, env);
    if c'.read.Seed? && c.read.CountVotes? {
      forall o ensures Get(c'.read.seed, o) <= CountDocuments(st.votes, ForOption(c'.read.todo[0].id, o)) {
        GetCountByOption(st.votes, c'.read.todo[0].id, o);
      }
    }
    if c.read.Lookup? && c.query.ByCreator? && IsListing(st, c.query.user, env.listing) {
      assert forall i | 0 <= i < |env.listing| :: env.listing[i] in env.listing;
    }
  }

  lemma CreateCommandOk(st: Stores, c: Call, env: Env)
    requires StoresOk(st) && c.CreateCall? && CallOk(st, c)
    ensures var (st', c') := CreateCommand(st, c, env);
      StoresOk(st') && Extends(st, st') && c'.CreateCall? && CallOk(st', c')
  {
    NewOptionsDistinct(c.texts);
  }

  lemma StatusCommandOk(st: Stores, c: Call)
    requires StoresOk(st) && c.StatusCall? && CallOk(st, c)
    ensures var (st', c') := StatusCommand(st, c);
      StoresOk(st') && Extends(st, st') && c'.StatusCall? && CallOk(st', c')
  {
  }

  lemma CommandOk(st: Stores, c: Call, env: Env)
    requires StoresOk(st) && CallOk(st, c) && SeedBounded(st.votes, c) && c.out.Running?
    ensures var (st', c') := Command(st, c, env);
      StoresOk(st') && Extends(st, st') && CallOk(st', c') && SeedBounded(st'.votes, c')
  {
    match c
    case VoteCall(_, _, _, _, _) => VoteCommandOk(st, c, env);
    case ReadCall(_, _, _, _) => ReadCommandOk(st, c, env);
    case CreateCall(_, _, _, _) => CreateCommandOk(st, c, env);
    case StatusCall(_, _, _, _, _) => StatusCommandOk(st, c);
  }

  lemma ShapeStep(s: State, step: Step)
    requires Shape(s)
    ensures Shape(Next(s, step)) && Extends(s.stores, Next(s, step).stores)
  {
    var s' := Next(s, step);
    if step.Do? && CanMove(s, step.call) {
      CommandOk(s.stores, s.calls[step.call], step.env);
      forall i | 0 <= i < |s'.calls|
        ensures CallOk(s'.stores, s'.calls[i]) && SeedBounded(s'.stores.votes, s'.calls[i])
      {
        if i != step.call {
          CallStaysOk(s.stores, s'.stores, s.calls[i]);
        }
      }
    }
  }

  /** Every reachable state has the shape. */
  lemma {:induction false} Reachable(run: seq<Step>)
    ensures Shape(After(run))
  {
    if run != [] {
      Reachable(run[..|run| - 1]);
      ShapeStep(After(run[..|run| - 1]), run[|run| - 1]);
    }
  }

  lemma {:induction false} LaterExtends(run: seq<Step>, n: nat)
    requires n <= |run|
    ensures Extends(After(run[..n]).stores, After(run).stores)
  {
    if n == |run| {
      assert run[..n] == run;
    } else {
      var shorter := run[..|run| - 1];
      assert shorter[..n] == run[..n];
      LaterExtends(shorter, n);
      Reachable(shorter);
      ShapeStep(After(shorter), run[|run| - 1]);
    }
  }

  // ----- Redis knows only stored polls -----

  /** Every hash and every counter belongs to a stored poll. */
  predicate KeysNamePolls(st: Stores) {
    && (forall p | p in st.results :: p in st.polls)
    && (forall k | k in st.counters :: k.0 in st.polls)
  }

  lemma CommandNamesPolls(st: Stores, c: Call, env: Env)
    requires KeysNamePolls(st) && CallOk(st, c)
    ensures KeysNamePolls(Command(st, c, env).0)
  {
    match c
    case VoteCall(_, _, _, _, _) =>
    case ReadCall(_, read, _, _) => assert read.Seed? ==> Current(st, read.todo[0].id, read.todo[0].options);
    case CreateCall(_, _, _, _) =>
    case StatusCall(_, _, _, _, _) =>
  }

  lemma {:induction false} ReachableKeysNamePolls(run: seq<Step>)
    ensures KeysNamePolls(After(run).stores)
  {
    if run != [] {
      var before, step := run[..|run| - 1], run[|run| - 1];
      ReachableKeysNamePolls(before);
      Reachable(before);
      if step.Do? && CanMove(After(before), step.call) {
        CommandNamesPolls(After(before).stores, After(before).calls[step.call], step.env);
      }
    }
  }
}
