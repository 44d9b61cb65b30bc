/**
 VoteService and PollService over the repositories and Redis, as the program runs them. `faultAt` is the number of
 store commands that succeed before one cannot reach its store. Each method leaves the stores, and returns, what the
 protocol's call does when it runs alone.
 */
module Services {
  import opened Basics
  import opened Models
  import opened Results
  import opened Protocol
  import opened Sequential
  import opened Keys
  import RedisService
  import Repositories
  import Validation

  class VoteService {
    const polls: Repositories.PollRepository
    const votes: Repositories.VoteRepository
    const redis: RedisService.RedisService

    constructor (polls: Repositories.PollRepository, votes: Repositories.VoteRepository,
                 redis: RedisService.RedisService)
      ensures this.polls == polls && this.votes == votes && this.redis == redis
    {
      this.polls, this.votes, this.redis := polls, votes, redis;
    }

    ghost function Now(): Stores
      reads polls, votes, redis
    {
      Stores(polls.polls, votes.votes, redis.results, redis.counters, redis.events)
    }

    method Vote(pollID: string, optionID: string, voterKey: string, now: int, faultAt: nat) returns (out: Outcome)
      requires redis.Valid() && NoColon(pollID)
      modifies votes, redis
      ensures redis.Valid()
      ensures (Now(), out) ==
        var (st, c) := Alone(old(Now()), CastVote(pollID, optionID, voterKey), faultAt, Env(now, "", []));
        (st, Return(c))
    {
      ghost var env := Env(now, "", []);
      ghost var c := Begin(CastVote(pollID, optionID, voterKey));
      if faultAt == 0 {
        return Failed(StoreDown);
      }
      OneCommand(Now(), c, faultAt, env);
      var found := polls.FindByID(pollID, true);
      if found.Err? {
        return Failed(found.error);
      }
      var poll := found.value;
      if poll.status != Active {
        return Failed(PollIsClosed);
      }
      if poll.expiresAt.Some? && poll.expiresAt.value < now {
        return Failed(PollExpired);
      }
      var validOption := FindOption(poll.options, optionID);
      if !validOption {
        return Failed(VoteInvalid);
      }

      ghost var c1 := c.(vote := SeedNil(poll.options));
      out := SeedAndInsert(pollID, optionID, voterKey, poll.options, c1, env, faultAt - 1);
    }

    /** Vote after its checks. */
    method SeedAndInsert(pollID: string, optionID: string, voterKey: string, options: seq<PollOption>,
                         ghost c: Call, ghost env: Env, faultAt: nat) returns (out: Outcome)
      requires redis.Valid() && NoColon(pollID)
      requires c == VoteCall(pollID, optionID, voterKey, SeedNil(options), Running)
      modifies votes, redis
      ensures redis.Valid()
      ensures (Now(), out) == var (st, c') := RunCall(old(Now()), c, faultAt, env); (st, Return(c'))
    {
      if faultAt > 0 {
        OneCommand(Now(), c, faultAt, env);
      }
      var ok := redis.EnsureResults(pollID, options, map[], faultAt > 0);
      assert ok ==> Now() == Protocol.EnsureResults(old(Now()), pollID, options, map[]);
      if !ok {
        return Failed(StoreDown);
      }
      out := InsertAndCount(pollID, optionID, voterKey, options, c.(vote := Insert(options)), env, faultAt - 1);
    }

    /** The second half of Vote: insert, increment, read, publish. */
    method InsertAndCount(pollID: string, optionID: string, voterKey: string, options: seq<PollOption>,
                          ghost c: Call, ghost env: Env, faultAt: nat) returns (out: Outcome)
      requires redis.Valid() && NoColon(pollID)
      requires c == VoteCall(pollID, optionID, voterKey, Insert(options), Running)
      modifies votes, redis
      ensures redis.Valid()
      ensures (Now(), out) == var (st, c') := RunCall(old(Now()), c, faultAt, env); (st, Return(c'))
    {
      if faultAt > 0 {
        OneCommand(Now(), c, faultAt, env);
        SomeIffCounted(votes.votes, ForVoter(pollID, voterKey));
      }
      var err := votes.Create(Models.Vote(pollID, optionID, voterKey), faultAt > 0);
      if err.Some? {
        return Failed(err.value);
      }
      out := CountAndPublish(pollID, optionID, options, c.(vote := Increment(options)), env, faultAt - 1);
    }

    method CountAndPublish(pollID: string, optionID: string, options: seq<PollOption>,
                           ghost c: Call, ghost env: Env, faultAt: nat) returns (out: Outcome)
      requires redis.Valid() && NoColon(pollID)
      requires c.VoteCall? && c.pollId == pollID && c.optionId == optionID
      requires c.vote == Increment(options) && c.out == Running
      modifies redis
      ensures redis.Valid()
      ensures (Now(), out) == var (st, c') := RunCall(old(Now()), c, faultAt, env); (st, Return(c'))
    {
      if faultAt > 0 {
        OneCommand(Now(), c, faultAt, env);
      }
      var ok := redis.IncrementVote(pollID, optionID, faultAt > 0);
      assert ok ==> Now() == Protocol.IncrementVote(old(Now()), pollID, optionID);
      if !ok {
        return Failed(StoreDown);
      }

      out := ReadAndPublish(pollID, options, c.(vote := ReadOwn(options)), env, faultAt - 1);
    }

    method ReadAndPublish(pollID: string, options: seq<PollOption>, ghost c: Call, ghost env: Env, faultAt: nat)
      returns (out: Outcome)
      requires redis.Valid() && NoColon(pollID)
      requires c.VoteCall? && c.pollId == pollID && c.vote == ReadOwn(options) && c.out == Running
      modifies redis`events
      ensures redis.Valid()
      ensures (Now(), out) == var (st, c') := RunCall(old(Now()), c, faultAt, env); (st, Return(c'))
    {
      if faultAt > 0 {
        OneCommand(Now(), c, faultAt, env);
      }
      var results, total, read := redis.GetResults(pollID, options, faultAt > 0);
      if !read {
        return Failed(StoreDown);
      }

      ghost var c1 := c.(vote := Publish(results));
      if faultAt > 1 {
        OneCommand(Now(), c1, faultAt - 1, env);
      }
      var sent := redis.PublishUpdate(PollUpdate(pollID, total, results), faultAt > 1);
      out := if sent then Done else Failed(StoreDown);
    }

    method FindOption(options: seq<PollOption>, optionID: string) returns (validOption: bool)
      ensures validOption == HasOption(options, optionID)
    {
      validOption := false;
      for i := 0 to |options|
        invariant !validOption && forall j | 0 <= j < i :: options[j].id != optionID
      {
        if options[i].id == optionID {
          validOption := true;
          break;
        }
      }
    }
  }

  lemma {:induction false} SomeIffCounted(votes: seq<Vote>, f: Filter)
    ensures CountDocuments(votes, f) > 0 <==> exists i | 0 <= i < |votes| :: Selects(f, votes[i])
  {
    if votes != [] {
      var rest := votes[..|votes| - 1];
      SomeIffCounted(rest, f);
      if i :| 0 <= i < |votes| && Selects(f, votes[i]) {
        assert i < |rest| ==> Selects(f, rest[i]);
      }
    }
  }

  class PollService {
    const polls: Repositories.PollRepository
    const votes: Repositories.VoteRepository
    const redis: RedisService.RedisService

    constructor (polls: Repositories.PollRepository, votes: Repositories.VoteRepository,
                 redis: RedisService.RedisService)
      ensures this.polls == polls && this.votes == votes && this.redis == redis
    {
      this.polls, this.votes, this.redis := polls, votes, redis;
    }

    ghost function Now(): Stores
      reads polls, votes, redis
    {
      Stores(polls.polls, votes.votes, redis.results, redis.counters, redis.events)
    }

    /** Validation comes first and touches no store; a valid request is the protocol's call on the cleaned options. */
    method CreatePoll(lower: char -> char, creatorID: string, question: string, options: seq<string>,
                      freshId: string, faultAt: nat) returns (rejected: Option<Validation.Invalid>, out: Outcome)
      requires redis.Valid() && NoColon(freshId)
      modifies polls, redis
      ensures redis.Valid()
      ensures rejected == None <==> Validation.ValidateQuestion(question).Ok? && Validation.Acceptable(lower, options)
      ensures rejected == Some(Validation.InvalidQuestion) <==> Validation.ValidateQuestion(question).Err?
      ensures rejected.Some? ==> Now() == old(Now())
      ensures rejected == None ==>
        var req := Request.CreatePoll(creatorID, Validation.Cleaned(options));
        var (st, c) := Alone(old(Now()), req, faultAt, Env(0, freshId, []));
        Now() == st && out == Return(c)
    {
      rejected, out := None, Failed(InvalidOptions);
      var q := Validation.ValidateQuestion(question);
      if q.Err? {
        rejected := Some(q.error);
        return;
      }
      var checked := Validation.ValidateOptions(lower, options);
      if checked.Err? {
        rejected := Some(checked.error);
        return;
      }
      var cleaned := checked.value;
      var pollOptions := MakeOptions(cleaned);
      out := StorePoll(creatorID, cleaned, pollOptions, freshId, faultAt);
    }

    method MakeOptions(cleaned: seq<string>) returns (pollOptions: seq<PollOption>)
      ensures pollOptions == NewOptions(cleaned)
    {
      pollOptions := [];
      for i := 0 to |cleaned|
        invariant pollOptions == NewOptions(cleaned)[..i]
      {
        pollOptions := pollOptions + [PollOption(OptionId(i), cleaned[i])];
      }
    }

    method StorePoll(creatorID: string, cleaned: seq<string>, pollOptions: seq<PollOption>,
                     freshId: string, faultAt: nat) returns (out: Outcome)
      requires redis.Valid() && NoColon(freshId)
      requires pollOptions == NewOptions(cleaned) && Validation.MinOptions <= |cleaned| <= Validation.MaxOptions
      modifies polls, redis
      ensures redis.Valid()
      ensures (Now(), out) ==
        var (st, c) := Alone(old(Now()), Request.CreatePoll(creatorID, cleaned), faultAt, Env(0, freshId, []));
        (st, Return(c))
    {
      ghost var env := Env(0, freshId, []);
      ghost var c := Begin(Request.CreatePoll(creatorID, cleaned));
      if faultAt > 0 {
        OneCommand(Now(), c, faultAt, env);
      }
      var created := polls.Create(Poll(pollOptions, creatorID, Active, None), freshId, faultAt > 0);
      if created.Err? {
        return Failed(created.error);
      }
      ghost var c1 := c.(create := SeedNew(freshId, pollOptions));
      if faultAt > 1 {
        OneCommand(Now(), c1, faultAt - 1, env);
      }
      var ok := redis.EnsureResults(created.value, pollOptions, map[], faultAt > 1);
      out := if ok then Done else Failed(StoreDown);
    }

    /** ensureSeeded and GetResults for the first poll of a reader's list. */
    method LiveResults(pollID: string, options: seq<PollOption>, ghost c: Call, ghost env: Env, faultAt: nat)
      returns (results: seq<OptionResult>, total: nat, ok: bool)
      requires redis.Valid() && NoColon(pollID)
      requires c.ReadCall? && c.out == Running && c.read.CountVotes?
      requires c.read.todo != [] && c.read.todo[0] == Found(pollID, options)
      modifies redis
      ensures redis.Valid()
      ensures ok <==> faultAt >= 3
      ensures ok ==> total == Sum(Votes(results))
      ensures ok ==>
        RunCall(old(Now()), c, faultAt, env) == RunCall(Now(), PollDone(c, results), faultAt - 3, env)
      ensures !ok ==> Interrupted(old(Now()), c, faultAt, env, Now())
    {
      results, total, ok := [], 0, false;
      if faultAt > 0 {
        OneCommand(Now(), c, faultAt, env);
      }
      var seed := votes.CountByOption(pollID, faultAt > 0);
      if seed.Err? {
        return;
      }
      ghost var c1 := c.(read := Seed(c.read.todo, seed.value));
      results, total, ok := SeedAndRead(pollID, options, seed.value, c1, env, faultAt - 1);
    }

    method SeedAndRead(pollID: string, options: seq<PollOption>, seed: map<string, nat>,
                       ghost c: Call, ghost env: Env, faultAt: nat)
      returns (results: seq<OptionResult>, total: nat, ok: bool)
      requires redis.Valid() && NoColon(pollID)
      requires c.ReadCall? && c.out == Running && c.read.Seed? && c.read.seed == seed
      requires c.read.todo != [] && c.read.todo[0] == Found(pollID, options)
      modifies redis
      ensures redis.Valid()
      ensures ok <==> faultAt >= 2
      ensures ok ==> total == Sum(Votes(results))
      ensures ok ==>
        RunCall(old(Now()), c, faultAt, env) == RunCall(Now(), PollDone(c, results), faultAt - 2, env)
      ensures !ok ==> Interrupted(old(Now()), c, faultAt, env, Now())
    {
      results, total := [], 0;
      if faultAt > 0 {
        OneCommand(Now(), c, faultAt, env);
      }
      ok := redis.EnsureResults(pollID, options, seed, faultAt > 0);
      assert ok ==> Now() == Protocol.EnsureResults(old(Now()), pollID, options, seed);
      if !ok {
        return;
      }
      ghost var c1 := c.(read := ReadHash(c.read.todo));
      if faultAt > 1 {
        OneCommand(Now(), c1, faultAt - 1, env);
      }
      results, total, ok := redis.GetResults(pollID, options, faultAt > 1);
    }

    method GetPoll(pollID: string, faultAt: nat) returns (results: seq<OptionResult>, total: nat, out: Outcome)
      requires redis.Valid() && NoColon(pollID)
      modifies redis
      ensures redis.Valid()
      ensures var (st, c) := Alone(old(Now()), Request.GetPoll(pollID), faultAt, Env(0, "", []));
        && Now() == st && out == Return(c)
        && c.ReadCall? && (out == Done ==> c.shown == [results] && total == Sum(Votes(results)))
      ensures out == Done ==> pollID in polls.polls
      ensures out == Done ==> Presents(results, polls.polls[pollID].options, TallyOf(old(Now()), pollID))
      ensures out == Done ==> total == Sum(TallyOf(old(Now()), pollID))
    {
      if faultAt > 0 {
        PollReadAlone(Now(), pollID, faultAt, Env(0, "", []));
      }
      ghost var env := Env(0, "", []);
      ghost var c := Begin(Request.GetPoll(pollID));
      results, total := [], 0;
      if faultAt > 0 {
        OneCommand(Now(), c, faultAt, env);
      }
      var found := polls.FindByID(pollID, faultAt > 0);
      if found.Err? {
        out := Failed(found.error);
        return;
      }
      ghost var todo := [Found(pollID, found.value.options)];
      var ok;
      results, total, ok := LiveResults(pollID, found.value.options, c.(read := CountVotes(todo)), env, faultAt - 1);
      out := if ok then Done else Failed(StoreDown);
      if ok {
        PresentedVotes(results, found.value.options, TallyOf(old(Now()), pollID));
      }
    }

    /** FindByCreator: the creator's visible polls, in the order the store lists them. */
    method FindByCreator(creatorID: string, listing: seq<string>, up: bool) returns (r: Result<seq<Found>, Error>)
      requires IsListing(Now(), creatorID, listing)
      ensures r == if !up then Err(StoreDown) else Ok(ListedPolls(Now(), creatorID, listing))
    {
      if !up {
        return Err(StoreDown);
      }
      var found: seq<Found> := [];
      for i := 0 to |listing|
        invariant found == ListedPolls(Now(), creatorID, listing)[..i]
      {
        assert listing[i] in listing;
        found := found + [Found(listing[i], polls.polls[listing[i]].options)];
      }
      assert found == ListedPolls(Now(), creatorID, listing);
      r := Ok(found);
    }

    /** The totals map has exactly the listed polls, each with the total of the results shown for it. */
    method GetMyPolls(creatorID: string, listing: seq<string>, faultAt: nat)
      returns (totals: map<string, nat>, out: Outcome)
      requires redis.Valid() && IsListing(Now(), creatorID, listing)
      requires forall p | p in polls.polls :: NoColon(p)
      modifies redis
      ensures redis.Valid()
      ensures var (st, c) := Alone(old(Now()), Request.GetMyPolls(creatorID), faultAt, Env(0, "", listing));
        Now() == st && out == Return(c) && c.ReadCall? && (out == Done ==> TotalsOf(totals, listing, c.shown))
      ensures out == Done ==> forall p :: p in totals <==>
        p in polls.polls && polls.polls[p].status != Deleted && polls.polls[p].createdBy == creatorID
      ensures out == Done ==> forall p | p in totals :: totals[p] == Sum(TallyOf(old(Now()), p))
    {
      ghost var env := Env(0, "", listing);
      ghost var c := Begin(Request.GetMyPolls(creatorID));
      totals := map[];
      if faultAt > 0 {
        OneCommand(Now(), c, faultAt, env);
      }
      var r := FindByCreator(creatorID, listing, faultAt > 0);
      if r.Err? {
        out := Failed(r.error);
        return;
      }
      assert forall i | 0 <= i < |listing| :: listing[i] in listing;
      totals, out := ReadTotals(r.value, listing, NextPoll(c, r.value), env, faultAt - 1);
      if out == Done {
        TotalsAreTallies(old(Now()), creatorID, env, faultAt, totals);
      }
    }

    method ReadTotals(found: seq<Found>, listing: seq<string>, ghost c0: Call, ghost env: Env, faultAt: nat)
      returns (totals: map<string, nat>, out: Outcome)
      requires redis.Valid() && |found| == |listing|
      requires forall i | 0 <= i < |found| :: found[i].id == listing[i] && NoColon(listing[i])
      requires forall i, j | 0 <= i < j < |listing| :: listing[i] != listing[j]
      requires c0.ReadCall? && c0.shown == [] && (found == [] ==> c0.out == Done)
      requires found != [] ==> c0.out == Running && c0.read == CountVotes(found)
      modifies redis
      ensures redis.Valid()
      ensures var (st, c) := RunCall(old(Now()), c0, faultAt, env);
        Now() == st && out == Return(c) && c.ReadCall? && (out == Done ==> TotalsOf(totals, listing, c.shown))
    {
      ghost var start, c := Now(), c0;
      var left := faultAt;
      totals := map[];
      ghost var shown: seq<seq<OptionResult>> := [];
      for i := 0 to |found|
        invariant redis.Valid()
        invariant AtPoll(c, found, i, shown)
        invariant RunCall(start, c0, faultAt, env) == RunCall(Now(), c, left, env)
        invariant TotalsOf(totals, listing[..i], shown)
      {
        var results, total, ok := LiveResults(found[i].id, found[i].options, c, env, left);
        if !ok {
          out := Failed(StoreDown);
          return;
        }
        TotalsGrow(totals, listing, i, shown, results);
        PollDoneMoves(c, found, i, shown, results);
        totals := totals[found[i].id := total];
        shown := shown + [results];
        c := PollDone(c, results);
        left := left - 3;
      }
      assert listing[..|found|] == listing;
      out := Done;
    }

    method HasVoted(pollID: string, voterKey: string, up: bool) returns (r: Result<bool, Error>)
      ensures r == if !up then Err(StoreDown) else Ok(Protocol.HasVoted(Now(), pollID, voterKey))
      ensures up ==> (r == Ok(true) <==> exists i | 0 <= i < |votes.votes| ::
                        votes.votes[i].pollId == pollID && votes.votes[i].voterKey == voterKey)
    {
      r := votes.ExistsByVoterKey(pollID, voterKey, up);
    }

    method ClosePoll(pollID: string, userID: string, faultAt: nat) returns (out: Outcome)
      modifies polls, redis
      ensures redis.db == old(redis.db) && redis.results == old(redis.results) && redis.counters == old(redis.counters)
      ensures (Now(), out) ==
        var (st, c) := Alone(old(Now()), Request.ClosePoll(pollID, userID), faultAt, Env(0, "", [])); (st, Return(c))
    {
      ghost var env := Env(0, "", []);
      ghost var c := Begin(Request.ClosePoll(pollID, userID));
      if faultAt > 0 {
        OneCommand(Now(), c, faultAt, env);
      }
      var found := polls.FindByID(pollID, faultAt > 0);
      if found.Err? {
        return Failed(found.error);
      }
      if found.value.createdBy != userID {
        return Failed(Forbidden);
      }
      ghost var c1 := c.(change := Write);
      if faultAt > 1 {
        OneCommand(Now(), c1, faultAt - 1, env);
      }
      var ok := polls.UpdateStatus(pollID, Closed, faultAt > 1);
      if !ok {
        return Failed(StoreDown);
      }
      ghost var c2 := c1.(change := Announce);
      if faultAt > 2 {
        OneCommand(Now(), c2, faultAt - 2, env);
      }
      ok := redis.PublishUpdate(PollClosed(pollID), faultAt > 2);
      out := if ok then Done else Failed(StoreDown);
    }

    method DeletePoll(pollID: string, userID: string, faultAt: nat) returns (out: Outcome)
      modifies polls
      ensures (Now(), out) ==
        var (st, c) := Alone(old(Now()), Request.DeletePoll(pollID, userID), faultAt, Env(0, "", [])); (st, Return(c))
    {
      ghost var env := Env(0, "", []);
      ghost var c := Begin(Request.DeletePoll(pollID, userID));
      if faultAt > 0 {
        OneCommand(Now(), c, faultAt, env);
      }
      var found := polls.FindByID(pollID, faultAt > 0);
      if found.Err? {
        return Failed(found.error);
      }
      if found.value.createdBy != userID {
        return Failed(Forbidden);
      }
      ghost var c1 := c.(change := Write);
      if faultAt > 1 {
        OneCommand(Now(), c1, faultAt - 1, env);
      }
      var ok := polls.Delete(pollID, faultAt > 1);
      out := if ok then Done else Failed(StoreDown);
    }
  }

  /** The reader after showing the first poll of its list. */
  function PollDone(c: Call, results: seq<OptionResult>): Call
    requires c.ReadCall? && (c.read.CountVotes? || c.read.Seed? || c.read.ReadHash?) && c.read.todo != []
  {
    NextPoll(c.(shown := c.shown + [results]), c.read.todo[1..])
  }

  /** A reader that could not take its next command has left the stores as they are. */
  ghost predicate Interrupted(before: Stores, c: Call, n: nat, env: Env, after: Stores) {
    var r := RunCall(before, c, n, env);
    r.0 == after && r.1.ReadCall? && r.1.out.Running?
  }

  /** The reader has shown the first i of the polls it found. */
  predicate AtPoll(c: Call, found: seq<Found>, i: nat, shown: seq<seq<OptionResult>>) {
    && i <= |found| && c.ReadCall? && c.shown == shown
    && (if i == |found| then c.out == Done else c.out == Running && c.read == CountVotes(found[i..]))
  }

  lemma PollDoneMoves(c: Call, found: seq<Found>, i: nat, shown: seq<seq<OptionResult>>, results: seq<OptionResult>)
    requires i < |found| && AtPoll(c, found, i, shown)
    ensures AtPoll(PollDone(c, results), found, i + 1, shown + [results])
  {
    assert found[i..][1..] == found[i + 1..];
  }

  /** One total per listed poll: the sum of the votes shown for it. */
  predicate TotalsOf(totals: map<string, nat>, listing: seq<string>, shown: seq<seq<OptionResult>>) {
    && |shown| == |listing|
    && (forall p | p in totals :: p in listing)
    && (forall k | 0 <= k < |listing| :: listing[k] in totals && totals[listing[k]] == Sum(Votes(shown[k])))
  }

  lemma TotalsAreTallies(st: Stores, user: string, env: Env, faultAt: nat, totals: map<string, nat>)
    requires IsListing(st, user, env.listing) && faultAt > 0
    requires var (_, c) := Alone(st, Request.GetMyPolls(user), faultAt, env);
      Return(c) == Done && c.ReadCall? && TotalsOf(totals, env.listing, c.shown)
    ensures forall p :: p in totals <==> p in st.polls && st.polls[p].status != Deleted && st.polls[p].createdBy == user
    ensures forall p | p in totals :: totals[p] == Sum(TallyOf(st, p))
  {
    var shown := Alone(st, Request.GetMyPolls(user), faultAt, env).1.shown;
    MyPollsReadAlone(st, user, faultAt, env);
    forall p | p in env.listing ensures p in totals && totals[p] == Sum(TallyOf(st, p)) {
      var k :| 0 <= k < |env.listing| && env.listing[k] == p;
      PresentedVotes(shown[k], st.polls[p].options, TallyOf(st, p));
    }
  }

  lemma TotalsStayListed(totals: map<string, nat>, listing: seq<string>, i: nat, total: nat, p: string)
    requires i < |listing| && (p in totals ==> p in listing[..i])
    ensures p in totals[listing[i] := total] ==> p in listing[..i + 1]
  {
    if p == listing[i] {
      assert listing[..i + 1][i] == p;
    } else if p in totals {
      var k :| 0 <= k < i && listing[..i][k] == p;
      assert listing[..i + 1][k] == p;
    }
  }

  lemma TotalAt(totals: map<string, nat>, listing: seq<string>, i: nat, shown: seq<seq<OptionResult>>,
                results: seq<OptionResult>, k: nat)
    requires k <= i < |listing| && TotalsOf(totals, listing[..i], shown)
    requires k < i ==> listing[k] != listing[i]
    ensures var totals' := totals[listing[i] := Sum(Votes(results))];
      listing[k] in totals' && totals'[listing[k]] == Sum(Votes((shown + [results])[k]))
  {
    if k < i {
      assert listing[..i][k] == listing[k] && (shown + [results])[k] == shown[k];
    }
  }

  lemma TotalsGrow(totals: map<string, nat>, listing: seq<string>, i: nat, shown: seq<seq<OptionResult>>,
                   results: seq<OptionResult>)
    requires i < |listing| && TotalsOf(totals, listing[..i], shown)
    requires forall a, b | 0 <= a < b < |listing| :: listing[a] != listing[b]
    ensures TotalsOf(totals[listing[i] := Sum(Votes(results))], listing[..i + 1], shown + [results])
  {
    var totals', more, longer := totals[listing[i] := Sum(Votes(results))], listing[..i + 1], shown + [results];
    forall p | p in totals' ensures p in more {
      TotalsStayListed(totals, listing, i, Sum(Votes(results)), p);
    }
    forall k | 0 <= k < |more| ensures more[k] in totals' && totals'[more[k]] == Sum(Votes(longer[k])) {
      TotalAt(totals, listing, i, shown, results, k);
    }
  }

  /** What FindByCreator finds, in listing order. */
  ghost function ListedPolls(st: Stores, user: string, listing: seq<string>): (found: seq<Found>)
    requires IsListing(st, user, listing)
    ensures |found| == |listing|
  {
    assert forall i | 0 <= i < |listing| :: listing[i] in listing;
    FoundPolls(st, listing)
  }
}
