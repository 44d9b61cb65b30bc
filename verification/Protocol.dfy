/**
 The vote-count protocol: MongoDB holds the truth, Redis holds live counters, and no transaction spans them.
 Every service call is a thread with a program counter and locals. One step runs one store command of one
 call, so the steps of any number of calls interleave freely. A call may also stop with an error before
 any of its commands; the command is then taken as not applied.
 */
module Protocol {
  import opened Basics
  import opened Models
  import opened Results
  import Validation

  // ----- The two stores -----

  datatype Event =
    | PollUpdate(pollId: string, totalVotes: nat, results: seq<OptionResult>)
    | PollClosed(pollId: string)

  /** `results` are the per-poll hashes (absent until seeded), `counters` the per-option INCR keys. */
  datatype Stores = Stores(
    polls: map<string, Poll>,
    votes: seq<Vote>,
    results: map<string, map<string, nat>>,
    counters: map<(string, string), nat>,
    events: seq<Event>)

  datatype Filter =
    | ForPoll(pollId: string)
    | ForOption(pollId: string, optionId: string)
    | ForVoter(pollId: string, voterKey: string)

  predicate Selects(f: Filter, v: Vote) {
    match f
    case ForPoll(p) => v.pollId == p
    case ForOption(p, o) => v.pollId == p && v.optionId == o
    case ForVoter(p, k) => v.pollId == p && v.voterKey == k
  }

  function CountDocuments(votes: seq<Vote>, f: Filter): nat {
    if votes == [] then 0
    else CountDocuments(votes[..|votes| - 1], f) + if Selects(f, votes[|votes| - 1]) then 1 else 0
  }

  function Selected(votes: seq<Vote>, f: Filter): set<nat> {
    set i | 0 <= i < |votes| && Selects(f, votes[i])
  }

  lemma SelectedWithLast(votes: seq<Vote>, f: Filter)
    requires votes != []
    ensures var n := |votes| - 1;
      Selected(votes, f) == Selected(votes[..n], f) + if Selects(f, votes[n]) then {n} else {}
  {
    assert forall i | 0 <= i < |votes| - 1 :: votes[..|votes| - 1][i] == votes[i];
  }

  /** Counting documents counts the places of the votes that are selected. */
  lemma {:induction false} CountIsSetSize(votes: seq<Vote>, f: Filter)
    ensures CountDocuments(votes, f) == |Selected(votes, f)|
  {
    if votes != [] {
      CountIsSetSize(votes[..|votes| - 1], f);
      SelectedWithLast(votes, f);
    }
  }

  /** The $group aggregation: one entry per option that has votes. */
  function CountByOption(votes: seq<Vote>, p: string): map<string, nat> {
    var voted := set i | 0 <= i < |votes| && votes[i].pollId == p :: votes[i].optionId;
    map o | o in voted :: CountDocuments(votes, ForOption(p, o))
  }

  predicate HasVoted(st: Stores, p: string, voterKey: string) {
    CountDocuments(st.votes, ForVoter(p, voterKey)) > 0
  }

  function Hash(st: Stores, p: string): map<string, nat> {
    if p in st.results then st.results[p] else map[]
  }

  /** The live count of an option as every reader sees it: 0 when the hash or the field is missing. */
  function Live(st: Stores, p: string, o: string): nat {
    Get(Hash(st, p), o)
  }

  /** What a reader is due to see of an option: its field of the hash, or the stored votes when there is no hash. */
  function Tally(st: Stores, p: string, o: string): nat {
    if p !in st.results then CountDocuments(st.votes, ForOption(p, o))
    else if o in st.results[p] then st.results[p][o] else 0
  }

  function TallyOf(st: Stores, p: string): (counts: seq<nat>)
    requires p in st.polls
  {
    var options := st.polls[p].options;
    seq(|options|, k requires 0 <= k < |options| => Tally(st, p, options[k].id))
  }

  function Counter(st: Stores, p: string, o: string): nat {
    if (p, o) in st.counters then st.counters[(p, o)] else 0
  }

  function SeedHash(options: seq<PollOption>, seed: map<string, nat>): map<string, nat> {
    var ids := set i | 0 <= i < |options| :: options[i].id;
    map o | o in ids :: Get(seed, o)
  }

  // ----- The store commands, each atomic -----

  /** The EnsureResults script: nothing if the hash exists, otherwise one HSET per option. */
  function EnsureResults(st: Stores, p: string, options: seq<PollOption>, seed: map<string, nat>): Stores {
    if p in st.results || options == [] then st
    else st.(results := st.results[p := SeedHash(options, seed)])
  }

  /** The IncrementVote script: INCR and HINCRBY together. A missing hash comes back with one field. */
  function IncrementVote(st: Stores, p: string, o: string): Stores {
    st.(counters := st.counters[(p, o) := Counter(st, p, o) + 1],
        results := st.results[p := Hash(st, p)[o := Live(st, p, o) + 1]])
  }

  function GetResults(st: Stores, p: string, options: seq<PollOption>): seq<OptionResult> {
    Snapshot(options, Hash(st, p))
  }

  function PublishUpdate(st: Stores, p: string, results: seq<OptionResult>): Stores {
    st.(events := st.events + [PollUpdate(p, Sum(Votes(results)), results)])
  }

  function UpdateStatus(st: Stores, p: string, status: Status): Stores {
    if p in st.polls then st.(polls := st.polls[p := st.polls[p].(status := status)]) else st
  }

  // ----- The calls -----

  datatype Error =
    | PollNotFound | PollIsClosed | PollExpired | VoteInvalid | VoteAlreadyExists
    | Forbidden | InvalidOptions | StoreDown

  datatype Outcome = Running | Done | Failed(error: Error)

  /** Where a Vote call stands: the command it is about to run. */
  datatype VotePc =
    | Find
    | SeedNil(options: seq<PollOption>)
    | Insert(options: seq<PollOption>)
    | Increment(options: seq<PollOption>)
    | ReadOwn(options: seq<PollOption>)
    | Publish(results: seq<OptionResult>)
    | Published(results: seq<OptionResult>)

  datatype Query = ById(id: string) | ByCreator(user: string)

  datatype Found = Found(id: string, options: seq<PollOption>)

  /** GetPoll and GetMyPolls: per poll found, count the stored votes, seed with them, read the hash. */
  datatype ReadPc =
    | Lookup
    | CountVotes(todo: seq<Found>)
    | Seed(todo: seq<Found>, seed: map<string, nat>)
    | ReadHash(todo: seq<Found>)
    | Shown

  datatype CreatePc = InsertPoll | SeedNew(id: string, options: seq<PollOption>) | Created(id: string)

  datatype StatusPc = Check | Write | Announce | Settled

  datatype Call =
    | VoteCall(pollId: string, optionId: string, voterKey: string, vote: VotePc, out: Outcome)
    | ReadCall(query: Query, read: ReadPc, shown: seq<seq<OptionResult>>, out: Outcome)
    | CreateCall(creator: string, texts: seq<string>, create: CreatePc, out: Outcome)
    | StatusCall(target: string, user: string, status: Status, change: StatusPc, out: Outcome)

  datatype Request =
    | CastVote(pollId: string, optionId: string, voterKey: string)
    | GetPoll(pollId: string)
    | GetMyPolls(user: string)
    | CreatePoll(creator: string, texts: seq<string>)
    | ClosePoll(pollId: string, user: string)
    | DeletePoll(pollId: string, user: string)

  function Begin(req: Request): Call {
    match req
    case CastVote(p, o, k) => VoteCall(p, o, k, Find, Running)
    case GetPoll(p) => ReadCall(ById(p), Lookup, [], Running)
    case GetMyPolls(u) => ReadCall(ByCreator(u), Lookup, [], Running)
    case CreatePoll(u, texts) => CreateCall(u, texts, InsertPoll, Running)
    case ClosePoll(p, u) => StatusCall(p, u, Closed, Check, Running)
    case DeletePoll(p, u) => StatusCall(p, u, Deleted, Check, Running)
  }

  /** What a command takes from outside the stores: the clock, a new ObjectID, the order of a listing. */
  datatype Env = Env(now: int, freshId: string, listing: seq<string>)

  predicate Visible(st: Stores, p: string) {
    p in st.polls && st.polls[p].status != Deleted
  }

  predicate Expired(poll: Poll, now: int) {
    poll.expiresAt.Some? && poll.expiresAt.value < now
  }

  function Fail(c: Call, e: Error): Call {
    c.(out := Failed(e))
  }

  function VoteCommand(st: Stores, c: Call, env: Env): (Stores, Call)
    requires c.VoteCall?
  {
    var p, o := c.pollId, c.optionId;
    match c.vote
    case Find =>
      if !Visible(st, p) then (st, Fail(c, PollNotFound))
      else
        var poll := st.polls[p];
        if poll.status != Active then (st, Fail(c, PollIsClosed))
        else if Expired(poll, env.now) then (st, Fail(c, PollExpired))
        else if !HasOption(poll.options, o) then (st, Fail(c, VoteInvalid))
        else (st, c.(vote := SeedNil(poll.options)))
    case SeedNil(options) => (EnsureResults(st, p, options, map[]), c.(vote := Insert(options)))
    case Insert(options) =>
      if HasVoted(st, p, c.voterKey) then (st, Fail(c, VoteAlreadyExists))
      else (st.(votes := st.votes + [Vote(p, o, c.voterKey)]), c.(vote := Increment(options)))
    case Increment(options) => (IncrementVote(st, p, o), c.(vote := ReadOwn(options)))
    case ReadOwn(options) => (st, c.(vote := Publish(GetResults(st, p, options))))
    case Publish(results) => (PublishUpdate(st, p, results), c.(vote := Published(results), out := Done))
    case Published(_) => (st, c)
  }

  /** A listing holds exactly the creator's polls that are not deleted, once each. */
  ghost predicate IsListing(st: Stores, user: string, listing: seq<string>) {
    && (forall i, j | 0 <= i < j < |listing| :: listing[i] != listing[j])
    && (forall p :: p in listing <==> Visible(st, p) && st.polls[p].createdBy == user)
  }

  function FoundPolls(st: Stores, listing: seq<string>): (todo: seq<Found>)
    requires forall i | 0 <= i < |listing| :: listing[i] in st.polls
    ensures |todo| == |listing|
  {
    seq(|listing|, i requires 0 <= i < |listing| => Found(listing[i], st.polls[listing[i]].options))
  }

  function NextPoll(c: Call, todo: seq<Found>): Call
    requires c.ReadCall?
  {
    if todo == [] then c.(read := Shown, out := Done) else c.(read := CountVotes(todo))
  }

  ghost function ReadCommand(st: Stores, c: Call, env: Env): (Stores, Call)
    requires c.ReadCall?
  {
    match c.read
    case Lookup =>
      (match c.query
       case ById(p) =>
         if !Visible(st, p) then (st, Fail(c, PollNotFound))
         else (st, NextPoll(c, [Found(p, st.polls[p].options)]))
       case ByCreator(u) =>
         if !IsListing(st, u, env.listing) then (st, c)
         else
           assert forall i | 0 <= i < |env.listing| :: env.listing[i] in env.listing;
           (st, NextPoll(c, FoundPolls(st, env.listing))))
    case CountVotes(todo) =>
      if todo == [] then (st, c)
      else (st, c.(read := Seed(todo, CountByOption(st.votes, todo[0].id))))
    case Seed(todo, seed) =>
      if todo == [] then (st, c)
      else (EnsureResults(st, todo[0].id, todo[0].options, seed), c.(read := ReadHash(todo)))
    case ReadHash(todo) =>
      if todo == [] then (st, c)
      else (st, NextPoll(c.(shown := c.shown + [GetResults(st, todo[0].id, todo[0].options)]), todo[1..]))
    case Shown => (st, c)
  }

  function CreateCommand(st: Stores, c: Call, env: Env): (Stores, Call)
    requires c.CreateCall?
  {
    match c.create
    case InsertPoll =>
      if !(Validation.MinOptions <= |c.texts| <= Validation.MaxOptions) then (st, Fail(c, InvalidOptions))
      else if env.freshId in st.polls then (st, Fail(c, StoreDown))
      else
        var options := NewOptions(c.texts);
        (st.(polls := st.polls[env.freshId := Poll(options, c.creator, Active, None)]),
         c.(create := SeedNew(env.freshId, options)))
    case SeedNew(p, options) => (EnsureResults(st, p, options, map[]), c.(create := Created(p), out := Done))
    case Created(_) => (st, c)
  }

  function StatusCommand(st: Stores, c: Call): (Stores, Call)
    requires c.StatusCall?
  {
    match c.change
    case Check =>
      if !Visible(st, c.target) then (st, Fail(c, PollNotFound))
      else if st.polls[c.target].createdBy != c.user then (st, Fail(c, Forbidden))
      else (st, c.(change := Write))
    case Write =>
      var st' := UpdateStatus(st, c.target, c.status);
      if c.status == Deleted then (st', c.(change := Settled, out := Done)) else (st', c.(change := Announce))
    case Announce =>
      (st.(events := st.events + [PollClosed(c.target)]), c.(change := Settled, out := Done))
    case Settled => (st, c)
  }

  ghost function Command(st: Stores, c: Call, env: Env): (Stores, Call) {
    match c
    case VoteCall(_, _, _, _, _) => VoteCommand(st, c, env)
    case ReadCall(_, _, _, _) => ReadCommand(st, c, env)
    case CreateCall(_, _, _, _) => CreateCommand(st, c, env)
    case StatusCall(_, _, _, _, _) => StatusCommand(st, c)
  }

  // ----- Runs -----

  /** All calls that ever arrived keep their place, finished and abandoned ones included. */
  datatype State = State(stores: Stores, calls: seq<Call>)

  datatype Step =
    | Arrive(req: Request)
    | Do(call: nat, env: Env)
    | Abandon(call: nat)
    | LoseHash(pollId: string)
    | LoseCounter(pollId: string, optionId: string)

  const EmptyStores := Stores(map[], [], map[], map[], [])
  const Start := State(EmptyStores, [])

  predicate CanMove(s: State, i: nat) {
    i < |s.calls| && s.calls[i].out.Running?
  }

  /** A step naming a call that cannot move changes nothing, so every list of steps is a run. */
  ghost function Next(s: State, step: Step): State {
    match step
    case Arrive(req) => s.(calls := s.calls + [Begin(req)])
    case Do(i, env) =>
      if CanMove(s, i) then
        var (st, c) := Command(s.stores, s.calls[i], env);
        State(st, s.calls[i := c])
      else s
    case Abandon(i) => if CanMove(s, i) then s.(calls := s.calls[i := Fail(s.calls[i], StoreDown)]) else s
    case LoseHash(p) => s.(stores := s.stores.(results := s.stores.results - {p}))
    case LoseCounter(p, o) => s.(stores := s.stores.(counters := s.stores.counters - {(p, o)}))
  }

  ghost function Exec(s: State, run: seq<Step>): State {
    if run == [] then s else Next(Exec(s, run[..|run| - 1]), run[|run| - 1])
  }

  ghost function After(run: seq<Step>): State {
    Exec(Start, run)
  }

  predicate Loses(step: Step) {
    step.LoseHash? || step.LoseCounter?
  }

  /** The first regime: Redis never drops a key. */
  predicate KeepsKeys(run: seq<Step>) {
    forall i | 0 <= i < |run| :: !Loses(run[i])
  }

  lemma {:induction false} ExecSplit(s: State, a: seq<Step>, b: seq<Step>)
    ensures Exec(s, a + b) == Exec(Exec(s, a), b)
  {
    if b == [] {
      assert a + b == a;
    } else {
      var ab := a + b;
      assert ab[..|ab| - 1] == a + b[..|b| - 1];
      ExecSplit(s, a, b[..|b| - 1]);
    }
  }

  lemma Follow(run: seq<Step>, step: Step)
    ensures After(run + [step]) == Next(After(run), step)
  {
    assert (run + [step])[..|run|] == run;
  }
}
