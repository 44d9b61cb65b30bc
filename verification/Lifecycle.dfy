/** Poll status under any interleaving of close, delete and vote calls. */
module Lifecycle {
  import opened Models
  import opened Protocol
  import opened Structure
  import opened Voters

  function Rank(status: Status): nat {
    match status
    case Active => 0
    case Closed => 1
    case Deleted => 2
  }

  predicate Stopped(st: Stores, p: string) {
    p in st.polls && st.polls[p].status != Active
  }

  /** The one step that takes a status backwards: a close that writes after a delete. */
  predicate StaleClose(s: State, step: Step, p: string) {
    && step.Do? && CanMove(s, step.call)
    && var c := s.calls[step.call];
       c.StatusCall? && c.change.Write? && c.status == Closed && c.target == p
       && p in s.stores.polls && s.stores.polls[p].status == Deleted
  }

  predicate WritesStatus(s: State, step: Step, p: string) {
    && step.Do? && CanMove(s, step.call)
    && var c := s.calls[step.call];
       c.StatusCall? && c.change.Write? && c.target == p
  }

  lemma StatusCommandEffect(st: Stores, c: Call, env: Env, p: string)
    requires CallOk(st, c) && p in st.polls
    ensures var st' := Command(st, c, env).0;
      && p in st'.polls
      && st'.polls[p].status ==
         if c.StatusCall? && c.change.Write? && c.target == p then c.status else st.polls[p].status
  {
  }

  /**
   One step at any reachable moment: a status changes only through a write by the poll's creator, never to
   active, and it goes backwards exactly on a stale close.
   */
  lemma StatusStep(run: seq<Step>, step: Step, p: string)
    requires p in After(run).stores.polls
    ensures var s, s' := After(run), Next(After(run), step);
      var was, becomes := s.stores.polls[p].status, s'.stores.polls[p].status;
      && p in s'.stores.polls
      && (becomes != was ==>
            WritesStatus(s, step, p) && s.calls[step.call].user == s.stores.polls[p].createdBy && becomes != Active)
      && (Rank(becomes) < Rank(was) <==> StaleClose(s, step, p))
  {
    Reachable(run);
    var s := After(run);
    if step.Do? && CanMove(s, step.call) {
      StatusCommandEffect(s.stores, s.calls[step.call], step.env, p);
    }
  }

  /** In every interleaving a stopped poll never becomes active again. */
  lemma {:induction false} NeverActiveAgain(run: seq<Step>, n: nat, p: string)
    requires n <= |run| && Stopped(After(run[..n]).stores, p)
    ensures Stopped(After(run).stores, p)
  {
    if n == |run| {
      assert run[..n] == run;
    } else {
      var before := run[..|run| - 1];
      assert before[..n] == run[..n];
      NeverActiveAgain(before, n, p);
      StatusStep(before, run[|run| - 1], p);
    }
  }

  /** The order active < closed < deleted only goes forward in a run without a stale close. */
  lemma {:induction false} StatusOnlyAdvances(run: seq<Step>, n: nat, p: string)
    requires n <= |run| && p in After(run[..n]).stores.polls
    requires forall k | n <= k < |run| :: !StaleClose(After(run[..k]), run[k], p)
    ensures p in After(run).stores.polls
    ensures Rank(After(run[..n]).stores.polls[p].status) <= Rank(After(run).stores.polls[p].status)
  {
    if n == |run| {
      assert run[..n] == run;
    } else {
      var before := run[..|run| - 1];
      assert before[..n] == run[..n];
      forall k | n <= k < |before| ensures !StaleClose(After(before[..k]), before[k], p) {
        assert before[..k] == run[..k];
      }
      StatusOnlyAdvances(before, n, p);
      assert !StaleClose(After(run[..|run| - 1]), run[|run| - 1], p);
      StatusStep(before, run[|run| - 1], p);
    }
  }

  /** A close or delete whose check and write run back to back never takes the status backwards. */
  lemma WholeCallNeverGoesBack(run: seq<Step>, i: nat, env: Env)
    requires CanMove(After(run), i)
    requires After(run).calls[i].StatusCall? && After(run).calls[i].change.Check?
    requires After(run).calls[i].target in After(run).stores.polls
    ensures var s := After(run);
      var s1 := Next(s, Do(i, env));
      var s2 := Next(s1, Do(i, env));
      var p := s.calls[i].target;
      && p in s2.stores.polls
      && Rank(s.stores.polls[p].status) <= Rank(s2.stores.polls[p].status)
      && (Visible(s.stores, p) && s.calls[i].user == s.stores.polls[p].createdBy <==>
            s2.stores.polls[p].status == s.calls[i].status && s1.calls[i].out.Running?)
  {
    Reachable(run);
  }

  // ----- Late votes -----

  /** Votes a stopped poll has or may still get. */
  function Potential(s: State, p: string): nat {
    CountDocuments(s.stores.votes, ForPoll(p)) + CountCalls(s.calls, Cleared(p))
  }

  lemma PotentialStep(s: State, step: Step, p: string)
    requires Stopped(s.stores, p)
    ensures Potential(Next(s, step), p) <= Potential(s, p)
  {
    StepCounts(s, step, Cleared(p));
    if step.Do? && CanMove(s, step.call) {
      CommandInserts(s.stores, s.calls[step.call], step.env, ForPoll(p));
    }
  }

  /**
   After a poll stops being active, at most as many further votes are ever stored as there were calls past
   the status check and before their insert at that moment, and every late vote uses one of them up.
   */
  lemma {:induction false} LateVotesAreBounded(run: seq<Step>, n: nat, p: string)
    requires n <= |run| && Stopped(After(run[..n]).stores, p)
    ensures var s, s' := After(run[..n]), After(run);
      CountDocuments(s'.stores.votes, ForPoll(p)) + CountCalls(s'.calls, Cleared(p))
        <= CountDocuments(s.stores.votes, ForPoll(p)) + CountCalls(s.calls, Cleared(p))
  {
    if n == |run| {
      assert run[..n] == run;
    } else {
      var before := run[..|run| - 1];
      assert before[..n] == run[..n];
      LateVotesAreBounded(before, n, p);
      NeverActiveAgain(before, n, p);
      PotentialStep(After(before), run[|run| - 1], p);
    }
  }

  /** Past its insert. */
  predicate HasStored(c: Call) {
    c.VoteCall? && Matches(PastInsert(c.pollId, c.optionId), c)
  }

  /** The call has stored this vote. */
  predicate Casts(c: Call, v: Vote) {
    HasStored(c) && v == Vote(c.pollId, c.optionId, c.voterKey)
  }

  predicate SameBallot(c: Call, c': Call) {
    c.VoteCall? && c'.VoteCall? && c'.pollId == c.pollId && c'.optionId == c.optionId && c'.voterKey == c.voterKey
  }

  lemma BallotCommand(st: Stores, c: Call, env: Env)
    requires c.VoteCall?
    ensures var (st', c') := Command(st, c, env);
      && SameBallot(c, c') && (HasStored(c) ==> HasStored(c'))
      && (HasStored(c') && !HasStored(c) ==>
            c.vote.Insert? && st'.votes == st.votes + [Vote(c.pollId, c.optionId, c.voterKey)])
  {
  }

  lemma InsertingCommand(st: Stores, c: Call, env: Env)
    ensures var (st', c') := Command(st, c, env);
      || st'.votes == st.votes
      || (Casts(c', Vote(c'.pollId, c'.optionId, c'.voterKey))
          && st'.votes == st.votes + [Vote(c'.pollId, c'.optionId, c'.voterKey)])
  {
    if !c.VoteCall? {
      OthersInsertNothing(st, c, env);
    }
  }

  /** A call just arrived is neither cleared nor past its insert. */
  lemma CallArrived(s: State, step: Step, i: nat)
    requires i < |Next(s, step).calls|
    ensures i < |s.calls| || !Next(s, step).calls[i].VoteCall? || Next(s, step).calls[i].vote.Find?
    ensures i < |s.calls| && Next(s, step).calls[i].VoteCall? ==> s.calls[i].VoteCall?
  {
  }

  lemma BallotStep(s: State, step: Step, i: nat)
    requires i < |s.calls| && s.calls[i].VoteCall?
    ensures var s' := Next(s, step);
      i < |s'.calls| && SameBallot(s.calls[i], s'.calls[i]) && (HasStored(s.calls[i]) ==> HasStored(s'.calls[i]))
  {
    if step.Do? && CanMove(s, i) && step.call == i {
      BallotCommand(s.stores, s.calls[i], step.env);
    }
  }

  /** Every stored vote was cast by a call. */
  lemma {:induction false} VoteHasCaster(run: seq<Step>, v: nat) returns (i: nat)
    requires v < |After(run).stores.votes|
    ensures i < |After(run).calls| && Casts(After(run).calls[i], After(run).stores.votes[v])
  {
    var before, step := run[..|run| - 1], run[|run| - 1];
    var s := After(before);
    if step.Do? && CanMove(s, step.call) {
      InsertingCommand(s.stores, s.calls[step.call], step.env);
    }
    if v < |s.stores.votes| {
      i := VoteHasCaster(before, v);
      BallotStep(s, step, i);
    } else {
      i := step.call;
    }
  }

  /** A call past its insert has its vote stored. */
  lemma {:induction false} CastIsStored(run: seq<Step>, i: nat) returns (v: nat)
    requires i < |After(run).calls| && HasStored(After(run).calls[i])
    ensures v < |After(run).stores.votes| && Casts(After(run).calls[i], After(run).stores.votes[v])
  {
    var before, step := run[..|run| - 1], run[|run| - 1];
    var s := After(before);
    CallArrived(s, step, i);
    BallotStep(s, step, i);
    if HasStored(s.calls[i]) {
      v := CastIsStored(before, i);
      LaterExtends(run, |before|);
    } else {
      BallotCommand(s.stores, s.calls[i], step.env);
      v := |s.stores.votes|;
    }
  }

  /** Past the status check of poll p, the vote stored already or still to come. */
  predicate Admitted(c: Call, p: string) {
    Matches(Cleared(p), c) || (HasStored(c) && c.pollId == p)
  }

  lemma AdmittedCommand(st: Stores, c: Call, env: Env, p: string)
    requires Stopped(st, p) && c.out.Running? && Admitted(Command(st, c, env).1, p)
    ensures Admitted(c, p)
  {
  }

  /** A stopped poll admits nobody: whoever is past its check at the end was past it when the poll stopped. */
  lemma {:induction false} AdmittedBeforeStop(run: seq<Step>, n: nat, i: nat, p: string)
    requires n <= |run| && Stopped(After(run[..n]).stores, p)
    requires i < |After(run).calls| && Admitted(After(run).calls[i], p)
    ensures var s := After(run[..n]);
      i < |s.calls| && Admitted(s.calls[i], p) && SameBallot(s.calls[i], After(run).calls[i])
  {
    if n == |run| {
      assert run[..n] == run;
    } else {
      var before, step := run[..|run| - 1], run[|run| - 1];
      var s := After(before);
      assert before[..n] == run[..n];
      NeverActiveAgain(before, n, p);
      CallArrived(s, step, i);
      BallotStep(s, step, i);
      if step.Do? && CanMove(s, i) && step.call == i {
        AdmittedCommand(s.stores, s.calls[i], step.env, p);
      }
      AdmittedBeforeStop(before, n, i, p);
    }
  }

  lemma SameVoter(run: seq<Step>, u: nat, v: nat)
    requires u < |After(run).stores.votes| && v < |After(run).stores.votes|
    requires var votes := After(run).stores.votes;
      votes[u].pollId == votes[v].pollId && votes[u].voterKey == votes[v].voterKey
    ensures u == v
  {
    var votes := After(run).stores.votes;
    var f := ForVoter(votes[u].pollId, votes[u].voterKey);
    OneVotePerKey(run, votes[u].pollId, votes[u].voterKey);
    if u < v {
      TwoSelected(votes, u, v, f);
    } else if v < u {
      TwoSelected(votes, v, u, f);
    }
  }

  /**
   Every vote a poll gets after it stopped being active was cast by a call that, at the moment it stopped, was past the
   status check with its insert still to come; and a call casts no second one.
   */
  lemma LateVoteWasCleared(run: seq<Step>, n: nat, p: string, v: nat) returns (i: nat)
    requires n <= |run| && Stopped(After(run[..n]).stores, p)
    requires |After(run[..n]).stores.votes| <= v < |After(run).stores.votes|
    requires After(run).stores.votes[v].pollId == p
    ensures var s, s' := After(run[..n]), After(run);
      && i < |s.calls| && i < |s'.calls| && Matches(Cleared(p), s.calls[i]) && SameBallot(s.calls[i], s'.calls[i])
      && Casts(s'.calls[i], s'.stores.votes[v])
      && forall u | 0 <= u < |s'.stores.votes| && Casts(s'.calls[i], s'.stores.votes[u]) :: u == v
  {
    var s, s' := After(run[..n]), After(run);
    i := VoteHasCaster(run, v);
    AdmittedBeforeStop(run, n, i, p);
    if HasStored(s.calls[i]) {
      var u := CastIsStored(run[..n], i);
      LaterExtends(run, n);
      SameVoter(run, u, v);
    }
    forall u | 0 <= u < |s'.stores.votes| && Casts(s'.calls[i], s'.stores.votes[u]) ensures u == v {
      SameVoter(run, u, v);
    }
  }

  lemma CommandNeverExpires(st: Stores, c: Call, env: Env)
    requires StoresOk(st) && c.out != Failed(PollExpired)
    ensures Command(st, c, env).1.out != Failed(PollExpired)
  {
    if c.VoteCall? && c.vote.Find? && c.pollId in st.polls {
      assert PollOk(st.polls[c.pollId]);
    }
  }

  /** No stored poll has an expiry date, so no call ever fails with PollExpired. */
  lemma {:induction false} NothingExpires(run: seq<Step>, i: nat)
    requires i < |After(run).calls|
    ensures After(run).calls[i].out != Failed(PollExpired)
  {
    if run != [] {
      var before := run[..|run| - 1];
      Reachable(before);
      if i < |After(before).calls| {
        NothingExpires(before, i);
        if run[|run| - 1].Do? {
          CommandNeverExpires(After(before).stores, After(before).calls[i], run[|run| - 1].env);
        }
      }
    }
  }

  // ----- The stale close exists -----

  /** A close checks, a delete checks and writes, the close writes: the deleted poll is visible again. */
  lemma StaleCloseRevivesDeletedPoll() returns (run: seq<Step>)
    ensures |run| > 0 && var before := After(run[..|run| - 1]).stores;
      "p" in before.polls && before.polls["p"].status == Deleted && !Visible(before, "p")
    ensures Visible(After(run).stores, "p") && After(run).stores.polls["p"].status == Closed
  {
    var env := Env(0, "p", []);
    var r0: seq<Step> := [];
    var r1 := r0 + [Arrive(CreatePoll("u", ["a", "b"]))];
    Follow(r0, Arrive(CreatePoll("u", ["a", "b"])));
    var r2 := r1 + [Do(0, env)];
    Follow(r1, Do(0, env));
    assert Visible(After(r2).stores, "p") && After(r2).stores.polls["p"].createdBy == "u";
    var r3 := r2 + [Arrive(ClosePoll("p", "u"))];
    Follow(r2, Arrive(ClosePoll("p", "u")));
    var r4 := r3 + [Do(1, env)];
    Follow(r3, Do(1, env));
    assert After(r4).calls[1] == StatusCall("p", "u", Closed, Write, Running);
    var r5 := r4 + [Arrive(DeletePoll("p", "u"))];
    Follow(r4, Arrive(DeletePoll("p", "u")));
    var r6 := r5 + [Do(2, env)];
    Follow(r5, Do(2, env));
    assert After(r6).calls[2] == StatusCall("p", "u", Deleted, Write, Running);
    var r7 := r6 + [Do(2, env)];
    Follow(r6, Do(2, env));
    assert After(r7).stores.polls["p"].status == Deleted;
    assert After(r7).calls[1] == StatusCall("p", "u", Closed, Write, Running);
    run := r7 + [Do(1, env)];
    Follow(r7, Do(1, env));
    assert run[..|run| - 1] == r7;
  }
}
