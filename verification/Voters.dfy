/** One vote per identity, and the three ways of counting a poll's votes agree. Holds with or without key loss. */
module Voters {
  import opened Models
  import opened Results
  import opened Protocol
  import opened Structure

  lemma InsertIsChecked(st: Stores, c: Call, env: Env)
    ensures c.VoteCall? && c.vote.Insert? && VoteCommand(st, c, env).1.vote.Increment? ==>
      !HasVoted(st, c.pollId, c.voterKey)
  {
  }

  lemma {:induction false} OneVotePerKey(run: seq<Step>, p: string, k: string)
    ensures CountDocuments(After(run).stores.votes, ForVoter(p, k)) <= 1
  {
    if run != [] {
      var before, step := run[..|run| - 1], run[|run| - 1];
      OneVotePerKey(before, p, k);
      var s := After(before);
      if step.Do? && CanMove(s, step.call) {
        CommandInserts(s.stores, s.calls[step.call], step.env, ForVoter(p, k));
        InsertIsChecked(s.stores, s.calls[step.call], step.env);
      }
    }
  }

  /**
   At most one stored vote per poll and identity, in every interleaving. HasVoted answers for that identity
   alone: a vote filed under another identity never makes it true.
   */
  lemma OneVotePerIdentity(run: seq<Step>, p: string, voterID: string, authenticated: bool)
    ensures var votes := After(run).stores.votes;
      var k := NewVoterKey(voterID, authenticated);
      && (forall i, j | 0 <= i < |votes| && 0 <= j < |votes| && votes[i].pollId == votes[j].pollId == p
            && votes[i].voterKey == votes[j].voterKey == k :: i == j)
      && (HasVoted(After(run).stores, p, k) <==>
            exists i | 0 <= i < |votes| :: votes[i].pollId == p && votes[i].voterKey == k)
      && (forall i, id, auth | 0 <= i < |votes| && votes[i].pollId == p && votes[i].voterKey == NewVoterKey(id, auth)
            && votes[i].voterKey == k :: id == voterID && auth == authenticated)
  {
    var votes := After(run).stores.votes;
    var k := NewVoterKey(voterID, authenticated);
    var f := ForVoter(p, k);
    OneVotePerKey(run, p, k);
    forall i, j | 0 <= i < j < |votes| && Selects(f, votes[i])
      ensures !Selects(f, votes[j])
    {
      if Selects(f, votes[j]) {
        TwoSelected(votes, i, j, f);
      }
    }
    if HasVoted(After(run).stores, p, k) {
      var i := SomeSelected(votes, f);
    }
    forall i | 0 <= i < |votes| && Selects(f, votes[i]) ensures HasVoted(After(run).stores, p, k) {
      CountSelected(votes, i, f);
    }
    forall i, id, auth | 0 <= i < |votes| && votes[i].voterKey == NewVoterKey(id, auth) && votes[i].voterKey == k
      ensures id == voterID && auth == authenticated
    {
      VoterKeyInjective(id, auth, voterID, authenticated);
    }
  }

  lemma {:induction false} TwoSelected(votes: seq<Vote>, i: nat, j: nat, f: Filter)
    requires i < j < |votes| && Selects(f, votes[i]) && Selects(f, votes[j])
    ensures CountDocuments(votes, f) >= 2
  {
    if j == |votes| - 1 {
      CountSelected(votes[..j], i, f);
    } else {
      TwoSelected(votes[..|votes| - 1], i, j, f);
    }
  }

  /**
   HasVoted is true exactly when an insert by that voter would be rejected, a rejected insert leaves both
   stores as they were, and once true it stays true.
   */
  lemma HasVotedMeansRejected(run: seq<Step>, i: nat, env: Env, n: nat)
    requires n <= |run| && CanMove(After(run), i)
    requires After(run).calls[i].VoteCall? && After(run).calls[i].vote.Insert?
    ensures var s, s' := After(run), Next(After(run), Do(i, env));
      var c := s.calls[i];
      && (s'.calls[i].out == Failed(VoteAlreadyExists) <==> HasVoted(s.stores, c.pollId, c.voterKey))
      && (s'.calls[i].out == Failed(VoteAlreadyExists) ==> s'.stores == s.stores)
      && (s'.calls[i].out.Running? ==> s'.stores.votes == s.stores.votes + [Vote(c.pollId, c.optionId, c.voterKey)])
      && HasVoted(s'.stores, c.pollId, c.voterKey)
      && (HasVoted(After(run[..n]).stores, c.pollId, c.voterKey) ==> s'.calls[i].out == Failed(VoteAlreadyExists))
  {
    var s := After(run);
    var c := s.calls[i];
    var f := ForVoter(c.pollId, c.voterKey);
    CountInserted(s.stores.votes, Vote(c.pollId, c.optionId, c.voterKey), f);
    LaterExtends(run, n);
    CountPrefix(After(run[..n]).stores.votes, s.stores.votes, f);
  }

  // ----- CountByPoll = sum over options = number of voters -----

  function CountsPerOption(votes: seq<Vote>, p: string, options: seq<PollOption>): (counts: seq<nat>)
    ensures |counts| == |options|
  {
    seq(|options|, i requires 0 <= i < |options| => CountDocuments(votes, ForOption(p, options[i].id)))
  }

  lemma {:induction false} SumOfZeros(counts: seq<nat>)
    requires forall i | 0 <= i < |counts| :: counts[i] == 0
    ensures Sum(counts) == 0
  {
    if counts != [] {
      SumOfZeros(counts[..|counts| - 1]);
    }
  }

  lemma {:induction false} SumBumped(counts: seq<nat>, bumped: seq<nat>, k: nat)
    requires |counts| == |bumped| && k < |counts|
    requires forall i | 0 <= i < |counts| :: bumped[i] == counts[i] + (if i == k then 1 else 0)
    ensures Sum(bumped) == Sum(counts) + 1
  {
    var n := |counts| - 1;
    if k == n {
      assert bumped[..n] == counts[..n];
    } else {
      SumBumped(counts[..n], bumped[..n], k);
    }
  }

  lemma {:induction false} OptionsPartitionVotes(votes: seq<Vote>, p: string, options: seq<PollOption>)
    requires DistinctIds(options)
    requires forall i | 0 <= i < |votes| && votes[i].pollId == p :: HasOption(options, votes[i].optionId)
    ensures Sum(CountsPerOption(votes, p, options)) == CountDocuments(votes, ForPoll(p))
  {
    var counts := CountsPerOption(votes, p, options);
    if votes == [] {
      SumOfZeros(counts);
    } else {
      var rest, v := votes[..|votes| - 1], votes[|votes| - 1];
      OptionsPartitionVotes(rest, p, options);
      if v.pollId == p {
        var k :| 0 <= k < |options| && options[k].id == v.optionId;
        SumBumped(CountsPerOption(rest, p, options), counts, k);
      } else {
        assert counts == CountsPerOption(rest, p, options);
      }
    }
  }

  function VoterSet(votes: seq<Vote>, p: string): set<string> {
    set i | 0 <= i < |votes| && votes[i].pollId == p :: votes[i].voterKey
  }

  lemma {:induction false} VotersCounted(votes: seq<Vote>, p: string)
    requires forall k :: CountDocuments(votes, ForVoter(p, k)) <= 1
    ensures |VoterSet(votes, p)| == CountDocuments(votes, ForPoll(p))
  {
    if votes == [] {
    } else {
      var rest, v := votes[..|votes| - 1], votes[|votes| - 1];
      assert votes == rest + [v];
      forall k ensures CountDocuments(rest, ForVoter(p, k)) <= 1 {
        assert CountDocuments(votes, ForVoter(p, k)) <= 1;
      }
      VotersCounted(rest, p);
      if v.pollId == p {
        assert CountDocuments(votes, ForVoter(p, v.voterKey)) <= 1;
        forall i | 0 <= i < |rest| && rest[i].pollId == p ensures rest[i].voterKey != v.voterKey {
          if rest[i].voterKey == v.voterKey {
            CountSelected(rest, i, ForVoter(p, v.voterKey));
          }
        }
        VoterSetGrows(rest, v, p);
        assert v.voterKey !in VoterSet(rest, p);
      } else {
        VoterSetGrows(rest, v, p);
      }
    }
  }

  lemma VoterSetGrows(rest: seq<Vote>, v: Vote, p: string)
    ensures VoterSet(rest + [v], p) == VoterSet(rest, p) + (if v.pollId == p then {v.voterKey} else {})
  {
    var votes := rest + [v];
    assert forall i | 0 <= i < |rest| :: votes[i] == rest[i];
    assert votes[|rest|] == v;
    forall k | k in VoterSet(rest, p) ensures k in VoterSet(votes, p) {
      var i :| 0 <= i < |rest| && rest[i].pollId == p && rest[i].voterKey == k;
      assert votes[i].voterKey == k;
    }
  }

  /**
   In every reachable state: each vote names an option of its poll, and for every stored poll
   CountByPoll = the sum of CountByOption over the poll's options = the number of distinct voters.
   */
  lemma PollCountsAgree(run: seq<Step>, p: string)
    requires p in After(run).stores.polls
    ensures var st := After(run).stores;
      var options := st.polls[p].options;
      && (forall i | 0 <= i < |st.votes| && st.votes[i].pollId == p :: HasOption(options, st.votes[i].optionId))
      && CountDocuments(st.votes, ForPoll(p)) == Sum(VotesOf(options, CountByOption(st.votes, p)))
      && CountDocuments(st.votes, ForPoll(p)) == |VoterSet(st.votes, p)|
  {
    Reachable(run);
    var st := After(run).stores;
    var options := st.polls[p].options;
    OptionsPartitionVotes(st.votes, p, options);
    forall i | 0 <= i < |options|
      ensures VotesOf(options, CountByOption(st.votes, p))[i] == CountsPerOption(st.votes, p, options)[i]
    {
      GetCountByOption(st.votes, p, options[i].id);
    }
    assert VotesOf(options, CountByOption(st.votes, p)) == CountsPerOption(st.votes, p, options);
    forall k ensures CountDocuments(st.votes, ForVoter(p, k)) <= 1 {
      OneVotePerKey(run, p, k);
    }
    VotersCounted(st.votes, p);
  }
}
