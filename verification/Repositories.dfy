/** The two MongoDB collections. The last parameter of a method tells whether MongoDB can be reached. */
module Repositories {
  import opened Basics
  import opened Models
  import opened Protocol

  /** The groups are the options with votes, and a group's count is the number of its votes. */
  lemma GroupSizes(votes: seq<Vote>, p: string)
    ensures var groups := CountByOption(votes, p);
      && (forall o :: o in groups <==> exists i | 0 <= i < |votes| :: votes[i].pollId == p && votes[i].optionId == o)
      && forall o | o in groups ::
           groups[o] == |set i | 0 <= i < |votes| && votes[i].pollId == p && votes[i].optionId == o|
  {
    var groups := CountByOption(votes, p);
    forall o | o in groups
      ensures groups[o] == |set i | 0 <= i < |votes| && votes[i].pollId == p && votes[i].optionId == o|
    {
      CountIsSetSize(votes, ForOption(p, o));
      assert Selected(votes, ForOption(p, o))
        == set i | 0 <= i < |votes| && votes[i].pollId == p && votes[i].optionId == o;
    }
  }

  class VoteRepository {
    var votes: seq<Vote>

    constructor ()
      ensures votes == []
    {
      votes := [];
    }

    /** InsertOne under the unique index on (pollId, voterKey). */
    method Create(vote: Vote, up: bool) returns (err: Option<Error>)
      modifies this
      ensures !up ==> err == Some(StoreDown) && votes == old(votes)
      ensures up ==> (err == Some(VoteAlreadyExists) <==> exists i | 0 <= i < |old(votes)| ::
                        old(votes)[i].pollId == vote.pollId && old(votes)[i].voterKey == vote.voterKey)
      ensures up && err.Some? ==> err == Some(VoteAlreadyExists) && votes == old(votes)
      ensures err == None ==> votes == old(votes) + [vote]
    {
      if !up {
        return Some(StoreDown);
      }
      for i := 0 to |votes|
        invariant votes == old(votes)
        invariant forall j | 0 <= j < i :: !(votes[j].pollId == vote.pollId && votes[j].voterKey == vote.voterKey)
      {
        if votes[i].pollId == vote.pollId && votes[i].voterKey == vote.voterKey {
          return Some(VoteAlreadyExists);
        }
      }
      votes := votes + [vote];
      err := None;
    }

    /** CountDocuments. */
    method Count(f: Filter) returns (count: nat)
      ensures count == CountDocuments(votes, f)
    {
      count := 0;
      for i := 0 to |votes|
        invariant count == CountDocuments(votes[..i], f)
      {
        assert votes[..i + 1][..i] == votes[..i];
        if Selects(f, votes[i]) {
          count := count + 1;
        }
      }
      assert votes[..|votes|] == votes;
    }

    method ExistsByVoterKey(pollID: string, voterKey: string, up: bool) returns (r: Result<bool, Error>)
      ensures r == if !up then Err(StoreDown) else Ok(CountDocuments(votes, ForVoter(pollID, voterKey)) > 0)
      ensures up ==> (r == Ok(true) <==>
                        exists i | 0 <= i < |votes| :: votes[i].pollId == pollID && votes[i].voterKey == voterKey)
    {
      if !up {
        return Err(StoreDown);
      }
      var count := Count(ForVoter(pollID, voterKey));
      CountIsSetSize(votes, ForVoter(pollID, voterKey));
      ghost var chosen := Selected(votes, ForVoter(pollID, voterKey));
      assert count > 0 ==> exists i :: i in chosen;
      forall i | 0 <= i < |votes| && votes[i].pollId == pollID && votes[i].voterKey == voterKey ensures count > 0 {
        assert i in chosen;
      }
      r := Ok(count > 0);
    }

    method CountByPoll(pollID: string, up: bool) returns (r: Result<nat, Error>)
      ensures r == if !up then Err(StoreDown) else Ok(CountDocuments(votes, ForPoll(pollID)))
      ensures up ==> r == Ok(|set i | 0 <= i < |votes| && votes[i].pollId == pollID|)
    {
      if !up {
        return Err(StoreDown);
      }
      var count := Count(ForPoll(pollID));
      CountIsSetSize(votes, ForPoll(pollID));
      assert Selected(votes, ForPoll(pollID))
        == set i | 0 <= i < |votes| && votes[i].pollId == pollID;
      r := Ok(count);
    }

    /** The aggregation's documents, one per group, in any order. */
    method Documents(groups: map<string, nat>) returns (cursor: seq<(string, nat)>)
      ensures forall i | 0 <= i < |cursor| :: cursor[i].0 in groups && cursor[i].1 == groups[cursor[i].0]
      ensures forall o | o in groups :: exists i | 0 <= i < |cursor| :: cursor[i].0 == o
    {
      var left := groups.Keys;
      cursor := [];
      while left != {}
        invariant left <= groups.Keys
        invariant forall i | 0 <= i < |cursor| :: cursor[i].0 in groups && cursor[i].1 == groups[cursor[i].0]
        invariant forall o | o in groups && o !in left :: exists i | 0 <= i < |cursor| :: cursor[i].0 == o
        decreases |left|
      {
        var o :| o in left;
        ghost var before := cursor;
        cursor := cursor + [(o, groups[o])];
        assert cursor[|before|].0 == o;
        forall q | q in groups && q !in left - {o} ensures exists i | 0 <= i < |cursor| :: cursor[i].0 == q {
          if q != o {
            var i :| 0 <= i < |before| && before[i].0 == q;
            assert cursor[i].0 == q;
          }
        }
        left := left - {o};
      }
    }

    /** The cursor loop fills the map; the order of the documents does not matter. */
    method CountByOption(pollID: string, up: bool) returns (r: Result<map<string, nat>, Error>)
      ensures r == if !up then Err(StoreDown) else Ok(Protocol.CountByOption(votes, pollID))
      ensures r.Ok? ==> forall o :: o in r.value <==>
        exists i | 0 <= i < |votes| :: votes[i].pollId == pollID && votes[i].optionId == o
      ensures r.Ok? ==> forall o | o in r.value ::
        r.value[o] == |set i | 0 <= i < |votes| && votes[i].pollId == pollID && votes[i].optionId == o|
    {
      if !up {
        return Err(StoreDown);
      }
      var groups := Protocol.CountByOption(votes, pollID);
      var cursor := Documents(groups);
      var counts: map<string, nat> := map[];
      for i := 0 to |cursor|
        invariant forall o | o in counts :: o in groups && counts[o] == groups[o]
        invariant forall j | 0 <= j < i :: cursor[j].0 in counts
      {
        counts := counts[cursor[i].0 := cursor[i].1];
      }
      assert counts == groups;
      GroupSizes(votes, pollID);
      r := Ok(counts);
    }
  }

  class PollRepository {
    var polls: map<string, Poll>

    constructor ()
      ensures polls == map[]
    {
      polls := map[];
    }

    /** Stores the poll as active under a new id; an id that is taken is a store error. */
    method Create(poll: Poll, freshId: string, up: bool) returns (r: Result<string, Error>)
      modifies this
      ensures r == if up && freshId !in old(polls) then Ok(freshId) else Err(StoreDown)
      ensures polls == if r.Ok? then old(polls)[freshId := poll.(status := Active)] else old(polls)
    {
      if !up || freshId in polls {
        return Err(StoreDown);
      }
      polls := polls[freshId := poll.(status := Active)];
      r := Ok(freshId);
    }

    method FindByID(id: string, up: bool) returns (r: Result<Poll, Error>)
      ensures r == if !up then Err(StoreDown)
                   else if id in polls && polls[id].status != Deleted then Ok(polls[id])
                   else Err(PollNotFound)
    {
      if !up {
        return Err(StoreDown);
      }
      if id !in polls || polls[id].status == Deleted {
        return Err(PollNotFound);
      }
      r := Ok(polls[id]);
    }

    method UpdateStatus(id: string, status: Status, up: bool) returns (ok: bool)
      modifies this
      ensures ok == up
      ensures polls ==
        if up && id in old(polls) then old(polls)[id := old(polls)[id].(status := status)] else old(polls)
    {
      if up && id in polls {
        polls := polls[id := polls[id].(status := status)];
      }
      ok := up;
    }

    /** Soft delete. */
    method Delete(id: string, up: bool) returns (ok: bool)
      modifies this
      ensures ok == up
      ensures polls ==
        if up && id in old(polls) then old(polls)[id := old(polls)[id].(status := Deleted)] else old(polls)
    {
      ok := UpdateStatus(id, Deleted, up);
    }
  }
}
