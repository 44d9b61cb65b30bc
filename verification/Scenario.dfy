/** One concrete run that the counterexample runs of other modules continue. */
module Scenario {
  import opened Basics
  import opened Models
  import opened Protocol

  const First := OptionId(0)
  const AnyEnv := Env(0, "p", [])

  /** One poll "p" with two options, and one call by voter "x" for the first one, about to increment. */
  lemma OneVoteInFlight() returns (run: seq<Step>)
    ensures KeepsKeys(run)
    ensures After(run) == State(
      Stores(map["p" := Poll(NewOptions(["a", "b"]), "u", Active, None)], [Vote("p", First, "x")],
             map["p" := SeedHash(NewOptions(["a", "b"]), map[])], map[], []),
      [CreateCall("u", ["a", "b"], Created("p"), Done),
       VoteCall("p", First, "x", Increment(NewOptions(["a", "b"])), Running)])
  {
    var options := NewOptions(["a", "b"]);
    assert options[0].id == First;
    var create, cast := Arrive(CreatePoll("u", ["a", "b"])), Arrive(CastVote("p", First, "x"));
    var r0: seq<Step> := [];
    Follow(r0, create);
    var r1 := r0 + [create];
    Follow(r1, Do(0, AnyEnv));
    var r2 := r1 + [Do(0, AnyEnv)];
    Follow(r2, Do(0, AnyEnv));
    var r3 := r2 + [Do(0, AnyEnv)];
    assert After(r3).calls == [CreateCall("u", ["a", "b"], Created("p"), Done)];
    Follow(r3, cast);
    var r4 := r3 + [cast];
    Follow(r4, Do(1, AnyEnv));
    var r5 := r4 + [Do(1, AnyEnv)];
    assert After(r5).calls[1].vote == SeedNil(options);
    Follow(r5, Do(1, AnyEnv));
    var r6 := r5 + [Do(1, AnyEnv)];
    Follow(r6, Do(1, AnyEnv));
    run := r6 + [Do(1, AnyEnv)];
  }
}
