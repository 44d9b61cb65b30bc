/** The stored entities: polls, votes and the identity a vote is filed under. */
module Models {
  import opened Basics
  import Decimal

  datatype Status = Active | Closed | Deleted

  datatype PollOption = PollOption(id: string, text: string)

  /** A poll as far as voting and its lifecycle depend on it. */
  datatype Poll = Poll(options: seq<PollOption>, createdBy: string, status: Status, expiresAt: Option<int>)

  datatype Vote = Vote(pollId: string, optionId: string, voterKey: string)

  predicate HasOption(options: seq<PollOption>, id: string) {
    exists i | 0 <= i < |options| :: options[i].id == id
  }

  predicate DistinctIds(options: seq<PollOption>) {
    forall i, j | 0 <= i < j < |options| :: options[i].id != options[j].id
  }

  function NewVoterKey(voterID: string, authenticated: bool): string {
    if authenticated then "user:" + voterID else "anon:" + voterID
  }

  /** One identity, one key: no visitor can collide with a user, nor two visitors with each other. */
  lemma VoterKeyInjective(id1: string, auth1: bool, id2: string, auth2: bool)
    requires NewVoterKey(id1, auth1) == NewVoterKey(id2, auth2)
    ensures id1 == id2 && auth1 == auth2
    ensures NewVoterKey(id1, auth1) == (if auth1 then "user" else "anon") + ":" + id1
  {
    var k1, k2 := NewVoterKey(id1, auth1), NewVoterKey(id2, auth2);
    assert k1[0] == k2[0];
    assert k1[5..] == id1 && k2[5..] == id2;
  }

  function OptionId(i: nat): string {
    "opt_" + Decimal.Print(i + 1)
  }

  /** The options CreatePoll makes out of the cleaned texts. */
  function NewOptions(texts: seq<string>): (options: seq<PollOption>)
    ensures |options| == |texts|
  {
    seq(|texts|, i requires 0 <= i < |texts| => PollOption(OptionId(i), texts[i]))
  }

  lemma NewOptionsDistinct(texts: seq<string>)
    ensures DistinctIds(NewOptions(texts))
  {
    forall i, j | 0 <= i < j < |texts| ensures OptionId(i) != OptionId(j) {
      if OptionId(i) == OptionId(j) {
        assert OptionId(i)[4..] == Decimal.Print(i + 1) && OptionId(j)[4..] == Decimal.Print(j + 1);
        Decimal.PrintInjective(i + 1, j + 1);
      }
    }
  }
}
