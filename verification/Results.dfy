/** What a reader is shown: votes per option in option order, the total, percentages and rounded bars. */
module Results {
  import opened Basics
  import opened Models

  datatype OptionResult = OptionResult(optionId: string, option: string, votes: nat, percentage: real)

  function Percentage(votes: nat, total: nat): real {
    if total == 0 then 0.0 else votes as real / total as real * 100.0
  }

  function VotesOf(options: seq<PollOption>, hash: map<string, nat>): (votes: seq<nat>)
    ensures |votes| == |options|
  {
    seq(|options|, i requires 0 <= i < |options| => Get(hash, options[i].id))
  }

  function Sum(votes: seq<nat>): nat {
    if votes == [] then 0 else Sum(votes[..|votes| - 1]) + votes[|votes| - 1]
  }

  /** The results a poll's hash stands for, in the poll's option order. */
  function Snapshot(options: seq<PollOption>, hash: map<string, nat>): (results: seq<OptionResult>)
    ensures |results| == |options|
  {
    var votes := VotesOf(options, hash);
    seq(|options|, i requires 0 <= i < |options| =>
      OptionResult(options[i].id, options[i].text, votes[i], Percentage(votes[i], Sum(votes))))
  }

  /** The votes column of a list of results. */
  function Votes(results: seq<OptionResult>): (votes: seq<nat>)
    ensures |votes| == |results|
  {
    seq(|results|, i requires 0 <= i < |results| => results[i].votes)
  }

  /**
   What a list of results must say of options with these counts, in option order: each option's own id, text and count,
   and its percentage of all of them.
   */
  predicate Presents(results: seq<OptionResult>, options: seq<PollOption>, counts: seq<nat>) {
    && |results| == |options| == |counts|
    && (forall k | 0 <= k < |options| ::
          && results[k].optionId == options[k].id && results[k].option == options[k].text
          && results[k].votes == counts[k]
          && results[k].percentage ==
               if Sum(counts) == 0 then 0.0 else counts[k] as real / Sum(counts) as real * 100.0)
  }

  lemma SnapshotPresents(options: seq<PollOption>, hash: map<string, nat>)
    ensures Presents(Snapshot(options, hash), options, VotesOf(options, hash))
    ensures Votes(Snapshot(options, hash)) == VotesOf(options, hash)
    ensures forall k | 0 <= k < |options| ::
      VotesOf(options, hash)[k] == if options[k].id in hash then hash[options[k].id] else 0
  {
  }

  lemma PresentedVotes(results: seq<OptionResult>, options: seq<PollOption>, counts: seq<nat>)
    requires Presents(results, options, counts)
    ensures Votes(results) == counts
  {
  }

  function PercentSum(votes: seq<nat>, total: nat): real {
    if votes == [] then 0.0
    else PercentSum(votes[..|votes| - 1], total) + Percentage(votes[|votes| - 1], total)
  }

  /** JavaScript's Math.round: halves go up. */
  function Round(x: real): int {
    (x + 0.5).Floor
  }

  function BarSum(votes: seq<nat>, total: nat): int {
    if votes == [] then 0
    else BarSum(votes[..|votes| - 1], total) + Round(Percentage(votes[|votes| - 1], total))
  }

  lemma {:induction false} PartIsAtMostSum(votes: seq<nat>, i: nat)
    requires i < |votes|
    ensures votes[i] <= Sum(votes)
  {
    if i < |votes| - 1 {
      PartIsAtMostSum(votes[..|votes| - 1], i);
    }
  }

  lemma ShareOf(a: nat, b: nat, total: nat)
    requires total > 0
    ensures Percentage(a, total) + Percentage(b, total) == Percentage(a + b, total)
    ensures 0.0 <= Percentage(a, total)
    ensures a <= total ==> Percentage(a, total) <= 100.0
    ensures Percentage(total, total) == 100.0
  {
    var x, y, t := a as real, b as real, total as real;
    assert (x + y) / t == x / t + y / t;
    assert t / t == 1.0;
    if a <= total {
      assert x / t <= t / t;
    }
  }

  lemma {:induction false} PercentSumIsShare(votes: seq<nat>, total: nat)
    requires total > 0
    ensures PercentSum(votes, total) == Percentage(Sum(votes), total)
  {
    if votes == [] {
    } else {
      var rest := votes[..|votes| - 1];
      PercentSumIsShare(rest, total);
      ShareOf(Sum(rest), votes[|votes| - 1], total);
    }
  }

  /** The percentages shown lie in [0, 100] and add up to exactly 100, or are all 0 while there is no vote. */
  lemma PercentagesAddUp(options: seq<PollOption>, hash: map<string, nat>)
    ensures var results := Snapshot(options, hash);
      var votes := Votes(results);
      && (forall i | 0 <= i < |results| ::
            && results[i].percentage == Percentage(results[i].votes, Sum(votes))
            && 0.0 <= results[i].percentage <= 100.0)
      && PercentSum(votes, Sum(votes)) == (if Sum(votes) > 0 then 100.0 else 0.0)
  {
    var results := Snapshot(options, hash);
    var votes := VotesOf(options, hash);
    assert Votes(results) == votes;
    if Sum(votes) > 0 {
      PercentSumIsShare(votes, Sum(votes));
      ShareOf(Sum(votes), 0, Sum(votes));
      forall i | 0 <= i < |results| ensures 0.0 <= results[i].percentage <= 100.0 {
        PartIsAtMostSum(votes, i);
        ShareOf(votes[i], 0, Sum(votes));
      }
    } else {
      NoVotesNoBars(votes);
    }
  }

  lemma {:induction false} NoVotesNoBars(votes: seq<nat>)
    ensures PercentSum(votes, 0) == 0.0 && BarSum(votes, 0) == 0
  {
    if votes != [] {
      NoVotesNoBars(votes[..|votes| - 1]);
    }
  }

  lemma {:induction false} RoundingDrift(votes: seq<nat>, total: nat)
    ensures 2.0 * BarSum(votes, total) as real <= 2.0 * PercentSum(votes, total) + |votes| as real
    ensures votes != [] ==> 2.0 * PercentSum(votes, total) - |votes| as real < 2.0 * BarSum(votes, total) as real
  {
    if votes != [] {
      RoundingDrift(votes[..|votes| - 1], total);
      var x := Percentage(votes[|votes| - 1], total);
      assert Round(x) as real <= x + 0.5 < Round(x) as real + 1.0;
    }
  }

  /** n rounded bars add up to more than 100 - n/2 and at most 100 + n/2. */
  lemma RoundedBarsNearHundred(votes: seq<nat>)
    requires Sum(votes) > 0
    ensures 200 - |votes| < 2 * BarSum(votes, Sum(votes)) <= 200 + |votes|
  {
    var total := Sum(votes);
    PercentSumIsShare(votes, total);
    ShareOf(total, 0, total);
    RoundingDrift(votes, total);
    assert (200 - |votes|) as real < (2 * BarSum(votes, total)) as real <= (200 + |votes|) as real;
  }

  lemma SixEqualButLast(a: nat, last: nat)
    ensures Sum([a, a, a, a, a, last]) == 5 * a + last
    ensures forall total: nat ::
      BarSum([a, a, a, a, a, last], total) == 5 * Round(Percentage(a, total)) + Round(Percentage(last, total))
  {
    var v1, v2, v3, v4, v5, v6 := [a], [a, a], [a, a, a], [a, a, a, a], [a, a, a, a, a], [a, a, a, a, a, last];
    assert v6[..5] == v5 && v5[..4] == v4 && v4[..3] == v3 && v3[..2] == v2 && v2[..1] == v1 && v1[..0] == [];
    forall total: nat
      ensures BarSum(v6, total) == 5 * Round(Percentage(a, total)) + Round(Percentage(last, total))
    {
      var r := Round(Percentage(a, total));
      assert BarSum(v1, total) == r;
      assert BarSum(v2, total) == 2 * r;
      assert BarSum(v3, total) == 3 * r;
      assert BarSum(v4, total) == 4 * r;
      assert BarSum(v5, total) == 5 * r;
    }
    assert Sum(v1) == a;
    assert Sum(v2) == 2 * a;
    assert Sum(v3) == 3 * a;
    assert Sum(v4) == 4 * a;
    assert Sum(v5) == 5 * a;
  }

  /** The widest poll has six options: its bars add up to 98 .. 103, and both ends occur. */
  lemma SixBarsRange(votes: seq<nat>)
    ensures |votes| == 6 && Sum(votes) > 0 ==> 98 <= BarSum(votes, Sum(votes)) <= 103
    ensures var low := [49, 49, 49, 49, 49, 55]; BarSum(low, Sum(low)) == 98
    ensures var high := [33, 33, 33, 33, 33, 35]; BarSum(high, Sum(high)) == 103
  {
    if |votes| == 6 && Sum(votes) > 0 {
      RoundedBarsNearHundred(votes);
    }
    SixEqualButLast(49, 55);
    SixEqualButLast(33, 35);
    assert Round(Percentage(49, 300)) == 16 && Round(Percentage(55, 300)) == 18;
    assert Round(Percentage(33, 200)) == 17 && Round(Percentage(35, 200)) == 18;
  }

  /** The bar of one result: the label's percentage and the width drawn. */
  function BarWidth(percentage: Option<real>, votes: Option<nat>, maxVotes: int): int {
    var pct := match percentage case Some(p) => Round(p) case None => Round(0.0);
    var count := match votes case Some(v) => v case None => 0;
    var width := if maxVotes > 0 then Round(count as real / maxVotes as real * 100.0) else 0;
    if percentage.Some? && percentage.value >= 0.0 then pct else width
  }

  /** A bar drawn from published results is as wide as its label says and never leaves its track. */
  lemma BarMatchesLabel(options: seq<PollOption>, hash: map<string, nat>, i: nat, maxVotes: int)
    requires i < |options|
    ensures var r := Snapshot(options, hash)[i];
      BarWidth(Some(r.percentage), Some(r.votes), maxVotes) == Round(r.percentage) && 0 <= Round(r.percentage) <= 100
  {
    PercentagesAddUp(options, hash);
  }

  lemma QuotientGrows(x: real, y: real, m: real)
    requires x <= y && m > 0.0
    ensures x / m <= y / m && m / m == 1.0
  {
  }

  /**
   Without a percentage the bars compare the options: more votes never make a narrower bar, the leading option's is
   full, and while nobody has voted there is none.
   */
  lemma FallbackBars(a: nat, b: nat, maxVotes: nat)
    requires a <= b <= maxVotes
    ensures 0 <= BarWidth(None, Some(a), maxVotes) <= BarWidth(None, Some(b), maxVotes) <= 100
    ensures maxVotes > 0 ==> BarWidth(None, Some(maxVotes), maxVotes) == 100
    ensures BarWidth(None, None, maxVotes) == BarWidth(None, Some(0), maxVotes) == 0
    ensures BarWidth(None, Some(a), 0) == 0
  {
    if maxVotes > 0 {
      var x, y, m := a as real, b as real, maxVotes as real;
      QuotientGrows(0.0, x, m);
      QuotientGrows(x, y, m);
      QuotientGrows(y, m, m);
    }
  }
}
