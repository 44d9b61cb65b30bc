/**
 The Redis side as it is stored: one key space of hashes and strings whose numbers are decimal text. Its methods run
 the Lua scripts and loops of the program, and are proved to be the store commands of `Protocol`.
 The last parameter of a method tells whether Redis can be reached; if not, nothing was applied.
 */
module RedisService {
  import opened Basics
  import opened Models
  import opened Results
  import opened Keys
  import opened Protocol
  import Decimal
  import Sequential

  datatype RedisValue = HashValue(fields: map<string, string>) | StringValue(text: string)

  type KeySpace = map<string, RedisValue>
  type Hashes = map<string, map<string, nat>>
  type Counters = map<(string, string), nat>

  function Printed(hash: map<string, nat>): map<string, string> {
    map k | k in hash :: Decimal.Print(hash[k])
  }

  lemma FieldReads(hash: map<string, nat>, field: string)
    ensures var fields := Printed(hash);
      Decimal.ParseInt64(if field in fields then fields[field] else "") == Get(hash, field)
  {
    Decimal.ParsePrint(Get(hash, field));
  }

  /** The flat argument list of the seeding script: id, count, id, count, ... */
  function SeedArgs(options: seq<PollOption>, seed: map<string, nat>): seq<string> {
    if options == [] then []
    else
      var last := options[|options| - 1].id;
      SeedArgs(options[..|options| - 1], seed) + [last, Decimal.Print(Get(seed, last))]
  }

  lemma {:induction false} SeedArgsAt(options: seq<PollOption>, seed: map<string, nat>, k: nat)
    ensures |SeedArgs(options, seed)| == 2 * |options|
    ensures k < |options| ==>
      && SeedArgs(options, seed)[2 * k] == options[k].id
      && SeedArgs(options, seed)[2 * k + 1] == Decimal.Print(Get(seed, options[k].id))
  {
    if options != [] {
      SeedArgsAt(options[..|options| - 1], seed, k);
    }
  }

  lemma SeedHashGrows(options: seq<PollOption>, seed: map<string, nat>, k: nat)
    requires k < |options|
    ensures SeedHash(options[..k + 1], seed) == SeedHash(options[..k], seed)[options[k].id := Get(seed, options[k].id)]
  {
    var more, less := options[..k + 1], options[..k];
    assert forall i | 0 <= i < k :: more[i] == less[i];
    assert more[k] == options[k];
    forall o | o in SeedHash(less, seed) ensures o in SeedHash(more, seed) {
      var i :| 0 <= i < |less| && less[i].id == o;
      assert more[i].id == o;
    }
  }

  /** The hashes after the script has set the first k options of a poll that had none. */
  function SeededUpTo(results: Hashes, p: string, options: seq<PollOption>, seed: map<string, nat>, k: nat): Hashes
    requires k <= |options|
  {
    if k == 0 then results else results[p := SeedHash(options[..k], seed)]
  }

  lemma SeededOneMore(results: Hashes, p: string, options: seq<PollOption>, seed: map<string, nat>, k: nat)
    requires p !in results && k < |options|
    ensures var partial := SeededUpTo(results, p, options, seed, k);
      SeededUpTo(results, p, options, seed, k + 1)
        == partial[p := (if p in partial then partial[p] else map[])[options[k].id := Get(seed, options[k].id)]]
  {
    SeedHashGrows(options, seed, k);
    assert options[..0] == [];
  }

  // ----- The key space stands for the protocol's maps -----

  /** For one poll and option: the result key holds the poll's hash, the counter key its number, or neither exists. */
  predicate Agrees(db: KeySpace, results: Hashes, counters: Counters, p: string, o: string) {
    if NoColon(p) then
      && (ResultKey(p) in db <==> p in results)
      && (p in results ==> db[ResultKey(p)] == HashValue(Printed(results[p])))
      && (OptionCounterKey(p, o) in db <==> (p, o) in counters)
      && ((p, o) in counters ==> db[OptionCounterKey(p, o)] == StringValue(Decimal.Print(counters[(p, o)])))
    else
      p !in results && (p, o) !in counters
  }

  ghost predicate Represents(db: KeySpace, results: Hashes, counters: Counters) {
    forall p, o :: Agrees(db, results, counters, p, o)
  }

  /** Writing one poll's hash disturbs no other poll's hash and no counter. */
  lemma HashWritten(db: KeySpace, results: Hashes, counters: Counters, p: string, hash: map<string, nat>)
    requires Represents(db, results, counters) && NoColon(p)
    ensures Represents(db[ResultKey(p) := HashValue(Printed(hash))], results[p := hash], counters)
  {
    var db', results' := db[ResultKey(p) := HashValue(Printed(hash))], results[p := hash];
    forall q, o ensures Agrees(db', results', counters, q, o) {
      assert Agrees(db, results, counters, q, o);
      if NoColon(q) {
        ResultKeyIsNoCounterKey(p, q, o);
        if ResultKey(q) == ResultKey(p) {
          ResultKeyInjective(q, p);
        }
      }
    }
  }

  /** Writing one counter disturbs no other counter and no hash. */
  lemma CounterWritten(db: KeySpace, results: Hashes, counters: Counters, p: string, o: string, n: nat)
    requires Represents(db, results, counters) && NoColon(p)
    ensures Represents(db[OptionCounterKey(p, o) := StringValue(Decimal.Print(n))], results, counters[(p, o) := n])
  {
    var db', counters' := db[OptionCounterKey(p, o) := StringValue(Decimal.Print(n))], counters[(p, o) := n];
    forall q, r ensures Agrees(db', results, counters', q, r) {
      assert Agrees(db, results, counters, q, r);
      if NoColon(q) {
        ResultKeyIsNoCounterKey(q, p, o);
        if OptionCounterKey(q, r) == OptionCounterKey(p, o) {
          OptionCounterKeyInjective(q, r, p, o);
        }
      }
    }
  }

  function FieldsAt(db: KeySpace, key: string): map<string, string> {
    if key in db && db[key].HashValue? then db[key].fields else map[]
  }

  function TextAt(db: KeySpace, key: string): string {
    if key in db && db[key].StringValue? then db[key].text else ""
  }

  lemma HashRead(db: KeySpace, results: Hashes, counters: Counters, p: string)
    requires Represents(db, results, counters) && NoColon(p)
    ensures FieldsAt(db, ResultKey(p)) == Printed(if p in results then results[p] else map[])
    ensures ResultKey(p) in db <==> p in results
  {
    assert Agrees(db, results, counters, p, "");
  }

  lemma CounterRead(db: KeySpace, results: Hashes, counters: Counters, p: string, o: string)
    requires Represents(db, results, counters) && NoColon(p)
    ensures Decimal.ParseInt64(TextAt(db, OptionCounterKey(p, o))) == if (p, o) in counters then counters[(p, o)] else 0
  {
    assert Agrees(db, results, counters, p, o);
    if (p, o) in counters {
      Decimal.ParsePrint(counters[(p, o)]);
    } else {
      Decimal.ParsePrint(0);
    }
  }

  class RedisService {
    var db: KeySpace
    var events: seq<Event>
    ghost var results: Hashes
    ghost var counters: Counters

    /** The Redis part of the protocol's stores. */
    ghost function Now(): Stores
      reads this
    {
      Stores(map[], [], results, counters, events)
    }

    ghost predicate Valid()
      reads this
    {
      Represents(db, results, counters)
    }

    constructor ()
      ensures Valid() && Now() == EmptyStores
    {
      db, events, results, counters := map[], [], map[], map[];
    }

    /** HSET of a number: one field of one poll's hash changes. */
    method HSet(pollID: string, field: string, text: string, ghost count: nat)
      requires Valid() && NoColon(pollID) && text == Decimal.Print(count)
      modifies this`db, this`results
      ensures Valid()
      ensures results == old(results)[pollID := Hash(old(Now()), pollID)[field := count]]
    {
      HashRead(db, results, counters, pollID);
      ghost var hash := Hash(Now(), pollID);
      var fields := FieldsAt(db, ResultKey(pollID));
      assert Printed(hash[field := count]) == fields[field := text];
      HashWritten(db, results, counters, pollID, hash[field := count]);
      db := db[ResultKey(pollID) := HashValue(fields[field := text])];
      results := results[pollID := hash[field := count]];
    }

    method EnsureResults(pollID: string, options: seq<PollOption>, seed: map<string, nat>, up: bool) returns (ok: bool)
      requires Valid() && NoColon(pollID)
      modifies this`db, this`results
      ensures Valid() && ok == up
      ensures Now() == if up then Protocol.EnsureResults(old(Now()), pollID, options, seed) else old(Now())
      ensures if up && pollID !in old(results) && options != [] then
          && pollID in results && results == old(results)[pollID := results[pollID]]
          && (forall o :: o in results[pollID] <==> exists k | 0 <= k < |options| :: options[k].id == o)
          && (forall o | o in results[pollID] :: results[pollID][o] == if o in seed then seed[o] else 0)
        else results == old(results)
    {
      var args: seq<string> := [];
      for k := 0 to |options|
        invariant args == SeedArgs(options[..k], seed)
      {
        var opt := options[k];
        var count := Get(seed, opt.id);
        args := args + [opt.id, Decimal.Print(count)];
        assert options[..k + 1][..k] == options[..k];
      }
      assert options[..|options|] == options;
      ok := up;
      if up {
        SeedScript(pollID, args, options, seed);
      }
    }

    /** The seeding script: EXISTS, then one HSET for every second argument and its successor. */
    method SeedScript(pollID: string, args: seq<string>, ghost options: seq<PollOption>, ghost seed: map<string, nat>)
      requires Valid() && NoColon(pollID) && args == SeedArgs(options, seed)
      modifies this`db, this`results
      ensures Valid()
      ensures Now() == Protocol.EnsureResults(old(Now()), pollID, options, seed)
    {
      HashRead(db, results, counters, pollID);
      if ResultKey(pollID) in db {
        return;
      }
      SeedArgsAt(options, seed, 0);
      ghost var before := results;
      var i := 0;
      ghost var k := 0;
      while i < |args|
        invariant i == 2 * k && k <= |options|
        invariant Valid() && results == SeededUpTo(before, pollID, options, seed, k)
        decreases |args| - i
      {
        SeedArgsAt(options, seed, k);
        SeededOneMore(before, pollID, options, seed, k);
        HSet(pollID, args[i], args[i + 1], Get(seed, options[k].id));
        i, k := i + 2, k + 1;
      }
      assert options[..|options|] == options;
    }

    /** INCR. */
    method Incr(pollID: string, optionID: string)
      requires Valid() && NoColon(pollID)
      modifies this`db, this`counters
      ensures Valid()
      ensures counters == old(counters)[(pollID, optionID) := Counter(old(Now()), pollID, optionID) + 1]
    {
      var key := OptionCounterKey(pollID, optionID);
      CounterRead(db, results, counters, pollID, optionID);
      var n := Decimal.ParseInt64(TextAt(db, key));
      CounterWritten(db, results, counters, pollID, optionID, n + 1);
      db := db[key := StringValue(Decimal.Print(n + 1))];
      counters := counters[(pollID, optionID) := n + 1];
    }

    /** HINCRBY by one; a missing hash or field starts from zero. */
    method HIncrBy(pollID: string, optionID: string)
      requires Valid() && NoColon(pollID)
      modifies this`db, this`results
      ensures Valid()
      ensures results == old(results)[pollID :=
                           Hash(old(Now()), pollID)[optionID := Live(old(Now()), pollID, optionID) + 1]]
    {
      HashRead(db, results, counters, pollID);
      FieldReads(Hash(Now(), pollID), optionID);
      var fields := FieldsAt(db, ResultKey(pollID));
      var n := Decimal.ParseInt64(if optionID in fields then fields[optionID] else "");
      HSet(pollID, optionID, Decimal.Print(n + 1), n + 1);
    }

    /** One script, so both keys move together. */
    method IncrementVote(pollID: string, optionID: string, up: bool) returns (ok: bool)
      requires Valid() && NoColon(pollID)
      modifies this`db, this`results, this`counters
      ensures Valid() && ok == up
      ensures Now() == if up then Protocol.IncrementVote(old(Now()), pollID, optionID) else old(Now())
      ensures up ==>
        var hash := if pollID in old(results) then old(results)[pollID] else map[];
        results == old(results)[pollID := hash[optionID := (if optionID in hash then hash[optionID] else 0) + 1]]
      ensures up ==>
        var key := (pollID, optionID);
        counters == old(counters)[key := (if key in old(counters) then old(counters)[key] else 0) + 1]
    {
      if !up {
        return false;
      }
      Incr(pollID, optionID);
      HIncrBy(pollID, optionID);
      ok := true;
    }

    /** HGETALL, then the two loops: votes and total in option order, then the percentages of that total. */
    method GetResults(pollID: string, options: seq<PollOption>, up: bool)
      returns (shown: seq<OptionResult>, total: nat, ok: bool)
      requires Valid() && NoColon(pollID)
      ensures ok == up
      ensures up ==> shown == Protocol.GetResults(Now(), pollID, options) && total == Sum(Votes(shown))
      ensures up ==> |shown| == |options|
      ensures up ==> forall k | 0 <= k < |options| ::
        && shown[k].optionId == options[k].id && shown[k].option == options[k].text
        && shown[k].votes ==
             (if pollID in results && options[k].id in results[pollID] then results[pollID][options[k].id] else 0)
        && shown[k].percentage == (if total == 0 then 0.0 else shown[k].votes as real / total as real * 100.0)
    {
      shown, total, ok := [], 0, up;
      if !up {
        return;
      }
      HashRead(db, results, counters, pollID);
      var values := FieldsAt(db, ResultKey(pollID));
      ghost var hash := Hash(Now(), pollID);
      ghost var wanted := VotesOf(options, hash);
      assert values == Printed(hash);
      for k := 0 to |options|
        invariant |shown| == k && total == Sum(wanted[..k])
        invariant forall j | 0 <= j < k :: shown[j] == OptionResult(options[j].id, options[j].text, wanted[j], 0.0)
      {
        var opt := options[k];
        FieldReads(hash, opt.id);
        var votes := Decimal.ParseInt64(if opt.id in values then values[opt.id] else "");
        assert votes == wanted[k];
        assert wanted[..k + 1][..k] == wanted[..k];
        total := total + votes;
        shown := shown + [OptionResult(opt.id, opt.text, votes, 0.0)];
      }
      assert wanted[..|options|] == wanted;
      for i := 0 to |shown|
        invariant |shown| == |options|
        invariant forall j | 0 <= j < |shown| ::
          shown[j] == OptionResult(options[j].id, options[j].text, wanted[j],
                                   if j < i then Percentage(wanted[j], total) else 0.0)
      {
        shown := shown[i := shown[i].(percentage := Percentage(shown[i].votes, total))];
      }
      assert Votes(shown) == wanted;
      assert shown == Protocol.GetResults(Now(), pollID, options);
      SnapshotPresents(options, hash);
    }

    method PublishUpdate(event: Event, up: bool) returns (ok: bool)
      modifies this`events
      ensures ok == up && events == if up then old(events) + [event] else old(events)
    {
      if up {
        events := events + [event];
      }
      ok := up;
    }

    /**
     Seeding round trip: on a poll whose hash is missing, seeding and reading back gives exactly the seed in option
     order, 0 where it has no entry, with the total its sum; on an existing hash the seed has no effect.
     */
    method SeedThenRead(pollID: string, options: seq<PollOption>, seed: map<string, nat>)
      returns (shown: seq<OptionResult>, total: nat)
      requires Valid() && NoColon(pollID)
      modifies this`db, this`results
      ensures pollID !in old(results) ==> Votes(shown) == VotesOf(options, seed)
      ensures pollID in old(results) ==> Votes(shown) == VotesOf(options, old(results)[pollID])
      ensures total == Sum(Votes(shown))
    {
      var ok := EnsureResults(pollID, options, seed, true);
      shown, total, ok := GetResults(pollID, options, true);
      Sequential.SeededThenRead(old(Now()), pollID, options, seed);
    }
  }
}
