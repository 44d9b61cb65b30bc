/** The Redis key space. Poll ids reach it as the hexadecimal form of an ObjectID, so they hold no colon. */
module Keys {
  function ResultKey(pollID: string): string {
    "poll:" + pollID + ":results"
  }

  function OptionCounterKey(pollID: string, optionID: string): string {
    "poll:" + pollID + ":option:" + optionID
  }

  function UpdateChannel(pollID: string): string {
    "poll:" + pollID + ":updates"
  }

  predicate NoColon(s: string) {
    ':' !in s
  }

  /** A colon-free head is cut off uniquely by the first colon. */
  lemma HeadIsUnique(p: string, q: string, s: string, t: string)
    requires NoColon(p) && NoColon(q)
    ensures p + ":" + s == q + ":" + t ==> p == q && s == t
  {
    var whole, other := p + ":" + s, q + ":" + t;
    assert whole[|p|] == ':' && other[|q|] == ':';
    assert forall i | 0 <= i < |p| :: whole[i] == p[i] && p[i] in p;
    assert forall i | 0 <= i < |q| :: other[i] == q[i] && q[i] in q;
    if whole == other {
      assert |p| == |q|;
      assert whole[..|p|] == p && other[..|q|] == q;
      assert whole[|p| + 1..] == s && other[|q| + 1..] == t;
    }
  }

  lemma ResultKeyInjective(p: string, q: string)
    requires ResultKey(p) == ResultKey(q)
    ensures p == q
  {
    var k := ResultKey(p);
    assert k[5..|k| - 8] == p && ResultKey(q)[5..|k| - 8] == q;
  }

  lemma UpdateChannelInjective(p: string, q: string)
    requires UpdateChannel(p) == UpdateChannel(q)
    ensures p == q
  {
    var k := UpdateChannel(p);
    assert k[5..|k| - 8] == p && UpdateChannel(q)[5..|k| - 8] == q;
  }

  lemma OptionCounterKeyInjective(p: string, o: string, q: string, r: string)
    requires NoColon(p) && NoColon(q) && OptionCounterKey(p, o) == OptionCounterKey(q, r)
    ensures p == q && o == r
  {
    assert OptionCounterKey(p, o)[5..] == p + ":" + ("option:" + o);
    assert OptionCounterKey(q, r)[5..] == q + ":" + ("option:" + r);
    HeadIsUnique(p, q, "option:" + o, "option:" + r);
    assert ("option:" + o)[7..] == o && ("option:" + r)[7..] == r;
  }

  /** The result key of a colon-free poll id is no counter key, whatever the other poll and option ids. */
  lemma ResultKeyIsNoCounterKey(p: string, q: string, o: string)
    requires NoColon(p)
    ensures ResultKey(p) != OptionCounterKey(q, o)
  {
    var key, other := ResultKey(p), OptionCounterKey(q, o);
    assert key[5 + |p|] == ':' && forall i | 0 <= i < |p| :: key[5 + i] == p[i] && p[i] in p;
    assert other[5 + |q|] == ':' && other[6 + |q|] == 'o';
    assert key[6 + |p|] == 'r';
    assert |key| == |p| + 13 && |other| == |q| + 13 + |o|;
  }

  /** A channel has no result key's name, and no counter key's when the channel's poll id is colon-free. */
  lemma ChannelIsNoKey(p: string, q: string, o: string)
    ensures UpdateChannel(p) != ResultKey(q)
    ensures NoColon(p) ==> UpdateChannel(p) != OptionCounterKey(q, o)
  {
    var channel, key, other := UpdateChannel(p), ResultKey(q), OptionCounterKey(q, o);
    assert channel[|channel| - 7] == 'u' && key[|key| - 7] == 'r';
    assert channel[5 + |p|] == ':' && forall i | 0 <= i < |p| :: channel[5 + i] == p[i] && p[i] in p;
    assert other[5 + |q|] == ':' && other[6 + |q|] == 'o';
    assert channel[6 + |p|] == 'u';
    assert |channel| == |p| + 13 && |other| == |q| + 13 + |o|;
  }

  /** Without the colon-free condition the two kinds of key do collide. */
  lemma ColonsCollide()
    ensures ResultKey("a:option:b") == OptionCounterKey("a", "b:results")
  {
    assert "poll:" + "a:option:b" + ":results" == "poll:a:option:b:results";
    assert "poll:" + "a" + ":option:" + "b:results" == "poll:a:option:b:results";
  }
}
