/**
 From the subscriber goroutines of a poll to the frames its clients receive. A goroutine lists the clients, offers the
 payload to each without blocking, and only then takes its next payload; each client has a bounded queue and a write
 pump. Usually a poll has one such goroutine, but a stopped one may still be at work when the next one starts.
 */
module Delivery {
  const SendBufferSize := 256

  /** A payload with the number of the goroutine that sent it, a label of the model: only the payload is sent. */
  datatype Frame = Frame(source: nat, payload: string)

  datatype Pump = Idle | Holding(frame: Frame) | Stopped

  /** `since`: for each goroutine, how many broadcasts it had begun when the client registered. */
  datatype Client = Client(inHub: bool, open: bool, queue: seq<Frame>, pump: Pump, written: seq<Frame>, since: seq<nat>)

  /** `log`: the broadcasts a goroutine has begun; `pending`: the clients its last one has listed and not yet served. */
  datatype Source = Source(log: seq<string>, pending: set<nat>)

  datatype State = State(clients: seq<Client>, sources: seq<Source>)

  datatype Step =
    | Join
    | Subscribe                           // another subscriber goroutine starts
    | Begin(source: nat, payload: string) // Broadcast: list the clients
    | Offer(source: nat, to: nat)         // Broadcast: the next client of the list
    | Hangup(client: nat)                 // the peer goes away, or the read pump ends
    | Leave(client: nat)                  // Unregister, after the connection was closed
    | Take(client: nat)                   // the write pump receives from the queue
    | Write(client: nat, ok: bool)        // the write pump writes a frame
    | PingFails(client: nat)

  function Listed(clients: seq<Client>): set<nat> {
    set i | 0 <= i < |clients| && clients[i].inHub
  }

  function Begun(sources: seq<Source>): seq<nat> {
    seq(|sources|, g requires 0 <= g < |sources| => |sources[g].log|)
  }

  /** The non-blocking send: queue the frame, or close the connection when the queue is full. */
  function Offered(c: Client, f: Frame): Client {
    if |c.queue| < SendBufferSize then c.(queue := c.queue + [f]) else c.(open := false)
  }

  /** What a client's own steps do to it. */
  function Moved(c: Client, step: Step): Client {
    match step
    case Hangup(_) => c.(open := false)
    case Leave(_) => if c.open then c else c.(inHub := false)
    case Take(_) => if c.pump.Idle? && c.queue != [] then c.(pump := Holding(c.queue[0]), queue := c.queue[1..]) else c
    case Write(_, ok) =>
      if !c.pump.Holding? then c
      else if c.open && ok then c.(written := c.written + [c.pump.frame], pump := Idle)
      else c.(pump := Stopped, open := false)
    case PingFails(_) => if c.pump.Idle? then c.(pump := Stopped, open := false) else c
    case _ => c
  }

  predicate Current(s: State, g: nat, i: nat) {
    g < |s.sources| && s.sources[g].log != [] && i in s.sources[g].pending && i < |s.clients|
  }

  function Newest(src: Source, g: nat): Frame
    requires src.log != []
  {
    Frame(g, src.log[|src.log| - 1])
  }

  function Next(s: State, step: Step): State {
    match step
    case Join => s.(clients := s.clients + [Client(true, true, [], Idle, [], Begun(s.sources))])
    case Subscribe => s.(sources := s.sources + [Source([], {})])
    case Begin(g, m) =>
      if g < |s.sources| && s.sources[g].pending == {} then
        s.(sources := s.sources[g := Source(s.sources[g].log + [m], Listed(s.clients))])
      else s
    case Offer(g, i) =>
      if Current(s, g, i) then
        var src := s.sources[g];
        State(s.clients[i := Offered(s.clients[i], Newest(src, g))],
              s.sources[g := src.(pending := src.pending - {i})])
      else s
    case _ =>
      var i := step.client;
      if i < |s.clients| then s.(clients := s.clients[i := Moved(s.clients[i], step)]) else s
  }

  function After(run: seq<Step>): State {
    if run == [] then State([], []) else Next(After(run[..|run| - 1]), run[|run| - 1])
  }

  // ----- What one goroutine sent -----

  /** The payloads of the frames that goroutine g sent. */
  function From(frames: seq<Frame>, g: nat): seq<string> {
    if frames == [] then []
    else
      var last := frames[|frames| - 1];
      From(frames[..|frames| - 1], g) + if last.source == g then [last.payload] else []
  }

  lemma FromSent(a: seq<Frame>, f: Frame, g: nat)
    ensures From(a + [f], g) == From(a, g) + if f.source == g then [f.payload] else []
  {
    assert (a + [f])[..|a|] == a;
  }

  lemma {:induction false} FromConcat(a: seq<Frame>, b: seq<Frame>, g: nat)
    ensures From(a + b, g) == From(a, g) + From(b, g)
  {
    if b == [] {
      assert a + b == a;
    } else {
      var rest, last := b[..|b| - 1], b[|b| - 1];
      FromConcat(a, rest, g);
      FromSent(a + rest, last, g);
      assert a + b == a + rest + [last];
    }
  }

  lemma {:induction false} OnlySource(frames: seq<Frame>)
    requires forall f | f in frames :: f.source == 0
    ensures |From(frames, 0)| == |frames|
    ensures forall k | 0 <= k < |frames| :: From(frames, 0)[k] == frames[k].payload
  {
    if frames != [] {
      OnlySource(frames[..|frames| - 1]);
    }
  }

  function Held(p: Pump): seq<Frame> {
    if p.Holding? then [p.frame] else []
  }

  /** Written, in hand and queued: everything a client was sent and that is not lost. */
  function Sent(c: Client): seq<Frame> {
    c.written + Held(c.pump) + c.queue
  }

  /** The first broadcast of goroutine g that lists the client. */
  function Since(c: Client, g: nat): nat {
    if g < |c.since| then c.since[g] else 0
  }

  /** How many broadcasts the client has been offered, counted from the goroutine's first. */
  function OfferedSoFar(src: Source, i: nat): int {
    if i in src.pending then |src.log| - 1 else |src.log|
  }

  /** From each goroutine, a client was sent exactly the broadcasts it was offered so far, in order. */
  predicate Flows(c: Client, i: nat, src: Source, g: nat) {
    && 0 <= Since(c, g) <= OfferedSoFar(src, i) <= |src.log|
    && (c.open ==> From(Sent(c), g) == src.log[Since(c, g)..OfferedSoFar(src, i)])
    && From(c.written, g) <= src.log[Since(c, g)..]
  }

  predicate Sound(c: Client, n: nat) {
    && |c.queue| <= SendBufferSize && |c.since| <= n
    && (c.open ==> c.inHub && !c.pump.Stopped?)
    && (forall f | f in Sent(c) :: f.source < n)
  }

  predicate AllFlow(s: State) {
    && (forall g | 0 <= g < |s.sources| ::
          && (forall i | i in s.sources[g].pending :: i < |s.clients|)
          && (s.sources[g].pending != {} ==> s.sources[g].log != []))
    && (forall i | 0 <= i < |s.clients| :: Sound(s.clients[i], |s.sources|))
    && (forall i, g | 0 <= i < |s.clients| && 0 <= g < |s.sources| :: Flows(s.clients[i], i, s.sources[g], g))
  }

  lemma PrefixOfSlice(w: seq<string>, rest: seq<string>, log: seq<string>, a: nat, b: nat)
    requires a <= b <= |log| && w + rest == log[a..b]
    ensures w <= log[a..]
  {
    assert w == log[a..b][..|w|];
    assert log[a..][..|w|] == w;
  }

  /** A client's own steps move frames along; the only one that adds to what is written is a successful write. */
  lemma MovedSent(c: Client, step: Step)
    ensures var c' := Moved(c, step);
      && c'.since == c.since && (c'.open ==> c.open && Sent(c') == Sent(c))
      && (c'.written != c.written ==> c.open && c'.open && c'.written <= Sent(c))
  {
    var c' := Moved(c, step);
    if step.Write? && c.pump.Holding? && c.open && step.ok {
      assert Sent(c) == c'.written + c'.queue;
    }
  }

  lemma MovedSources(c: Client, step: Step, n: nat)
    requires Sound(c, n)
    ensures Sound(Moved(c, step), n)
  {
  }

  lemma MovedFlows(c: Client, step: Step, i: nat, src: Source, g: nat)
    requires Flows(c, i, src, g)
    ensures Flows(Moved(c, step), i, src, g)
  {
    var c' := Moved(c, step);
    MovedSent(c, step);
    if c'.written != c.written {
      var rest := Sent(c)[|c'.written|..];
      assert Sent(c) == c'.written + rest;
      FromConcat(c'.written, rest, g);
      PrefixOfSlice(From(c'.written, g), From(rest, g), src.log, Since(c, g), OfferedSoFar(src, i));
    }
  }

  lemma OfferedSound(c: Client, f: Frame, n: nat)
    requires Sound(c, n) && f.source < n
    ensures Sound(Offered(c, f), n)
  {
  }

  lemma OfferedSent(c: Client, f: Frame, g: nat)
    requires |c.queue| < SendBufferSize
    ensures From(Sent(Offered(c, f)), g) == From(Sent(c), g) + if f.source == g then [f.payload] else []
  {
    assert Sent(Offered(c, f)) == Sent(c) + [f];
    FromSent(Sent(c), f, g);
  }

  /** An offer by goroutine g extends what the client was sent by g with its newest payload. */
  lemma OfferedFlows(c: Client, i: nat, src: Source, g: nat)
    requires Flows(c, i, src, g) && src.log != [] && i in src.pending
    ensures Flows(Offered(c, Newest(src, g)), i, src.(pending := src.pending - {i}), g)
  {
    if c.open && |c.queue| < SendBufferSize {
      var f, n := Newest(src, g), |src.log|;
      OfferedSent(c, f, g);
      assert src.log[Since(c, g)..n] == src.log[Since(c, g)..n - 1] + [src.log[n - 1]];
    }
  }

  /** An offer by another goroutine leaves it as it was. */
  lemma OtherFlows(c: Client, i: nat, src: Source, g: nat, f: Frame)
    requires Flows(c, i, src, g) && f.source != g
    ensures Flows(Offered(c, f), i, src, g)
  {
    if |c.queue| < SendBufferSize {
      OfferedSent(c, f, g);
    }
  }

  lemma BegunFlows(c: Client, i: nat, src: Source, g: nat, m: string, listed: set<nat>)
    requires Flows(c, i, src, g) && src.pending == {} && (c.open ==> i in listed)
    ensures Flows(c, i, Source(src.log + [m], listed), g)
  {
    var a := Since(c, g);
    assert (src.log + [m])[a..|src.log|] == src.log[a..];
    assert (src.log + [m])[a..] == src.log[a..] + [m];
  }

  lemma NewFlows(s: State, g: nat)
    requires AllFlow(s) && g < |s.sources|
    ensures Flows(Client(true, true, [], Idle, [], Begun(s.sources)), |s.clients|, s.sources[g], g)
  {
  }

  lemma {:induction false} FromNone(frames: seq<Frame>, g: nat)
    requires forall f | f in frames :: f.source != g
    ensures From(frames, g) == []
  {
    if frames != [] {
      FromNone(frames[..|frames| - 1], g);
    }
  }

  lemma SubscribedFlows(c: Client, i: nat, g: nat)
    requires Sound(c, g)
    ensures Flows(c, i, Source([], {}), g)
  {
    FromNone(Sent(c), g);
    FromNone(c.written, g);
  }

  lemma FlowsStep(s: State, step: Step, i: nat, g: nat)
    requires AllFlow(s)
    requires i < |Next(s, step).clients| && g < |Next(s, step).sources|
    ensures Flows(Next(s, step).clients[i], i, Next(s, step).sources[g], g)
  {
    assert i < |s.clients| && g < |s.sources| ==> Flows(s.clients[i], i, s.sources[g], g);
    match step
    case Join =>
      if i == |s.clients| {
        NewFlows(s, g);
      }
    case Subscribe =>
      if g == |s.sources| {
        SubscribedFlows(s.clients[i], i, g);
      }
    case Begin(h, m) =>
      if h == g && s.sources[g].pending == {} {
        assert Sound(s.clients[i], |s.sources|);
        BegunFlows(s.clients[i], i, s.sources[g], g, m, Listed(s.clients));
      }
    case Offer(h, j) =>
      if Current(s, h, j) {
        if j == i && h == g {
          OfferedFlows(s.clients[i], i, s.sources[g], g);
        } else if j == i {
          OtherFlows(s.clients[i], i, s.sources[g], g, Newest(s.sources[h], h));
        }
      }
    case _ =>
      if step.client == i {
        MovedFlows(s.clients[i], step, i, s.sources[g], g);
      }
  }

  lemma SoundStep(s: State, step: Step, i: nat)
    requires AllFlow(s) && i < |Next(s, step).clients|
    ensures Sound(Next(s, step).clients[i], |Next(s, step).sources|)
  {
    assert i < |s.clients| ==> Sound(s.clients[i], |s.sources|);
    match step
    case Offer(h, j) =>
      if Current(s, h, j) && j == i {
        OfferedSound(s.clients[i], Newest(s.sources[h], h), |s.sources|);
      }
    case Join =>
    case Subscribe =>
    case Begin(_, _) =>
    case _ =>
      if step.client == i {
        MovedSources(s.clients[i], step, |s.sources|);
      }
  }

  lemma PendingStep(s: State, step: Step, g: nat)
    requires AllFlow(s) && g < |Next(s, step).sources|
    ensures var s' := Next(s, step);
      && (forall i | i in s'.sources[g].pending :: i < |s'.clients|)
      && (s'.sources[g].pending != {} ==> s'.sources[g].log != [])
  {
  }

  lemma {:induction false} Flowing(run: seq<Step>)
    ensures AllFlow(After(run))
  {
    if run != [] {
      var s, step := After(run[..|run| - 1]), run[|run| - 1];
      Flowing(run[..|run| - 1]);
      var s' := Next(s, step);
      forall g | 0 <= g < |s'.sources|
        ensures (forall i | i in s'.sources[g].pending :: i < |s'.clients|)
        ensures s'.sources[g].pending != {} ==> s'.sources[g].log != []
      {
        PendingStep(s, step, g);
      }
      forall i | 0 <= i < |s'.clients| ensures Sound(s'.clients[i], |s'.sources|) {
        SoundStep(s, step, i);
      }
      forall i, g | 0 <= i < |s'.clients| && 0 <= g < |s'.sources| ensures Flows(s'.clients[i], i, s'.sources[g], g) {
        FlowsStep(s, step, i, g);
      }
    }
  }

  /**
   Over every run, however many goroutines broadcast at once: what a client was written from each goroutine is a gapless
   prefix, in order, of that goroutine's broadcasts from the first that listed the client on; nothing else is written;
   its queue never exceeds 256; and while the connection is open nothing it was offered is lost.
   */
  lemma FramesArePrefix(run: seq<Step>, i: nat)
    requires i < |After(run).clients|
    ensures var s := After(run);
      var c := s.clients[i];
      && |c.queue| <= SendBufferSize
      && (forall f | f in c.written :: f.source < |s.sources|)
      && (forall g | 0 <= g < |s.sources| ::
            && Since(c, g) <= |s.sources[g].log|
            && From(c.written, g) <= s.sources[g].log[Since(c, g)..]
            && (c.open && i !in s.sources[g].pending ==> From(Sent(c), g) == s.sources[g].log[Since(c, g)..]))
  {
    Flowing(run);
    var s := After(run);
    var c := s.clients[i];
    assert Sound(c, |s.sources|);
    forall g | 0 <= g < |s.sources| ensures Flows(c, i, s.sources[g], g) {
    }
  }

  /** With one goroutine the frames themselves are the prefix. */
  lemma OneSourceFrames(run: seq<Step>, i: nat)
    requires i < |After(run).clients| && |After(run).sources| == 1
    ensures var c, log := After(run).clients[i], After(run).sources[0].log;
      && Since(c, 0) + |c.written| <= |log|
      && forall k | 0 <= k < |c.written| :: c.written[k].payload == log[Since(c, 0) + k]
  {
    FramesArePrefix(run, i);
    OnlySource(After(run).clients[i].written);
  }

  // ----- When a connection is closed, and that everything arrives -----

  /**
   In every run an open connection closes exactly when the peer hangs up, when the pump fails to write a frame or a
   ping, or when a frame is offered while 256 are queued; a closed connection never opens again; and a client is listed
   until it leaves with its connection closed.
   */
  lemma ClosesIff(run: seq<Step>, step: Step, i: nat)
    requires i < |After(run).clients|
    ensures var s, s' := After(run), After(run + [step]);
      var c := s.clients[i];
      && i < |s'.clients|
      && (c.open ==> (!s'.clients[i].open <==>
            || step == Hangup(i)
            || (step == Write(i, false) && c.pump.Holding?)
            || (step == PingFails(i) && c.pump.Idle?)
            || (step.Offer? && step.to == i && step.source < |s.sources| && i in s.sources[step.source].pending
                && |c.queue| == 256)))
      && (!c.open ==> !s'.clients[i].open)
      && (i in Listed(s'.clients) <==> i in Listed(s.clients) && !(step == Leave(i) && !c.open))
      && (i in Listed(s.clients) <==> c.inHub)
  {
    Follow(run, step);
    Flowing(run);
    assert Sound(After(run).clients[i], |After(run).sources|);
  }

  lemma Follow(run: seq<Step>, step: Step)
    ensures After(run + [step]) == Next(After(run), step)
  {
    assert (run + [step])[..|run|] == run;
  }

  /** A client that joins is listed and connected, was sent nothing, and is due every broadcast begun from now on. */
  lemma JoinsOpen(run: seq<Step>)
    ensures var s, s' := After(run), After(run + [Join]);
      && |s'.clients| == |s.clients| + 1 && s'.clients[..|s.clients|] == s.clients && s'.sources == s.sources
      && var c := s'.clients[|s.clients|];
        && c.open && |s.clients| in Listed(s'.clients) && Sent(c) == []
        && forall g | 0 <= g < |s.sources| :: Since(c, g) == |s.sources[g].log| && |s.clients| !in s.sources[g].pending
  {
    Follow(run, Join);
    Flowing(run);
  }

  /** The state after the write pump has taken and written n frames. */
  function Pumped(s: State, i: nat, n: nat): State
    decreases n
  {
    if n == 0 then s else Next(Next(Pumped(s, i, n - 1), Take(i)), Write(i, true))
  }

  /** Taking and writing one frame. */
  lemma PumpsOne(s: State, i: nat)
    requires i < |s.clients| && s.clients[i].open && s.clients[i].pump.Idle? && s.clients[i].queue != []
    ensures var c, s' := s.clients[i], Next(Next(s, Take(i)), Write(i, true));
      && |s'.clients| == |s.clients| && s'.sources == s.sources
      && s'.clients[i] == c.(queue := c.queue[1..], written := c.written + [c.queue[0]])
  {
  }

  /** From s to s' client i has been written n frames of its queue, and no more. */
  predicate Written(s: State, s': State, i: nat, n: nat)
    requires i < |s.clients| && n <= |s.clients[i].queue|
  {
    var c := s.clients[i];
    && |s'.clients| == |s.clients| && s'.sources == s.sources
    && s'.clients[i] == c.(queue := c.queue[n..], written := c.written + c.queue[..n])
  }

  lemma WrittenOneMore(s: State, s': State, i: nat, n: nat)
    requires i < |s.clients| && s.clients[i].open && s.clients[i].pump.Idle?
    requires n < |s.clients[i].queue| && Written(s, s', i, n)
    ensures Written(s, Next(Next(s', Take(i)), Write(i, true)), i, n + 1)
  {
    var queue, written := s.clients[i].queue, s.clients[i].written;
    PumpsOne(s', i);
    assert queue[n..][1..] == queue[n + 1..];
    assert queue[..n] + [queue[n]] == queue[..n + 1];
    assert written + queue[..n] + [queue[n]] == written + (queue[..n] + [queue[n]]);
  }

  lemma {:induction false} PumpsOut(s: State, i: nat, n: nat)
    requires i < |s.clients| && s.clients[i].open && s.clients[i].pump.Idle? && n <= |s.clients[i].queue|
    ensures Written(s, Pumped(s, i, n), i, n)
    decreases n
  {
    if n > 0 {
      PumpsOut(s, i, n - 1);
      WrittenOneMore(s, Pumped(s, i, n - 1), i, n - 1);
    }
  }

  /** A write empties the pump's hand. */
  lemma HandIsEmptied(s: State, i: nat)
    requires i < |s.clients| && s.clients[i].open && !s.clients[i].pump.Stopped?
    ensures var c, s' := s.clients[i], Next(s, Write(i, true));
      && |s'.clients| == |s.clients| && s'.sources == s.sources
      && s'.clients[i] == c.(pump := Idle, written := c.written + Held(c.pump))
  {
    assert s.clients[i].written + [] == s.clients[i].written;
  }

  /**
   From every reachable state, once a client with an open connection has been offered everything, its write pump alone
   brings it everything: the frames written from each goroutine are then all its broadcasts since the first that listed
   the client, and the connection is still open.
   */
  lemma EverythingArrives(run: seq<Step>, i: nat)
    requires i < |After(run).clients| && After(run).clients[i].open
    requires forall g | 0 <= g < |After(run).sources| :: i !in After(run).sources[g].pending
    ensures var s := After(run);
      var s' := Pumped(Next(s, Write(i, true)), i, |s.clients[i].queue|);
      && i < |s'.clients| && s'.clients[i].open && s'.sources == s.sources
      && s'.clients[i].written == Sent(s.clients[i])
      && forall g | 0 <= g < |s.sources| ::
           && Since(s.clients[i], g) <= |s.sources[g].log|
           && From(s'.clients[i].written, g) == s.sources[g].log[Since(s.clients[i], g)..]
  {
    var s := After(run);
    var c := s.clients[i];
    Flowing(run);
    assert Sound(c, |s.sources|);
    HandIsEmptied(s, i);
    PumpsOut(Next(s, Write(i, true)), i, |c.queue|);
    assert c.queue[..|c.queue|] == c.queue;
    FramesArePrefix(run, i);
  }

  // ----- The order of the list does not matter -----

  function OfferAll(clients: seq<Client>, listed: set<nat>, f: Frame): seq<Client> {
    seq(|clients|, i requires 0 <= i < |clients| => if i in listed then Offered(clients[i], f) else clients[i])
  }

  function Offers(s: State, g: nat, order: seq<nat>): State {
    if order == [] then s else Next(Offers(s, g, order[..|order| - 1]), Offer(g, order[|order| - 1]))
  }

  predicate Enumerates(order: seq<nat>, listed: set<nat>) {
    (forall i, j | 0 <= i < j < |order| :: order[i] != order[j]) && (set i | 0 <= i < |order| :: order[i]) == listed
  }

  lemma WithoutLast(order: seq<nat>, listed: set<nat>)
    requires order != [] && Enumerates(order, listed)
    ensures order[|order| - 1] in listed
    ensures Enumerates(order[..|order| - 1], listed - {order[|order| - 1]})
  {
    var last, rest := order[|order| - 1], order[..|order| - 1];
    forall i | i in listed - {last} ensures i in set k | 0 <= k < |rest| :: rest[k] {
      var k :| 0 <= k < |order| && order[k] == i;
      assert rest[k] == i;
    }
    forall k | 0 <= k < |rest| ensures rest[k] in listed - {last} {
      assert order[k] in listed;
    }
  }

  lemma OfferAllNext(clients: seq<Client>, listed: set<nat>, i: nat, f: Frame)
    requires i in listed && i < |clients|
    ensures OfferAll(clients, listed - {i}, f)[i := Offered(clients[i], f)] == OfferAll(clients, listed, f)
    ensures OfferAll(clients, listed - {i}, f)[i] == clients[i]
  {
  }

  lemma OfferNone(clients: seq<Client>, f: Frame)
    ensures OfferAll(clients, {}, f) == clients
  {
  }

  /** What the listed clients have been offered by goroutine g's newest broadcast. */
  function Reached(s: State, g: nat, listed: set<nat>): State
    requires g < |s.sources| && s.sources[g].log != []
  {
    var src := s.sources[g];
    State(OfferAll(s.clients, listed, Newest(src, g)), s.sources[g := src.(pending := src.pending - listed)])
  }

  lemma ReachedNext(s: State, g: nat, listed: set<nat>, i: nat)
    requires g < |s.sources| && s.sources[g].log != [] && i < |s.clients|
    requires i in listed && listed <= s.sources[g].pending
    ensures Next(Reached(s, g, listed - {i}), Offer(g, i)) == Reached(s, g, listed)
  {
    var src := s.sources[g];
    OfferAllNext(s.clients, listed, i, Newest(src, g));
    assert src.pending - (listed - {i}) - {i} == src.pending - listed;
    assert Current(Reached(s, g, listed - {i}), g, i);
  }

  /** Whatever order the clients are iterated in, a broadcast leaves them in the same state. */
  lemma {:induction false} OrderIsIrrelevant(s: State, g: nat, order: seq<nat>, listed: set<nat>)
    requires AllFlow(s) && g < |s.sources| && s.sources[g].log != []
    requires Enumerates(order, listed) && listed <= s.sources[g].pending
    ensures Offers(s, g, order) == Reached(s, g, listed)
  {
    if order == [] {
      OfferNone(s.clients, Newest(s.sources[g], g));
      assert s.sources[g].pending - listed == s.sources[g].pending;
    } else {
      var last := order[|order| - 1];
      WithoutLast(order, listed);
      OrderIsIrrelevant(s, g, order[..|order| - 1], listed - {last});
      ReachedNext(s, g, listed, last);
    }
  }

  lemma WholeBroadcast(s: State, g: nat, payload: string)
    requires g < |s.sources| && s.sources[g].pending == {}
    ensures Reached(Next(s, Begin(g, payload)), g, Listed(s.clients))
      == State(OfferAll(s.clients, Listed(s.clients), Frame(g, payload)),
               s.sources[g := Source(s.sources[g].log + [payload], {})])
  {
    assert Listed(s.clients) - Listed(s.clients) == {};
  }

  /** The clients of one poll, changed in place by its subscribers. */
  class Room {
    var clients: seq<Client>
    ghost var sources: seq<Source>

    ghost function Now(): State
      reads this
    {
      State(clients, sources)
    }

    constructor ()
      ensures Now() == State([], [])
    {
      clients, sources := [], [];
    }

    /** One broadcast of goroutine g: the list is taken once, and then walked in an order the map iteration chooses. */
    method Broadcast(g: nat, payload: string)
      requires g < |sources| && sources[g].pending == {}
      modifies this
      ensures sources == old(sources)[g := Source(old(sources)[g].log + [payload], {})]
      ensures Now() == Reached(Next(old(Now()), Begin(g, payload)), g, Listed(old(clients)))
      ensures |clients| == |old(clients)|
      ensures forall i | 0 <= i < |clients| :: var c, c' := old(clients)[i], clients[i];
        if !c.inHub then c' == c
        else if |c.queue| < 256 then c' == c.(queue := c.queue + [Frame(g, payload)])
        else c' == c.(open := false)
    {
      var list := set i | 0 <= i < |clients| && clients[i].inHub;
      sources := sources[g := sources[g].(log := sources[g].log + [payload])];
      var todo := list;
      while todo != {}
        invariant todo <= list && |clients| == |old(clients)|
        invariant sources == old(sources)[g := Source(old(sources)[g].log + [payload], {})]
        invariant forall i | 0 <= i < |clients| ::
          clients[i] == if i in list && i !in todo then Offered(old(clients)[i], Frame(g, payload)) else old(clients)[i]
        decreases |todo|
      {
        var c :| c in todo;
        if |clients[c].queue| < SendBufferSize {
          clients := clients[c := clients[c].(queue := clients[c].queue + [Frame(g, payload)])];
        } else {
          clients := clients[c := clients[c].(open := false)];
        }
        todo := todo - {c};
      }
      WholeBroadcast(old(Now()), g, payload);
      assert clients == OfferAll(old(clients), list, Frame(g, payload));
    }
  }
}
