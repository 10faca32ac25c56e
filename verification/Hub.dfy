/**
 * The WebSocket hub after authentication. Each connection has three concurrent activities (the serving
 * goroutine with its reader, the subscriber and the writer) around one bounded channel. A send on a closed
 * channel is a step of the model, and shown never to happen.
 */
module Hub {
  import opened Protocol
  import opened Subsequences

  const CAPACITY: nat := 32

  type ConnId = nat

  /** The goroutine that runs ServeHTTP: each constructor names what it has done last. */
  datatype Server =
    | Accepted
    | Registered
    | Greeted
    | Serving
    | Broken
    | Unregistered
    | Closed
    | Cancelled
    | Joined
    | Returned

  datatype Subscriber = NotSubscribed | Waiting | Carrying(envelope: Envelope) | Leaving | Done

  datatype Writer = NotWriting | Ready | Writing(envelope: Envelope) | Dead

  datatype Conn = Conn(
    server: Server,
    subscriber: Subscriber,
    writer: Writer,
    send: seq<Envelope>,
    sendClosed: bool,
    cancelled: bool,
    socketClosed: bool,
    panicked: bool,
    fed: seq<Envelope>,
    written: seq<Envelope>)

  const FRESH: Conn := Conn(Accepted, NotSubscribed, NotWriting, [], false, false, false, false, [], [])

  datatype Turn =
    // the serving goroutine
    | Register
    | Greet
    | Spawn
    | ReadFails
    | Unregister
    | CloseSocket
    | Cancel
    | Join
    | CloseSend
    // the subscriber
    | Receive(envelope: Envelope)
    | ReceiveFails
    | Push
    | Discard
    | Quit
    | SignalDone
    // the writer
    | Take
    | Write
    | WriteFails
    | Die

  /** Which cases of the subscriber's select are ready. */
  predicate CanPush(c: Conn) {
    c.sendClosed || |c.send| < CAPACITY
  }

  predicate CanTurn(c: Conn, t: Turn) {
    match t
    case Register => c.server == Accepted
    case Greet => c.server == Registered
    case Spawn => c.server == Greeted
    case ReadFails => c.server == Serving
    case Unregister => c.server == Broken
    case CloseSocket => c.server == Unregistered
    case Cancel => c.server == Closed
    case Join => c.server == Cancelled && c.subscriber == Done
    case CloseSend => c.server == Joined
    case Receive(_) => c.subscriber == Waiting
    case ReceiveFails => c.subscriber == Waiting
    case Push => c.subscriber.Carrying? && CanPush(c)
    case Discard => c.subscriber.Carrying? && !CanPush(c) && !c.cancelled
    case Quit => c.subscriber.Carrying? && c.cancelled
    case SignalDone => c.subscriber == Leaving
    case Take => c.writer == Ready && c.send != []
    case Write => c.writer.Writing? && !c.socketClosed
    case WriteFails => c.writer.Writing?
    case Die => c.writer == Ready
  }

  function TakeTurn(c: Conn, t: Turn): Conn
    requires CanTurn(c, t)
  {
    match t
    case Register => c.(server := Registered)
    case Greet => c.(server := Greeted)
    case Spawn => c.(server := Serving, writer := Ready, subscriber := Waiting)
    case ReadFails => c.(server := Broken)
    case Unregister => c.(server := Unregistered)
    case CloseSocket => c.(server := Closed, socketClosed := true)
    case Cancel => c.(server := Cancelled, cancelled := true)
    case Join => c.(server := Joined)
    case CloseSend => c.(server := Returned, sendClosed := true)
    case Receive(m) => c.(subscriber := Carrying(m), fed := c.fed + [m])
    case ReceiveFails => c.(subscriber := Leaving)
    case Push =>
      if c.sendClosed then c.(panicked := true)
      else c.(send := c.send + [c.subscriber.envelope], subscriber := Waiting)
    case Discard => c.(subscriber := Waiting)
    case Quit => c.(subscriber := Leaving)
    case SignalDone => c.(subscriber := Done)
    case Take => c.(writer := Writing(c.send[0]), send := c.send[1..])
    case Write => c.(writer := Ready, written := c.written + [c.writer.envelope])
    case WriteFails => c.(writer := Dead)
    case Die => c.(writer := Dead)
  }

  /** All connections, and the registry of those that are being served. */
  datatype Hub = Hub(conns: set<ConnId>, live: map<ConnId, Conn>)

  /** The registry changes under its mutex, when a connection enters and when its reader leaves. */
  function Registry(conns: set<ConnId>, id: ConnId, t: Turn): set<ConnId> {
    if t == Register then conns + {id} else if t == Unregister then conns - {id} else conns
  }

  datatype HubStep = Connect(id: ConnId) | Turns(id: ConnId, turn: Turn)

  predicate HubEnabled(h: Hub, step: HubStep) {
    match step
    case Connect(id) => id !in h.live && id !in h.conns
    case Turns(id, t) => id in h.live && CanTurn(h.live[id], t)
  }

  function HubApply(h: Hub, step: HubStep): Hub
    requires HubEnabled(h, step)
  {
    match step
    case Connect(id) => h.(live := h.live[id := FRESH])
    case Turns(id, t) => Hub(Registry(h.conns, id, t), h.live[id := TakeTurn(h.live[id], t)])
  }

  const EMPTY_HUB: Hub := Hub({}, map[])

  ghost predicate HubRun(hubs: seq<Hub>, steps: seq<HubStep>) {
    && |hubs| == |steps| + 1 && hubs[0] == EMPTY_HUB
    && forall i | 0 <= i < |steps| :: HubEnabled(hubs[i], steps[i]) && hubs[i + 1] == HubApply(hubs[i], steps[i])
  }

  // ---------- the invariant of a connection ----------

  /** What the writer holds: taken from the channel, not written yet. */
  function InHand(w: Writer): seq<Envelope> {
    if w.Writing? then [w.envelope] else []
  }

  function Carried(s: Subscriber): seq<Envelope> {
    if s.Carrying? then [s.envelope] else []
  }

  /** Everything on its way, from the socket back to Redis. */
  function Pipeline(c: Conn): seq<Envelope> {
    c.written + InHand(c.writer) + c.send + Carried(c.subscriber)
  }

  predicate Listed(s: Server) {
    s in {Registered, Greeted, Serving, Broken}
  }

  /** What the three activities know of each other. */
  predicate InStep(c: Conn, listed: bool) {
    && |c.send| <= CAPACITY && !c.panicked
    && (listed <==> Listed(c.server))
    && (c.sendClosed <==> c.server == Returned)
    && (c.cancelled <==> c.server in {Cancelled, Joined, Returned})
    && (c.subscriber.NotSubscribed? <==> c.server in {Accepted, Registered, Greeted})
    && (c.writer.NotWriting? <==> c.server in {Accepted, Registered, Greeted})
    && (c.server in {Joined, Returned} ==> c.subscriber == Done)
  }

  predicate ConnOk(c: Conn, listed: bool) {
    InStep(c, listed) && Sub(Pipeline(c), c.fed)
  }

  function ListedAfter(t: Turn, listed: bool): bool {
    if t == Register then true else if t == Unregister then false else listed
  }

  lemma ServerKeepsStep(c: Conn, listed: bool, t: Turn)
    requires InStep(c, listed) && CanTurn(c, t)
    requires t in {Register, Greet, Spawn, ReadFails, Unregister, CloseSocket, Cancel, Join, CloseSend}
    ensures InStep(TakeTurn(c, t), ListedAfter(t, listed))
  {
  }

  lemma SubscriberKeepsStep(c: Conn, listed: bool, t: Turn)
    requires InStep(c, listed) && CanTurn(c, t)
    requires t.Receive? || t in {ReceiveFails, Push, Discard, Quit, SignalDone}
    ensures InStep(TakeTurn(c, t), listed)
  {
  }

  lemma WriterKeepsStep(c: Conn, listed: bool, t: Turn)
    requires InStep(c, listed) && CanTurn(c, t) && t in {Take, Write, WriteFails, Die}
    ensures InStep(TakeTurn(c, t), listed)
  {
  }

  /** The pipeline loses one message: a discarded one at its end, or the one whose write failed. */
  lemma PipelineLoses(before: seq<Envelope>, m: Envelope, after: seq<Envelope>, fed: seq<Envelope>)
    requires Sub(before + [m] + after, fed)
    ensures Sub(before + after, fed)
  {
    SubWithout(before, m, after);
    SubTransitive(before + after, before + [m] + after, fed);
  }

  /** A discarded message, one in hand at the shutdown, and one whose write failed, are lost. */
  lemma LossKeepsOrder(c: Conn, t: Turn)
    requires CanTurn(c, t) && (t.Discard? || t.Quit? || t.WriteFails?) && Sub(Pipeline(c), c.fed)
    ensures Sub(Pipeline(TakeTurn(c, t)), c.fed)
  {
    var d := TakeTurn(c, t);
    if t.WriteFails? {
      var rest := c.send + Carried(c.subscriber);
      assert Pipeline(c) == c.written + [c.writer.envelope] + rest;
      PipelineLoses(c.written, c.writer.envelope, rest, c.fed);
      assert Pipeline(d) == c.written + rest;
    } else {
      assert Pipeline(c) == Pipeline(d) + [c.subscriber.envelope] + [];
      PipelineLoses(Pipeline(d), c.subscriber.envelope, [], c.fed);
      assert Pipeline(d) + [] == Pipeline(d);
    }
  }

  /** Push, take and write hand a message on to the next place. */
  lemma HandingOn(c: Conn, t: Turn)
    requires CanTurn(c, t) && (t.Push? || t.Take? || t.Write?)
    ensures Pipeline(TakeTurn(c, t)) == Pipeline(c)
  {
    if t.Take? {
      assert [c.send[0]] + c.send[1..] == c.send;
      assert Pipeline(TakeTurn(c, t)) == c.written + ([c.send[0]] + c.send[1..]) + Carried(c.subscriber);
    }
  }

  /** The messages move along, or get lost, but never overtake each other. */
  lemma PipelineKeepsOrder(c: Conn, t: Turn)
    requires CanTurn(c, t) && Sub(Pipeline(c), c.fed)
    requires t.Spawn? ==> c.writer.NotWriting? && c.subscriber.NotSubscribed?
    ensures Sub(Pipeline(TakeTurn(c, t)), TakeTurn(c, t).fed)
  {
    match t
    case Discard | Quit | WriteFails => LossKeepsOrder(c, t);
    case Push | Take | Write => HandingOn(c, t);
    case Receive(m) =>
      SubAppend(Pipeline(c), c.fed, m);
      assert Pipeline(TakeTurn(c, t)) == Pipeline(c) + [m];
    case _ =>
      assert Pipeline(TakeTurn(c, t)) == Pipeline(c);
  }

  lemma TurnKeepsConn(c: Conn, listed: bool, t: Turn)
    requires ConnOk(c, listed) && CanTurn(c, t)
    ensures ConnOk(TakeTurn(c, t), ListedAfter(t, listed))
  {
    PipelineKeepsOrder(c, t);
    match t
    case Receive(_) | ReceiveFails | Push | Discard | Quit | SignalDone => SubscriberKeepsStep(c, listed, t);
    case Take | Write | WriteFails | Die => WriterKeepsStep(c, listed, t);
    case _ => ServerKeepsStep(c, listed, t);
  }

  ghost predicate HubOk(h: Hub) {
    && (forall id | id in h.conns :: id in h.live)
    && forall id | id in h.live :: ConnOk(h.live[id], id in h.conns)
  }

  lemma StepKeepsHub(h: Hub, step: HubStep)
    requires HubOk(h) && HubEnabled(h, step)
    ensures HubOk(HubApply(h, step))
  {
    match step
    case Connect(id) =>
    case Turns(id, t) =>
      TurnKeepsConn(h.live[id], id in h.conns, t);
  }

  lemma {:induction false} HubReachable(hubs: seq<Hub>, steps: seq<HubStep>, i: nat)
    requires HubRun(hubs, steps) && i < |hubs|
    ensures HubOk(hubs[i])
  {
    if 0 < i {
      HubReachable(hubs, steps, i - 1);
      StepKeepsHub(hubs[i - 1], steps[i - 1]);
    }
  }

  // ---------- the theorems ----------

  lemma {:induction false} SubPrefix<T>(xs: seq<T>, rest: seq<T>, ys: seq<T>)
    requires Sub(xs + rest, ys)
    ensures Sub(xs, ys)
    decreases |rest|
  {
    if rest == [] {
      assert xs + rest == xs;
    } else {
      SubFront(xs + rest, ys);
      assert Front(xs + rest) == xs + Front(rest);
      SubPrefix(xs, Front(rest), ys);
    }
  }

  lemma WrittenIsFed(c: Conn)
    requires Sub(Pipeline(c), c.fed)
    ensures Sub(c.written, c.fed)
  {
    var rest := InHand(c.writer) + c.send + Carried(c.subscriber);
    assert Pipeline(c) == c.written + rest;
    SubPrefix(c.written, rest, c.fed);
  }

  /**
   * Channel safety, in every interleaving: nothing is sent on a closed channel (neither has it happened nor can
   * it happen next), the buffer keeps its bound, and a connection whose ServeHTTP has returned has left the
   * registry, its subscriber has ended, and what was written is an ordered part of what Redis delivered.
   */
  lemma ChannelSafety(hubs: seq<Hub>, steps: seq<HubStep>, i: nat, id: ConnId)
    requires HubRun(hubs, steps) && i < |hubs| && id in hubs[i].live
    ensures var c := hubs[i].live[id];
            && !c.panicked && (CanTurn(c, Push) ==> !c.sendClosed)
            && |c.send| <= 32
            && (id in hubs[i].conns <==> c.server in {Registered, Greeted, Serving, Broken})
            && (c.server == Returned ==> id !in hubs[i].conns && c.subscriber == Done)
            && (c.sendClosed ==> c.server == Returned && c.cancelled && c.subscriber == Done)
            && Sub(c.written, c.fed)
  {
    HubReachable(hubs, steps, i);
    var c := hubs[i].live[id];
    WrittenIsFed(c);
  }

  /**
   * The subscriber never waits for the writer. With a message in hand, in any reachable state, it can push
   * exactly when the buffer has room, discard exactly when the buffer is full and the connection not cancelled,
   * and quit exactly when it is cancelled; so it always has a step, and each of them gets rid of the message
   * without a panic.
   */
  lemma SubscriberNeverBlocks(hubs: seq<Hub>, steps: seq<HubStep>, i: nat, id: ConnId)
    requires HubRun(hubs, steps) && i < |hubs| && id in hubs[i].live && hubs[i].live[id].subscriber.Carrying?
    ensures var c := hubs[i].live[id];
            && (CanTurn(c, Push) <==> |c.send| < 32)
            && (CanTurn(c, Discard) <==> |c.send| == 32 && !c.cancelled)
            && (CanTurn(c, Quit) <==> c.cancelled)
            && (forall t | t in {Push, Discard, Quit} && CanTurn(c, t) ::
                  !TakeTurn(c, t).subscriber.Carrying? && !TakeTurn(c, t).panicked)
  {
    HubReachable(hubs, steps, i);
  }

  // ---------- what is lost ----------

  /** What has entered the channel, as far as it is written, in the writer's hand, or in the buffer. */
  function Entered(c: Conn): seq<Envelope> {
    c.written + InHand(c.writer) + c.send
  }

  lemma PushEnters(c: Conn, listed: bool)
    requires ConnOk(c, listed) && CanTurn(c, Push)
    ensures Entered(TakeTurn(c, Push)) == Entered(c) + [c.subscriber.envelope]
  {
    var d := TakeTurn(c, Push);
    assert Entered(d) == c.written + InHand(c.writer) + (c.send + [c.subscriber.envelope]);
  }

  lemma TakeKeeps(c: Conn)
    requires CanTurn(c, Take)
    ensures Entered(TakeTurn(c, Take)) == Entered(c)
  {
    assert [c.send[0]] + c.send[1..] == c.send;
    assert Entered(TakeTurn(c, Take)) == c.written + ([c.send[0]] + c.send[1..]);
    assert c.written + [] == c.written;
  }

  lemma WriteKeeps(c: Conn)
    requires CanTurn(c, Write)
    ensures Entered(TakeTurn(c, Write)) == Entered(c)
  {
  }

  /**
   * A message that has entered the channel gets lost only by a write that fails, and then that one alone. Pushing
   * adds the message in the subscriber's hand at the end; discarding and quitting lose that message and no other.
   */
  lemma TurnLoses(c: Conn, listed: bool, t: Turn)
    requires ConnOk(c, listed) && CanTurn(c, t)
    ensures var d := TakeTurn(c, t);
            && (t.Push? ==> c.subscriber.Carrying? && Entered(d) == Entered(c) + [c.subscriber.envelope])
            && (t.Discard? || t.Quit? ==> c.subscriber.Carrying? && d == c.(subscriber := d.subscriber))
            && (t.WriteFails? ==> c.writer.Writing? && d == c.(writer := Dead))
            && (!t.Push? && !t.WriteFails? ==> Entered(d) == Entered(c))
  {
    match t
    case Push => PushEnters(c, listed);
    case Take => TakeKeeps(c);
    case Write => WriteKeeps(c);
    case _ =>
  }

  /** The messages that the subscriber of a connection has pushed in the first `i` steps. */
  ghost function Pushed(hubs: seq<Hub>, steps: seq<HubStep>, i: nat, id: ConnId): seq<Envelope>
    requires HubRun(hubs, steps) && i <= |steps|
  {
    if i == 0 then []
    else
      Pushed(hubs, steps, i - 1, id) +
      if steps[i - 1] == Turns(id, Push) then Carried(hubs[i - 1].live[id].subscriber) else []
  }

  lemma StepLoses(hubs: seq<Hub>, steps: seq<HubStep>, i: nat, id: ConnId)
    requires HubRun(hubs, steps) && i < |steps| && id in hubs[i + 1].live && steps[i] != Turns(id, WriteFails)
    ensures id !in hubs[i].live ==> steps[i] == Connect(id) && Entered(hubs[i + 1].live[id]) == []
    ensures id in hubs[i].live ==>
              Entered(hubs[i + 1].live[id]) == Entered(hubs[i].live[id]) +
                if steps[i] == Turns(id, Push) then Carried(hubs[i].live[id].subscriber) else []
  {
    HubReachable(hubs, steps, i);
    if id in hubs[i].live && steps[i].Turns? && steps[i].id == id {
      TurnLoses(hubs[i].live[id], id in hubs[i].conns, steps[i].turn);
    }
  }

  lemma {:induction false} NonePushed(hubs: seq<Hub>, steps: seq<HubStep>, i: nat, id: ConnId)
    requires HubRun(hubs, steps) && i <= |steps| && id !in hubs[i].live
    ensures Pushed(hubs, steps, i, id) == []
    decreases i
  {
    if 0 < i {
      NonePushed(hubs, steps, i - 1, id);
    }
  }

  /**
   * Over whole runs: as long as no write of a connection has failed, everything that its subscriber has pushed is,
   * in order, written, in the writer's hand, or in the buffer.
   */
  lemma {:induction false} PushedIsKept(hubs: seq<Hub>, steps: seq<HubStep>, i: nat, id: ConnId)
    requires HubRun(hubs, steps) && i <= |steps| && id in hubs[i].live
    requires forall k | 0 <= k < i :: steps[k] != Turns(id, WriteFails)
    ensures Entered(hubs[i].live[id]) == Pushed(hubs, steps, i, id)
    decreases i
  {
    if 0 < i {
      StepLoses(hubs, steps, i - 1, id);
      if id in hubs[i - 1].live {
        PushedIsKept(hubs, steps, i - 1, id);
      } else {
        NonePushed(hubs, steps, i - 1, id);
      }
    }
  }

  // ---------- the teardown ----------

  /** The reader has ended; only the way out of ServeHTTP is left. */
  predicate TearingDown(s: Server) {
    s in {Broken, Unregistered, Closed, Cancelled, Joined, Returned}
  }

  /** The turns that the teardown still needs: the serving goroutine's own, and the subscriber's to be done. */
  function TeardownLeft(c: Conn): nat {
    (match c.server
     case Broken => 5
     case Unregistered => 4
     case Closed => 3
     case Cancelled => 2
     case Joined => 1
     case _ => 0) +
    (match c.subscriber
     case Carrying(_) => 2
     case Waiting => 2
     case Leaving => 1
     case _ => 0)
  }

  predicate OfWriter(t: Turn) {
    t.Take? || t.Write? || t.WriteFails? || t.Die?
  }

  /** The next turn of the teardown. */
  function NextTurn(c: Conn): Turn {
    match c.server
    case Broken => Unregister
    case Unregistered => CloseSocket
    case Closed => Cancel
    case Joined => CloseSend
    case _ =>
      if c.subscriber == Waiting then ReceiveFails
      else if c.subscriber.Carrying? then Quit
      else if c.subscriber == Leaving then SignalDone
      else Join
  }

  lemma NextTurnProgresses(c: Conn, listed: bool)
    requires ConnOk(c, listed) && TearingDown(c.server) && c.server != Returned
    ensures CanTurn(c, NextTurn(c)) && !OfWriter(NextTurn(c))
    ensures var d := TakeTurn(c, NextTurn(c));
            TearingDown(d.server) && TeardownLeft(d) + 1 == TeardownLeft(c)
  {
  }

  /** These steps are turns of this connection, and none of them is its writer's. */
  predicate WithoutWriter(steps: seq<HubStep>, id: ConnId) {
    forall i | 0 <= i < |steps| :: steps[i].Turns? && steps[i].id == id && !OfWriter(steps[i].turn)
  }

  /** Taking these steps, one after the other, leads from `h` to `t`. */
  ghost predicate Leads(h: Hub, steps: seq<HubStep>, t: Hub)
    decreases |steps|
  {
    if steps == [] then t == h
    else HubEnabled(h, steps[0]) && Leads(HubApply(h, steps[0]), steps[1..], t)
  }

  lemma {:induction false} TeardownSchedule(h: Hub, id: ConnId) returns (steps: seq<HubStep>, t: Hub)
    requires HubOk(h) && id in h.live && TearingDown(h.live[id].server)
    ensures Leads(h, steps, t) && WithoutWriter(steps, id) && |steps| == TeardownLeft(h.live[id])
    ensures id in t.live && t.live[id].server == Returned
    decreases TeardownLeft(h.live[id])
  {
    if h.live[id].server == Returned {
      steps, t := [], h;
    } else {
      var step := Turns(id, NextTurn(h.live[id]));
      NextTurnProgresses(h.live[id], id in h.conns);
      StepKeepsHub(h, step);
      steps, t := TeardownSchedule(HubApply(h, step), id);
      steps := [step] + steps;
    }
  }

  /**
   * Teardown ends. From every reachable state in which the reader of a connection has ended, `TeardownLeft` (at
   * most seven) turns of this connection, none of them its writer's, lead to a state in which ServeHTTP has
   * returned.
   */
  lemma TeardownReturns(hubs: seq<Hub>, steps: seq<HubStep>, i: nat, id: ConnId) returns (more: seq<HubStep>, t: Hub)
    requires HubRun(hubs, steps) && i < |hubs| && id in hubs[i].live && TearingDown(hubs[i].live[id].server)
    ensures Leads(hubs[i], more, t) && WithoutWriter(more, id) && |more| == TeardownLeft(hubs[i].live[id]) <= 7
    ensures id in t.live && t.live[id].server == Returned
  {
    HubReachable(hubs, steps, i);
    more, t := TeardownSchedule(hubs[i], id);
  }
}
