/** Auctions and connections together: what reaches a client, end to end. */
module Delivery {
  import opened Domain
  import opened Protocol
  import opened Settlement
  import opened Subsequences
  import opened Broadcast
  import opened Hub

  /** The whole backend; `cursor` says how far on the wire each subscription has come. */
  datatype Backend = Backend(sys: System, hub: Hub, cursor: map<ConnId, nat>)

  /** A step of the auctions, or of the hub; `at` is the place on the wire of a message received. */
  datatype Step = Auctioning(action: Action) | Connecting(step: HubStep, at: nat)

  ghost predicate StepEnabled(b: Backend, s: Step) {
    match s
    case Auctioning(action) => Enabled(b.sys, action)
    case Connecting(step, at) =>
      && HubEnabled(b.hub, step)
      && (step.Turns? && step.turn.Receive? ==>
            // Redis delivers in order, and may lose messages
            && step.id in b.cursor && b.cursor[step.id] <= at < |b.sys.wire|
            && step.turn.envelope == b.sys.wire[at])
  }

  /** A subscription misses what was published before it. */
  function MoveCursor(b: Backend, step: HubStep, at: nat): map<ConnId, nat> {
    if step.Turns? && step.turn.Spawn? then b.cursor[step.id := |b.sys.wire|]
    else if step.Turns? && step.turn.Receive? then b.cursor[step.id := at + 1]
    else b.cursor
  }

  ghost function StepApply(b: Backend, s: Step): Backend
    requires StepEnabled(b, s)
  {
    match s
    case Auctioning(action) => b.(sys := Apply(b.sys, action))
    case Connecting(step, at) => b.(hub := HubApply(b.hub, step), cursor := MoveCursor(b, step, at))
  }

  ghost predicate BackendRun(bs: seq<Backend>, steps: seq<Step>) {
    && |bs| == |steps| + 1
    && bs[0].sys.auctions == map[] && bs[0].sys.wire == [] && bs[0].hub == EMPTY_HUB && bs[0].cursor == map[]
    && forall i | 0 <= i < |steps| :: StepEnabled(bs[i], steps[i]) && bs[i + 1] == StepApply(bs[i], steps[i])
  }

  // ---------- the auctions' part of a run is a run ----------

  function Systems(bs: seq<Backend>): seq<System> {
    seq(|bs|, i requires 0 <= i < |bs| => bs[i].sys)
  }

  /** To the auctions, a step of the hub is one in which no time passes. */
  function ActionOf(b: Backend, s: Step): Action {
    if s.Auctioning? then s.action else Tick(b.sys.now)
  }

  function Actions(bs: seq<Backend>, steps: seq<Step>): seq<Action>
    requires |bs| == |steps| + 1
  {
    seq(|steps|, i requires 0 <= i < |steps| => ActionOf(bs[i], steps[i]))
  }

  lemma AuctionsRun(bs: seq<Backend>, steps: seq<Step>)
    requires BackendRun(bs, steps)
    ensures Run(Systems(bs), Actions(bs, steps))
  {
    var states, actions := Systems(bs), Actions(bs, steps);
    forall i | 0 <= i < |actions|
      ensures Enabled(states[i], actions[i]) && states[i + 1] == Apply(states[i], actions[i])
    {
      assert StepEnabled(bs[i], steps[i]) && bs[i + 1] == StepApply(bs[i], steps[i]);
    }
  }

  // ---------- what a subscription has received ----------

  /** Received messages are an ordered part of the wire, up to the cursor. */
  predicate FedInv(b: Backend, id: ConnId) {
    id in b.hub.live ==>
      if id in b.cursor
      then b.cursor[id] <= |b.sys.wire| && Sub(b.hub.live[id].fed, b.sys.wire[..b.cursor[id]])
      else b.hub.live[id].fed == []
  }

  ghost predicate DeliveryInv(b: Backend) {
    && HubOk(b.hub)
    && (forall id | id in b.cursor :: id in b.hub.live)
    && forall id: ConnId :: FedInv(b, id)
  }

  lemma ReceiveKeepsFed(b: Backend, id: ConnId, m: Envelope, at: nat)
    requires id in b.hub.live && FedInv(b, id)
    requires id in b.cursor && b.cursor[id] <= at < |b.sys.wire| && m == b.sys.wire[at]
    ensures Sub(b.hub.live[id].fed + [m], b.sys.wire[..at + 1])
  {
    var wire, here := b.sys.wire, b.cursor[id];
    SubLonger(b.hub.live[id].fed, wire[..here], wire[here..at]);
    assert wire[..here] + wire[here..at] == wire[..at];
    SubAppend(b.hub.live[id].fed, wire[..at], m);
    assert wire[..at] + [m] == wire[..at + 1];
  }

  lemma WireGrows(s: System, action: Action)
    requires Enabled(s, action)
    ensures s.wire <= Apply(s, action).wire
  {
  }

  lemma AuctioningKeepsDelivery(b: Backend, action: Action)
    requires DeliveryInv(b) && Enabled(b.sys, action)
    ensures DeliveryInv(b.(sys := Apply(b.sys, action)))
  {
    var c := b.(sys := Apply(b.sys, action));
    WireGrows(b.sys, action);
    forall id: ConnId ensures FedInv(c, id) {
      assert FedInv(b, id);
      if id in b.hub.live && id in b.cursor {
        assert c.sys.wire[..c.cursor[id]] == b.sys.wire[..b.cursor[id]];
      }
    }
  }

  /** Only receiving changes what a connection has been fed. */
  lemma FedChanges(c: Conn, t: Turn)
    requires CanTurn(c, t)
    ensures TakeTurn(c, t).fed == c.fed + if t.Receive? then [t.envelope] else []
  {
  }

  lemma SpawnKeepsFed(b: Backend, id: ConnId)
    requires id in b.hub.live && FedInv(b, id)
    ensures Sub(b.hub.live[id].fed, b.sys.wire[..|b.sys.wire|])
  {
    var wire := b.sys.wire;
    assert wire[..|wire|] == wire;
    if id in b.cursor {
      SubLonger(b.hub.live[id].fed, wire[..b.cursor[id]], wire[b.cursor[id]..]);
      assert wire[..b.cursor[id]] + wire[b.cursor[id]..] == wire;
    }
  }

  lemma TurningKeepsFed(b: Backend, c: ConnId, t: Turn, at: nat)
    requires c in b.hub.live && CanTurn(b.hub.live[c], t) && FedInv(b, c)
    requires t.Receive? ==> c in b.cursor && b.cursor[c] <= at < |b.sys.wire| && t.envelope == b.sys.wire[at]
    ensures var fed := TakeTurn(b.hub.live[c], t).fed;
            var cursor := MoveCursor(b, Turns(c, t), at);
            if c in cursor then cursor[c] <= |b.sys.wire| && Sub(fed, b.sys.wire[..cursor[c]]) else fed == []
  {
    FedChanges(b.hub.live[c], t);
    if t.Receive? {
      ReceiveKeepsFed(b, c, t.envelope, at);
    } else if t.Spawn? {
      SpawnKeepsFed(b, c);
    }
  }

  lemma ConnectingKeepsFed(b: Backend, step: HubStep, at: nat, id: ConnId)
    requires DeliveryInv(b) && StepEnabled(b, Connecting(step, at))
    ensures FedInv(StepApply(b, Connecting(step, at)), id)
  {
    assert FedInv(b, id);
    match step
    case Connect(x) =>
    case Turns(x, t) =>
      if x == id {
        TurningKeepsFed(b, id, t, at);
      }
  }

  lemma StepKeepsDelivery(b: Backend, s: Step)
    requires DeliveryInv(b) && StepEnabled(b, s)
    ensures DeliveryInv(StepApply(b, s))
  {
    match s
    case Auctioning(action) => AuctioningKeepsDelivery(b, action);
    case Connecting(step, at) =>
      StepKeepsHub(b.hub, step);
      forall id: ConnId ensures FedInv(StepApply(b, s), id) {
        ConnectingKeepsFed(b, step, at, id);
      }
  }

  lemma {:induction false} DeliveryReachable(bs: seq<Backend>, steps: seq<Step>, i: nat)
    requires BackendRun(bs, steps) && i < |bs|
    ensures DeliveryInv(bs[i])
  {
    if 0 < i {
      DeliveryReachable(bs, steps, i - 1);
      StepKeepsDelivery(bs[i - 1], steps[i - 1]);
    }
  }

  /** What is written on a connection is an order-preserving part of all that was published. */
  lemma WrittenIsPublished(bs: seq<Backend>, steps: seq<Step>, i: nat, c: ConnId)
    requires BackendRun(bs, steps) && i < |bs| && c in bs[i].hub.live
    ensures Sub(bs[i].hub.live[c].written, bs[i].sys.wire)
  {
    DeliveryReachable(bs, steps, i);
    var b := bs[i];
    assert FedInv(b, c);
    WrittenIsFed(b.hub.live[c]);
    SpawnKeepsFed(b, c);
    assert b.sys.wire[..|b.sys.wire|] == b.sys.wire;
    SubTransitive(b.hub.live[c].written, b.hub.live[c].fed, b.sys.wire);
  }

  // ---------- one auction's share ----------

  lemma {:induction false} SubOfAuction(xs: seq<Envelope>, ys: seq<Envelope>, id: AuctionId)
    requires Sub(xs, ys)
    ensures Sub(OfAuction(xs, id), OfAuction(ys, id))
    decreases |ys|
  {
    if xs != [] {
      var tail := if Last(ys).id == id then [Last(ys).message] else [];
      if Sub(xs, Front(ys)) {
        SubOfAuction(xs, Front(ys), id);
        SubLonger(OfAuction(xs, id), OfAuction(Front(ys), id), tail);
      } else {
        SubOfAuction(Front(xs), Front(ys), id);
        SubBoth(OfAuction(Front(xs), id), OfAuction(Front(ys), id), tail);
      }
    }
  }

  lemma {:induction false} SubPrices(xs: seq<Message>, ys: seq<Message>)
    requires Sub(xs, ys)
    ensures Sub(Prices(xs), Prices(ys))
    decreases |ys|
  {
    if xs != [] {
      var tail := if Last(ys).PriceUpdate? then [Last(ys).amount] else [];
      if Sub(xs, Front(ys)) {
        SubPrices(xs, Front(ys));
        SubLonger(Prices(xs), Prices(Front(ys)), tail);
      } else {
        SubPrices(Front(xs), Front(ys));
        SubBoth(Prices(Front(xs)), Prices(Front(ys)), tail);
      }
    }
  }

  lemma SubIncreasing(xs: seq<Cents>, ys: seq<Cents>)
    requires Sub(xs, ys) && StrictlyIncreasing(ys)
    ensures StrictlyIncreasing(xs)
  {
    var places := SubPlaces(xs, ys);
  }

  lemma SubSettlementLast(xs: seq<Message>, ys: seq<Message>)
    requires Sub(xs, ys) && SettlementLast(ys)
    ensures SettlementLast(xs)
  {
    var places := SubPlaces(xs, ys);
  }

  /** The frames about one auction that a client has been sent. */
  function Frames(b: Backend, c: ConnId, id: AuctionId): seq<Message>
    requires c in b.hub.live
  {
    OfAuction(b.hub.live[c].written, id)
  }

  lemma FramesArePublished(bs: seq<Backend>, steps: seq<Step>, i: nat, c: ConnId, id: AuctionId)
    requires BackendRun(bs, steps) && i < |bs| && c in bs[i].hub.live
    ensures Sub(Frames(bs[i], c, id), OfAuction(bs[i].sys.wire, id))
  {
    WrittenIsPublished(bs, steps, i, c);
    SubOfAuction(bs[i].hub.live[c].written, bs[i].sys.wire, id);
  }

  /**
   * End-to-end order, whatever gets lost on the way: until an auction's hot keys are first deleted or expire,
   * the prices that a client sees for it strictly increase.
   */
  lemma ClientSeesRisingPrices(bs: seq<Backend>, steps: seq<Step>, i: nat, c: ConnId, id: AuctionId)
    requires BackendRun(bs, steps) && i < |bs| && c in bs[i].hub.live && id in bs[i].sys.auctions
    requires forall k | 0 <= k <= i && id in bs[k].sys.auctions :: Intact(bs[k].sys.now, bs[k].sys.auctions[id])
    ensures StrictlyIncreasing(Prices(Frames(bs[i], c, id)))
  {
    AuctionsRun(bs, steps);
    PricesIncrease(Systems(bs), Actions(bs, steps), i, id);
    FramesArePublished(bs, steps, i, c, id);
    SubPrices(Frames(bs[i], c, id), OfAuction(bs[i].sys.wire, id));
    SubIncreasing(Prices(Frames(bs[i], c, id)), Prices(OfAuction(bs[i].sys.wire, id)));
  }

  lemma {:induction false} SubNotices(xs: seq<Message>, ys: seq<Message>)
    requires Sub(xs, ys)
    ensures Sub(Notices(xs), Notices(ys))
    decreases |ys|
  {
    if xs != [] {
      var tail := if Last(ys).Settlement? then [Last(ys)] else [];
      if Sub(xs, Front(ys)) {
        SubNotices(xs, Front(ys));
        SubLonger(Notices(xs), Notices(Front(ys)), tail);
      } else {
        SubNotices(Front(xs), Front(ys));
        SubBoth(Notices(Front(xs)), Notices(Front(ys)), tail);
      }
    }
  }

  /** Whatever happens, a client is sent at most one SETTLEMENT for an auction, and it tells the final row. */
  lemma ClientSeesOneNotice(bs: seq<Backend>, steps: seq<Step>, i: nat, c: ConnId, id: AuctionId)
    requires BackendRun(bs, steps) && i < |bs| && c in bs[i].hub.live && id in bs[i].sys.auctions
    ensures var notices := Notices(Frames(bs[i], c, id));
            notices == [] || (|notices| == 1 && TrueOf(bs[i].sys.auctions[id].row, notices[0]))
  {
    var frames, published := Frames(bs[i], c, id), OfAuction(bs[i].sys.wire, id);
    AuctionsRun(bs, steps);
    FramesArePublished(bs, steps, i, c, id);
    SubNotices(frames, published);
    AtMostOneNotice(Systems(bs), Actions(bs, steps), i, id);
    SubOfOne(Notices(frames), Notices(published));
  }

  /** Under quiescence it comes last: no price follows it. */
  lemma ClientSeesCleanEnd(bs: seq<Backend>, steps: seq<Step>, i: nat, c: ConnId, id: AuctionId)
    requires BackendRun(bs, steps) && i < |bs| && c in bs[i].hub.live && id in bs[i].sys.auctions
    requires Quiesced(Systems(bs), i, id)
    ensures SettlementLast(Frames(bs[i], c, id))
  {
    AuctionsRun(bs, steps);
    FramesArePublished(bs, steps, i, c, id);
    SettlementComesLast(Systems(bs), Actions(bs, steps), i, id);
    SubSettlementLast(Frames(bs[i], c, id), OfAuction(bs[i].sys.wire, id));
  }

  /** And with no hot-key expiry before settlement the prices increase for the whole run. */
  lemma ClientSeesRisingPricesQuiesced(bs: seq<Backend>, steps: seq<Step>, i: nat, c: ConnId, id: AuctionId)
    requires BackendRun(bs, steps) && i < |bs| && c in bs[i].hub.live && id in bs[i].sys.auctions
    requires NoEarlyExpiry(Systems(bs), i, id) && Quiesced(Systems(bs), i, id)
    ensures StrictlyIncreasing(Prices(Frames(bs[i], c, id)))
  {
    var frames, published := Frames(bs[i], c, id), OfAuction(bs[i].sys.wire, id);
    AuctionsRun(bs, steps);
    FramesArePublished(bs, steps, i, c, id);
    PricesIncreaseQuiesced(Systems(bs), Actions(bs, steps), i, id);
    SubPrices(frames, published);
    SubIncreasing(Prices(frames), Prices(published));
  }
}
