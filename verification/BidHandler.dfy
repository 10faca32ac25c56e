/** The bid handler as the sequential program it is, proved against the steps of the protocol. */
module BidHandler {
  import opened Domain
  import opened HotKeys
  import opened Protocol
  import opened Stores

  /** Where an infrastructure error hits; after `AfterPrime` and the like the command has run, but its reply is lost. */
  datatype Fault = AtFetch | AtPrime | AfterPrime | AtFlag | AfterFlag | AtScript | AfterScript | Nowhere

  /** How many of its protocol steps a handler completes before the fault. */
  function Reach(f: Fault): nat {
    match f
    case AtFetch => 0
    case AtPrime => 2
    case AfterPrime => 3
    case AtFlag => 4
    case AfterFlag => 5
    case AtScript => 7
    case AfterScript => 8
    case Nowhere => 9
  }

  datatype Response = NotFound | Unavailable | Replied(reply: Reply)

  function NextAct(h: RequestId, stage: Stage): Act
    requires !Over(stage)
  {
    match stage
    case Asked => Fetch(h)
    case Fetched => Gate(h)
    case Admitted => Prime(h)
    case Primed => Until(h)
    case Timed(_) => Flag(h)
    case Flagged => Regate(h)
    case Cleared => Arm(h)
    case Armed(_) => Script(h)
    case Judged(_) => Respond(h)
  }

  /** An auction with one request, some way on. */
  function Along(row: Row, hot: Hot, bid: Bid, stage: Stage): Auction {
    NewAuction(row).(
      hot := hot,
      bidders := map[bid.request := Bidder(bid, if stage.Asked? then None else Some(row), stage)])
  }

  predicate Handling(a: Auction, h: RequestId) {
    h in a.bidders && (!a.bidders[h].stage.Asked? ==> a.bidders[h].copy.Some?)
  }

  /** Request `h` runs alone: its `i`-th step at `clock[i]`, and an error before step `reach`. */
  function BidAlone(clock: seq<Time>, i: nat, reach: nat, a: Auction, h: RequestId): (done: Auction)
    requires Handling(a, h) && reach <= |clock|
    ensures h in done.bidders && Over(done.bidders[h].stage)
    decreases reach - i, if h in a.bidders && Over(a.bidders[h].stage) then 0 else 1
  {
    if Over(a.bidders[h].stage) then a
    else if reach <= i then Do(0, a, Drop(h))
    else BidAlone(clock, i + 1, reach, Do(clock[i], a, NextAct(h, a.bidders[h].stage)), h)
  }

  /** One step of `BidAlone`, for a step that does not publish. */
  lemma OneStep(clock: seq<Time>, i: nat, reach: nat, row: Row, hot: Hot, bid: Bid, stage: Stage, next: Stage,
                after: Hot)
    requires i < reach <= |clock| && !Over(stage) && !next.Asked?
    requires Do(clock[i], Along(row, hot, bid, stage), NextAct(bid.request, stage)) ==
             Along(row, after, bid, stage).(
               bidders := Along(row, hot, bid, stage).bidders[bid.request := Bidder(bid, Some(row), next)])
    ensures BidAlone(clock, i, reach, Along(row, hot, bid, stage), bid.request)
            == BidAlone(clock, i + 1, reach, Along(row, after, bid, next), bid.request)
  {
    assert Along(row, hot, bid, stage).bidders[bid.request := Bidder(bid, Some(row), next)]
           == Along(row, after, bid, next).bidders;
  }

  /** What the handler has come to: keys, messages, reply. */
  predicate ComesTo(done: Auction, row: Row, hot: Hot, published: seq<Message>, h: RequestId, stage: Stage) {
    && done.row == row && done.hot == hot && done.past.published == published
    && h in done.bidders && done.bidders[h].stage == stage
  }

  /** Read and first check. */
  lemma UpToGate(clock: seq<Time>, reach: nat, row: Row, hot: Hot, bid: Bid)
    requires reach <= |clock| == 9
    ensures var done := BidAlone(clock, 0, reach, Along(row, hot, bid, Asked), bid.request);
            if reach < 2 then ComesTo(done, row, hot, [], bid.request, Gone)
            else if !Biddable(row, clock[1]) then ComesTo(done, row, hot, [], bid.request, Answered(NotBiddable))
            else done == BidAlone(clock, 2, reach, Along(row, hot, bid, Admitted), bid.request)
  {
    if 1 <= reach {
      OneStep(clock, 0, reach, row, hot, bid, Asked, Fetched, hot);
      if 2 <= reach {
        OneStep(clock, 1, reach, row, hot, bid, Fetched,
                if Biddable(row, clock[1]) then Admitted else Answered(NotBiddable), hot);
      }
    }
  }

  lemma FlagStep(clock: seq<Time>, reach: nat, row: Row, hot: Hot, bid: Bid, ttl: Time)
    requires 5 <= reach <= |clock|
    ensures BidAlone(clock, 4, reach, Along(row, hot, bid, Timed(ttl)), bid.request)
            == BidAlone(clock, 5, reach, Along(row, SetStatus(hot, ACTIVE, ttl, clock[4]), bid, Flagged), bid.request)
  {
    OneStep(clock, 4, reach, row, hot, bid, Timed(ttl), Flagged, SetStatus(hot, ACTIVE, ttl, clock[4]));
  }

  lemma PrimeStep(clock: seq<Time>, reach: nat, row: Row, hot: Hot, bid: Bid)
    requires 3 <= reach <= |clock| == 9
    ensures BidAlone(clock, 2, reach, Along(row, hot, bid, Admitted), bid.request)
            == BidAlone(clock, 3, reach, Along(row, SetNx(hot, row.starting, clock[2]), bid, Primed), bid.request)
  {
    OneStep(clock, 2, reach, row, hot, bid, Admitted, Primed, SetNx(hot, row.starting, clock[2]));
  }

  lemma UntilStep(clock: seq<Time>, reach: nat, row: Row, hot: Hot, bid: Bid)
    requires 4 <= reach <= |clock| == 9
    ensures BidAlone(clock, 3, reach, Along(row, hot, bid, Primed), bid.request)
            == BidAlone(clock, 4, reach, Along(row, hot, bid, Timed(row.end - clock[3])), bid.request)
  {
    OneStep(clock, 3, reach, row, hot, bid, Primed, Timed(row.end - clock[3]), hot);
  }

  /** SETNX and the status SET. */
  lemma UpToFlag(clock: seq<Time>, reach: nat, row: Row, hot: Hot, bid: Bid)
    requires 2 <= reach <= |clock| == 9
    ensures var done := BidAlone(clock, 2, reach, Along(row, hot, bid, Admitted), bid.request);
            var primed := SetNx(hot, row.starting, clock[2]);
            var flagged := SetStatus(primed, ACTIVE, row.end - clock[3], clock[4]);
            if reach == 2 then ComesTo(done, row, hot, [], bid.request, Gone)
            else if reach <= 4 then ComesTo(done, row, primed, [], bid.request, Gone)
            else done == BidAlone(clock, 5, reach, Along(row, flagged, bid, Flagged), bid.request)
  {
    if 3 <= reach {
      var primed := SetNx(hot, row.starting, clock[2]);
      PrimeStep(clock, reach, row, hot, bid);
      if 4 <= reach {
        UntilStep(clock, reach, row, primed, bid);
        if 5 <= reach {
          FlagStep(clock, reach, row, primed, bid, row.end - clock[3]);
        }
      }
    }
  }

  lemma ArmStep(clock: seq<Time>, reach: nat, row: Row, hot: Hot, bid: Bid)
    requires 7 <= reach <= |clock| == 9
    ensures BidAlone(clock, 6, reach, Along(row, hot, bid, Cleared), bid.request)
            == BidAlone(clock, 7, reach, Along(row, hot, bid, Armed(BidTtl(row.end, clock[6]))), bid.request)
  {
    OneStep(clock, 6, reach, row, hot, bid, Cleared, Armed(BidTtl(row.end, clock[6])), hot);
  }

  lemma RegateStep(clock: seq<Time>, reach: nat, row: Row, hot: Hot, bid: Bid)
    requires 6 <= reach <= |clock| == 9
    ensures var done := BidAlone(clock, 5, reach, Along(row, hot, bid, Flagged), bid.request);
            if Biddable(row, clock[5]) then
              done == BidAlone(clock, 6, reach, Along(row, hot, bid, Cleared), bid.request)
            else
              done == Along(row, hot, bid, Answered(NotBiddable))
  {
    OneStep(clock, 5, reach, row, hot, bid, Flagged,
            if Biddable(row, clock[5]) then Cleared else Answered(NotBiddable), hot);
  }

  /** Second check and TTL. */
  lemma UpToArm(clock: seq<Time>, reach: nat, row: Row, hot: Hot, bid: Bid)
    requires 5 <= reach <= |clock| == 9
    ensures var done := BidAlone(clock, 5, reach, Along(row, hot, bid, Flagged), bid.request);
            if 6 <= reach && !Biddable(row, clock[5]) then
              ComesTo(done, row, hot, [], bid.request, Answered(NotBiddable))
            else if reach <= 6 then ComesTo(done, row, hot, [], bid.request, Gone)
            else done == BidAlone(clock, 7, reach, Along(row, hot, bid, Armed(BidTtl(row.end, clock[6]))), bid.request)
  {
    if 6 <= reach {
      RegateStep(clock, reach, row, hot, bid);
      if 7 <= reach && Biddable(row, clock[5]) {
        ArmStep(clock, reach, row, hot, bid);
      }
    }
  }

  /** The script and the reply. */
  lemma UpToReply(clock: seq<Time>, reach: nat, row: Row, hot: Hot, bid: Bid, seconds: int)
    requires 7 <= reach <= |clock| == 9
    ensures var done := BidAlone(clock, 7, reach, Along(row, hot, bid, Armed(seconds)), bid.request);
            var (after, verdict) := RunScript(hot, clock[7], bid.user, bid.amount, seconds);
            ComesTo(done, row, if reach == 7 then hot else after,
                    if reach == 7 || !verdict.Accepted? then [] else [PriceUpdate(bid.amount)], bid.request,
                    if reach < 9 then Gone else Answered(ReplyTo(verdict)))
  {
    var a := Along(row, hot, bid, Armed(seconds));
    if 8 <= reach {
      var b := Do(clock[7], a, Script(bid.request));
      assert BidAlone(clock, 7, reach, a, bid.request) == BidAlone(clock, 8, reach, b, bid.request);
      if reach == 9 {
        var c := Do(clock[8], b, Respond(bid.request));
        assert BidAlone(clock, 8, reach, b, bid.request) == BidAlone(clock, 9, reach, c, bid.request);
      }
    }
  }

  /** The steps of the request, all together, wherever an error or a crash stops them. */
  lemma Effect(clock: seq<Time>, reach: nat, row: Row, hot: Hot, bid: Bid)
    requires reach <= |clock| == 9
    ensures var done := BidAlone(clock, 0, reach, Along(row, hot, bid, Asked), bid.request);
            var primed := SetNx(hot, row.starting, clock[2]);
            var flagged := SetStatus(primed, ACTIVE, row.end - clock[3], clock[4]);
            var (judged, verdict) := RunScript(flagged, clock[7], bid.user, bid.amount, BidTtl(row.end, clock[6]));
            if reach < 2 then ComesTo(done, row, hot, [], bid.request, Gone)
            else if !Biddable(row, clock[1]) then ComesTo(done, row, hot, [], bid.request, Answered(NotBiddable))
            else if reach < 5 then ComesTo(done, row, if reach == 2 then hot else primed, [], bid.request, Gone)
            else if 6 <= reach && !Biddable(row, clock[5]) then
              ComesTo(done, row, flagged, [], bid.request, Answered(NotBiddable))
            else if reach < 8 then ComesTo(done, row, flagged, [], bid.request, Gone)
            else ComesTo(done, row, judged, if verdict.Accepted? then [PriceUpdate(bid.amount)] else [], bid.request,
                         if reach == 8 then Gone else Answered(ReplyTo(verdict)))
  {
    UpToGate(clock, reach, row, hot, bid);
    if 2 <= reach && Biddable(row, clock[1]) {
      UpToFlag(clock, reach, row, hot, bid);
      if 5 <= reach {
        var flagged := SetStatus(SetNx(hot, row.starting, clock[2]), ACTIVE, row.end - clock[3], clock[4]);
        UpToArm(clock, reach, row, flagged, bid);
        if 7 <= reach {
          UpToReply(clock, reach, row, flagged, bid, BidTtl(row.end, clock[6]));
        }
      }
    }
  }

  /**
   * The whole handler, when nothing fails, from the row it reads and the instants of its steps to the keys, the
   * message and the reply. A row that is not ACTIVE, or a time before the start or after the end, is turned away
   * before any key is touched, and again before the script; the script then decides on the word and the price.
   */
  lemma HandlerExactly(clock: seq<Time>, row: Row, hot: Hot, bid: Bid)
    requires |clock| == 9
    ensures var done := BidAlone(clock, 0, 9, Along(row, hot, bid, Asked), bid.request);
            var stage, said := done.bidders[bid.request].stage, done.past.published;
            if row.status != ACTIVE || clock[1] < row.start || row.end < clock[1] then
              stage == Answered(NotBiddable) && done.hot == hot && said == []
            else
              var price := if Visible(hot.price, clock[2]) then hot.price else Held(row.starting, None);
              && done.hot.status.Held? && done.hot.status.value == ACTIVE
              && LivesFor(done.hot.status.expires, hot.status, row.end - clock[3], clock[4])
              && if clock[5] < row.start || row.end < clock[5] then
                   && stage == Answered(NotBiddable)
                   && done.hot.price == price && done.hot.leader == hot.leader && said == []
                 else if !Visible(done.hot.status, clock[7]) then
                   && stage == Answered(BidTooLow(None))
                   && done.hot.price == price && done.hot.leader == hot.leader && said == []
                 else if Visible(price, clock[7]) && bid.amount <= price.value then
                   && stage == Answered(BidTooLow(Some(price.value)))
                   && done.hot.price == price && done.hot.leader == hot.leader && said == []
                 else
                   && stage == Answered(Created) && said == [PriceUpdate(bid.amount)]
                   && exists seconds ::
                        && SecondsLeft(seconds, row.end, clock[6])
                        && done.hot.price == Held(bid.amount, Some(clock[7] + seconds * 1_000_000_000))
                        && done.hot.leader == Held(bid.user, Some(clock[7] + seconds * 1_000_000_000))
  {
    var primed := SetNx(hot, row.starting, clock[2]);
    Effect(clock, 9, row, hot, bid);
    SetNxExactly(hot, row.starting, clock[2]);
    ExpiryExactly(primed.status, row.end - clock[3], clock[4]);
    BidTtlExactly(row.end, clock[6]);
    var seconds := BidTtl(row.end, clock[6]);
    ScriptExactly(SetStatus(primed, ACTIVE, row.end - clock[3], clock[4]), clock[7], bid.user, bid.amount, seconds);
    assert SecondsLeft(seconds, row.end, clock[6]);
  }

  /** The two checks decide, on any run of the handler that gets to them. */
  lemma CheckedTwice(clock: seq<Time>, reach: nat, row: Row, hot: Hot, bid: Bid)
    requires reach <= |clock| == 9
    ensures var done := BidAlone(clock, 0, reach, Along(row, hot, bid, Asked), bid.request);
            && (2 <= reach && (row.status != ACTIVE || clock[1] < row.start || row.end < clock[1]) ==>
                  ComesTo(done, row, hot, [], bid.request, Answered(NotBiddable)))
            && (reach == 9 && row.status == ACTIVE && row.start <= clock[1] <= row.end ==>
                  (done.bidders[bid.request].stage == Answered(NotBiddable) <==>
                   clock[5] < row.start || row.end < clock[5]))
  {
    Effect(clock, reach, row, hot, bid);
  }

  /** A handler that has not come to an answer reports an error; a failed read reports the wrong one. */
  function ResponseTo(stage: Stage, fault: Fault): Response {
    if stage.Answered? then Replied(stage.reply)
    else if fault.AtFetch? then Replied(NotBiddable)
    else Unavailable
  }

  lemma Tagged(id: AuctionId, amount: Cents)
    ensures Tag(id, []) == [] && Tag(id, [PriceUpdate(amount)]) == [Envelope(id, PriceUpdate(amount))]
  {
  }

  class App {
    const store: Store

    constructor (store: Store)
      ensures this.store == store
    {
      this.store := store;
    }

    /** The bid script, command by command. */
    method EvalBid(id: AuctionId, amount: Cents, user: UserId, seconds: int, now: Time)
      returns (ok: bool, current: Option<Cents>)
      modifies store`keys, store`wire
      ensures var (after, verdict) := RunScript(old(store.Hot(id)), now, user, amount, seconds);
              && store.Hot(id) == after
              && (forall x | x != id :: store.Hot(x) == old(store.Hot(x)))
              && ok == verdict.Accepted?
              && (!ok ==> BidTooLow(current) == ReplyTo(verdict))
              && store.wire == old(store.wire) + if ok then [Envelope(id, PriceUpdate(amount))] else []
    {
      var hot := store.Hot(id);
      if Get(hot.status, now) != Some(ACTIVE) {
        return false, None;
      }
      var p := Get(hot.price, now);
      if p.Some? && amount <= p.value {
        return false, p;
      }
      var expires := Some(now + seconds * SECOND);
      store.keys := store.keys[id := hot.(price := Held(amount, expires))];
      store.keys := store.keys[id := store.Hot(id).(leader := Held(user, expires))];
      store.wire := store.wire + [Envelope(id, PriceUpdate(amount))];
      return true, Some(amount);
    }

    /** The statements of `bid` after its checks: the TTL, the script and the reply. */
    method Submit(id: AuctionId, bid: Bid, end: Time, clock: seq<Time>, fault: Fault) returns (response: Response)
      requires |clock| == 9 && fault in {AtScript, AfterScript, Nowhere}
      modifies store`keys, store`wire
      ensures var (after, verdict) := RunScript(old(store.Hot(id)), clock[7], bid.user, bid.amount,
                                                BidTtl(end, clock[6]));
              && store.Hot(id) == (if fault.AtScript? then old(store.Hot(id)) else after)
              && store.wire == old(store.wire) + (if fault.AtScript? || !verdict.Accepted? then []
                                                  else [Envelope(id, PriceUpdate(bid.amount))])
              && response == if fault.Nowhere? then Replied(ReplyTo(verdict)) else Unavailable
      ensures forall x | x != id :: store.Hot(x) == old(store.Hot(x))
    {
      var left := end + DAY - clock[6];
      var seconds := if left < 0 then 0 else left / SECOND;
      if seconds <= 0 {
        seconds := 1;
      }
      if fault.AtScript? { return Unavailable; }
      var ok, current := EvalBid(id, bid.amount, bid.user, seconds, clock[7]);
      if fault.AfterScript? { return Unavailable; }
      if !ok { return Replied(BidTooLow(current)); }
      return Replied(Created);
    }

    /** The statements of `bid`, in order. */
    method Handle(id: AuctionId, bid: Bid, clock: seq<Time>, fault: Fault) returns (response: Response)
      requires |clock| == 9
      modifies store`keys, store`wire
      ensures id in store.rows ==>
                var done := BidAlone(clock, 0, Reach(fault),
                                     Along(store.rows[id], old(store.Hot(id)), bid, Asked), bid.request);
                && store.Hot(id) == done.hot
                && store.wire == old(store.wire) + Tag(id, done.past.published)
                && response == ResponseTo(done.bidders[bid.request].stage, fault)
      ensures id !in store.rows ==> unchanged(store) && (response.NotFound? || fault.AtFetch?)
      ensures forall x | x != id :: store.Hot(x) == old(store.Hot(x))
    {
      Tagged(id, bid.amount);
      if id in store.rows {
        Effect(clock, Reach(fault), store.rows[id], store.Hot(id), bid);
      }
      if fault.AtFetch? { return Replied(NotBiddable); }
      if id !in store.rows { return NotFound; }
      var row := store.rows[id];
      if !Biddable(row, clock[1]) { return Replied(NotBiddable); }
      if fault.AtPrime? { return Unavailable; }
      store.keys := store.keys[id := SetNx(store.Hot(id), row.starting, clock[2])];
      if fault.AfterPrime? { return Unavailable; }
      var ttl := row.end - clock[3];
      if fault.AtFlag? { return Unavailable; }
      store.keys := store.keys[id := SetStatus(store.Hot(id), ACTIVE, ttl, clock[4])];
      if fault.AfterFlag? { return Unavailable; }
      if !Biddable(row, clock[5]) { return Replied(NotBiddable); }
      response := Submit(id, bid, row.end, clock, fault);
    }

    /** `bid`: its effect on keys and channel, and its reply, are those of the protocol steps; the checks decide. */
    method PlaceBid(id: AuctionId, bid: Bid, clock: seq<Time>, fault: Fault) returns (response: Response)
      requires |clock| == 9
      modifies store`keys, store`wire
      ensures id in store.rows ==>
                var done := BidAlone(clock, 0, Reach(fault),
                                     Along(store.rows[id], old(store.Hot(id)), bid, Asked), bid.request);
                && store.Hot(id) == done.hot
                && store.wire == old(store.wire) + Tag(id, done.past.published)
                && response == ResponseTo(done.bidders[bid.request].stage, fault)
      ensures id !in store.rows ==> unchanged(store) && (response.NotFound? || fault.AtFetch?)
      ensures id in store.rows && !fault.AtFetch? ==>
                var row := store.rows[id];
                (row.status != ACTIVE || clock[1] < row.start || row.end < clock[1]) ==>
                  && response == Replied(NotBiddable)
                  && store.Hot(id) == old(store.Hot(id)) && store.wire == old(store.wire)
      ensures id in store.rows && fault.Nowhere? ==>
                var row := store.rows[id];
                row.status == ACTIVE && row.start <= clock[1] <= row.end ==>
                  (response == Replied(NotBiddable) <==> clock[5] < row.start || row.end < clock[5])
      ensures forall x | x != id :: store.Hot(x) == old(store.Hot(x))
    {
      response := Handle(id, bid, clock, fault);
      if id in store.rows {
        CheckedTwice(clock, Reach(fault), store.rows[id], old(store.Hot(id)), bid);
        assert Tag(id, []) == [];
      }
    }
  }
}
