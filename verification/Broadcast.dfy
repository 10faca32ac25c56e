/** What is published on the channels, over whole runs. */
module Broadcast {
  import opened Domain
  import opened Protocol
  import opened Invariants
  import opened Runs
  import opened Settlement
  import opened Subsequences

  /** The messages of one auction, out of all. */
  function OfAuction(wire: seq<Envelope>, id: AuctionId): seq<Message> {
    if wire == [] then []
    else OfAuction(Front(wire), id) + if Last(wire).id == id then [Last(wire).message] else []
  }

  /** The amounts of the PRICE_UPDATE messages. */
  function Prices(messages: seq<Message>): seq<Cents> {
    if messages == [] then []
    else Prices(Front(messages)) + if Last(messages).PriceUpdate? then [Last(messages).amount] else []
  }

  /** The SETTLEMENT messages. */
  function Notices(messages: seq<Message>): seq<Message> {
    if messages == [] then []
    else Notices(Front(messages)) + if Last(messages).Settlement? then [Last(messages)] else []
  }

  function AmountsOf(bids: seq<Bid>): seq<Cents> {
    seq(|bids|, i requires 0 <= i < |bids| => bids[i].amount)
  }

  predicate StrictlyIncreasing(prices: seq<Cents>) {
    forall i, j | 0 <= i < j < |prices| :: prices[i] < prices[j]
  }

  /** No PRICE_UPDATE follows a SETTLEMENT. */
  predicate SettlementLast(messages: seq<Message>) {
    forall i, j | 0 <= i < j < |messages| :: messages[i].Settlement? ==> messages[j].Settlement?
  }

  // ---------- one message more ----------

  lemma AppendWire(wire: seq<Envelope>, e: Envelope, id: AuctionId)
    ensures OfAuction(wire + [e], id) == OfAuction(wire, id) + if e.id == id then [e.message] else []
  {
    assert Front(wire + [e]) == wire;
  }

  lemma {:induction false} WireSplits(wire: seq<Envelope>, more: seq<Envelope>, id: AuctionId)
    ensures OfAuction(wire + more, id) == OfAuction(wire, id) + OfAuction(more, id)
    decreases |more|
  {
    if more == [] {
      assert wire + more == wire;
    } else {
      WireSplits(wire, Front(more), id);
      AppendWire(wire + Front(more), Last(more), id);
      assert wire + more == wire + Front(more) + [Last(more)];
    }
  }

  lemma {:induction false} AppendTagged(wire: seq<Envelope>, id: AuctionId, messages: seq<Message>, x: AuctionId)
    ensures OfAuction(wire + Tag(id, messages), x) == OfAuction(wire, x) + if x == id then messages else []
    decreases |messages|
  {
    if messages == [] {
      assert wire + Tag(id, messages) == wire;
    } else {
      var front, m := Front(messages), Last(messages);
      assert Tag(id, messages) == Tag(id, front) + [Envelope(id, m)];
      assert wire + Tag(id, messages) == (wire + Tag(id, front)) + [Envelope(id, m)];
      AppendTagged(wire, id, front, x);
      AppendWire(wire + Tag(id, front), Envelope(id, m), x);
    }
  }

  lemma AppendMessage(messages: seq<Message>, m: Message)
    ensures Prices(messages + [m]) == Prices(messages) + if m.PriceUpdate? then [m.amount] else []
    ensures Notices(messages + [m]) == Notices(messages) + if m.Settlement? then [m] else []
  {
    assert Front(messages + [m]) == messages;
  }

  /** Each step publishes at most one message. */
  lemma PublishesOne(now: Time, a: Auction, act: Act)
    requires Can(now, a, act)
    ensures var after := Do(now, a, act);
            || after.past.published == a.past.published
            || (act.Script? && after.past.accepted == a.past.accepted + [a.bidders[act.h].bid]
                && after.past.published == a.past.published + [PriceUpdate(a.bidders[act.h].bid.amount)])
            || (act.Announce? && after.past.published == a.past.published + [Notice(a.settlers[act.w].record)])
    ensures var after := Do(now, a, act);
            after.past.accepted != a.past.accepted ==> act.Script? && after.past.published != a.past.published
    ensures !act.Announce? ==> Do(now, a, act).past.announced == a.past.announced
    ensures act.Announce? ==> Do(now, a, act).past.announced == a.past.announced + 1
                              && Do(now, a, act).past.published != a.past.published
  {
  }

  // ---------- what an auction publishes ----------

  /** The PRICE_UPDATEs are the accepted bids, and a SETTLEMENT is the committed one. */
  predicate PublishedInv(a: Auction) {
    && Prices(a.past.published) == AmountsOf(a.past.accepted)
    && |Notices(a.past.published)| == a.past.announced
    && (Notices(a.past.published) != [] ==>
          a.past.commits != [] && Notices(a.past.published) == [Notice(a.past.commits[0])])
  }

  lemma AnnouncePublished(now: Time, a: Auction, w: WorkerId)
    requires Inv(now, a) && Can(now, a, Announce(w)) && PublishedInv(a)
    ensures PublishedInv(Do(now, a, Announce(w)))
  {
    assert SettlerOk(a, w, a.settlers[w]);
    AppendMessage(a.past.published, Notice(a.settlers[w].record));
  }

  lemma ScriptPublished(now: Time, a: Auction, h: RequestId)
    requires Can(now, a, Script(h)) && PublishedInv(a)
    ensures PublishedInv(Do(now, a, Script(h)))
  {
    var after := Do(now, a, Script(h));
    var bid := a.bidders[h].bid;
    if after.past.accepted != a.past.accepted {
      AppendMessage(a.past.published, PriceUpdate(bid.amount));
      assert after.past.accepted == a.past.accepted + [bid];
      assert AmountsOf(after.past.accepted) == AmountsOf(a.past.accepted) + [bid.amount];
    }
  }

  lemma PublishedFrame(a: Auction, after: Auction)
    requires PublishedInv(a) && after.past.published == a.past.published && after.past.accepted == a.past.accepted
    requires a.past.commits <= after.past.commits && after.past.announced == a.past.announced
    ensures PublishedInv(after)
  {
  }

  lemma DoPublishedInv(now: Time, a: Auction, act: Act)
    requires Inv(now, a) && Can(now, a, act) && PublishedInv(a)
    ensures PublishedInv(Do(now, a, act))
  {
    if act.Announce? {
      AnnouncePublished(now, a, act.w);
    } else if act.Script? {
      ScriptPublished(now, a, act.h);
    } else {
      PublishesOne(now, a, act);
      DoGrows(now, a, act);
      PublishedFrame(a, Do(now, a, act));
    }
  }

  lemma {:induction false} RunPublished(states: seq<System>, actions: seq<Action>, i: nat, id: AuctionId)
    requires Run(states, actions) && Exists(states, i, id)
    ensures PublishedInv(states[i].auctions[id])
  {
    if 0 < i {
      StepOf(states, actions, i - 1, id);
      if Exists(states, i - 1, id) {
        RunPublished(states, actions, i - 1, id);
        Reachable(states, actions, i - 1, id);
        var now, a, after := states[i - 1].now, states[i - 1].auctions[id], states[i].auctions[id];
        if after != a {
          var act :| Can(now, a, act) && after == Do(now, a, act);
          DoPublishedInv(now, a, act);
        }
      }
    }
  }

  // ---------- the wire ----------

  /** The wire carries, auction by auction, what the auctions publish. */
  ghost predicate WireInv(s: System) {
    forall id: AuctionId :: OfAuction(s.wire, id) == if id in s.auctions then s.auctions[id].past.published else []
  }

  lemma OwnWireInv(s: System, id: AuctionId, act: Act)
    requires Enabled(s, On(id, act)) && WireInv(s)
    ensures WireInv(Apply(s, On(id, act)))
  {
    var a, after := s.auctions[id], Do(s.now, s.auctions[id], act);
    var t := Apply(s, On(id, act));
    PublishesOne(s.now, a, act);
    if after.past.published == a.past.published {
      assert Tag(id, Fresh(a, after)) == [];
      assert t.wire == s.wire;
    } else {
      var m := Last(after.past.published);
      assert after.past.published == a.past.published + [m];
      assert Fresh(a, after) == [m];
      assert Tag(id, [m]) == [Envelope(id, m)];
      forall x: AuctionId ensures OfAuction(t.wire, x) == if x in t.auctions then t.auctions[x].past.published else [] {
        AppendWire(s.wire, Envelope(id, m), x);
      }
    }
  }

  lemma {:induction false} RunWire(states: seq<System>, actions: seq<Action>, i: nat)
    requires Run(states, actions) && i < |states|
    ensures WireInv(states[i])
  {
    if 0 < i {
      RunWire(states, actions, i - 1);
      match actions[i - 1]
      case On(id, act) => OwnWireInv(states[i - 1], id, act);
      case _ =>
    }
  }

  // ---------- order ----------

  /** Until the hot keys are first deleted or expire, the published prices strictly increase. */
  lemma PricesIncrease(states: seq<System>, actions: seq<Action>, i: nat, id: AuctionId)
    requires Run(states, actions) && Exists(states, i, id)
    requires forall k | 0 <= k <= i && Exists(states, k, id) :: Intact(states[k].now, states[k].auctions[id])
    ensures StrictlyIncreasing(Prices(OfAuction(states[i].wire, id)))
  {
    BidsIncrease(states, actions, i, id);
    RunPublished(states, actions, i, id);
    RunWire(states, actions, i);
  }

  /** Under quiescence and with no early expiry they increase over the whole run. */
  lemma PricesIncreaseQuiesced(states: seq<System>, actions: seq<Action>, i: nat, id: AuctionId)
    requires Run(states, actions) && Exists(states, i, id)
    requires NoEarlyExpiry(states, i - 1, id) && Quiesced(states, i, id)
    ensures StrictlyIncreasing(Prices(OfAuction(states[i].wire, id)))
  {
    RunFaithful(states, actions, i, id);
    RunAllSeen(states, actions, i, id);
    Reachable(states, actions, i, id);
    RunPublished(states, actions, i, id);
    RunWire(states, actions, i);
    var a := states[i].auctions[id];
    assert a.past.accepted[..|a.past.accepted|] == a.past.accepted;
    assert Increasing(a.row.starting, a.past.accepted);
  }

  predicate NoticeLast(a: Auction) {
    && SettlementLast(a.past.published)
    && (a.past.announced == 0 ==>
          forall k | 0 <= k < |a.past.published| :: !a.past.published[k].Settlement?)
  }

  lemma DoNoticeLast(now: Time, a: Auction, act: Act)
    requires Inv(now, a) && Can(now, a, act) && NoticeLast(a) && Quiet(a, Do(now, a, act))
    ensures NoticeLast(Do(now, a, act))
  {
    PublishesOne(now, a, act);
    if !act.Announce? {
      assert Do(now, a, act).past.published != a.past.published ==> a.past.snapshots == 0;
    }
  }

  lemma {:induction false} RunNoticeLast(states: seq<System>, actions: seq<Action>, i: nat, id: AuctionId)
    requires Run(states, actions) && Exists(states, i, id) && Quiesced(states, i, id)
    ensures NoticeLast(states[i].auctions[id])
  {
    if 0 < i {
      StepOf(states, actions, i - 1, id);
      if Exists(states, i - 1, id) {
        RunNoticeLast(states, actions, i - 1, id);
        Reachable(states, actions, i - 1, id);
        var now, a, after := states[i - 1].now, states[i - 1].auctions[id], states[i].auctions[id];
        if after != a {
          var act :| Can(now, a, act) && after == Do(now, a, act);
          DoNoticeLast(now, a, act);
        }
      }
    }
  }

  /** Under quiescence no PRICE_UPDATE is published after the SETTLEMENT. */
  lemma SettlementComesLast(states: seq<System>, actions: seq<Action>, i: nat, id: AuctionId)
    requires Run(states, actions) && Exists(states, i, id) && Quiesced(states, i, id)
    ensures SettlementLast(OfAuction(states[i].wire, id))
  {
    RunWire(states, actions, i);
    RunNoticeLast(states, actions, i, id);
  }

  /** A SETTLEMENT that tells the final row: its status and winner, and the price at which it was sold. */
  predicate TrueOf(row: Row, m: Message) {
    && m.Settlement? && m.status == row.status && m.winner == row.winner
    && (row.status == SETTLED ==> m.price == row.high)
  }

  /** Whatever happens, at most one SETTLEMENT is published, and it tells what was committed. */
  lemma AtMostOneNotice(states: seq<System>, actions: seq<Action>, i: nat, id: AuctionId)
    requires Run(states, actions) && Exists(states, i, id)
    ensures var notices := Notices(OfAuction(states[i].wire, id));
            var a := states[i].auctions[id];
            || notices == []
            || (a.past.commits != [] && notices == [Notice(a.past.commits[0])] && TrueOf(a.row, notices[0]))
  {
    Reachable(states, actions, i, id);
    RunWire(states, actions, i);
    RunPublished(states, actions, i, id);
  }
}
