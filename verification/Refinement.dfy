/** The protocol simulates an atomic auction: bids are accepted one by one, then it closes once. */
module Refinement {
  import opened Domain
  import opened Subsequences
  import opened Schema
  import opened HotKeys
  import opened Protocol
  import opened Invariants
  import opened Runs
  import opened Settlement

  /** The auction a bidder imagines. */
  datatype Atomic =
    | Dormant
    | Open(high: Cents, leader: Option<UserId>)
    | Over(outcome: Outcome)

  predicate Opens(row: Row, s: Atomic) {
    s == if row.status == ACTIVE then Open(row.starting, None) else Dormant
  }

  predicate Accepts(s: Atomic, bid: Bid, t: Atomic) {
    s.Open? && s.high < bid.amount && t == Open(bid.amount, Some(bid.user))
  }

  predicate Closes(s: Atomic, t: Atomic) {
    s.Open? && t == Over(if s.leader.None? then Unsold else Sold(s.high, s.leader.value))
  }

  /** A rejection that shows a price is right about it. */
  predicate Rejects(s: Atomic, bid: Bid, shown: Cents) {
    s.Open? && s.high == shown && bid.amount <= shown
  }

  /** The atomic auction that a concrete state stands for. */
  function Abstract(a: Auction): Atomic {
    match a.row.status
    case DRAFT | CANCELLED => Dormant
    case ACTIVE =>
      if a.past.accepted == [] then Open(a.row.starting, None)
      else Open(Last(a.past.accepted).amount, Some(Last(a.past.accepted).user))
    case CLOSED => Over(Unsold)
    case SETTLED =>
      if a.row.high.Some? && a.row.winner.Some? then Over(Sold(a.row.high.value, a.row.winner.value)) else Over(Unsold)
  }

  /** What a step of the protocol is in the atomic auction: an accept, the close, or nothing. */
  ghost predicate Simulated(a: Auction, action: Action, id: AuctionId, after: Auction) {
    var s, t := Abstract(a), Abstract(after);
    if action.On? && action.id == id && action.act.Script? && |a.past.accepted| < |after.past.accepted| then
      && action.act.h in a.bidders && Accepts(s, a.bidders[action.act.h].bid, t)
      && after.past.accepted == a.past.accepted + [a.bidders[action.act.h].bid]
    else if action.On? && action.id == id && action.act.Commit? then
      Closes(s, t)
    else
      s == t && after.past.accepted == a.past.accepted
  }

  lemma ScriptSimulated(now: Time, a: Auction, h: RequestId)
    requires Inv(now, a) && Unexpired(now, a) && Faithful(a)
    requires Can(now, a, Script(h)) && Quiet(a, Do(now, a, Script(h)))
    ensures forall id :: Simulated(a, On(id, Script(h)), id, Do(now, a, Script(h)))
  {
    var after := Do(now, a, Script(h));
    assert BidderOk(now, a, h, a.bidders[h]);
    if |a.past.accepted| < |after.past.accepted| {
      assert a.row.status == ACTIVE;
      ActiveIsIntact(now, a);
      ScriptAscends(now, a, h);
      assert Last(after.past.accepted) == a.bidders[h].bid;
    }
  }

  lemma CommitSimulated(now: Time, a: Auction, w: WorkerId)
    requires Inv(now, a) && Faithful(a) && AllSeen(a) && Can(now, a, Commit(w))
    ensures Closes(Abstract(a), Abstract(Do(now, a, Commit(w))))
  {
    var snap := a.settlers[w].snap;
    assert SettlerOk(a, w, a.settlers[w]);
    assert SnapFaithful(a, snap);
    if snap.leader.Some? {
      assert a.past.accepted[..snap.seen][snap.seen - 1] == a.past.accepted[snap.seen - 1];
    }
    SettleTxCommits(a.row, snap.price, snap.leader);
  }

  lemma OnlyCommitCloses(now: Time, a: Auction, act: Act)
    requires Can(now, a, act) && !act.Commit?
    ensures Do(now, a, act).row == a.row
  {
  }

  lemma StutterSimulated(a: Auction, act: Act, id: AuctionId, after: Auction)
    requires !act.Commit? && after.row == a.row && after.past.accepted == a.past.accepted
    ensures Simulated(a, On(id, act), id, after)
  {
  }

  lemma OwnStepSimulated(now: Time, a: Auction, act: Act, id: AuctionId)
    requires Inv(now, a) && Unexpired(now, a) && Faithful(a) && AllSeen(a)
    requires Can(now, a, act) && Quiet(a, Do(now, a, act))
    ensures Simulated(a, On(id, act), id, Do(now, a, act))
  {
    if act.Script? {
      ScriptSimulated(now, a, act.h);
    } else if act.Commit? {
      CommitSimulated(now, a, act.w);
    } else {
      OnlyScriptAccepts(now, a, act);
      OnlyCommitCloses(now, a, act);
      StutterSimulated(a, act, id, Do(now, a, act));
    }
  }

  /**
   * Forward simulation. Under quiescence and with no hot-key expiry before settlement, every step of every
   * interleaving of handlers, workers, scans and crashes is an accept, the close, or a stutter of the atomic
   * auction: reads, SETNX, the status SET, redundant settles, publishing and deleting are invisible.
   */
  lemma Simulation(states: seq<System>, actions: seq<Action>, i: nat, id: AuctionId)
    requires Run(states, actions) && i + 1 < |states| && Exists(states, i + 1, id)
    requires NoEarlyExpiry(states, i, id) && Quiesced(states, i + 1, id)
    ensures if Exists(states, i, id)
            then Simulated(states[i].auctions[id], actions[i], id, states[i + 1].auctions[id])
            else exists row :: Creatable(row) && Opens(row, Abstract(states[i + 1].auctions[id]))
  {
    StepOf(states, actions, i, id);
    if Exists(states, i, id) {
      Reachable(states, actions, i, id);
      RunFaithful(states, actions, i, id);
      RunAllSeen(states, actions, i, id);
      var now, a := states[i].now, states[i].auctions[id];
      match actions[i]
      case On(x, act) =>
        if x == id {
          OwnStepSimulated(now, a, act, id);
        }
      case _ =>
    } else {
      var row :| Creatable(row) && states[i + 1].auctions[id] == NewAuction(row);
      assert Opens(row, Abstract(states[i + 1].auctions[id]));
    }
  }

  /**
   * A rejection is also the atomic auction's: while the auction is open, a 409 that shows a price shows the
   * current high price, and the bid does not exceed it.
   */
  lemma RejectionIsTrue(states: seq<System>, actions: seq<Action>, i: nat, id: AuctionId, h: RequestId, shown: Cents)
    requires Run(states, actions) && i + 1 < |states| && Exists(states, i, id)
    requires NoEarlyExpiry(states, i, id) && states[i].auctions[id].row.status == ACTIVE
    requires actions[i] == On(id, Script(h))
    requires Reached(states[i + 1].auctions[id], h, Judged(TooLow(shown)))
    ensures Rejects(Abstract(states[i].auctions[id]), states[i].auctions[id].bidders[h].bid, shown)
  {
    Reachable(states, actions, i, id);
    RunFaithful(states, actions, i, id);
    var a := states[i].auctions[id];
    assert HasPrimed(a.bidders[h].stage);
  }

  /** An atomic run: the bids are accepted one after the other, and then possibly the auction closes. */
  predicate Performs(s: Atomic, bids: seq<Bid>, t: Atomic)
    decreases |bids|
  {
    if bids == [] then
      t == s || Closes(s, t)
    else
      var next := Open(bids[0].amount, Some(bids[0].user));
      Accepts(s, bids[0], next) && Performs(next, bids[1..], t)
  }

  lemma {:induction false} IncreasingPerforms(s: Atomic, bids: seq<Bid>, t: Atomic)
    requires s.Open? && Increasing(s.high, bids)
    requires var last := if bids == [] then s else Open(Last(bids).amount, Some(Last(bids).user));
             t == last || Closes(last, t)
    ensures Performs(s, bids, t)
    decreases |bids|
  {
    if bids != [] {
      var next := Open(bids[0].amount, Some(bids[0].user));
      if |bids| > 1 {
        assert Last(bids[1..]) == Last(bids);
      }
      IncreasingPerforms(next, bids[1..], t);
    }
  }

  /**
   * The whole run at once: what the auction has come to is what the atomic auction comes to when it accepts
   * the accepted bids in order from its starting price, and closes if a settlement has committed.
   */
  lemma RunIsAtomic(states: seq<System>, actions: seq<Action>, i: nat, id: AuctionId)
    requires Run(states, actions) && Exists(states, i, id)
    requires NoEarlyExpiry(states, i - 1, id) && Quiesced(states, i, id)
    requires states[i].auctions[id].row.status in {ACTIVE, CLOSED, SETTLED}
    ensures var a := states[i].auctions[id];
            && Performs(Open(a.row.starting, None), a.past.accepted, Abstract(a))
            && (Abstract(a).Over? <==> a.past.commits != [])
  {
    Reachable(states, actions, i, id);
    RunFaithful(states, actions, i, id);
    RunAllSeen(states, actions, i, id);
    var a := states[i].auctions[id];
    assert a.past.accepted[..|a.past.accepted|] == a.past.accepted;
    IncreasingPerforms(Open(a.row.starting, None), a.past.accepted, Abstract(a));
  }
}
