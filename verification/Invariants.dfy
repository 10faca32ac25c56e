/** What holds of every auction in every reachable state, whatever expires, crashes or interleaves. */
module Invariants {
  import opened Domain
  import opened Subsequences
  import opened Schema
  import opened HotKeys
  import opened Protocol

  // ---------- the database side ----------

  /** A leader that MGET returned is the latest bid accepted by then, and its amount came with it. */
  predicate SnapOk(past: History, snap: Snapshot) {
    && snap.seen <= |past.accepted|
    && (snap.leader.Some? ==>
          && 0 < snap.seen
          && snap.price == Some(past.accepted[snap.seen - 1].amount)
          && snap.leader == Some(past.accepted[snap.seen - 1].user))
  }

  predicate FollowsSnapshot(r: Record) {
    match r.outcome
    case Unsold => r.snap.leader.None?
    case Sold(amount, user) => r.snap.price == Some(amount) && r.snap.leader == Some(user)
  }

  predicate Untouched(a: Auction) {
    a == NewAuction(a.row).(bidders := a.bidders)
  }

  predicate RowInv(a: Auction) {
    && RowOk(a.row)
    && |a.past.commits| <= 1 && a.past.announced <= |a.past.commits| && a.past.deletes <= a.past.announced
    && (a.past.commits != [] ==> 0 < a.past.snapshots)
    && match a.row.status
       case ACTIVE => a.past.commits == [] && a.ledger == [] && a.row.high.None?
       case CLOSED | SETTLED =>
         && a.past.commits != []
         && Records(a.row, a.ledger, a.past.commits[0].outcome)
         && FollowsSnapshot(a.past.commits[0]) && SnapOk(a.past, a.past.commits[0].snap)
       case DRAFT | CANCELLED => Untouched(a)
  }

  predicate LockInv(a: Auction) {
    && (a.lock.Some? ==> a.lock.value in a.settlers && a.settlers[a.lock.value].Holding?)
    && forall w | w in a.settlers && a.settlers[w].Holding? :: a.lock == Some(w) && a.row.status == ACTIVE
  }

  /** The one worker that has committed, as long as it is not through. */
  predicate Sole(a: Auction, w: WorkerId, announced: nat) {
    |a.past.commits| == 1 && a.past.commits[0].worker == w && a.past.announced == announced && a.past.deletes == 0
  }

  predicate SettlerOk(a: Auction, w: WorkerId, p: Settler) {
    match p
    case Selected => true
    case Snapped(snap) => SnapOk(a.past, snap) && 0 < a.past.snapshots
    case Holding(snap) => SnapOk(a.past, snap) && 0 < a.past.snapshots
    case Committed(r) => Sole(a, w, 0) && a.past.commits[0] == r
    case Cached(r) => Sole(a, w, 0) && a.past.commits[0] == r
    case Announced => Sole(a, w, 1)
    case Finished => a.row.status != ACTIVE
    case Failed => true
  }

  predicate SettlersInv(a: Auction) {
    forall w | w in a.settlers :: SettlerOk(a, w, a.settlers[w])
  }

  // ---------- the Redis side ----------

  /** A key with an expiry keeps it beyond a day after the end, less one second. */
  predicate LongLived<V>(a: Auction, k: Key<V>) {
    k.Held? && k.expires.Some? ==> a.row.end + DAY - SECOND < k.expires.value
  }

  /** Price and leader are the latest accepted bid, with one expiry between them. */
  predicate PairIsLatest(a: Auction) {
    && a.past.accepted != []
    && a.hot.leader.Held? && a.hot.leader.value == Last(a.past.accepted).user
    && a.hot.price == Held(Last(a.past.accepted).amount, a.hot.leader.expires)
  }

  predicate KeyInv(now: Time, a: Auction) {
    && LongLived(a, a.hot.price) && LongLived(a, a.hot.leader)
    && (a.hot.price.Held? && a.hot.price.expires.None? ==> a.hot.price.value == a.row.starting)
    && (a.hot.leader.Held? ==> a.hot.leader.expires.Some?)
    && (Visible(a.hot.leader, now) ==> PairIsLatest(a))
  }

  // ---------- the handlers ----------

  /** The script has accepted the request's bid. */
  predicate Won(stage: Stage) {
    stage == Judged(Accepted) || stage == Answered(Created)
  }

  /** The handler has passed its first check. */
  predicate PastGate(stage: Stage) {
    stage in {Admitted, Primed, Flagged, Cleared} || stage.Timed? || stage.Armed?
  }

  predicate Undecided(stage: Stage) {
    stage in {Asked, Fetched} || PastGate(stage)
  }

  predicate SameTerms(r: Row, s: Row) {
    r.starting == s.starting && r.start == s.start && r.end == s.end
  }

  predicate BidderOk(now: Time, a: Auction, h: RequestId, b: Bidder) {
    && b.bid.request == h && 0 <= b.bid.amount < NUMERIC_LIMIT
    && (b.copy.Some? ==> SameTerms(b.copy.value, a.row))
    && (b.copy.Some? && b.copy.value.status == ACTIVE ==> a.row.status in {ACTIVE, CLOSED, SETTLED})
    && (PastGate(b.stage) ==> b.copy.Some? && b.copy.value.status == ACTIVE)
    && (b.stage.Armed? ==> 1 <= b.stage.seconds && a.row.end + DAY - SECOND < now + b.stage.seconds * SECOND)
    && (Won(b.stage) ==> b.bid in a.past.accepted)
    && (!Won(b.stage) && !b.stage.Gone? ==> b.bid !in a.past.accepted)
  }

  predicate BiddersInv(now: Time, a: Auction) {
    forall h | h in a.bidders :: BidderOk(now, a, h, a.bidders[h])
  }

  /** Every accepted bid belongs to a request of its own. */
  predicate OnceEach(a: Auction) {
    && (forall i | 0 <= i < |a.past.accepted| ::
          a.past.accepted[i].request in a.bidders && a.bidders[a.past.accepted[i].request].bid == a.past.accepted[i]
          && 0 <= a.past.accepted[i].amount < NUMERIC_LIMIT)
    && (forall i, j | 0 <= i < j < |a.past.accepted| :: a.past.accepted[i].request != a.past.accepted[j].request)
  }

  predicate Inv(now: Time, a: Auction) {
    RowInv(a) && LockInv(a) && SettlersInv(a) && KeyInv(now, a) && BiddersInv(now, a) && OnceEach(a)
  }

  // ---------- every step keeps it ----------

  lemma NewAuctionInv(now: Time, row: Row)
    requires Creatable(row)
    ensures Inv(now, NewAuction(row))
  {
  }

  lemma TickInv(now: Time, later: Time, a: Auction)
    requires Inv(now, a) && now <= later
    ensures Inv(later, a)
  {
  }

  /** A step that moves one handler and leaves everything else alone. */
  lemma BidderInv(now: Time, a: Auction, h: RequestId, b: Bidder)
    requires Inv(now, a)
    requires BidderOk(now, a, h, b)
    requires h in a.bidders ==> b.bid == a.bidders[h].bid
    ensures Inv(now, a.(bidders := a.bidders[h := b]))
  {
    var after := a.(bidders := a.bidders[h := b]);
    assert OnceEach(after);
    assert BiddersInv(now, after);
    assert SettlersInv(after) by {
      forall w | w in after.settlers ensures SettlerOk(after, w, after.settlers[w]) {
        assert SettlerOk(a, w, a.settlers[w]);
      }
    }
  }

  lemma AskInv(now: Time, a: Auction, bid: Bid)
    requires Inv(now, a) && Can(now, a, Ask(bid))
    ensures Inv(now, Do(now, a, Ask(bid)))
  {
    assert bid !in a.past.accepted;
    BidderInv(now, a, bid.request, Bidder(bid, None, Asked));
  }

  lemma FetchInv(now: Time, a: Auction, h: RequestId)
    requires Inv(now, a) && Can(now, a, Fetch(h))
    ensures Inv(now, Do(now, a, Fetch(h)))
  {
    assert BidderOk(now, a, h, a.bidders[h]);
    BidderInv(now, a, h, Bidder(a.bidders[h].bid, Some(a.row), Fetched));
  }

  /** Either check. */
  lemma CheckInv(now: Time, a: Auction, h: RequestId, passed: Stage)
    requires Inv(now, a) && h in a.bidders && a.bidders[h].copy.Some? && Undecided(a.bidders[h].stage)
    requires passed in {Admitted, Cleared}
    ensures Inv(now, DoCheck(now, a, h, passed))
  {
    assert BidderOk(now, a, h, a.bidders[h]);
    BidderInv(now, a, h, DoCheck(now, a, h, passed).bidders[h]);
  }

  lemma UntilInv(now: Time, a: Auction, h: RequestId)
    requires Inv(now, a) && Can(now, a, Until(h))
    ensures Inv(now, Do(now, a, Until(h)))
  {
    assert BidderOk(now, a, h, a.bidders[h]);
    BidderInv(now, a, h, a.bidders[h].(stage := Timed(a.bidders[h].copy.value.end - now)));
  }

  lemma ArmInv(now: Time, a: Auction, h: RequestId)
    requires Inv(now, a) && Can(now, a, Arm(h))
    ensures Inv(now, Do(now, a, Arm(h)))
  {
    assert BidderOk(now, a, h, a.bidders[h]);
    BidTtlReaches(a.row.end, now, now);
    BidderInv(now, a, h, a.bidders[h].(stage := Armed(BidTtl(a.bidders[h].copy.value.end, now))));
  }

  lemma RespondInv(now: Time, a: Auction, h: RequestId)
    requires Inv(now, a) && Can(now, a, Respond(h))
    ensures Inv(now, Do(now, a, Respond(h)))
  {
    assert BidderOk(now, a, h, a.bidders[h]);
    BidderInv(now, a, h, a.bidders[h].(stage := Answered(ReplyTo(a.bidders[h].stage.verdict))));
  }

  lemma DropInv(now: Time, a: Auction, h: RequestId)
    requires Inv(now, a) && Can(now, a, Drop(h))
    ensures Inv(now, Do(now, a, Drop(h)))
  {
    assert BidderOk(now, a, h, a.bidders[h]);
    BidderInv(now, a, h, a.bidders[h].(stage := Gone));
  }

  /** Handlers do not look at the keys, workers neither: only the key invariant has to be shown again. */
  lemma HotInv(now: Time, a: Auction, hot: Hot)
    requires Inv(now, a) && a.row.status in {ACTIVE, CLOSED, SETTLED}
    requires KeyInv(now, a.(hot := hot))
    ensures Inv(now, a.(hot := hot))
  {
    var after := a.(hot := hot);
    assert BiddersInv(now, after) by {
      forall h | h in after.bidders ensures BidderOk(now, after, h, after.bidders[h]) {
        assert BidderOk(now, a, h, a.bidders[h]);
      }
    }
    assert SettlersInv(after) by {
      forall w | w in after.settlers ensures SettlerOk(after, w, after.settlers[w]) {
        assert SettlerOk(a, w, a.settlers[w]);
      }
    }
  }

  lemma PrimeInv(now: Time, a: Auction, h: RequestId)
    requires Inv(now, a) && Can(now, a, Prime(h))
    ensures Inv(now, Do(now, a, Prime(h)))
  {
    assert BidderOk(now, a, h, a.bidders[h]);
    var hot := SetNx(a.hot, a.bidders[h].copy.value.starting, now);
    HotInv(now, a, hot);
    BidderInv(now, a.(hot := hot), h, a.bidders[h].(stage := Primed));
  }

  lemma FlagInv(now: Time, a: Auction, h: RequestId)
    requires Inv(now, a) && Can(now, a, Flag(h))
    ensures Inv(now, Do(now, a, Flag(h)))
  {
    assert BidderOk(now, a, h, a.bidders[h]);
    var hot := SetStatus(a.hot, ACTIVE, a.bidders[h].stage.ttl, now);
    HotInv(now, a, hot);
    BidderInv(now, a.(hot := hot), h, a.bidders[h].(stage := Flagged));
  }

  /** An accepted bid, in history and handler. */
  lemma AcceptKeepsBidders(now: Time, a: Auction, h: RequestId, after: Auction)
    requires BiddersInv(now, a) && OnceEach(a) && h in a.bidders && a.bidders[h].stage.Armed?
    requires after.row == a.row && after.past.accepted == a.past.accepted + [a.bidders[h].bid]
    requires after.bidders == a.bidders[h := a.bidders[h].(stage := Judged(Accepted))]
    ensures BiddersInv(now, after) && OnceEach(after)
  {
    var bid := a.bidders[h].bid;
    assert BidderOk(now, a, h, a.bidders[h]);
    assert forall b :: b in after.past.accepted <==> b in a.past.accepted || b == bid;
    forall g | g in after.bidders ensures BidderOk(now, after, g, after.bidders[g]) {
      assert BidderOk(now, a, g, a.bidders[g]);
    }
  }

  /** The script as one change of keys, history and handler. */
  lemma AcceptInv(now: Time, a: Auction, h: RequestId)
    requires Inv(now, a) && Can(now, a, Script(h))
    requires RunScript(a.hot, now, a.bidders[h].bid.user, a.bidders[h].bid.amount,
                       a.bidders[h].stage.seconds).1.Accepted?
    ensures Inv(now, Do(now, a, Script(h)))
  {
    var after := Do(now, a, Script(h));
    assert BidderOk(now, a, h, a.bidders[h]);
    AcceptKeepsBidders(now, a, h, after);
    assert SettlersInv(after) by {
      forall w | w in after.settlers ensures SettlerOk(after, w, after.settlers[w]) {
        assert SettlerOk(a, w, a.settlers[w]);
      }
    }
    assert RowInv(after);
    assert KeyInv(now, after);
  }

  lemma ScriptInv(now: Time, a: Auction, h: RequestId)
    requires Inv(now, a) && Can(now, a, Script(h))
    ensures Inv(now, Do(now, a, Script(h)))
  {
    assert BidderOk(now, a, h, a.bidders[h]);
    var (hot, verdict) := RunScript(a.hot, now, a.bidders[h].bid.user, a.bidders[h].bid.amount,
                                    a.bidders[h].stage.seconds);
    if verdict.Accepted? {
      AcceptInv(now, a, h);
    } else {
      BidderInv(now, a, h, a.bidders[h].(stage := Judged(verdict)));
    }
  }

  /** Handlers look at the history only for the accepted bids. */
  lemma SettlingKeepsBidders(now: Time, a: Auction, after: Auction)
    requires BiddersInv(now, a) && OnceEach(a)
    requires after.bidders == a.bidders && after.past.accepted == a.past.accepted && SameTerms(after.row, a.row)
    requires after.row.status == a.row.status || after.row.status in {CLOSED, SETTLED}
    ensures BiddersInv(now, after) && OnceEach(after)
  {
    forall h | h in after.bidders ensures BidderOk(now, after, h, after.bidders[h]) {
      assert BidderOk(now, a, h, a.bidders[h]);
    }
  }

  /** A step that moves one worker and leaves row, ledger, keys and accepted bids alone. */
  lemma SettlerInv(now: Time, a: Auction, after: Auction, w: WorkerId, p: Settler)
    requires Inv(now, a) && a.row.status in {ACTIVE, CLOSED, SETTLED}
    requires after == a.(settlers := a.settlers[w := p], lock := after.lock,
                         past := a.past.(snapshots := after.past.snapshots))
    requires a.past.snapshots <= after.past.snapshots
    requires SettlerOk(after, w, p) && LockInv(after)
    ensures Inv(now, after)
  {
    SettlingKeepsBidders(now, a, after);
    forall v | v in after.settlers ensures SettlerOk(after, v, after.settlers[v]) {
      if v != w {
        assert SettlerOk(a, v, a.settlers[v]);
      }
    }
  }

  lemma SelectInv(now: Time, a: Auction, w: WorkerId)
    requires Inv(now, a) && Can(now, a, Select(w))
    ensures Inv(now, Do(now, a, Select(w)))
  {
    SettlerInv(now, a, Do(now, a, Select(w)), w, Selected);
  }

  lemma SnapInv(now: Time, a: Auction, w: WorkerId)
    requires Inv(now, a) && Can(now, a, Snap(w))
    ensures Inv(now, Do(now, a, Snap(w)))
  {
    SettlerInv(now, a, Do(now, a, Snap(w)), w, Snapped(TakeSnapshot(now, a)));
  }

  lemma LockStepInv(now: Time, a: Auction, w: WorkerId)
    requires Inv(now, a) && Can(now, a, Lock(w))
    ensures Inv(now, Do(now, a, Lock(w)))
  {
    assert SettlerOk(a, w, a.settlers[w]);
    SettlerInv(now, a, Do(now, a, Lock(w)), w, Do(now, a, Lock(w)).settlers[w]);
  }

  lemma FailInv(now: Time, a: Auction, w: WorkerId)
    requires Inv(now, a) && Can(now, a, Fail(w))
    ensures Inv(now, Do(now, a, Fail(w)))
  {
    SettlerInv(now, a, Do(now, a, Fail(w)), w, Failed);
  }

  /** The transaction has committed. */
  lemma DoneInv(now: Time, a: Auction, w: WorkerId)
    requires Inv(now, a) && Can(now, a, Commit(w))
    requires SettleTx(a.row, a.ledger, a.settlers[w].snap.price, a.settlers[w].snap.leader).Done?
    ensures Inv(now, Do(now, a, Commit(w)))
  {
    var after := Do(now, a, Commit(w));
    var snap := a.settlers[w].snap;
    assert SettlerOk(a, w, a.settlers[w]);
    SettleTxCommits(a.row, snap.price, snap.leader);
    SettlingKeepsBidders(now, a, after);
    assert SettlersInv(after) by {
      forall v | v in after.settlers ensures SettlerOk(after, v, after.settlers[v]) {
        assert SettlerOk(a, v, a.settlers[v]);
      }
    }
    assert KeyInv(now, after);
    assert LockInv(after);
    assert RowInv(after);
  }

  lemma CommitInv(now: Time, a: Auction, w: WorkerId)
    requires Inv(now, a) && Can(now, a, Commit(w))
    ensures Inv(now, Do(now, a, Commit(w)))
  {
    if SettleTx(a.row, a.ledger, a.settlers[w].snap.price, a.settlers[w].snap.leader).Done? {
      DoneInv(now, a, w);
    } else {
      // the transaction is rolled back, as after an error
      assert Do(now, a, Commit(w)) == Do(now, a, Fail(w));
      FailInv(now, a, w);
    }
  }

  /** Cache, Announce and Erase: the worker that committed is the only one past its commit. */
  lemma ClosingInv(now: Time, a: Auction, w: WorkerId, after: Auction, p: Settler)
    requires Inv(now, a) && w in a.settlers
    requires a.settlers[w].Committed? || a.settlers[w].Cached? || a.settlers[w].Announced?
    requires p.Cached? || p.Announced? || p.Finished?
    requires after.settlers == a.settlers[w := p] && SettlerOk(after, w, p)
    requires after == a.(settlers := after.settlers, hot := after.hot, past := a.past.(
                           announced := after.past.announced, deletes := after.past.deletes,
                           published := after.past.published))
    requires a.past.announced <= after.past.announced <= 1
    requires a.past.deletes <= after.past.deletes <= after.past.announced
    requires KeyInv(now, after)
    ensures Inv(now, after)
  {
    assert SettlerOk(a, w, a.settlers[w]);
    SettlingKeepsBidders(now, a, after);
    forall v | v in after.settlers ensures SettlerOk(after, v, after.settlers[v]) {
      assert SettlerOk(a, v, a.settlers[v]);
    }
  }

  lemma CacheInv(now: Time, a: Auction, w: WorkerId)
    requires Inv(now, a) && Can(now, a, Cache(w))
    ensures Inv(now, Do(now, a, Cache(w)))
  {
    assert SettlerOk(a, w, a.settlers[w]);
    ClosingInv(now, a, w, Do(now, a, Cache(w)), Cached(a.settlers[w].record));
  }

  lemma AnnounceInv(now: Time, a: Auction, w: WorkerId)
    requires Inv(now, a) && Can(now, a, Announce(w))
    ensures Inv(now, Do(now, a, Announce(w)))
  {
    assert SettlerOk(a, w, a.settlers[w]);
    ClosingInv(now, a, w, Do(now, a, Announce(w)), Announced);
  }

  lemma EraseInv(now: Time, a: Auction, w: WorkerId)
    requires Inv(now, a) && Can(now, a, Erase(w))
    ensures Inv(now, Do(now, a, Erase(w)))
  {
    assert SettlerOk(a, w, a.settlers[w]);
    ClosingInv(now, a, w, Do(now, a, Erase(w)), Finished);
  }

  lemma HandlerInv(now: Time, a: Auction, act: Act)
    requires Inv(now, a) && Can(now, a, act)
    requires act.Ask? || act.Fetch? || act.Gate? || act.Prime? || act.Until? || act.Flag? || act.Regate? || act.Arm?
             || act.Script? || act.Respond? || act.Drop?
    ensures Inv(now, Do(now, a, act))
  {
    match act
    case Ask(bid) => AskInv(now, a, bid);
    case Fetch(h) => FetchInv(now, a, h);
    case Gate(h) => CheckInv(now, a, h, Admitted);
    case Prime(h) => PrimeInv(now, a, h);
    case Until(h) => UntilInv(now, a, h);
    case Flag(h) => FlagInv(now, a, h);
    case Regate(h) => CheckInv(now, a, h, Cleared);
    case Arm(h) => ArmInv(now, a, h);
    case Script(h) => ScriptInv(now, a, h);
    case Respond(h) => RespondInv(now, a, h);
    case Drop(h) => DropInv(now, a, h);
  }

  lemma WorkerInv(now: Time, a: Auction, act: Act)
    requires Inv(now, a) && Can(now, a, act)
    requires act.Select? || act.Snap? || act.Lock? || act.Commit? || act.Cache? || act.Announce? || act.Erase?
             || act.Fail?
    ensures Inv(now, Do(now, a, act))
  {
    match act
    case Select(w) => SelectInv(now, a, w);
    case Snap(w) => SnapInv(now, a, w);
    case Lock(w) => LockStepInv(now, a, w);
    case Commit(w) => CommitInv(now, a, w);
    case Cache(w) => CacheInv(now, a, w);
    case Announce(w) => AnnounceInv(now, a, w);
    case Erase(w) => EraseInv(now, a, w);
    case Fail(w) => FailInv(now, a, w);
  }

  lemma DoInv(now: Time, a: Auction, act: Act)
    requires Inv(now, a) && Can(now, a, act)
    ensures Inv(now, Do(now, a, act))
  {
    match act
    case Select(_) | Snap(_) | Lock(_) | Commit(_) | Cache(_) | Announce(_) | Erase(_) | Fail(_) =>
      WorkerInv(now, a, act);
    case _ =>
      HandlerInv(now, a, act);
  }
}
