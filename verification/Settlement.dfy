/** What a settlement decides, and when it decides on the greatest accepted bid. */
module Settlement {
  import opened Domain
  import opened Subsequences
  import opened Schema
  import opened HotKeys
  import opened Protocol
  import opened Invariants
  import opened Runs

  // ---------- the bids in order ----------

  /** Each bid beats the one before it, and the first one beats the starting price. */
  predicate Increasing(starting: Cents, bids: seq<Bid>) {
    && (forall i | 0 <= i < |bids| :: starting < bids[i].amount)
    && (forall i, j | 0 <= i < j < |bids| :: bids[i].amount < bids[j].amount)
  }

  predicate IsGreatest(bids: seq<Bid>, i: nat) {
    i < |bids| && forall j | 0 <= j < |bids| && j != i :: bids[j].amount < bids[i].amount
  }

  /** The outcome names amount and user of the greatest of these bids, or says that there are none. */
  ghost predicate Decides(outcome: Outcome, bids: seq<Bid>) {
    match outcome
    case Unsold => bids == []
    case Sold(amount, user) =>
      exists i | 0 <= i < |bids| :: IsGreatest(bids, i) && bids[i].amount == amount && bids[i].user == user
  }

  // ---------- as long as the hot keys are there ----------

  /** No worker has deleted the hot keys, and they have not expired. */
  predicate Intact(now: Time, a: Auction) {
    a.past.deletes == 0 && (a.hot.price.Held? ==> Visible(a.hot.price, now))
  }

  predicate HasPrimed(stage: Stage) {
    stage in {Primed, Flagged, Cleared} || stage.Timed? || stage.Armed?
  }

  /** Accepted bids increase, the keys hold the last one, and no script will find the price missing. */
  predicate Ascending(a: Auction) {
    && Increasing(a.row.starting, a.past.accepted)
    && (if a.past.accepted == []
        then a.hot.leader.Absent? && (a.hot.price.Held? ==> a.hot.price == Held(a.row.starting, None))
        else PairIsLatest(a))
    && (forall h | h in a.bidders && HasPrimed(a.bidders[h].stage) :: a.hot.price.Held?)
  }

  lemma ScriptAscends(now: Time, a: Auction, h: RequestId)
    requires Inv(now, a) && Can(now, a, Script(h)) && Intact(now, a) && Ascending(a)
    ensures Ascending(Do(now, a, Script(h)))
  {
    var after := Do(now, a, Script(h));
    assert HasPrimed(a.bidders[h].stage);
    assert Visible(a.hot.price, now);
    var b := a.bidders[h].bid;
    var verdict := RunScript(a.hot, now, b.user, b.amount, a.bidders[h].stage.seconds).1;
    if verdict.Accepted? {
      assert a.hot.price.value < b.amount;
      assert a.hot.price.value == if a.past.accepted == [] then a.row.starting else Last(a.past.accepted).amount;
      assert forall i | 0 <= i < |a.past.accepted| :: a.past.accepted[i].amount <= Last(a.past.accepted).amount;
    }
  }

  /** A step that leaves hot pair and accepted bids alone, and primes no handler. */
  lemma AscendingFrame(a: Auction, after: Auction)
    requires Ascending(a) && after.row.starting == a.row.starting
    requires after.past.accepted == a.past.accepted
    requires after.hot.price == a.hot.price && after.hot.leader == a.hot.leader
    requires forall h | h in after.bidders && HasPrimed(after.bidders[h].stage) ::
               h in a.bidders && HasPrimed(a.bidders[h].stage)
    ensures Ascending(after)
  {
  }

  lemma PrimeAscends(now: Time, a: Auction, h: RequestId)
    requires Inv(now, a) && Can(now, a, Prime(h)) && Intact(now, a) && Ascending(a)
    ensures Ascending(Do(now, a, Prime(h)))
  {
    assert BidderOk(now, a, h, a.bidders[h]);
  }

  lemma HandlerAscends(now: Time, a: Auction, act: Act)
    requires Can(now, a, act) && Ascending(a)
    requires act.Ask? || act.Fetch? || act.Gate? || act.Until? || act.Flag? || act.Regate? || act.Arm?
             || act.Respond? || act.Drop?
    ensures Ascending(Do(now, a, act))
  {
    AscendingFrame(a, Do(now, a, act));
  }

  lemma WorkerAscends(now: Time, a: Auction, act: Act)
    requires Inv(now, a) && Can(now, a, act) && Ascending(a)
    requires act.Select? || act.Snap? || act.Lock? || act.Commit? || act.Cache? || act.Announce? || act.Fail?
    ensures Ascending(Do(now, a, act))
  {
    DoGrows(now, a, act);
    AscendingFrame(a, Do(now, a, act));
  }

  lemma DoAscends(now: Time, a: Auction, act: Act)
    requires Inv(now, a) && Can(now, a, act) && Intact(now, a) && Ascending(a)
    requires !act.Erase?
    ensures Ascending(Do(now, a, act))
  {
    match act
    case Ask(_) | Fetch(_) | Gate(_) | Until(_) | Flag(_) | Regate(_) | Arm(_) | Respond(_) | Drop(_) =>
      HandlerAscends(now, a, act);
    case Prime(h) => PrimeAscends(now, a, h);
    case Script(h) => ScriptAscends(now, a, h);
    case Select(_) | Snap(_) | Lock(_) | Commit(_) | Cache(_) | Announce(_) | Fail(_) => WorkerAscends(now, a, act);
  }

  /** Until an auction's hot keys are first deleted or expire, its accepted bids strictly increase. */
  lemma {:induction false} BidsIncrease(states: seq<System>, actions: seq<Action>, i: nat, id: AuctionId)
    requires Run(states, actions) && Exists(states, i, id)
    requires forall k | 0 <= k <= i && Exists(states, k, id) :: Intact(states[k].now, states[k].auctions[id])
    ensures Ascending(states[i].auctions[id])
  {
    if 0 < i {
      StepOf(states, actions, i - 1, id);
      if Exists(states, i - 1, id) {
        BidsIncrease(states, actions, i - 1, id);
        Reachable(states, actions, i - 1, id);
        var now, a, after := states[i - 1].now, states[i - 1].auctions[id], states[i].auctions[id];
        if after != a {
          var act :| Can(now, a, act) && after == Do(now, a, act);
          DoAscends(now, a, act);
        }
      }
    }
  }

  // ---------- no hot key expires before settlement ----------

  /** While the row is ACTIVE, the price key (and with it the leader, which shares its expiry) has not expired. */
  predicate Unexpired(now: Time, a: Auction) {
    a.row.status == ACTIVE && a.hot.price.Held? ==> Visible(a.hot.price, now)
  }

  ghost predicate NoEarlyExpiry(states: seq<System>, upTo: int, id: AuctionId) {
    forall k | 0 <= k <= upTo && Exists(states, k, id) :: Unexpired(states[k].now, states[k].auctions[id])
  }

  predicate HasSnap(a: Auction, w: WorkerId) {
    w in a.settlers && (a.settlers[w].Snapped? || a.settlers[w].Holding?)
  }

  /** The snapshot shows a leader exactly when a bid had been accepted, and those bids increased. */
  predicate SnapFaithful(a: Auction, snap: Snapshot) {
    && snap.seen <= |a.past.accepted|
    && (snap.leader.Some? <==> 0 < snap.seen)
    && Increasing(a.row.starting, a.past.accepted[..snap.seen])
  }

  predicate Faithful(a: Auction) {
    && (a.row.status == ACTIVE ==>
          && Ascending(a)
          && forall w | w in a.settlers && HasSnap(a, w) :: SnapFaithful(a, a.settlers[w].snap))
    && (a.past.commits != [] ==> SnapFaithful(a, a.past.commits[0].snap))
  }

  lemma ActiveIsIntact(now: Time, a: Auction)
    requires Inv(now, a) && a.row.status == ACTIVE && Unexpired(now, a)
    ensures Intact(now, a)
  {
  }

  lemma SnapFaithfulGrows(a: Auction, after: Auction, snap: Snapshot)
    requires SnapFaithful(a, snap)
    requires a.past.accepted <= after.past.accepted && a.row.starting == after.row.starting
    ensures SnapFaithful(after, snap)
  {
    assert after.past.accepted[..snap.seen] == a.past.accepted[..snap.seen];
  }

  lemma FreshSnapFaithful(now: Time, a: Auction)
    requires Inv(now, a) && a.row.status == ACTIVE && Unexpired(now, a) && Ascending(a)
    ensures SnapFaithful(a, TakeSnapshot(now, a))
  {
    assert a.past.accepted[..|a.past.accepted|] == a.past.accepted;
  }

  /** A worker that has a snapshot has just taken it, or had it before. */
  lemma SnapOrigin(now: Time, a: Auction, act: Act, w: WorkerId)
    requires Can(now, a, act) && HasSnap(Do(now, a, act), w)
    ensures if act == Snap(w)
            then Do(now, a, act).settlers[w].snap == TakeSnapshot(now, a)
            else HasSnap(a, w) && Do(now, a, act).settlers[w].snap == a.settlers[w].snap
  {
  }

  lemma SettlerFaithful(now: Time, a: Auction, act: Act, w: WorkerId)
    requires Inv(now, a) && Can(now, a, act) && Unexpired(now, a) && Faithful(a)
    requires a.row.status == ACTIVE && HasSnap(Do(now, a, act), w)
    ensures SnapFaithful(Do(now, a, act), Do(now, a, act).settlers[w].snap)
  {
    DoGrows(now, a, act);
    SnapOrigin(now, a, act, w);
    if act == Snap(w) {
      FreshSnapFaithful(now, a);
      SnapFaithfulGrows(a, Do(now, a, act), TakeSnapshot(now, a));
    } else {
      SnapFaithfulGrows(a, Do(now, a, act), a.settlers[w].snap);
    }
  }

  lemma ActiveStepFaithful(now: Time, a: Auction, act: Act)
    requires Inv(now, a) && Can(now, a, act) && Unexpired(now, a) && Faithful(a)
    requires a.row.status == ACTIVE && Do(now, a, act).row.status == ACTIVE && !act.Erase?
    requires Do(now, a, act).past.commits == []
    ensures Faithful(Do(now, a, act))
  {
    var after := Do(now, a, act);
    ActiveIsIntact(now, a);
    DoAscends(now, a, act);
    forall w | HasSnap(after, w)
      ensures SnapFaithful(after, after.settlers[w].snap)
    {
      SettlerFaithful(now, a, act, w);
    }
  }

  lemma CommitFaithful(now: Time, a: Auction, w: WorkerId)
    requires Inv(now, a) && Can(now, a, Commit(w)) && Faithful(a)
    requires Do(now, a, Commit(w)).row.status != ACTIVE
    ensures Faithful(Do(now, a, Commit(w)))
  {
    CommitGrows(now, a, w);
    assert SnapFaithful(a, a.settlers[w].snap);
    SnapFaithfulGrows(a, Do(now, a, Commit(w)), a.settlers[w].snap);
  }

  /** Only an announcing worker deletes, and it has committed. */
  lemma EraseIsLate(now: Time, a: Auction, act: Act)
    requires Inv(now, a) && Can(now, a, act) && a.row.status == ACTIVE
    ensures !act.Erase?
    ensures !act.Commit? ==> Do(now, a, act).row == a.row && Do(now, a, act).past.commits == a.past.commits
    ensures act.Commit? && Do(now, a, act).row.status == ACTIVE ==> Do(now, a, act).past.commits == a.past.commits
  {
    if act.Commit? {
      SettleTxCommits(a.row, a.settlers[act.w].snap.price, a.settlers[act.w].snap.leader);
    }
  }

  lemma DoFaithful(now: Time, a: Auction, act: Act)
    requires Inv(now, a) && Can(now, a, act) && Unexpired(now, a) && Faithful(a)
    ensures Faithful(Do(now, a, act))
  {
    var after := Do(now, a, act);
    if a.row.status == ACTIVE {
      EraseIsLate(now, a, act);
      if after.row.status == ACTIVE {
        ActiveStepFaithful(now, a, act);
      } else {
        CommitFaithful(now, a, act.w);
      }
    } else {
      DoGrows(now, a, act);
      if a.past.commits != [] {
        SnapFaithfulGrows(a, after, a.past.commits[0].snap);
      }
    }
  }

  lemma {:induction false} RunFaithful(states: seq<System>, actions: seq<Action>, i: nat, id: AuctionId)
    requires Run(states, actions) && Exists(states, i, id)
    requires NoEarlyExpiry(states, i - 1, id)
    ensures Faithful(states[i].auctions[id])
  {
    if 0 < i {
      StepOf(states, actions, i - 1, id);
      if Exists(states, i - 1, id) {
        RunFaithful(states, actions, i - 1, id);
        Reachable(states, actions, i - 1, id);
        var now, a, after := states[i - 1].now, states[i - 1].auctions[id], states[i].auctions[id];
        if after != a {
          var act :| Can(now, a, act) && after == Do(now, a, act);
          DoFaithful(now, a, act);
        }
      }
    }
  }

  // ---------- the winner ----------

  lemma LastIsGreatest(starting: Cents, bids: seq<Bid>)
    requires Increasing(starting, bids) && bids != []
    ensures IsGreatest(bids, |bids| - 1)
    ensures forall i | 0 <= i < |bids| :: IsGreatest(bids, i) ==> i == |bids| - 1
  {
    forall i | 0 <= i < |bids| - 1 ensures !IsGreatest(bids, i) {
      assert bids[i].amount < bids[|bids| - 1].amount;
    }
  }

  /** A faithful snapshot decides on exactly the bids it has seen, and on no longer list of increasing bids. */
  lemma DecidesExactly(a: Auction, r: Record)
    requires SnapOk(a.past, r.snap) && SnapFaithful(a, r.snap) && FollowsSnapshot(r)
    ensures Decides(r.outcome, a.past.accepted[..r.snap.seen])
    ensures Increasing(a.row.starting, a.past.accepted) ==>
              (Decides(r.outcome, a.past.accepted) <==> r.snap.seen == |a.past.accepted|)
  {
    var seen, all := r.snap.seen, a.past.accepted;
    var bids := all[..seen];
    if 0 < seen {
      LastIsGreatest(a.row.starting, bids);
      assert bids[seen - 1] == all[seen - 1];
    }
    if Increasing(a.row.starting, all) && all != [] {
      LastIsGreatest(a.row.starting, all);
      if seen == |all| {
        assert bids == all;
      }
    }
  }

  /** The same for a step of the system. */
  lemma SnapInStep(s: System, action: Action, id: AuctionId, w: WorkerId)
    requires Enabled(s, action)
    requires id in Apply(s, action).auctions && HasSnap(Apply(s, action).auctions[id], w)
    ensures id in s.auctions
    ensures var snap := Apply(s, action).auctions[id].settlers[w].snap;
            if action == On(id, Snap(w)) then snap == TakeSnapshot(s.now, s.auctions[id])
            else HasSnap(s.auctions[id], w) && snap == s.auctions[id].settlers[w].snap
  {
    if action.On? && action.id == id {
      SnapOrigin(s.now, s.auctions[id], action.act, w);
    }
  }

  /** The instant a worker's snapshot was taken: `seen` counts the bids accepted by then. */
  lemma {:induction false} SnapshotInstant(
      states: seq<System>, actions: seq<Action>, i: nat, id: AuctionId, w: WorkerId) returns (k: nat)
    requires Run(states, actions) && Exists(states, i, id) && HasSnap(states[i].auctions[id], w)
    ensures k < i && Exists(states, k, id) && actions[k] == On(id, Snap(w))
    ensures forall m | k < m < i :: actions[m] != On(id, Snap(w))
    ensures states[i].auctions[id].settlers[w].snap == TakeSnapshot(states[k].now, states[k].auctions[id])
    ensures states[k].auctions[id].past.accepted <= states[i].auctions[id].past.accepted
    decreases i
  {
    SnapInStep(states[i - 1], actions[i - 1], id, w);
    if actions[i - 1] == On(id, Snap(w)) {
      k := i - 1;
    } else {
      k := SnapshotInstant(states, actions, i - 1, id, w);
    }
    Growth(states, actions, k, i, id);
  }

  /** A commit that was not there before the step is the step's. */
  lemma CommitOrigin(now: Time, a: Auction, act: Act)
    requires Inv(now, a) && Can(now, a, act) && Do(now, a, act).past.commits != [] && a.past.commits == []
    ensures act.Commit?
    ensures var r := Do(now, a, act).past.commits[0];
            act.w == r.worker && r.worker in a.settlers && a.settlers[r.worker] == Holding(r.snap)
  {
  }

  /** The same for a step of the system. */
  lemma CommitInStep(s: System, action: Action, id: AuctionId)
    requires Enabled(s, action) && (id in s.auctions ==> Inv(s.now, s.auctions[id]))
    requires id in Apply(s, action).auctions && Apply(s, action).auctions[id].past.commits != []
    ensures id in s.auctions
    ensures s.auctions[id].past.commits == [] ==>
              var r := Apply(s, action).auctions[id].past.commits[0];
              && action == On(id, Commit(r.worker))
              && r.worker in s.auctions[id].settlers && s.auctions[id].settlers[r.worker] == Holding(r.snap)
  {
    if id !in s.auctions {
      Appears(s, action, id);
    } else if action.On? && action.id == id && s.auctions[id].past.commits == [] {
      CommitOrigin(s.now, s.auctions[id], action.act);
    }
  }

  /** And for a step of a run. */
  lemma CommitInRun(states: seq<System>, actions: seq<Action>, j: nat, id: AuctionId)
    requires Run(states, actions) && j < |actions| && Exists(states, j + 1, id)
    requires states[j + 1].auctions[id].past.commits != []
    ensures Exists(states, j, id)
    ensures states[j].auctions[id].past.commits == [] ==>
              var r := states[j + 1].auctions[id].past.commits[0];
              && actions[j] == On(id, Commit(r.worker))
              && r.worker in states[j].auctions[id].settlers
              && states[j].auctions[id].settlers[r.worker] == Holding(r.snap)
  {
    if id in states[j].auctions {
      Reachable(states, actions, j, id);
    }
    CommitInStep(states[j], actions[j], id);
  }

  /** The committing step of a settlement that stands committed in state `i`. */
  lemma {:induction false} CommitStep(states: seq<System>, actions: seq<Action>, i: nat, id: AuctionId)
      returns (j: nat)
    requires Run(states, actions) && Exists(states, i, id) && states[i].auctions[id].past.commits != []
    ensures j < i && Exists(states, j, id) && Exists(states, j + 1, id)
    ensures var r := states[i].auctions[id].past.commits[0];
            var a := states[j].auctions[id];
            && actions[j] == On(id, Commit(r.worker))
            && a.past.commits == [] && states[j + 1].auctions[id].past.commits != []
            && r.worker in a.settlers && a.settlers[r.worker] == Holding(r.snap)
    decreases i
  {
    assert i != 0;
    CommitInRun(states, actions, i - 1, id);
    if states[i - 1].auctions[id].past.commits == [] {
      j := i - 1;
    } else {
      j := CommitStep(states, actions, i - 1, id);
      Reachable(states, actions, i, id);
      Growth(states, actions, i - 1, i, id);
    }
  }

  /** There is exactly one: no other step changes the auction's commits. */
  lemma CommitInstant(states: seq<System>, actions: seq<Action>, i: nat, id: AuctionId) returns (j: nat)
    requires Run(states, actions) && Exists(states, i, id) && states[i].auctions[id].past.commits != []
    ensures j < i && Exists(states, j, id)
    ensures var r := states[i].auctions[id].past.commits[0];
            var a := states[j].auctions[id];
            && actions[j] == On(id, Commit(r.worker))
            && a.past.commits == []
            && r.worker in a.settlers && a.settlers[r.worker] == Holding(r.snap)
    ensures forall m | 0 <= m < |actions| && Exists(states, m, id) && Exists(states, m + 1, id) ::
              states[m + 1].auctions[id].past.commits != states[m].auctions[id].past.commits <==> m == j
  {
    j := CommitStep(states, actions, i, id);
    forall m | 0 <= m < |actions| && m != j && Exists(states, m, id) && Exists(states, m + 1, id)
      ensures states[m + 1].auctions[id].past.commits == states[m].auctions[id].past.commits
    {
      Growth(states, actions, m, m + 1, id);
      Reachable(states, actions, m + 1, id);
      if m < j {
        Growth(states, actions, m + 1, j, id);
      } else {
        Growth(states, actions, j + 1, m, id);
      }
    }
  }

  /**
   * The steps `k` and `j` at which the worker of a committed settlement took the snapshot it committed on, which
   * is its last one before the commit, and at which it committed.
   */
  ghost predicate SettledBy(states: seq<System>, actions: seq<Action>, i: nat, id: AuctionId, k: nat, j: nat)
    requires Exists(states, i, id) && states[i].auctions[id].past.commits != []
  {
    var r := states[i].auctions[id].past.commits[0];
    && k < j < i <= |actions| && Exists(states, k, id) && Exists(states, j, id)
    && actions[k] == On(id, Snap(r.worker)) && actions[j] == On(id, Commit(r.worker))
    && r.snap == TakeSnapshot(states[k].now, states[k].auctions[id]) && states[j].auctions[id].past.commits == []
    && forall m | k < m < j :: actions[m] != On(id, Snap(r.worker))
  }

  /** Both instants at once. */
  lemma SettlementInstants(states: seq<System>, actions: seq<Action>, i: nat, id: AuctionId) returns (k: nat, j: nat)
    requires Run(states, actions) && Exists(states, i, id) && states[i].auctions[id].past.commits != []
    ensures SettledBy(states, actions, i, id, k, j)
    ensures var r := states[i].auctions[id].past.commits[0];
            var a := states[j].auctions[id];
            && r.worker in a.settlers && a.settlers[r.worker] == Holding(r.snap)
            && r.snap == TakeSnapshot(states[k].now, states[k].auctions[id])
            && states[k].auctions[id].past.accepted <= a.past.accepted
  {
    j := CommitInstant(states, actions, i, id);
    k := SnapshotInstant(states, actions, j, id, states[i].auctions[id].past.commits[0].worker);
  }

  /** What a snapshot of these keys leads to. */
  predicate FromLeader(now: Time, a: Auction, outcome: Outcome) {
    if Visible(a.hot.leader, now)
    then a.past.accepted != [] && outcome == Sold(Last(a.past.accepted).amount, Last(a.past.accepted).user)
    else outcome == Unsold
  }

  /**
   * Without any hypothesis: the auction is sold exactly when the leader key is visible to the committing
   * worker's MGET (step `k`), and then to the user of the latest bid accepted by that step, at its amount; so a
   * settled winner did bid that amount. Row and ledger record it.
   */
  lemma SoldToTheLatest(states: seq<System>, actions: seq<Action>, i: nat, id: AuctionId) returns (k: nat, j: nat)
    requires Run(states, actions) && Exists(states, i, id) && states[i].auctions[id].past.commits != []
    ensures SettledBy(states, actions, i, id, k, j)
    ensures var a := states[i].auctions[id];
            && FromLeader(states[k].now, states[k].auctions[id], a.past.commits[0].outcome)
            && Records(a.row, a.ledger, a.past.commits[0].outcome)
  {
    k, j := SettlementInstants(states, actions, i, id);
    Reachable(states, actions, i, id);
    Reachable(states, actions, k, id);
  }

  /** The bid in place `n`, which decides the outcome, decides on these bids if and only if it is the greatest. */
  lemma DecidesIfGreatest(outcome: Outcome, bids: seq<Bid>, n: nat)
    requires n < |bids| && outcome == Sold(bids[n].amount, bids[n].user)
    ensures Decides(outcome, bids) <==> IsGreatest(bids, n)
  {
    if i: nat :| IsGreatest(bids, i) && bids[i].amount == bids[n].amount {
      assert i == n;
    }
  }

  /** The same for a snapshot of `a` and the bids accepted by some later instant. */
  lemma DecidesLater(now: Time, a: Auction, outcome: Outcome, bids: seq<Bid>)
    requires FromLeader(now, a, outcome) && a.past.accepted <= bids
    ensures var seen := |a.past.accepted|;
            Decides(outcome, bids)
            <==> bids == [] || (Visible(a.hot.leader, now) && 0 < seen && IsGreatest(bids, seen - 1))
  {
    if outcome.Sold? {
      assert bids[|a.past.accepted| - 1] == Last(a.past.accepted);
      DecidesIfGreatest(outcome, bids, |a.past.accepted| - 1);
    }
  }

  /**
   * Winner correctness, exactly and without any hypothesis. From the committing worker's snapshot (step `k`) on,
   * in every state `m`, the outcome is that of the greatest bid accepted so far if and only if there is none, or
   * the leader key was visible to the snapshot and the latest bid accepted before it is the greatest so far.
   */
  lemma WinnerExactly(states: seq<System>, actions: seq<Action>, i: nat, id: AuctionId) returns (k: nat, j: nat)
    requires Run(states, actions) && Exists(states, i, id) && states[i].auctions[id].past.commits != []
    ensures SettledBy(states, actions, i, id, k, j)
    ensures var seen := |states[k].auctions[id].past.accepted|;
            var visible := Visible(states[k].auctions[id].hot.leader, states[k].now);
            forall m | k <= m < |states| && Exists(states, m, id) ::
              var bids := states[m].auctions[id].past.accepted;
              Decides(states[i].auctions[id].past.commits[0].outcome, bids)
              <==> bids == [] || (visible && 0 < seen && IsGreatest(bids, seen - 1))
  {
    k, j := SoldToTheLatest(states, actions, i, id);
    var outcome := states[i].auctions[id].past.commits[0].outcome;
    var seen := states[k].auctions[id].past.accepted;
    forall m | k <= m < |states| && Exists(states, m, id)
      ensures var bids := states[m].auctions[id].past.accepted;
              Decides(outcome, bids)
              <==> bids == [] || (Visible(states[k].auctions[id].hot.leader, states[k].now)
                                  && 0 < |seen| && IsGreatest(bids, |seen| - 1))
    {
      Growth(states, actions, k, m, id);
      DecidesLater(states[k].now, states[k].auctions[id], outcome, states[m].auctions[id].past.accepted);
    }
  }

  /** With no hot-key expiry before settlement it is that of the greatest bid accepted before the snapshot. */
  lemma WinnerIsGreatestSeen(states: seq<System>, actions: seq<Action>, i: nat, id: AuctionId)
      returns (k: nat, j: nat)
    requires Run(states, actions) && Exists(states, i, id) && states[i].auctions[id].past.commits != []
    requires NoEarlyExpiry(states, i - 1, id)
    ensures SettledBy(states, actions, i, id, k, j)
    ensures var a := states[i].auctions[id];
            var r := a.past.commits[0];
            Decides(r.outcome, states[k].auctions[id].past.accepted) && Records(a.row, a.ledger, r.outcome)
  {
    Reachable(states, actions, i, id);
    RunFaithful(states, actions, i, id);
    var a := states[i].auctions[id];
    var r := a.past.commits[0];
    k, j := SettlementInstants(states, actions, i, id);
    Growth(states, actions, j, i, id);
    DecidesExactly(a, r);
    assert a.past.accepted[..r.snap.seen] == states[k].auctions[id].past.accepted;
  }

  /**
   * And then, at the commit (step `j`), it is that of the greatest bid accepted by then if and only if no bid was
   * accepted after the snapshot (step `k`).
   */
  lemma WinnerUnexpired(states: seq<System>, actions: seq<Action>, i: nat, id: AuctionId) returns (k: nat, j: nat)
    requires Run(states, actions) && Exists(states, i, id) && states[i].auctions[id].past.commits != []
    requires NoEarlyExpiry(states, i - 1, id)
    ensures SettledBy(states, actions, i, id, k, j)
    ensures Decides(states[i].auctions[id].past.commits[0].outcome, states[j].auctions[id].past.accepted) <==>
            states[k].auctions[id].past.accepted == states[j].auctions[id].past.accepted
  {
    k, j := SettlementInstants(states, actions, i, id);
    Reachable(states, actions, j, id);
    Reachable(states, actions, i, id);
    RunFaithful(states, actions, j, id);
    var a, r := states[j].auctions[id], states[i].auctions[id].past.commits[0];
    assert SettlerOk(a, r.worker, a.settlers[r.worker]);
    assert SnapFaithful(a, r.snap);
    DecidesExactly(a, r);
    assert |a.past.accepted[..r.snap.seen]| == r.snap.seen;
  }

  // ---------- quiescence ----------

  /** In this step no bid is accepted, or no worker has taken a snapshot yet. */
  predicate Quiet(a: Auction, after: Auction) {
    |a.past.accepted| < |after.past.accepted| ==> a.past.snapshots == 0
  }

  /** No bid on the auction is accepted after a worker's MGET of it. */
  ghost predicate Quiesced(states: seq<System>, upTo: int, id: AuctionId) {
    forall k | 0 <= k < upTo && Exists(states, k, id) && Exists(states, k + 1, id) ::
      Quiet(states[k].auctions[id], states[k + 1].auctions[id])
  }

  /** Every snapshot is still up to date. */
  predicate AllSeen(a: Auction) {
    && (forall w | w in a.settlers && HasSnap(a, w) :: a.settlers[w].snap.seen == |a.past.accepted|)
    && (a.past.commits != [] ==> a.past.commits[0].snap.seen == |a.past.accepted|)
  }

  lemma NoneBeforeSnapshot(a: Auction)
    requires SettlersInv(a) && a.past.snapshots == 0
    ensures forall w | w in a.settlers :: !a.settlers[w].Snapped? && !a.settlers[w].Holding?
  {
    forall w | w in a.settlers ensures !a.settlers[w].Snapped? && !a.settlers[w].Holding? {
      assert SettlerOk(a, w, a.settlers[w]);
    }
  }

  lemma DoAllSeen(now: Time, a: Auction, act: Act)
    requires Inv(now, a) && Can(now, a, act) && AllSeen(a) && Quiet(a, Do(now, a, act))
    ensures AllSeen(Do(now, a, act))
  {
    var after := Do(now, a, act);
    DoGrows(now, a, act);
    if a.past.accepted != after.past.accepted {
      NoneBeforeSnapshot(a);
    }
    forall w | HasSnap(after, w) ensures after.settlers[w].snap.seen == |after.past.accepted| {
      SnapOrigin(now, a, act, w);
      OnlyScriptAccepts(now, a, act);
    }
    if after.past.commits != [] && a.past.commits == [] {
      CommitOrigin(now, a, act);
    }
  }

  lemma {:induction false} RunAllSeen(states: seq<System>, actions: seq<Action>, i: nat, id: AuctionId)
    requires Run(states, actions) && Exists(states, i, id) && Quiesced(states, i, id)
    ensures AllSeen(states[i].auctions[id])
  {
    if 0 < i {
      StepOf(states, actions, i - 1, id);
      if Exists(states, i - 1, id) {
        RunAllSeen(states, actions, i - 1, id);
        Reachable(states, actions, i - 1, id);
        var now, a, after := states[i - 1].now, states[i - 1].auctions[id], states[i].auctions[id];
        if after != a {
          var act :| Can(now, a, act) && after == Do(now, a, act);
          DoAllSeen(now, a, act);
        }
      }
    }
  }

  /** Under quiescence the committed outcome is the greatest accepted bid of the whole run. */
  lemma WinnerUnderQuiescence(states: seq<System>, actions: seq<Action>, i: nat, id: AuctionId)
    requires Run(states, actions) && Exists(states, i, id) && states[i].auctions[id].past.commits != []
    requires NoEarlyExpiry(states, i - 1, id) && Quiesced(states, i, id)
    ensures Decides(states[i].auctions[id].past.commits[0].outcome, states[i].auctions[id].past.accepted)
  {
    Reachable(states, actions, i, id);
    RunFaithful(states, actions, i, id);
    RunAllSeen(states, actions, i, id);
    var a := states[i].auctions[id];
    DecidesExactly(a, a.past.commits[0]);
    assert a.past.accepted[..|a.past.accepted|] == a.past.accepted;
  }

  // ---------- once, and with every constraint kept ----------

  /**
   * Whatever happens, an auction gets at most one committed settlement and at most one SETTLEMENT message;
   * row and ledger satisfy every constraint, an ACTIVE auction has no ledger row at all, so
   * `on conflict do nothing` never skips, and a terminal row agrees with its single winning ledger row.
   */
  lemma SettledOnce(states: seq<System>, actions: seq<Action>, i: nat, id: AuctionId)
    requires Run(states, actions) && Exists(states, i, id)
    ensures var a := states[i].auctions[id];
            && |a.past.commits| <= 1 && a.past.announced <= |a.past.commits|
            && RowOk(a.row) && LedgerOk(a.ledger)
            && 0 < a.row.starting < 1_000_000_000_000 && a.row.start < a.row.end
            && (a.row.high.Some? ==> a.row.starting <= a.row.high.value < 1_000_000_000_000)
            && (forall k | 0 <= k < |a.ledger| :: 0 < a.ledger[k].amount < 1_000_000_000_000)
            && (forall k, m | 0 <= k < m < |a.ledger| :: !a.ledger[k].winning || !a.ledger[m].winning)
            && (a.row.status == ACTIVE ==> a.past.commits == [] && a.ledger == [])
            && (a.row.winner.Some? <==> a.row.status == SETTLED)
            && (a.row.status in {CLOSED, SETTLED} <==> a.past.commits != [])
            && (a.past.commits != [] ==> Records(a.row, a.ledger, a.past.commits[0].outcome))
  {
    Reachable(states, actions, i, id);
  }

  /**
   * Deletion by a settlement means that the row has left ACTIVE for good: no worker, however early or late its
   * snapshot, will commit to this auction again, and row and ledger stay as they are.
   */
  lemma DeletedMeansDone(states: seq<System>, actions: seq<Action>, i: nat, j: nat, id: AuctionId)
    requires Run(states, actions) && i <= j < |states| && Exists(states, i, id)
    requires 0 < states[i].auctions[id].past.deletes
    ensures Exists(states, j, id)
    ensures var a, after := states[i].auctions[id], states[j].auctions[id];
            && a.row.status in {CLOSED, SETTLED} && after.row == a.row && after.ledger == a.ledger
            && after.past.commits == a.past.commits
            && forall w :: !Can(states[j].now, after, Commit(w))
  {
    Growth(states, actions, i, j, id);
    Reachable(states, actions, i, id);
    Reachable(states, actions, j, id);
  }

  /** No snapshot in any run shows a leader without a price: that rollback is unreachable. */
  lemma NoLeaderWithoutPrice(states: seq<System>, actions: seq<Action>, i: nat, id: AuctionId, w: WorkerId)
    requires Run(states, actions) && Exists(states, i, id)
    requires Can(states[i].now, states[i].auctions[id], Commit(w))
    ensures var a := states[i].auctions[id];
            var snap := a.settlers[w].snap;
            && (snap.leader.Some? ==> snap.price.Some?)
            && SettleTx(a.row, a.ledger, snap.price, snap.leader) != Aborted(LeaderWithoutPrice)
  {
    Reachable(states, actions, i, id);
    var a := states[i].auctions[id];
    assert SettlerOk(a, w, a.settlers[w]);
  }

  /** A visible leader key comes with a visible price key, and the two are the latest accepted bid. */
  lemma PairInEveryState(states: seq<System>, actions: seq<Action>, i: nat, id: AuctionId)
    requires Run(states, actions) && Exists(states, i, id)
    requires Visible(states[i].auctions[id].hot.leader, states[i].now)
    ensures var a := states[i].auctions[id];
            && Visible(a.hot.price, states[i].now) && a.hot.price.expires == a.hot.leader.expires
            && a.past.accepted != []
            && Last(a.past.accepted).amount == a.hot.price.value && Last(a.past.accepted).user == a.hot.leader.value
  {
    Reachable(states, actions, i, id);
  }

  /**
   * With no hot-key expiry before settlement no settlement transaction is ever rolled back by a constraint,
   * and what it settles at exceeds the starting price.
   */
  lemma CommitsSucceed(states: seq<System>, actions: seq<Action>, i: nat, id: AuctionId, w: WorkerId)
    requires Run(states, actions) && Exists(states, i, id) && NoEarlyExpiry(states, i - 1, id)
    requires Can(states[i].now, states[i].auctions[id], Commit(w))
    ensures var a := states[i].auctions[id];
            var tx := SettleTx(a.row, a.ledger, a.settlers[w].snap.price, a.settlers[w].snap.leader);
            && tx.Done? && RowOk(tx.row) && LedgerOk(tx.ledger) && Records(tx.row, tx.ledger, tx.outcome)
            && (tx.outcome.Sold? ==> a.row.starting < tx.outcome.amount)
  {
    Reachable(states, actions, i, id);
    RunFaithful(states, actions, i, id);
    var a := states[i].auctions[id];
    var snap := a.settlers[w].snap;
    assert SettlerOk(a, w, a.settlers[w]);
    assert SnapFaithful(a, snap);
    if snap.leader.Some? {
      assert a.past.accepted[..snap.seen][snap.seen - 1] == a.past.accepted[snap.seen - 1];
    }
    SettleTxCommits(a.row, snap.price, snap.leader);
  }

  /** Each 201 is exactly one accepted bid, and a request answered otherwise has none. */
  lemma CreatedIsOneAccept(states: seq<System>, actions: seq<Action>, i: nat, id: AuctionId, h: RequestId, reply: Reply)
    requires Run(states, actions) && Exists(states, i, id)
    requires Reached(states[i].auctions[id], h, Answered(reply))
    ensures var bids := states[i].auctions[id].past.accepted;
            && (reply == Created <==> exists k :: 0 <= k < |bids| && bids[k].request == h)
            && (forall k, m | 0 <= k < |bids| && 0 <= m < |bids| && bids[k].request == h == bids[m].request :: k == m)
            && (reply == Created ==> states[i].auctions[id].bidders[h].bid in bids)
  {
    Reachable(states, actions, i, id);
    var a := states[i].auctions[id];
    assert BidderOk(states[i].now, a, h, a.bidders[h]);
    if reply == Created {
      var k :| 0 <= k < |a.past.accepted| && a.past.accepted[k] == a.bidders[h].bid;
      assert a.past.accepted[k].request == h;
    }
  }

  // ---------- commits that abort ----------

  /** The snapshot shows a leader whose bid was below the starting price. */
  predicate ShowsLow(a: Auction, snap: Snapshot) {
    snap.leader.Some? && 0 < snap.seen <= |a.past.accepted| && a.past.accepted[snap.seen - 1].amount < a.row.starting
  }

  lemma CommitDone(now: Time, a: Auction, w: WorkerId)
    requires Inv(now, a) && Can(now, a, Commit(w))
    ensures var snap := a.settlers[w].snap;
            SettleTx(a.row, a.ledger, snap.price, snap.leader).Done? <==> !ShowsLow(a, snap)
  {
    var snap := a.settlers[w].snap;
    assert SettlerOk(a, w, a.settlers[w]);
    SettleTxCommits(a.row, snap.price, snap.leader);
  }

  /**
   * Exactly when a settlement transaction commits, in any run: unless its worker's snapshot shows a leader whose
   * bid was below the starting price. Such a bid can only be accepted once the price key has expired.
   */
  lemma CommitsExactly(states: seq<System>, actions: seq<Action>, i: nat, id: AuctionId, w: WorkerId)
    requires Run(states, actions) && Exists(states, i, id)
    requires Can(states[i].now, states[i].auctions[id], Commit(w))
    ensures var a := states[i].auctions[id];
            var snap := a.settlers[w].snap;
            SettleTx(a.row, a.ledger, snap.price, snap.leader).Done? <==> !ShowsLow(a, snap)
  {
    Reachable(states, actions, i, id);
    CommitDone(states[i].now, states[i].auctions[id], w);
  }

  // ---------- scans ----------

  /**
   * Scan completeness. Once the worker whose scan was step `i` is through (idle again in state `j`), none of
   * the auctions its query selected is ACTIVE, except those whose settle failed.
   */
  lemma ScanCompletes(states: seq<System>, actions: seq<Action>, i: nat, j: nat, w: WorkerId, id: AuctionId)
    requires Run(states, actions) && i < j < |states| && actions[i] == Scan(w)
    requires Exists(states, i, id) && Due(states[i].auctions[id].row, states[i].now)
    requires IdleEverywhere(states[j], w)
    ensures Exists(states, j, id) && w in states[j].auctions[id].settlers
    ensures states[j].auctions[id].settlers[w].Failed? || states[j].auctions[id].row.status in {CLOSED, SETTLED}
  {
    assert w in states[i + 1].auctions[id].settlers;
    Growth(states, actions, i + 1, j, id);
    Reachable(states, actions, j, id);
    var a := states[j].auctions[id];
    assert SettlerOk(a, w, a.settlers[w]);
  }

  /** The worker commits to the auction in step `m`, on a snapshot that shows a low leader. */
  ghost predicate AbortsAt(states: seq<System>, actions: seq<Action>, m: nat, id: AuctionId, w: WorkerId) {
    && m < |actions| && Exists(states, m, id) && actions[m] == On(id, Commit(w))
    && w in states[m].auctions[id].settlers && states[m].auctions[id].settlers[w].Holding?
    && ShowsLow(states[m].auctions[id], states[m].auctions[id].settlers[w].snap)
  }

  /** A step makes a settle fail only as an error or a crash, or as a commit that aborts. */
  lemma FailsInStep(now: Time, a: Auction, act: Act, w: WorkerId)
    requires Inv(now, a) && Can(now, a, act) && w in a.settlers && act != Fail(w) && act != Select(w)
    ensures w in Do(now, a, act).settlers
    ensures Do(now, a, act).settlers[w].Failed? <==>
            a.settlers[w].Failed? || (act == Commit(w) && ShowsLow(a, a.settlers[w].snap))
  {
    if act == Commit(w) {
      CommitDone(now, a, w);
    }
  }

  lemma FailsInSystem(s: System, action: Action, id: AuctionId, w: WorkerId)
    requires Enabled(s, action) && id in s.auctions && Inv(s.now, s.auctions[id]) && w in s.auctions[id].settlers
    requires action != Scan(w) && action != On(id, Fail(w))
    ensures id in Apply(s, action).auctions && w in Apply(s, action).auctions[id].settlers
    ensures Apply(s, action).auctions[id].settlers[w].Failed? <==>
            s.auctions[id].settlers[w].Failed?
            || (action == On(id, Commit(w)) && ShowsLow(s.auctions[id], s.auctions[id].settlers[w].snap))
  {
    if action.On? && action.id == id {
      FailsInStep(s.now, s.auctions[id], action.act, w);
    }
  }

  /** The commit aborts in one of the steps after step `i` and before state `j`. */
  ghost predicate AbortsBetween(
      states: seq<System>, actions: seq<Action>, i: nat, j: nat, id: AuctionId, w: WorkerId)
  {
    exists m: nat | i < m < j :: AbortsAt(states, actions, m, id, w)
  }

  lemma AbortsNext(states: seq<System>, actions: seq<Action>, i: nat, j: nat, id: AuctionId, w: WorkerId)
    requires i < j
    ensures AbortsBetween(states, actions, i, j, id, w) <==>
            i + 1 < j && (AbortsBetween(states, actions, i, j - 1, id, w) || AbortsAt(states, actions, j - 1, id, w))
  {
    if m: nat :| i < m < j && AbortsAt(states, actions, m, id, w) {
      assert m < j - 1 ==> AbortsBetween(states, actions, i, j - 1, id, w);
    }
  }

  /** A scan selects what is due. */
  lemma ScanSelects(states: seq<System>, actions: seq<Action>, i: nat, w: WorkerId, id: AuctionId)
    requires Run(states, actions) && i < |actions| && actions[i] == Scan(w)
    requires Exists(states, i, id) && Due(states[i].auctions[id].row, states[i].now)
    ensures Exists(states, i + 1, id) && w in states[i + 1].auctions[id].settlers
    ensures states[i + 1].auctions[id].settlers[w] == Selected
  {
  }

  /** From its scan in step `i` on, and until state `j`, the worker meets no failure, and does not scan again. */
  predicate Undisturbed(actions: seq<Action>, i: nat, j: nat, id: AuctionId, w: WorkerId) {
    forall m | i < m < j && m < |actions| :: actions[m] != On(id, Fail(w)) && actions[m] != Scan(w)
  }

  lemma FailsInRun(states: seq<System>, actions: seq<Action>, m: nat, id: AuctionId, w: WorkerId)
    requires Run(states, actions) && m < |actions| && Exists(states, m, id) && w in states[m].auctions[id].settlers
    requires actions[m] != Scan(w) && actions[m] != On(id, Fail(w))
    ensures Exists(states, m + 1, id) && w in states[m + 1].auctions[id].settlers
    ensures states[m + 1].auctions[id].settlers[w].Failed? <==>
            states[m].auctions[id].settlers[w].Failed? || AbortsAt(states, actions, m, id, w)
  {
    Reachable(states, actions, m, id);
    FailsInSystem(states[m], actions[m], id, w);
  }

  lemma {:induction false} FailedMeansAborted(
      states: seq<System>, actions: seq<Action>, i: nat, j: nat, w: WorkerId, id: AuctionId)
    requires Run(states, actions) && i < j < |states| && actions[i] == Scan(w) && Undisturbed(actions, i, j, id, w)
    requires Exists(states, i, id) && Due(states[i].auctions[id].row, states[i].now)
    ensures Exists(states, j, id) && w in states[j].auctions[id].settlers
    ensures states[j].auctions[id].settlers[w].Failed? <==>
            AbortsBetween(states, actions, i, j, id, w)
    decreases j
  {
    AbortsNext(states, actions, i, j, id, w);
    if i + 1 == j {
      ScanSelects(states, actions, i, w, id);
    } else {
      FailedMeansAborted(states, actions, i, j - 1, w, id);
      FailsInRun(states, actions, j - 1, id, w);
    }
  }

  /**
   * Scan completeness, exactly. A worker scans, meets no failure, and is through in state `j`: its settle of a
   * selected auction has failed if and only if it committed on a snapshot that showed a leader below the starting
   * price; otherwise the auction has left ACTIVE.
   */
  lemma ScanExactly(states: seq<System>, actions: seq<Action>, i: nat, j: nat, w: WorkerId, id: AuctionId)
    requires Run(states, actions) && i < j < |states| && actions[i] == Scan(w) && Undisturbed(actions, i, j, id, w)
    requires Exists(states, i, id) && Due(states[i].auctions[id].row, states[i].now)
    requires IdleEverywhere(states[j], w)
    ensures Exists(states, j, id) && w in states[j].auctions[id].settlers
    ensures states[j].auctions[id].settlers[w].Failed? <==>
            AbortsBetween(states, actions, i, j, id, w)
    ensures !states[j].auctions[id].settlers[w].Failed? ==> states[j].auctions[id].row.status in {CLOSED, SETTLED}
  {
    FailedMeansAborted(states, actions, i, j, w, id);
    ScanCompletes(states, actions, i, j, w, id);
  }

  /**
   * A scan without failure, and with no hot-key expiry before settlement, leaves no ACTIVE auction that was due.
   */
  lemma ScanWithoutFailure(states: seq<System>, actions: seq<Action>, i: nat, j: nat, w: WorkerId, id: AuctionId)
    requires Run(states, actions) && i < j < |states| && actions[i] == Scan(w) && Undisturbed(actions, i, j, id, w)
    requires Exists(states, i, id) && Due(states[i].auctions[id].row, states[i].now)
    requires IdleEverywhere(states[j], w) && NoEarlyExpiry(states, j - 1, id)
    ensures Exists(states, j, id) && states[j].auctions[id].row.status in {CLOSED, SETTLED}
  {
    ScanExactly(states, actions, i, j, w, id);
    if m: nat :| i < m < j && AbortsAt(states, actions, m, id, w) {
      CommitsSucceed(states, actions, m, id, w);
      CommitsExactly(states, actions, m, id, w);
      assert false;
    }
  }
}
