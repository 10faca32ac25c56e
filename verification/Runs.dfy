/** Runs of the whole system, seen from one auction. */
module Runs {
  import opened Domain
  import opened Schema
  import opened HotKeys
  import opened Protocol
  import opened Invariants

  /** One system step as one auction sees it: time passes, or one of its own steps happens, or nothing. */
  ghost predicate Moves(now: Time, a: Auction, later: Time, after: Auction) {
    || (after == a && now <= later)
    || (later == now && exists act :: Can(now, a, act) && after == Do(now, a, act))
  }

  lemma Projects(s: System, action: Action, id: AuctionId)
    requires Enabled(s, action) && id in s.auctions
    ensures id in Apply(s, action).auctions
    ensures Moves(s.now, s.auctions[id], Apply(s, action).now, Apply(s, action).auctions[id])
  {
    match action
    case Tick(_) =>
    case Create(_, _) =>
    case Scan(w) =>
      if Due(s.auctions[id].row, s.now) {
        assert Can(s.now, s.auctions[id], Select(w));
      }
    case On(x, act) =>
  }

  /** An auction that appears in a step has just been created. */
  lemma Appears(s: System, action: Action, id: AuctionId)
    requires Enabled(s, action) && id !in s.auctions && id in Apply(s, action).auctions
    ensures action.Create? && Creatable(action.row) && Apply(s, action).auctions[id] == NewAuction(action.row)
  {
  }

  /** The auction `id` as it is after `i` steps. */
  ghost predicate Exists(states: seq<System>, i: int, id: AuctionId) {
    0 <= i < |states| && id in states[i].auctions
  }

  lemma {:induction false} Persists(states: seq<System>, actions: seq<Action>, i: nat, j: nat, id: AuctionId)
    requires Run(states, actions) && i <= j < |states| && Exists(states, i, id)
    ensures Exists(states, j, id) && states[i].now <= states[j].now
    decreases j
  {
    if i < j {
      Persists(states, actions, i, j - 1, id);
      Projects(states[j - 1], actions[j - 1], id);
    }
  }

  /** What one step does to an auction of a run. */
  lemma StepOf(states: seq<System>, actions: seq<Action>, i: nat, id: AuctionId)
    requires Run(states, actions) && i + 1 < |states| && Exists(states, i + 1, id)
    ensures Exists(states, i, id) ==>
              Moves(states[i].now, states[i].auctions[id], states[i + 1].now, states[i + 1].auctions[id])
    ensures !Exists(states, i, id) ==>
              exists row :: Creatable(row) && states[i + 1].auctions[id] == NewAuction(row)
  {
    if id in states[i].auctions {
      Projects(states[i], actions[i], id);
    } else {
      Appears(states[i], actions[i], id);
    }
  }

  lemma MovesInv(now: Time, a: Auction, later: Time, after: Auction)
    requires Inv(now, a) && Moves(now, a, later, after)
    ensures Inv(later, after)
  {
    if after == a && now <= later {
      TickInv(now, later, a);
    } else {
      var act :| Can(now, a, act) && after == Do(now, a, act);
      DoInv(now, a, act);
    }
  }

  lemma {:induction false} Reachable(states: seq<System>, actions: seq<Action>, i: nat, id: AuctionId)
    requires Run(states, actions) && Exists(states, i, id)
    ensures Inv(states[i].now, states[i].auctions[id])
  {
    if 0 < i {
      StepOf(states, actions, i - 1, id);
      if Exists(states, i - 1, id) {
        Reachable(states, actions, i - 1, id);
        MovesInv(states[i - 1].now, states[i - 1].auctions[id], states[i].now, states[i].auctions[id]);
      } else {
        var row :| Creatable(row) && states[i].auctions[id] == NewAuction(row);
        NewAuctionInv(states[i].now, row);
      }
    }
  }

  // ---------- what never changes back ----------

  /** Rows keep their terms, histories only grow, and a row that has left ACTIVE is final. */
  predicate Grows(a: Auction, after: Auction) {
    && SameTerms(a.row, after.row)
    && a.past.accepted <= after.past.accepted
    && a.past.published <= after.past.published
    && a.past.commits <= after.past.commits
    && a.past.deletes <= after.past.deletes
    && a.past.announced <= after.past.announced
    && a.past.snapshots <= after.past.snapshots
    && a.settlers.Keys <= after.settlers.Keys
    && (a.row.status != ACTIVE ==>
          after.row == a.row && after.ledger == a.ledger && after.past.commits == a.past.commits)
  }

  /** Only the script accepts, and only when it finds the status key ACTIVE. */
  lemma OnlyScriptAccepts(now: Time, a: Auction, act: Act)
    requires Can(now, a, act)
    ensures !act.Script? ==> Do(now, a, act).past.accepted == a.past.accepted
    ensures Get(a.hot.status, now) != Some(ACTIVE) ==> Do(now, a, act).past.accepted == a.past.accepted
  {
  }

  lemma HandlerGrows(now: Time, a: Auction, act: Act)
    requires Can(now, a, act)
    requires act.Ask? || act.Fetch? || act.Gate? || act.Prime? || act.Until? || act.Flag? || act.Regate? || act.Arm?
             || act.Script? || act.Respond? || act.Drop?
    ensures Grows(a, Do(now, a, act))
  {
  }

  lemma WorkerGrows(now: Time, a: Auction, act: Act)
    requires Can(now, a, act)
    requires act.Select? || act.Snap? || act.Lock? || act.Cache? || act.Announce? || act.Erase? || act.Fail?
    ensures Grows(a, Do(now, a, act))
  {
  }

  lemma CommitGrows(now: Time, a: Auction, w: WorkerId)
    requires Inv(now, a) && Can(now, a, Commit(w))
    ensures Grows(a, Do(now, a, Commit(w)))
  {
    SettleTxCommits(a.row, a.settlers[w].snap.price, a.settlers[w].snap.leader);
  }

  lemma DoGrows(now: Time, a: Auction, act: Act)
    requires Inv(now, a) && Can(now, a, act)
    ensures Grows(a, Do(now, a, act))
  {
    match act
    case Commit(w) => CommitGrows(now, a, w);
    case Select(_) | Snap(_) | Lock(_) | Cache(_) | Announce(_) | Erase(_) | Fail(_) => WorkerGrows(now, a, act);
    case Ask(_) | Fetch(_) | Gate(_) | Prime(_) | Until(_) | Flag(_) | Regate(_) | Arm(_)
       | Script(_) | Respond(_) | Drop(_) =>
      HandlerGrows(now, a, act);
  }

  lemma {:induction false} Growth(states: seq<System>, actions: seq<Action>, i: nat, j: nat, id: AuctionId)
    requires Run(states, actions) && i <= j < |states| && Exists(states, i, id)
    ensures Exists(states, j, id) && Grows(states[i].auctions[id], states[j].auctions[id])
    decreases j
  {
    if i < j {
      Growth(states, actions, i, j - 1, id);
      Reachable(states, actions, j - 1, id);
      Projects(states[j - 1], actions[j - 1], id);
      var a, after := states[j - 1].auctions[id], states[j].auctions[id];
      if after != a {
        var act :| Can(states[j - 1].now, a, act) && after == Do(states[j - 1].now, a, act);
        DoGrows(states[j - 1].now, a, act);
      }
    }
  }
}
