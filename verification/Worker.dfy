/**
 * The settlement worker as the sequential program it is: `settle` is a sequence of store operations, `scan` a
 * loop over the rows its query returned. Both are proved against the steps of the protocol.
 */
module SettlementWorker {
  import opened Domain
  import opened Subsequences
  import opened Schema
  import opened HotKeys
  import opened Protocol
  import opened Invariants
  import opened Stores
  import Broadcast

  /**
   * Where an infrastructure error hits, if anywhere; `AtRow` is a row of the scan that cannot be read. A lost reply
   * is an error at the next command, or `AfterDelete` if there is none.
   */
  datatype Fault =
    | AtRow
    | AtMGet
    | AtBegin
    | AtLock
    | AtClose
    | AtInsert
    | AtSettle
    | AtCommit
    | AtCache
    | AtPublish
    | AtDelete
    | AfterDelete
    | Nowhere

  /** How many of its protocol steps a worker completes before the fault. */
  function Budget(f: Fault): nat {
    match f
    case AtRow | AtMGet => 0
    case AtBegin | AtLock => 1
    case AtClose | AtInsert | AtSettle | AtCommit => 2
    case AtCache => 3
    case AtPublish => 4
    case AtDelete => 5
    case AfterDelete | Nowhere => 6
  }

  /** A fault of a statement that does not run does not strike: without a pair nothing is inserted or settled. */
  function Strikes(f: Fault, price: Option<Cents>, leader: Option<UserId>): Fault {
    if f in {AtInsert, AtSettle} && (price.None? || leader.None?) then Nowhere else f
  }

  /** The instants of the two steps of a settle that depend on the time: MGET, and the SET of the status. */
  datatype Instants = Instants(mget: Time, cache: Time)

  /** How many steps a settle of `a` completes before the fault. */
  function Steps(f: Fault, when: Instants, a: Auction): nat {
    Budget(Strikes(f, Get(a.hot.price, when.mget), Get(a.hot.leader, when.mget)))
  }

  /** The next protocol step of worker 0. */
  function NextAct(p: Settler): Act
    requires !Idle(p)
  {
    match p
    case Selected => Snap(0)
    case Snapped(_) => Lock(0)
    case Holding(_) => Commit(0)
    case Committed(_) => Cache(0)
    case Cached(_) => Announce(0)
    case Announced => Erase(0)
  }

  predicate Working(a: Auction) {
    && 0 in a.settlers
    && a.lock == if a.settlers[0].Holding? then Some(0) else None
  }

  /** Worker 0 runs alone, and fails once its budget is spent. */
  function WorkAlone(when: Instants, a: Auction, budget: nat): (done: Auction)
    requires Working(a)
    ensures 0 in done.settlers
    decreases budget
  {
    var now := if a.settlers[0].Selected? then when.mget else when.cache;
    if Idle(a.settlers[0]) then a
    else if budget == 0 then Do(now, a, Fail(0))
    else WorkAlone(when, Do(now, a, NextAct(a.settlers[0])), budget - 1)
  }

  // ---------- what the steps of worker 0 amount to ----------

  /** Task, after MGET and after taking the lock. */
  function Held(when: Instants, a: Auction): Auction
    requires a.row.status == ACTIVE && a.lock.None?
  {
    a.(settlers := map[0 := Holding(TakeSnapshot(when.mget, a))], lock := Some(0),
       past := a.past.(snapshots := a.past.snapshots + 1))
  }

  /** Row, ledger and keys are those of `a`. */
  predicate Holds(row: Row, ledger: seq<LedgerRow>, hot: Hot, a: Auction) {
    row == a.row && ledger == a.ledger && hot == a.hot
  }

  lemma ReachesLock(when: Instants, row: Row, ledger: seq<LedgerRow>, hot: HotKeys.Hot, budget: nat)
    ensures var a := Task(row, ledger, hot);
            var done := WorkAlone(when, a, budget);
            if 2 <= budget && row.status == ACTIVE then
              done == WorkAlone(when, Held(when, a), budget - 2)
            else
              && Holds(row, ledger, hot, done) && done.past.published == [] && done.past.deletes == 0
              && done.settlers[0] == if budget < 2 then Failed else Finished
  {
    var a := Task(row, ledger, hot);
    if 1 <= budget {
      var b := Do(when.mget, a, Snap(0));
      assert b.settlers == map[0 := Snapped(TakeSnapshot(when.mget, a))];
      assert WorkAlone(when, a, budget) == WorkAlone(when, b, budget - 1);
      if 2 <= budget {
        var c := Do(when.cache, b, Lock(0));
        assert WorkAlone(when, b, budget - 1) == WorkAlone(when, c, budget - 2);
        if row.status == ACTIVE {
          assert c.settlers == Held(when, a).settlers;
          assert c == Held(when, a);
        }
      }
    }
  }

  /** Task, after the commit of `tx`. */
  function Past(when: Instants, a: Auction, tx: TxResult): Auction
    requires tx.Done?
  {
    var record := Record(0, TakeSnapshot(when.mget, a), tx.outcome);
    a.(row := tx.row, ledger := tx.ledger, settlers := map[0 := Committed(record)],
       past := a.past.(snapshots := a.past.snapshots + 1, commits := [record]))
  }

  /** Under the lock: nothing happens, or everything does. */
  lemma ReachesCommit(when: Instants, row: Row, ledger: seq<LedgerRow>, hot: HotKeys.Hot, budget: nat)
    requires row.status == ACTIVE && 2 <= budget
    ensures var a := Task(row, ledger, hot);
            var done := WorkAlone(when, a, budget);
            var snap := TakeSnapshot(when.mget, a);
            var tx := SettleTx(row, ledger, snap.price, snap.leader);
            if budget == 2 || tx.Aborted? then
              && Holds(row, ledger, hot, done) && done.past.published == [] && done.past.deletes == 0
              && done.settlers[0] == Failed
            else
              done == WorkAlone(when, Past(when, a, tx), budget - 3)
  {
    var a := Task(row, ledger, hot);
    ReachesLock(when, row, ledger, hot, budget);
    if 3 <= budget {
      var b := Held(when, a);
      var c := Do(when.cache, b, Commit(0));
      assert WorkAlone(when, b, budget - 2) == WorkAlone(when, c, budget - 3);
      var tx := SettleTx(row, ledger, TakeSnapshot(when.mget, a).price, TakeSnapshot(when.mget, a).leader);
      if tx.Done? {
        assert c.settlers == Past(when, a, tx).settlers;
        var record := Record(0, TakeSnapshot(when.mget, a), tx.outcome);
        assert [] + [record] == [record];
        assert c == Past(when, a, tx);
      }
    }
  }

  lemma EndsFromAnnounced(when: Instants, a: Auction, budget: nat)
    requires 0 in a.settlers && a.settlers[0] == Announced && a.lock.None?
    ensures var done := WorkAlone(when, a, budget);
            && done.row == a.row && done.ledger == a.ledger && done.past.published == a.past.published
            && done.hot == (if budget == 0 then a.hot else Forget(a.hot))
            && done.settlers[0] == (if budget == 0 then Failed else Finished)
            && done.past.deletes == a.past.deletes + if budget == 0 then 0 else 1
  {
    if 1 <= budget {
      assert WorkAlone(when, a, budget) == WorkAlone(when, Do(when.cache, a, Erase(0)), budget - 1);
    }
  }

  lemma EndsFromCached(when: Instants, a: Auction, budget: nat)
    requires 0 in a.settlers && a.settlers[0].Cached? && a.lock.None?
    ensures var done := WorkAlone(when, a, budget);
            && done.row == a.row && done.ledger == a.ledger
            && done.hot == (if budget < 2 then a.hot else Forget(a.hot))
            && done.past.published == a.past.published + (if budget == 0 then [] else [Notice(a.settlers[0].record)])
            && done.settlers[0] == (if budget < 2 then Failed else Finished)
            && done.past.deletes == a.past.deletes + if budget < 2 then 0 else 1
  {
    if 1 <= budget {
      var b := Do(when.cache, a, Announce(0));
      assert WorkAlone(when, a, budget) == WorkAlone(when, b, budget - 1);
      EndsFromAnnounced(when, b, budget - 1);
    }
  }

  /** After the commit: the terminal status, the message, the deletion, as far as the budget goes. */
  lemma ReachesEnd(when: Instants, a: Auction, tx: TxResult, budget: nat)
    requires tx.Done? && a.past.published == [] && a.past.deletes == 0 && a.lock.None?
    ensures var done := WorkAlone(when, Past(when, a, tx), budget);
            var record := Record(0, TakeSnapshot(when.mget, a), tx.outcome);
            var cached := SetStatus(a.hot, FinalStatus(tx.outcome), StatusTtl(tx.row.end, when.cache), when.cache);
            && done.row == tx.row && done.ledger == tx.ledger
            && done.hot == (if budget == 0 then a.hot else if budget < 3 then cached else Forget(cached))
            && done.past.published == (if budget < 2 then [] else [Notice(record)])
            && done.settlers[0] == (if budget < 3 then Failed else Finished)
            && done.past.deletes == (if budget < 3 then 0 else 1)
  {
    var b := Past(when, a, tx);
    if 1 <= budget {
      var c := Do(when.cache, b, Cache(0));
      assert WorkAlone(when, b, budget) == WorkAlone(when, c, budget - 1);
      EndsFromCached(when, c, budget - 1);
    }
  }

  /** The steps of worker 0, all together. */
  lemma Effect(when: Instants, row: Row, ledger: seq<LedgerRow>, hot: HotKeys.Hot, budget: nat)
    ensures var done := WorkAlone(when, Task(row, ledger, hot), budget);
            var price, leader := Get(hot.price, when.mget), Get(hot.leader, when.mget);
            var tx := SettleTx(row, ledger, price, leader);
            if row.status != ACTIVE || budget <= 2 || tx.Aborted? then
              && Holds(row, ledger, hot, done) && done.past.published == [] && done.past.deletes == 0
              && done.settlers[0] == (if row.status != ACTIVE && 2 <= budget then Finished else Failed)
            else
              var cached := SetStatus(hot, FinalStatus(tx.outcome), StatusTtl(tx.row.end, when.cache), when.cache);
              && Holds(tx.row, tx.ledger, if budget == 3 then hot else if budget < 6 then cached else Forget(cached),
                       done)
              && done.past.published ==
                   (if budget < 5 then [] else [Settlement(FinalStatus(tx.outcome), price, WinnerOf(tx.outcome))])
              && done.settlers[0] == (if budget < 6 then Failed else Finished)
              && done.past.deletes == (if budget < 6 then 0 else 1)
  {
    ReachesLock(when, row, ledger, hot, budget);
    if row.status == ACTIVE && 2 <= budget {
      ReachesCommit(when, row, ledger, hot, budget);
      var price, leader := Get(hot.price, when.mget), Get(hot.leader, when.mget);
      var tx := SettleTx(row, ledger, price, leader);
      if 3 <= budget && tx.Done? {
        ReachesEnd(when, Task(row, ledger, hot), tx, budget - 3);
      }
    }
  }

  /** What a settle leaves behind, ready for the next one. */
  function Rest(a: Auction): Auction {
    Task(a.row, a.ledger, a.hot)
  }

  /** What a scan at `now` makes of an auction, on its own. */
  function FateOf(task: Auction, now: Time, when: Instants, fault: Fault): (fate: Auction)
    requires Working(task) && task == Rest(task)
    ensures Working(fate) && fate == Rest(fate)
  {
    if Due(task.row, now) then Rest(WorkAlone(when, task, Steps(fault, when, task))) else task
  }

  /** And what is published about it. */
  function VoiceOf(task: Auction, now: Time, when: Instants, fault: Fault): seq<Message>
    requires Working(task)
  {
    if Due(task.row, now) then WorkAlone(when, task, Steps(fault, when, task)).past.published else []
  }

  // ---------- what a scan says ----------

  /** An auction before and after its settle, and what the settle publishes. */
  datatype Entry = Entry(task: Auction, fate: Auction, voice: seq<Message>)

  type Plan = map<AuctionId, Entry>

  /** The plan foretells what the settle of this auction does. */
  ghost predicate Foreseen(id: AuctionId, at: AuctionId -> Instants, faults: AuctionId -> Fault, plan: Plan) {
    && id in plan && Working(plan[id].task)
    && var done := WorkAlone(at(id), plan[id].task, Steps(faults(id), at(id), plan[id].task));
       plan[id].fate == Rest(done) && plan[id].voice == done.past.published
  }

  ghost predicate Foretold(ids: seq<AuctionId>, at: AuctionId -> Instants, faults: AuctionId -> Fault, plan: Plan) {
    forall i | 0 <= i < |ids| :: Foreseen(ids[i], at, faults, plan)
  }

  predicate Distinct(ids: seq<AuctionId>) {
    forall i, j | 0 <= i < j < |ids| :: ids[i] != ids[j]
  }

  function VoiceIn(plan: Plan, id: AuctionId): seq<Message> {
    if id in plan then plan[id].voice else []
  }

  /** What the first `i` auctions of the list say, one after the other. */
  ghost function Said(ids: seq<AuctionId>, i: nat, plan: Plan): seq<Envelope>
    requires i <= |ids|
  {
    if i == 0 then [] else Said(ids, i - 1, plan) + Tag(ids[i - 1], VoiceIn(plan, ids[i - 1]))
  }

  lemma SaidNext(was: seq<Envelope>, ids: seq<AuctionId>, i: nat, plan: Plan)
    requires i < |ids|
    ensures was + Said(ids, i + 1, plan) == (was + Said(ids, i, plan)) + Tag(ids[i], VoiceIn(plan, ids[i]))
  {
  }

  /** What the first `i` auctions of the list say about auction `x`. */
  ghost function SaidAbout(x: AuctionId, ids: seq<AuctionId>, i: nat, plan: Plan): seq<Message>
    requires i <= |ids|
  {
    if i == 0 then [] else
      var said := SaidAbout(x, ids, i - 1, plan);
      if ids[i - 1] == x then said + VoiceIn(plan, x) else said
  }

  lemma {:induction false} Hears(x: AuctionId, ids: seq<AuctionId>, i: nat, plan: Plan)
    requires i <= |ids|
    ensures Broadcast.OfAuction(Said(ids, i, plan), x) == SaidAbout(x, ids, i, plan)
    decreases i
  {
    if 0 < i {
      Hears(x, ids, i - 1, plan);
      Broadcast.AppendTagged(Said(ids, i - 1, plan), ids[i - 1], VoiceIn(plan, ids[i - 1]), x);
    }
  }

  /** Nothing is said about an auction that is not among them. */
  lemma {:induction false} Unsaid(x: AuctionId, ids: seq<AuctionId>, i: nat, plan: Plan)
    requires i <= |ids| && forall k | 0 <= k < i :: ids[k] != x
    ensures SaidAbout(x, ids, i, plan) == []
    decreases i
  {
    if 0 < i {
      Unsaid(x, ids, i - 1, plan);
    }
  }

  /** Each of them is heard once. */
  lemma {:induction false} SaidOnce(ids: seq<AuctionId>, i: nat, plan: Plan, k: nat)
    requires k < i <= |ids| && forall j | 0 <= j < |ids| && j != k :: ids[j] != ids[k]
    ensures SaidAbout(ids[k], ids, i, plan) == VoiceIn(plan, ids[k])
    decreases i
  {
    if k == i - 1 {
      Unsaid(ids[k], ids, k, plan);
    } else {
      SaidOnce(ids, i - 1, plan, k);
    }
  }

  /** All of them are heard, and no others. */
  lemma AllSaid(was: seq<Envelope>, ids: seq<AuctionId>, plan: Plan)
    requires Distinct(ids)
    ensures forall x :: Broadcast.OfAuction(was + Said(ids, |ids|, plan), x)
                        == Broadcast.OfAuction(was, x) + if x in ids then VoiceIn(plan, x) else []
  {
    forall x: AuctionId
      ensures Broadcast.OfAuction(was + Said(ids, |ids|, plan), x)
              == Broadcast.OfAuction(was, x) + if x in ids then VoiceIn(plan, x) else []
    {
      Broadcast.WireSplits(was, Said(ids, |ids|, plan), x);
      Hears(x, ids, |ids|, plan);
      if x in ids {
        var k :| 0 <= k < |ids| && ids[k] == x;
        SaidOnce(ids, |ids|, plan, k);
      } else {
        Unsaid(x, ids, |ids|, plan);
      }
    }
  }

  /** The first `i` auctions of the list, and no others. */
  ghost predicate Visited(ids: seq<AuctionId>, i: nat, done: set<AuctionId>) {
    i <= |ids| && done == set k | 0 <= k < i :: ids[k]
  }

  lemma VisitNext(ids: seq<AuctionId>, i: nat, done: set<AuctionId>)
    requires i < |ids| && Visited(ids, i, done) && Distinct(ids)
    ensures ids[i] !in done && Visited(ids, i + 1, done + {ids[i]})
  {
  }

  lemma VisitedAll(ids: seq<AuctionId>, done: set<AuctionId>)
    requires Visited(ids, |ids|, done)
    ensures done == set id | id in ids
  {
  }

  method Earliest(rows: map<AuctionId, Row>, ids: set<AuctionId>) returns (first: AuctionId)
    requires ids != {} && forall id | id in ids :: id in rows
    ensures first in ids && forall id | id in ids :: rows[first].end <= rows[id].end
  {
    first :| first in ids;
    var rest := ids - {first};
    while rest != {}
      invariant first in ids && rest <= ids
      invariant forall id | id in ids - rest :: rows[first].end <= rows[id].end
      decreases rest
    {
      var id :| id in rest;
      if rows[id].end < rows[first].end {
        first := id;
      }
      rest := rest - {id};
    }
  }

  // ---------- the object ----------

  class Worker {
    const store: Store

    constructor (store: Store)
      ensures this.store == store
    {
      this.store := store;
    }

    /** The statements under the lock, and the commit: all of `SettleTx`, or nothing. */
    method Transact(id: AuctionId, price: Option<Cents>, leader: Option<UserId>, fault: Fault)
      returns (failed: bool, final: Status, winner: Option<UserId>)
      requires id in store.rows && store.rows[id].status == ACTIVE
      modifies store`rows, store`ledgers
      ensures var tx := SettleTx(old(store.rows[id]), old(store.Ledger(id)), price, leader);
              && failed == (Budget(Strikes(fault, price, leader)) == 2 || tx.Aborted?)
              && (failed ==> store.rows == old(store.rows) && store.ledgers == old(store.ledgers))
              && (!failed ==>
                    && store.rows == old(store.rows)[id := tx.row]
                    && store.ledgers == old(store.ledgers)[id := tx.ledger]
                    && final == FinalStatus(tx.outcome) && winner == WinnerOf(tx.outcome))
    {
      // the transaction works on its own copy until it commits
      var row, ledger := store.rows[id], store.Ledger(id);
      failed, final, winner := true, CLOSED, None;
      if fault.AtClose? { return; }
      row := row.(status := CLOSED);
      if !RowOk(row) { return; }
      if price.Some? {
        if leader.Some? {
          winner := leader;
          if fault.AtInsert? { return; }
          var entry := LedgerRow(leader.value, price.value, true);
          if !LedgerRowOk(entry) { return; }
          ledger := InsertWinner(ledger, entry);
          if fault.AtSettle? { return; }
          row := row.(status := SETTLED, high := price, winner := leader);
          if !RowOk(row) { return; }
          final := SETTLED;
        }
      } else if leader.Some? {
        return;
      }
      if fault.AtCommit? { return; }
      store.rows, store.ledgers := store.rows[id := row], store.ledgers[id := ledger];
      failed := false;
    }

    /** The commands after the commit. */
    method Conclude(id: AuctionId, end: Time, now: Time, fault: Fault, final: Status, notice: Message)
      returns (failed: bool)
      requires Budget(fault) >= 3
      modifies store`keys, store`wire
      ensures failed == !fault.Nowhere?
      ensures var cached := SetStatus(old(store.Hot(id)), final, StatusTtl(end, now), now);
              store.Hot(id) == if fault.AtCache? then old(store.Hot(id))
                               else if fault.Nowhere? || fault.AfterDelete? then Forget(cached) else cached
      ensures store.wire == old(store.wire) + if Budget(fault) < 5 then [] else [Envelope(id, notice)]
      ensures forall x | x != id :: store.Hot(x) == old(store.Hot(x))
    {
      if fault.AtCache? { return true; }
      var ttl := end + DAY - now;
      if ttl <= 0 {
        ttl := HOUR;
      }
      store.keys := store.keys[id := SetStatus(store.Hot(id), final, ttl, now)];
      if fault.AtPublish? { return true; }
      store.wire := store.wire + [Envelope(id, notice)];
      if fault.AtDelete? { return true; }
      store.keys := store.keys[id := Forget(store.Hot(id))];
      return fault.AfterDelete?;
    }

    /** `settle`: the effect on the auction is that of the protocol steps, and no other auction is touched. */
    method Settle(id: AuctionId, end: Time, when: Instants, fault: Fault) returns (failed: bool)
      requires !fault.AtRow?
      requires id in store.rows ==> store.rows[id].end == end
      modifies store
      ensures old(id in store.rows) ==>
                var done := WorkAlone(when, old(store.TaskOf(id)), old(Steps(fault, when, store.TaskOf(id))));
                && id in store.rows && store.TaskOf(id) == Rest(done)
                && store.wire == old(store.wire) + Tag(id, done.past.published)
                && failed == (done.settlers[0].Failed? || (fault.AfterDelete? && 0 < done.past.deletes))
      ensures old(id !in store.rows) ==> unchanged(store) && failed == (Budget(fault) < 2)
      ensures store.rows.Keys == old(store.rows.Keys)
      ensures forall x | x in store.rows && x != id :: store.TaskOf(x) == old(store.TaskOf(x))
    {
      if id in store.rows {
        Effect(when, store.rows[id], store.Ledger(id), store.Hot(id), Steps(fault, when, store.TaskOf(id)));
        assert Tag(id, []) == [];
      }
      if fault.AtMGet? { return true; }
      var price, leader := Get(store.Hot(id).price, when.mget), Get(store.Hot(id).leader, when.mget);
      if fault.AtBegin? || fault.AtLock? { return true; }
      if id !in store.rows { return false; }
      var status := store.rows[id].status;
      if status != ACTIVE { return false; }
      var final, winner;
      failed, final, winner := Transact(id, price, leader, fault);
      if failed { return; }
      var notice := Settlement(final, price, winner);
      assert Tag(id, [notice]) == [Envelope(id, notice)];
      failed := Conclude(id, end, when.cache, Strikes(fault, price, leader), final, notice);
    }

    /** The query of a scan: the due auctions, in the order of their end times. */
    method Query(now: Time) returns (ids: seq<AuctionId>)
      ensures forall id ::
                id in ids <==> id in store.rows && store.rows[id].status == ACTIVE && store.rows[id].end <= now
      ensures forall i, j | 0 <= i < j < |ids| :: ids[i] != ids[j] && store.rows[ids[i]].end <= store.rows[ids[j]].end
    {
      var due := set id | id in store.rows && Due(store.rows[id], now);
      ids := [];
      while due != {}
        invariant forall id | id in due :: id in store.rows && Due(store.rows[id], now)
        invariant forall id | id in store.rows && Due(store.rows[id], now) :: id in due || id in ids
        invariant forall i | 0 <= i < |ids| :: ids[i] !in due && ids[i] in store.rows && Due(store.rows[ids[i]], now)
        invariant forall i, id | 0 <= i < |ids| && id in due :: store.rows[ids[i]].end <= store.rows[id].end
        invariant forall i, j | 0 <= i < j < |ids| ::
                    ids[i] != ids[j] && store.rows[ids[i]].end <= store.rows[ids[j]].end
        decreases due
      {
        var first := Earliest(store.rows, due);
        ids := ids + [first];
        due := due - {first};
      }
    }

    /** What becomes of an auction in a scan, on its own. */
    ghost function Fate(id: AuctionId, now: Time, at: AuctionId -> Instants, faults: AuctionId -> Fault): Auction
      requires id in store.rows
      reads store
    {
      FateOf(store.TaskOf(id), now, at(id), faults(id))
    }

    /** What is published about an auction in a scan. */
    ghost function Voice(id: AuctionId, now: Time, at: AuctionId -> Instants, faults: AuctionId -> Fault): seq<Message>
      reads store
    {
      if id in store.rows then VoiceOf(store.TaskOf(id), now, at(id), faults(id)) else []
    }

    /** The auctions in `done` have met their fate, the others are as they were. */
    ghost predicate Progress(done: set<AuctionId>, plan: Plan)
      reads store
    {
      && store.rows.Keys == plan.Keys
      && forall id | id in store.rows :: store.TaskOf(id) == if id in done then plan[id].fate else plan[id].task
    }

    ghost function PlanOf(now: Time, at: AuctionId -> Instants, faults: AuctionId -> Fault): Plan
      reads store
    {
      map id | id in store.rows :: Entry(store.TaskOf(id), Fate(id, now, at, faults), Voice(id, now, at, faults))
    }

    lemma Foresees(ids: seq<AuctionId>, now: Time, at: AuctionId -> Instants, faults: AuctionId -> Fault)
      requires forall i | 0 <= i < |ids| :: ids[i] in store.rows && Due(store.rows[ids[i]], now)
      ensures Foretold(ids, at, faults, PlanOf(now, at, faults)) && Progress({}, PlanOf(now, at, faults))
    {
    }

    /** One turn of the loop. */
    method SettleNext(ids: seq<AuctionId>, i: nat, at: AuctionId -> Instants, faults: AuctionId -> Fault,
                      ghost done: set<AuctionId>, ghost was: seq<Envelope>, ghost plan: Plan)
      requires i < |ids| && Distinct(ids) && Foretold(ids, at, faults, plan) && Visited(ids, i, done)
      requires Progress(done, plan) && store.wire == was + Said(ids, i, plan)
      modifies store
      ensures Visited(ids, i + 1, done + {ids[i]}) && Progress(done + {ids[i]}, plan)
      ensures store.wire == was + Said(ids, i + 1, plan)
    {
      var id := ids[i];
      VisitNext(ids, i, done);
      assert Foreseen(id, at, faults, plan);
      if faults(id).AtRow? {
        Effect(at(id), store.rows[id], store.Ledger(id), store.Hot(id), 0);
        assert Tag(id, []) == [];
      } else {
        var failed := Settle(id, store.rows[id].end, at(id), faults(id));
      }
      SaidNext(was, ids, i, plan);
    }

    /** The loop over the rows of the query. */
    method SettleAll(ids: seq<AuctionId>, at: AuctionId -> Instants, faults: AuctionId -> Fault, ghost plan: Plan)
      requires Distinct(ids) && Foretold(ids, at, faults, plan) && Progress({}, plan)
      modifies store
      ensures Progress((set id | id in ids), plan)
      ensures store.wire == old(store.wire) + Said(ids, |ids|, plan)
    {
      ghost var done, was := {}, store.wire;
      var i := 0;
      while i < |ids|
        invariant 0 <= i <= |ids| && Visited(ids, i, done)
        invariant Progress(done, plan) && store.wire == was + Said(ids, i, plan)
      {
        SettleNext(ids, i, at, faults, done, was, plan);
        done := done + {ids[i]};
        i := i + 1;
      }
      VisitedAll(ids, done);
    }

    /** The loop on the due auctions, each of them once. */
    method SettleDue(ids: seq<AuctionId>, now: Time, at: AuctionId -> Instants, faults: AuctionId -> Fault)
      requires Distinct(ids) && forall id :: id in ids <==> id in store.rows && Due(store.rows[id], now)
      modifies store
      ensures store.rows.Keys == old(store.rows.Keys)
      ensures forall id | id in store.rows :: store.TaskOf(id) == old(Fate(id, now, at, faults))
      ensures forall id ::
                Broadcast.OfAuction(store.wire, id)
                == old(Broadcast.OfAuction(store.wire, id) + Voice(id, now, at, faults))
      ensures ids == [] ==> store.wire == old(store.wire)
    {
      ghost var plan := PlanOf(now, at, faults);
      Foresees(ids, now, at, faults);
      SettleAll(ids, at, faults, plan);
      AllSaid(old(store.wire), ids, plan);
    }

    /**
     * `scan`: each auction that was due ends up as its own settle leaves it, and says what that settle says,
     * whatever happens to the others; all other auctions stay as they are. `at` says when a settle runs and
     * `faults` what goes wrong in it. When the query fails, nothing happens at all.
     */
    method Scan(now: Time, fails: bool, at: AuctionId -> Instants, faults: AuctionId -> Fault)
      modifies store
      ensures store.rows.Keys == old(store.rows.Keys)
      ensures fails ==> unchanged(store)
      ensures !fails ==> forall id | id in store.rows :: store.TaskOf(id) == old(Fate(id, now, at, faults))
      ensures !fails ==> forall id ::
                Broadcast.OfAuction(store.wire, id)
                == old(Broadcast.OfAuction(store.wire, id) + Voice(id, now, at, faults))
      ensures forall id | id in store.rows && old(id in store.rows) &&
                          old(store.rows[id].status != ACTIVE || now < store.rows[id].end) ::
                && store.TaskOf(id) == old(store.TaskOf(id))
                && Broadcast.OfAuction(store.wire, id) == old(Broadcast.OfAuction(store.wire, id))
      ensures old(forall id | id in store.rows :: !Due(store.rows[id], now)) ==> store.wire == old(store.wire)
    {
      if fails { return; }
      var ids := Query(now);
      assert ids != [] ==> Due(store.rows[ids[0]], now);
      SettleDue(ids, now, at, faults);
    }

  }

  // ---------- what a scan achieves ----------

  /** The settlement transaction of a due auction would commit. */
  predicate Settleable(row: Row, ledger: seq<LedgerRow>, hot: HotKeys.Hot, mget: Time) {
    SettleTx(row, ledger, Get(hot.price, mget), Get(hot.leader, mget)).Done?
  }

  ghost predicate CanSettle(store: Store, id: AuctionId, when: Instants)
    reads store
  {
    id in store.rows && Settleable(store.rows[id], store.Ledger(id), store.Hot(id), when.mget)
  }

  /**
   * When that is, in every state that the protocol reaches: unless a leader is visible whose bid was below the
   * starting price.
   */
  lemma SettleableExactly(now: Time, a: Auction)
    requires Inv(now, a) && a.row.status == ACTIVE
    ensures Settleable(a.row, a.ledger, a.hot, now) <==>
            (Visible(a.hot.leader, now) ==>
               a.past.accepted != [] && a.row.starting <= Last(a.past.accepted).amount)
  {
    SettleTxCommits(a.row, Get(a.hot.price, now), Get(a.hot.leader, now));
  }

  /**
   * The whole settle of an ACTIVE row that no settlement has touched, when nothing fails, from what MGET finds to
   * row, ledger, keys and message. It comes to nothing if MGET finds a leader without a price, or below the starting
   * price; otherwise the auction is SETTLED for the leader at the price, or CLOSED without one.
   */
  lemma SettleExactly(when: Instants, row: Row, hot: HotKeys.Hot)
    requires RowOk(row) && row.status == ACTIVE && row.high.None?
    ensures var done := WorkAlone(when, Task(row, [], hot), 6);
            var price := if Visible(hot.price, when.mget) then Some(hot.price.value) else None;
            var leader := if Visible(hot.leader, when.mget) then Some(hot.leader.value) else None;
            if leader.Some? && (price.None? || price.value < row.starting || 1_000_000_000_000 <= price.value) then
              done.row == row && done.ledger == [] && done.hot == hot && done.past.published == []
            else
              var final := if leader.Some? then SETTLED else CLOSED;
              && done.row == (if leader.Some? then row.(status := SETTLED, high := price, winner := leader)
                              else row.(status := CLOSED))
              && done.ledger == (if leader.Some? then [LedgerRow(leader.value, price.value, true)] else [])
              && done.hot.price == Absent && done.hot.leader == Absent
              && TerminalWord(done.hot.status, hot.status, final, row.end, when.cache)
              && done.past.published == [Settlement(final, price, leader)]
  {
    Effect(when, row, [], hot, 6);
    SettleTxCommits(row, Get(hot.price, when.mget), Get(hot.leader, when.mget));
    var tx := SettleTx(row, [], Get(hot.price, when.mget), Get(hot.leader, when.mget));
    if tx.Done? {
      TerminalExactly(hot, FinalStatus(tx.outcome), row.end, when.cache);
    }
  }

  /**
   * A settle without faults takes the auction out of ACTIVE, publishes once and deletes the pair; with a fault
   * before the commit, or a transaction that cannot commit, row, ledger and keys stay exactly as they were.
   */
  lemma SettleIsAllOrNothing(when: Instants, row: Row, ledger: seq<LedgerRow>, hot: HotKeys.Hot, fault: Fault)
    requires row.status == ACTIVE
    ensures var done := WorkAlone(when, Task(row, ledger, hot), Steps(fault, when, Task(row, ledger, hot)));
            if Steps(fault, when, Task(row, ledger, hot)) <= 2 || !Settleable(row, ledger, hot, when.mget) then
              Holds(row, ledger, hot, done) && done.past.published == [] && done.settlers[0] == Failed
            else
              && done.row.status in {CLOSED, SETTLED}
              && (fault.Nowhere? ==>
                    && done.settlers[0] == Finished && |done.past.published| == 1
                    && done.hot.price.Absent? && done.hot.leader.Absent?)
  {
    Effect(when, row, ledger, hot, Steps(fault, when, Task(row, ledger, hot)));
  }

  /** No infrastructure failure in any settle. */
  const CLEAN: AuctionId -> Fault := _ => Nowhere

  /** What becomes of a due auction in a scan without infrastructure failure. */
  lemma CleanFate(worker: Worker, now: Time, at: AuctionId -> Instants, id: AuctionId)
    requires id in worker.store.rows && Due(worker.store.rows[id], now)
    ensures var fate, voice := worker.Fate(id, now, at, CLEAN), worker.Voice(id, now, at, CLEAN);
            if CanSettle(worker.store, id, at(id)) then fate.row.status in {CLOSED, SETTLED} && |voice| == 1
            else fate == worker.store.TaskOf(id) && voice == []
  {
    var store := worker.store;
    SettleIsAllOrNothing(at(id), store.rows[id], store.Ledger(id), store.Hot(id), Nowhere);
  }

  /** Such a scan, stated without the lambda. */
  method ScanClean(worker: Worker, now: Time, at: AuctionId -> Instants)
    modifies worker.store
    ensures worker.store.rows.Keys == old(worker.store.rows.Keys)
    ensures forall id | id in worker.store.rows :: worker.store.TaskOf(id) == old(worker.Fate(id, now, at, CLEAN))
    ensures forall id ::
              Broadcast.OfAuction(worker.store.wire, id)
              == old(Broadcast.OfAuction(worker.store.wire, id) + worker.Voice(id, now, at, CLEAN))
  {
    worker.Scan(now, false, at, CLEAN);
  }

  /**
   * A scan without infrastructure failure takes each due auction whose transaction can commit out of ACTIVE, and
   * announces it once; every other auction stays as it was, and silent, so that a due one will be selected again.
   */
  method ScanOnce(worker: Worker, now: Time, at: AuctionId -> Instants)
    modifies worker.store
    ensures worker.store.rows.Keys == old(worker.store.rows.Keys)
    ensures forall id | id in worker.store.rows ::
              var said := old(|Broadcast.OfAuction(worker.store.wire, id)|);
              if old(id in worker.store.rows && worker.store.rows[id].status == ACTIVE
                     && worker.store.rows[id].end <= now && CanSettle(worker.store, id, at(id)))
              then && worker.store.rows[id].status in {CLOSED, SETTLED}
                   && |Broadcast.OfAuction(worker.store.wire, id)| == said + 1
              else && old(id in worker.store.rows) && worker.store.rows[id] == old(worker.store.rows)[id]
                   && |Broadcast.OfAuction(worker.store.wire, id)| == said
  {
    forall id | id in worker.store.rows && Due(worker.store.rows[id], now)
      ensures var fate, voice := worker.Fate(id, now, at, CLEAN), worker.Voice(id, now, at, CLEAN);
              if CanSettle(worker.store, id, at(id)) then fate.row.status in {CLOSED, SETTLED} && |voice| == 1
              else fate == worker.store.TaskOf(id) && voice == []
    {
      CleanFate(worker, now, at, id);
    }
    ScanClean(worker, now, at);
  }

  /**
   * Two scans for the same instant: each auction is settled by the second one as the first one has left it. So
   * what the first one leaves not due is as the first one alone leaves it: row, ledger, keys and messages. If every
   * transaction of the first one could commit, that is everything.
   */
  method ScanTwice(worker: Worker, now: Time, at: AuctionId -> Instants, again: AuctionId -> Instants)
    modifies worker.store
    ensures worker.store.rows.Keys == old(worker.store.rows.Keys)
    ensures forall id | id in worker.store.rows ::
              var first := old(worker.Fate(id, now, at, CLEAN));
              && worker.store.TaskOf(id) == FateOf(first, now, again(id), Nowhere)
              && Broadcast.OfAuction(worker.store.wire, id)
                 == old(Broadcast.OfAuction(worker.store.wire, id) + worker.Voice(id, now, at, CLEAN))
                    + VoiceOf(first, now, again(id), Nowhere)
    ensures forall id | id in worker.store.rows && !Due(old(worker.Fate(id, now, at, CLEAN)).row, now) ::
              && worker.store.TaskOf(id) == old(worker.Fate(id, now, at, CLEAN))
              && Broadcast.OfAuction(worker.store.wire, id)
                 == old(Broadcast.OfAuction(worker.store.wire, id) + worker.Voice(id, now, at, CLEAN))
    ensures old(forall id | id in worker.store.rows && Due(worker.store.rows[id], now) ::
                  CanSettle(worker.store, id, at(id)))
            ==> && (forall id | id in worker.store.rows :: !Due(old(worker.Fate(id, now, at, CLEAN)).row, now))
                && forall id :: Broadcast.OfAuction(worker.store.wire, id)
                     == old(Broadcast.OfAuction(worker.store.wire, id) + worker.Voice(id, now, at, CLEAN))
  {
    forall id | id in worker.store.rows && Due(worker.store.rows[id], now) && CanSettle(worker.store, id, at(id))
      ensures worker.Fate(id, now, at, CLEAN).row.status in {CLOSED, SETTLED}
    {
      CleanFate(worker, now, at, id);
    }
    ScanClean(worker, now, at);
    ScanClean(worker, now, again);
  }
}
