/** The order of the steps: what every handler and every worker has done before, and when. */
module Steps {
  import opened Domain
  import opened HotKeys
  import opened Protocol
  import opened Runs
  import opened Settlement
  import opened Window

  // ---------- handlers ----------

  /** The bidder in `a`, and the same one after a step has changed it. */
  predicate Changes(a: Auction, b: Auction, h: RequestId) {
    h in b.bidders && (h !in a.bidders || a.bidders[h] != b.bidders[h])
  }

  /** The row was ACTIVE when it was read, and this is not before its start and not after its end. */
  predicate Within(row: Option<Row>, now: Time) {
    row.Some? && row.value.status == ACTIVE && row.value.start <= now && now <= row.value.end
  }

  /** How a handler comes to a stage: by this step, from that stage, and on this condition. */
  predicate ComesTo(now: Time, a: Auction, act: Act, h: RequestId, b: Bidder) {
    if b.stage == Asked then act == Ask(b.bid) && h == b.bid.request && h !in a.bidders && b.copy.None?
    else
      && h in a.bidders && b.bid == a.bidders[h].bid
      && (if b.stage == Fetched then b.copy == Some(a.row) else b.copy == a.bidders[h].copy)
      && var before := a.bidders[h].stage;
         match b.stage
         case Asked => true
         case Fetched => act == Fetch(h) && before == Asked
         case Admitted => act == Gate(h) && before == Fetched && Within(b.copy, now)
         case Primed => act == Prime(h) && before == Admitted
         case Timed(ttl) => act == Until(h) && before == Primed && b.copy.Some? && ttl == b.copy.value.end - now
         case Flagged => act == Flag(h) && before.Timed?
         case Cleared => act == Regate(h) && before == Flagged && Within(b.copy, now)
         case Armed(seconds) =>
           act == Arm(h) && before == Cleared && b.copy.Some? && SecondsLeft(seconds, b.copy.value.end, now)
         case Judged(_) => act == Script(h) && before.Armed?
         case Answered(reply) =>
           || (act == Respond(h) && before.Judged?
               && reply == match before.verdict
                           case Accepted => Created
                           case TooLow(current) => BidTooLow(Some(current))
                           case Refused => BidTooLow(None))
           || (act == Gate(h) && before == Fetched && reply == NotBiddable && !Within(b.copy, now))
           || (act == Regate(h) && before == Flagged && reply == NotBiddable && !Within(b.copy, now))
         case Gone => act == Drop(h)
  }

  lemma HandlerOrigin(now: Time, a: Auction, act: Act, h: RequestId)
    requires Can(now, a, act) && Changes(a, Do(now, a, act), h)
    ensures ComesTo(now, a, act, h, Do(now, a, act).bidders[h])
  {
    if act.Arm? {
      BidTtlExactly(a.bidders[act.h].copy.value.end, now);
    }
  }

  /** The handler has come to its present stage in step `m`. */
  ghost predicate CameIn(states: seq<System>, actions: seq<Action>, m: nat, i: nat, id: AuctionId, h: RequestId) {
    && m < i < |states| && m < |actions| && Exists(states, m, id) && Exists(states, i, id)
    && actions[m].On? && actions[m].id == id
    && h in states[i].auctions[id].bidders
    && ComesTo(states[m].now, states[m].auctions[id], actions[m].act, h, states[i].auctions[id].bidders[h])
  }

  lemma HandlerInStep(s: System, action: Action, id: AuctionId, h: RequestId)
    requires Enabled(s, action) && id in Apply(s, action).auctions && h in Apply(s, action).auctions[id].bidders
    ensures id in s.auctions
    ensures var b := Apply(s, action).auctions[id].bidders[h];
            || (h in s.auctions[id].bidders && s.auctions[id].bidders[h] == b)
            || (action.On? && action.id == id && ComesTo(s.now, s.auctions[id], action.act, h, b))
  {
    if action.On? && action.id == id && Changes(s.auctions[id], Apply(s, action).auctions[id], h) {
      HandlerOrigin(s.now, s.auctions[id], action.act, h);
    }
  }

  lemma HandlerInRun(states: seq<System>, actions: seq<Action>, i: nat, id: AuctionId, h: RequestId)
    requires Run(states, actions) && i < |actions| && Exists(states, i + 1, id)
    requires h in states[i + 1].auctions[id].bidders
    ensures Exists(states, i, id)
    ensures var b := states[i + 1].auctions[id].bidders[h];
            || (h in states[i].auctions[id].bidders && states[i].auctions[id].bidders[h] == b)
            || CameIn(states, actions, i, i + 1, id, h)
  {
    HandlerInStep(states[i], actions[i], id, h);
  }

  lemma {:induction false} LastMove(states: seq<System>, actions: seq<Action>, i: nat, id: AuctionId, h: RequestId)
      returns (m: nat)
    requires Run(states, actions) && Exists(states, i, id) && h in states[i].auctions[id].bidders
    ensures CameIn(states, actions, m, i, id, h)
    decreases i
  {
    assert i != 0;
    HandlerInRun(states, actions, i - 1, id, h);
    if CameIn(states, actions, i - 1, i, id, h) {
      m := i - 1;
    } else {
      m := LastMove(states, actions, i - 1, id, h);
    }
  }

  /** Step `m` is this one. */
  ghost predicate StepIs(states: seq<System>, actions: seq<Action>, m: nat, id: AuctionId, act: Act) {
    m < |actions| && Exists(states, m, id) && actions[m] == On(id, act)
  }

  /** A handler that holds a TTL has read the row, has checked it, and has made sure of a price. */
  lemma UpToUntil(states: seq<System>, actions: seq<Action>, i: nat, id: AuctionId, h: RequestId)
      returns (fetch: nat, gate: nat, prime: nat, until: nat)
    requires Run(states, actions) && Exists(states, i, id) && h in states[i].auctions[id].bidders
    requires states[i].auctions[id].bidders[h].stage.Timed?
    ensures fetch < gate < prime < until < i
    ensures StepIs(states, actions, fetch, id, Fetch(h)) && StepIs(states, actions, gate, id, Gate(h))
    ensures StepIs(states, actions, prime, id, Prime(h)) && StepIs(states, actions, until, id, Until(h))
    ensures var b, row := states[i].auctions[id].bidders[h], states[fetch].auctions[id].row;
            && b.copy == Some(row) && Within(b.copy, states[gate].now)
            && b.stage == Timed(row.end - states[until].now)
  {
    until := LastMove(states, actions, i, id, h);
    prime := LastMove(states, actions, until, id, h);
    gate := LastMove(states, actions, prime, id, h);
    fetch := LastMove(states, actions, gate, id, h);
  }

  /** And one whose script is next has set the word with that TTL, has checked again, and has a TTL for the pair. */
  lemma UpToArm(states: seq<System>, actions: seq<Action>, i: nat, id: AuctionId, h: RequestId)
      returns (flag: nat, regate: nat, arm: nat)
    requires Run(states, actions) && Exists(states, i, id) && h in states[i].auctions[id].bidders
    requires states[i].auctions[id].bidders[h].stage.Armed?
    ensures flag < regate < arm < i
    ensures StepIs(states, actions, flag, id, Flag(h)) && h in states[flag].auctions[id].bidders
    ensures StepIs(states, actions, regate, id, Regate(h)) && StepIs(states, actions, arm, id, Arm(h))
    ensures var b, c := states[i].auctions[id].bidders[h], states[flag].auctions[id].bidders[h];
            && c.stage.Timed? && c.copy == b.copy && c.bid == b.bid && Within(b.copy, states[regate].now)
            && b.copy.Some? && SecondsLeft(b.stage.seconds, b.copy.value.end, states[arm].now)
  {
    arm := LastMove(states, actions, i, id, h);
    regate := LastMove(states, actions, arm, id, h);
    flag := LastMove(states, actions, regate, id, h);
  }

  /** The instants of the steps of a handler up to its script. */
  datatype Trace = Trace(fetch: nat, gate: nat, prime: nat, until: nat, flag: nat, regate: nat, arm: nat)

  ghost predicate Traces(states: seq<System>, actions: seq<Action>, t: Trace, i: nat, id: AuctionId, h: RequestId) {
    && t.fetch < t.gate < t.prime < t.until < t.flag < t.regate < t.arm < i
    && StepIs(states, actions, t.fetch, id, Fetch(h)) && StepIs(states, actions, t.gate, id, Gate(h))
    && StepIs(states, actions, t.prime, id, Prime(h)) && StepIs(states, actions, t.until, id, Until(h))
    && StepIs(states, actions, t.flag, id, Flag(h)) && StepIs(states, actions, t.regate, id, Regate(h))
    && StepIs(states, actions, t.arm, id, Arm(h))
  }

  /**
   * Before its script every handler has read the row while it was ACTIVE, has checked twice, at an instant from the
   * start to the end each, with SETNX and the SET of the word in between, and has computed its two TTLs: the one of
   * the word is what was left until the end, and the pair's reaches until a day after it.
   */
  lemma BeforeScript(states: seq<System>, actions: seq<Action>, i: nat, id: AuctionId, h: RequestId)
      returns (t: Trace)
    requires Run(states, actions) && StepIs(states, actions, i, id, Script(h))
    ensures Traces(states, actions, t, i, id, h)
    ensures h in states[i].auctions[id].bidders && h in states[t.flag].auctions[id].bidders
    ensures states[t.fetch].auctions[id].row.status == ACTIVE
    ensures var row, b := states[i].auctions[id].row, states[i].auctions[id].bidders[h];
            && row.start <= states[t.gate].now <= row.end
            && row.start <= states[t.regate].now <= row.end
            && states[t.flag].auctions[id].bidders[h].stage == Timed(row.end - states[t.until].now)
            && b.stage.Armed? && SecondsLeft(b.stage.seconds, row.end, states[t.arm].now)
  {
    var flag, regate, arm := UpToArm(states, actions, i, id, h);
    var fetch, gate, prime, until := UpToUntil(states, actions, flag, id, h);
    t := Trace(fetch, gate, prime, until, flag, regate, arm);
    Growth(states, actions, fetch, i, id);
  }

  /**
   * A bid accepted at step `i` was checked by its own handler, twice, at instants from the start to the end; it
   * becomes price and leader, and both expire after the seconds that were left until a day after the end when the
   * TTL was computed.
   */
  lemma AcceptedAfterChecks(states: seq<System>, actions: seq<Action>, i: nat, id: AuctionId)
      returns (h: RequestId, t: Trace, seconds: int)
    requires Run(states, actions) && AcceptsAt(states, i, id)
    ensures StepIs(states, actions, i, id, Script(h)) && Traces(states, actions, t, i, id, h)
    ensures var row := states[i].auctions[id].row;
            && row.start <= states[t.gate].now <= row.end
            && row.start <= states[t.regate].now <= row.end
            && SecondsLeft(seconds, row.end, states[t.arm].now)
    ensures h in states[i].auctions[id].bidders
    ensures var bid, after := states[i].auctions[id].bidders[h].bid, states[i + 1].auctions[id];
            var expires := Some(states[i].now + seconds * 1_000_000_000);
            && after.hot.price == Held(bid.amount, expires) && after.hot.leader == Held(bid.user, expires)
            && after.past.accepted == states[i].auctions[id].past.accepted + [bid]
            && after.past.published == states[i].auctions[id].past.published + [PriceUpdate(bid.amount)]
  {
    h := AcceptingStep(states, actions, i, id);
    t := BeforeScript(states, actions, i, id, h);
    seconds := states[i].auctions[id].bidders[h].stage.seconds;
    assert states[i + 1].auctions[id] == Do(states[i].now, states[i].auctions[id], Script(h));
  }

  /** A handler is turned away exactly by a check that finds the row not ACTIVE, or the time not in its window. */
  lemma ChecksExactly(now: Time, a: Auction, h: RequestId)
    requires (Can(now, a, Gate(h)) || Can(now, a, Regate(h))) && h in a.bidders && a.bidders[h].copy.Some?
    ensures var after := Do(now, a, if Can(now, a, Gate(h)) then Gate(h) else Regate(h));
            var row := a.bidders[h].copy.value;
            && h in after.bidders && after.hot == a.hot
            && (after.bidders[h].stage == Answered(NotBiddable) <==>
                row.status != ACTIVE || now < row.start || row.end < now)
  {
  }

  // ---------- workers ----------

  /** The row is selected by a scan at `now`: it is ACTIVE and has ended. */
  predicate Ended(row: Row, now: Time) {
    row.status == ACTIVE && row.end <= now
  }

  /** How a worker comes to a stage of its settle: by this action, from that stage, and on this condition. */
  predicate Reaches(now: Time, a: Auction, action: Action, id: AuctionId, w: WorkerId, p: Settler) {
    if p == Selected then action == Scan(w) && Ended(a.row, now)
    else
      && w in a.settlers && action.On? && action.id == id
      && var before := a.settlers[w];
         match p
         case Selected => true
         case Snapped(snap) =>
           && action.act == Snap(w) && before == Selected
           && snap.price == Get(a.hot.price, now) && snap.leader == Get(a.hot.leader, now)
         case Holding(snap) =>
           action.act == Lock(w) && before == Snapped(snap) && a.lock == None && a.row.status == ACTIVE
         case Committed(r) => action.act == Commit(w) && before == Holding(r.snap)
         case Cached(r) => action.act == Cache(w) && before == Committed(r)
         case Announced => action.act == Announce(w) && before.Cached?
         case Finished =>
           || (action.act == Erase(w) && before == Announced)
           || (action.act == Lock(w) && before.Snapped? && a.row.status != ACTIVE)
         case Failed => action.act == Fail(w) || (action.act == Commit(w) && before.Holding?)
  }

  lemma SettlerOrigin(now: Time, a: Auction, id: AuctionId, act: Act, w: WorkerId)
    requires Can(now, a, act) && !act.Select? && w in Do(now, a, act).settlers
    ensures || (w in a.settlers && a.settlers[w] == Do(now, a, act).settlers[w])
            || Reaches(now, a, On(id, act), id, w, Do(now, a, act).settlers[w])
  {
  }

  lemma SettlerInStep(s: System, action: Action, id: AuctionId, w: WorkerId)
    requires Enabled(s, action) && id in Apply(s, action).auctions && w in Apply(s, action).auctions[id].settlers
    ensures id in s.auctions
    ensures var p := Apply(s, action).auctions[id].settlers[w];
            || (w in s.auctions[id].settlers && s.auctions[id].settlers[w] == p)
            || Reaches(s.now, s.auctions[id], action, id, w, p)
  {
    if action.On? && action.id == id {
      SettlerOrigin(s.now, s.auctions[id], id, action.act, w);
    }
  }

  /** The worker has come to its present stage in step `m`. */
  ghost predicate ReachedIn(states: seq<System>, actions: seq<Action>, m: nat, i: nat, id: AuctionId, w: WorkerId) {
    && m < i < |states| && m < |actions| && Exists(states, m, id) && Exists(states, i, id)
    && w in states[i].auctions[id].settlers
    && Reaches(states[m].now, states[m].auctions[id], actions[m], id, w, states[i].auctions[id].settlers[w])
  }

  lemma SettlerInRun(states: seq<System>, actions: seq<Action>, i: nat, id: AuctionId, w: WorkerId)
    requires Run(states, actions) && i < |actions| && Exists(states, i + 1, id)
    requires w in states[i + 1].auctions[id].settlers
    ensures Exists(states, i, id)
    ensures var p := states[i + 1].auctions[id].settlers[w];
            || (w in states[i].auctions[id].settlers && states[i].auctions[id].settlers[w] == p)
            || ReachedIn(states, actions, i, i + 1, id, w)
  {
    SettlerInStep(states[i], actions[i], id, w);
  }

  lemma {:induction false} LastReach(states: seq<System>, actions: seq<Action>, i: nat, id: AuctionId, w: WorkerId)
      returns (m: nat)
    requires Run(states, actions) && Exists(states, i, id) && w in states[i].auctions[id].settlers
    ensures ReachedIn(states, actions, m, i, id, w)
    decreases i
  {
    assert i != 0;
    SettlerInRun(states, actions, i - 1, id, w);
    if ReachedIn(states, actions, i - 1, i, id, w) {
      m := i - 1;
    } else {
      m := LastReach(states, actions, i - 1, id, w);
    }
  }

  /**
   * Before its commit every worker has selected the auction in a scan, after the end and while it was ACTIVE; has
   * then read the keys, and only then taken the row lock, on a row that was still ACTIVE.
   */
  lemma BeforeCommit(states: seq<System>, actions: seq<Action>, i: nat, id: AuctionId, w: WorkerId)
      returns (scan: nat, snap: nat, lock: nat)
    requires Run(states, actions) && StepIs(states, actions, i, id, Commit(w))
    ensures scan < snap < lock < i && actions[scan] == Scan(w) && Exists(states, scan, id)
    ensures StepIs(states, actions, snap, id, Snap(w)) && StepIs(states, actions, lock, id, Lock(w))
    ensures states[scan].auctions[id].row.status == ACTIVE
    ensures states[scan].auctions[id].row.end <= states[scan].now
    ensures states[lock].auctions[id].row.status == ACTIVE && states[lock].auctions[id].lock == None
    ensures var a := states[i].auctions[id];
            && w in a.settlers && a.settlers[w].Holding?
            && a.settlers[w].snap.price == Get(states[snap].auctions[id].hot.price, states[snap].now)
            && a.settlers[w].snap.leader == Get(states[snap].auctions[id].hot.leader, states[snap].now)
  {
    lock := LastReach(states, actions, i, id, w);
    snap := LastReach(states, actions, lock, id, w);
    scan := LastReach(states, actions, snap, id, w);
  }

  /** Before it deletes the keys it has committed, then set the terminal word, and then announced it. */
  lemma BeforeErase(states: seq<System>, actions: seq<Action>, i: nat, id: AuctionId, w: WorkerId)
      returns (commit: nat, cache: nat, announce: nat)
    requires Run(states, actions) && StepIs(states, actions, i, id, Erase(w))
    ensures commit < cache < announce < i && StepIs(states, actions, commit, id, Commit(w))
    ensures StepIs(states, actions, cache, id, Cache(w)) && StepIs(states, actions, announce, id, Announce(w))
  {
    announce := LastReach(states, actions, i, id, w);
    cache := LastReach(states, actions, announce, id, w);
    commit := LastReach(states, actions, cache, id, w);
  }

  /**
   * What the steps after the commit do, and nothing else: the terminal word until a day after the end or for an
   * hour, the message, and the deletion of the pair.
   */
  lemma AfterCommit(now: Time, a: Auction, w: WorkerId)
    requires w in a.settlers
    ensures Can(now, a, Cache(w)) ==>
              var b, r := Do(now, a, Cache(w)), a.settlers[w].record;
              && b.hot.price == a.hot.price && b.hot.leader == a.hot.leader && b.past == a.past && b.row == a.row
              && TerminalWord(b.hot.status, a.hot.status, if r.outcome.Sold? then SETTLED else CLOSED, a.row.end, now)
    ensures Can(now, a, Announce(w)) ==>
              var b, r := Do(now, a, Announce(w)), a.settlers[w].record;
              var message := Settlement(if r.outcome.Sold? then SETTLED else CLOSED, r.snap.price,
                                        if r.outcome.Sold? then Some(r.outcome.user) else None);
              b.past.published == a.past.published + [message] && b.hot == a.hot && b.row == a.row
    ensures Can(now, a, Erase(w)) ==>
              var b := Do(now, a, Erase(w));
              && b.hot.price == Absent && b.hot.leader == Absent && b.hot.status == a.hot.status
              && b.row == a.row && b.past.published == a.past.published
  {
    if Can(now, a, Cache(w)) {
      TerminalExactly(a.hot, FinalStatus(a.settlers[w].record.outcome), a.row.end, now);
    }
  }

  // ---------- nothing is settled before its end ----------

  /** Whoever is, or has been, at work on the auction came after its end. */
  predicate OnlyAfterEnd(now: Time, a: Auction) {
    || a.row.end <= now
    || (a.settlers == map[] && a.past.snapshots == 0 && a.past.commits == [] && a.past.announced == 0
        && a.past.deletes == 0 && a.row.status in {DRAFT, ACTIVE, CANCELLED}
        && forall k | 0 <= k < |a.past.published| :: !a.past.published[k].Settlement?)
  }

  lemma StepOnlyAfterEnd(now: Time, a: Auction, act: Act)
    requires Can(now, a, act) && OnlyAfterEnd(now, a) && (act.Select? ==> a.row.end <= now)
    ensures Do(now, a, act).row.end == a.row.end ==> OnlyAfterEnd(now, Do(now, a, act))
  {
  }

  lemma ActionOnlyAfterEnd(s: System, action: Action, id: AuctionId)
    requires Enabled(s, action) && id in s.auctions && OnlyAfterEnd(s.now, s.auctions[id])
    ensures id in Apply(s, action).auctions
    ensures Apply(s, action).auctions[id].row.end == s.auctions[id].row.end ==>
              OnlyAfterEnd(Apply(s, action).now, Apply(s, action).auctions[id])
  {
    if action.On? && action.id == id {
      StepOnlyAfterEnd(s.now, s.auctions[id], action.act);
    }
  }

  /**
   * In every run: as long as an auction has not ended, no worker is at work on it, no snapshot of it has been
   * taken, nothing of it committed, announced or deleted, and it is neither CLOSED nor SETTLED.
   */
  lemma {:induction false} NotBeforeEnd(states: seq<System>, actions: seq<Action>, i: nat, id: AuctionId)
    requires Run(states, actions) && Exists(states, i, id)
    ensures OnlyAfterEnd(states[i].now, states[i].auctions[id])
    decreases i
  {
    if 0 < i {
      if id in states[i - 1].auctions {
        NotBeforeEnd(states, actions, i - 1, id);
        Growth(states, actions, i - 1, i, id);
        ActionOnlyAfterEnd(states[i - 1], actions[i - 1], id);
      } else {
        Appears(states[i - 1], actions[i - 1], id);
      }
    }
  }

  /** The snapshot that a settlement was committed on was taken after the end. */
  lemma SettledAfterEnd(states: seq<System>, actions: seq<Action>, i: nat, id: AuctionId, k: nat, j: nat)
    requires Run(states, actions) && Exists(states, i, id) && states[i].auctions[id].past.commits != []
    requires SettledBy(states, actions, i, id, k, j)
    ensures states[k].auctions[id].row.end <= states[k].now
  {
    NotBeforeEnd(states, actions, k, id);
  }

  /** A scan selects exactly the auctions that are ACTIVE and have ended. */
  lemma ScanSelectsExactly(s: System, w: WorkerId, id: AuctionId)
    requires Enabled(s, Scan(w)) && id in s.auctions
    ensures id in Apply(s, Scan(w)).auctions
    ensures var a, b := s.auctions[id], Apply(s, Scan(w)).auctions[id];
            if a.row.status == ACTIVE && a.row.end <= s.now
            then b == a.(settlers := a.settlers[w := Selected]) else b == a
  {
  }

  /** A worker settles one auction after the other, and in the order in which they end. */
  lemma InOrderOfEnds(states: seq<System>, actions: seq<Action>, i: nat, id: AuctionId, w: WorkerId, x: AuctionId)
    requires Run(states, actions) && StepIs(states, actions, i, id, Snap(w))
    requires Exists(states, i, x) && x != id && w in states[i].auctions[x].settlers
    ensures var p := states[i].auctions[x].settlers[w];
            || p == Finished || p == Failed
            || (p == Selected && states[i].auctions[id].row.end <= states[i].auctions[x].row.end)
  {
  }
}
