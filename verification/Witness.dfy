/**
 * Concrete runs that show why the winner theorems need their hypotheses, and that a bid can be accepted after
 * the end. All start with one auction that runs from 0s to 10s, and one request that bids 110.00 on a starting
 * price of 100.00.
 */
module Witness {
  import opened Domain
  import opened HotKeys
  import opened Protocol
  import opened Runs
  import opened Settlement
  import opened Timing
  import opened Window

  const END: Time := 10 * SECOND
  const ROW: Row := Row(ACTIVE, 100_00, 0, END, None, None)
  const OFFER: Bid := Bid(1, 7, 110_00)
  const SECONDS: int := 86_410

  /** A system with this one auction. */
  function At(now: Time, a: Auction, wire: seq<Envelope>): System {
    System(now, map[0 := a], wire)
  }

  function Handling(stage: Stage): map<RequestId, Bidder> {
    map[1 := Bidder(OFFER, Some(ROW), stage)]
  }

  /** The auction before any worker looks at it: its handler at some stage, the keys the handler has set. */
  function Bidding(stage: Stage, hot: Hot): Auction {
    NewAuction(ROW).(bidders := Handling(stage), hot := hot)
  }

  const PRIMED: Hot := EMPTY.(price := Held(100_00, None))
  const FLAGGED: Hot := PRIMED.(status := Held(ACTIVE, Some(END)))
  const LASTING: Hot := PRIMED.(status := Held(ACTIVE, None))

  /** A run that ends in `s`. */
  ghost predicate Leads(states: seq<System>, actions: seq<Action>, s: System) {
    Run(states, actions) && states[|actions|] == s
  }

  ghost predicate UnexpiredIn(s: System) {
    0 in s.auctions ==> Unexpired(s.now, s.auctions[0])
  }

  ghost predicate QuietIn(s: System, t: System) {
    0 in s.auctions && 0 in t.auctions ==> Quiet(s.auctions[0], t.auctions[0])
  }

  /** One more state that is unexpired, or reached by a quiet step. */
  lemma ExtendUnexpired(states: seq<System>, t: System)
    requires NoEarlyExpiry(states, |states| - 1, 0) && UnexpiredIn(t)
    ensures NoEarlyExpiry(states + [t], |states|, 0)
  {
    var longer := states + [t];
    forall k | 0 <= k <= |states| && Exists(longer, k, 0) ensures Unexpired(longer[k].now, longer[k].auctions[0]) {
      if k < |states| {
        assert longer[k] == states[k] && Exists(states, k, 0);
      }
    }
  }

  lemma ExtendQuiesced(states: seq<System>, t: System)
    requires states != [] && Quiesced(states, |states| - 1, 0) && QuietIn(states[|states| - 1], t)
    ensures Quiesced(states + [t], |states|, 0)
  {
    var longer := states + [t];
    forall k | 0 <= k < |states| && Exists(longer, k, 0) && Exists(longer, k + 1, 0)
      ensures Quiet(longer[k].auctions[0], longer[k + 1].auctions[0])
    {
      if k < |states| - 1 {
        assert longer[k] == states[k] && Exists(states, k, 0);
        assert longer[k + 1] == states[k + 1] && Exists(states, k + 1, 0);
      }
    }
  }

  /** One more step of a run. */
  lemma Extend(states: seq<System>, actions: seq<Action>, s: System, action: Action, t: System)
      returns (longer: seq<System>, more: seq<Action>)
    requires Leads(states, actions, s)
    requires Enabled(s, action) && Apply(s, action) == t
    ensures longer == states + [t] && more == actions + [action] && Leads(longer, more, t)
    ensures NoEarlyExpiry(states, |actions|, 0) && UnexpiredIn(t) ==> NoEarlyExpiry(longer, |more|, 0)
    ensures Quiesced(states, |actions|, 0) && QuietIn(s, t) ==> Quiesced(longer, |more|, 0)
  {
    longer, more := states + [t], actions + [action];
    forall i | 0 <= i < |more| ensures Enabled(longer[i], more[i]) && longer[i + 1] == Apply(longer[i], more[i]) {
      if i < |actions| {
        assert longer[i] == states[i] && longer[i + 1] == states[i + 1] && more[i] == actions[i];
      }
    }
    if NoEarlyExpiry(states, |actions|, 0) && UnexpiredIn(t) {
      ExtendUnexpired(states, t);
    }
    if Quiesced(states, |actions|, 0) && QuietIn(s, t) {
      ExtendQuiesced(states, t);
    }
  }

  /** A step that publishes nothing. */
  lemma Silent(a: Auction, b: Auction, wire: seq<Envelope>)
    requires a.past.published == b.past.published
    ensures wire + Tag(0, Fresh(a, b)) == wire
  {
  }

  /** One more step of the auction itself. */
  lemma Own(states: seq<System>, actions: seq<Action>, now: Time, a: Auction, wire: seq<Envelope>, act: Act, b: Auction)
      returns (longer: seq<System>, more: seq<Action>)
    requires Leads(states, actions, At(now, a, wire))
    requires Can(now, a, act) && !act.Select? && Do(now, a, act) == b
    ensures more == actions + [On(0, act)] && Leads(longer, more, At(now, b, wire + Tag(0, Fresh(a, b))))
    ensures longer == states + [At(now, b, wire + Tag(0, Fresh(a, b)))]
    ensures NoEarlyExpiry(states, |actions|, 0) && Unexpired(now, b) ==> NoEarlyExpiry(longer, |more|, 0)
    ensures Quiesced(states, |actions|, 0) && Quiet(a, b) ==> Quiesced(longer, |more|, 0)
  {
    assert map[0 := a][0 := b] == map[0 := b];
    longer, more := Extend(states, actions, At(now, a, wire), On(0, act), At(now, b, wire + Tag(0, Fresh(a, b))));
  }

  /** Time passes. */
  lemma Wait(states: seq<System>, actions: seq<Action>, now: Time, a: Auction, wire: seq<Envelope>, later: Time)
      returns (longer: seq<System>, more: seq<Action>)
    requires Leads(states, actions, At(now, a, wire)) && now <= later
    ensures more == actions + [Tick(later)] && Leads(longer, more, At(later, a, wire))
    ensures NoEarlyExpiry(states, |actions|, 0) && Unexpired(later, a) ==> NoEarlyExpiry(longer, |more|, 0)
    ensures Quiesced(states, |actions|, 0) ==> Quiesced(longer, |more|, 0)
  {
    longer, more := Extend(states, actions, At(now, a, wire), Tick(later), At(later, a, wire));
  }

  /** One more step of the handler, before any bid is accepted. */
  lemma Handle(states: seq<System>, actions: seq<Action>, now: Time, stage: Stage, hot: Hot, act: Act,
               next: Stage, then': Hot)
      returns (longer: seq<System>, more: seq<Action>)
    requires Leads(states, actions, At(now, Bidding(stage, hot), []))
    requires NoEarlyExpiry(states, |actions|, 0) && Quiesced(states, |actions|, 0)
    requires Can(now, Bidding(stage, hot), act) && !act.Select?
    requires Do(now, Bidding(stage, hot), act) == Bidding(stage, hot).(
               bidders := Handling(stage)[1 := Bidder(OFFER, Some(ROW), next)], hot := then')
    requires then'.price.Held? ==> then'.price.expires.None?
    ensures Leads(longer, more, At(now, Bidding(next, then'), []))
    ensures NoEarlyExpiry(longer, |more|, 0) && Quiesced(longer, |more|, 0)
  {
    assert Handling(stage)[1 := Bidder(OFFER, Some(ROW), next)] == Handling(next);
    longer, more := Own(states, actions, now, Bidding(stage, hot), [], act, Bidding(next, then'));
    assert Tag(0, Fresh(Bidding(stage, hot), Bidding(next, then'))) == [];
  }

  lemma Start() returns (states: seq<System>, actions: seq<Action>)
    ensures Leads(states, actions, At(0, Bidding(Fetched, EMPTY), []))
    ensures NoEarlyExpiry(states, |actions|, 0) && Quiesced(states, |actions|, 0)
  {
    var empty := System(0, map[], []);
    var made := NewAuction(ROW);
    var asked := made.(bidders := map[1 := Bidder(OFFER, None, Asked)]);
    states, actions := [empty], [];
    states, actions := Extend(states, actions, empty, Create(0, ROW), At(0, made, []));
    assert map[][1 := Bidder(OFFER, None, Asked)] == asked.bidders;
    states, actions := Own(states, actions, 0, made, [], Ask(OFFER), asked);
    assert Tag(0, Fresh(made, asked)) == [];
    assert asked.bidders[1 := Bidder(OFFER, Some(ROW), Fetched)] == Handling(Fetched);
    states, actions := Own(states, actions, 0, asked, [], Fetch(1), Bidding(Fetched, EMPTY));
    assert Tag(0, Fresh(asked, Bidding(Fetched, EMPTY))) == [];
  }

  /** The handler up to SETNX. */
  lemma Open() returns (states: seq<System>, actions: seq<Action>)
    ensures Leads(states, actions, At(0, Bidding(Primed, PRIMED), []))
    ensures NoEarlyExpiry(states, |actions|, 0) && Quiesced(states, |actions|, 0)
  {
    states, actions := Start();
    states, actions := Handle(states, actions, 0, Fetched, EMPTY, Gate(1), Admitted, EMPTY);
    states, actions := Handle(states, actions, 0, Admitted, EMPTY, Prime(1), Primed, PRIMED);
  }

  /** The handler up to its script. */
  lemma Prepare() returns (states: seq<System>, actions: seq<Action>)
    ensures Leads(states, actions, At(0, Bidding(Armed(SECONDS), FLAGGED), []))
    ensures NoEarlyExpiry(states, |actions|, 0) && Quiesced(states, |actions|, 0)
  {
    states, actions := Open();
    states, actions := Handle(states, actions, 0, Primed, PRIMED, Until(1), Timed(END), PRIMED);
    states, actions := Handle(states, actions, 0, Timed(END), PRIMED, Flag(1), Flagged, FLAGGED);
    states, actions := Handle(states, actions, 0, Flagged, FLAGGED, Regate(1), Cleared, FLAGGED);
    states, actions := Handle(states, actions, 0, Cleared, FLAGGED, Arm(1), Armed(SECONDS), FLAGGED);
  }

  /** The same with a pause before the TTL is computed, so that the word is set at the end, for good. */
  lemma PrepareLate() returns (states: seq<System>, actions: seq<Action>)
    ensures Leads(states, actions, At(END, Bidding(Armed(86_400), LASTING), []))
    ensures NoEarlyExpiry(states, |actions|, 0) && Quiesced(states, |actions|, 0)
  {
    states, actions := Open();
    states, actions := Wait(states, actions, 0, Bidding(Primed, PRIMED), [], END);
    states, actions := Handle(states, actions, END, Primed, PRIMED, Until(1), Timed(0), PRIMED);
    states, actions := Handle(states, actions, END, Timed(0), PRIMED, Flag(1), Flagged, LASTING);
    states, actions := Handle(states, actions, END, Flagged, LASTING, Regate(1), Cleared, LASTING);
    states, actions := Handle(states, actions, END, Cleared, LASTING, Arm(1), Armed(86_400), LASTING);
  }

  const BROADCAST: seq<Envelope> := [Envelope(0, PriceUpdate(110_00))]

  /** Worker 0 scans, at or after the end. */
  lemma ScanIt(states: seq<System>, actions: seq<Action>, now: Time, a: Auction, wire: seq<Envelope>)
      returns (longer: seq<System>, more: seq<Action>)
    requires Leads(states, actions, At(now, a, wire))
    requires a.row == ROW && a.settlers == map[] && END <= now
    ensures more == actions + [Scan(0)] && states <= longer
    ensures Leads(longer, more, At(now, a.(settlers := map[0 := Selected]), wire))
    ensures NoEarlyExpiry(states, |actions|, 0) && Unexpired(now, a) ==> NoEarlyExpiry(longer, |more|, 0)
    ensures Quiesced(states, |actions|, 0) ==> Quiesced(longer, |more|, 0)
  {
    var selected := a.(settlers := map[0 := Selected]);
    assert map[][0 := Selected] == selected.settlers;
    assert SelectBy(a, now, 0) == selected;
    assert Apply(At(now, a, wire), Scan(0)).auctions == map[0 := selected];
    longer, more := Extend(states, actions, At(now, a, wire), Scan(0), At(now, selected, wire));
  }

  /** Time passes until some instant at or after the end, and worker 0 scans. */
  lemma Expire(states: seq<System>, actions: seq<Action>, a: Auction, wire: seq<Envelope>, later: Time)
      returns (longer: seq<System>, more: seq<Action>)
    requires Leads(states, actions, At(0, a, wire))
    requires a.row == ROW && a.settlers == map[] && END <= later
    ensures Leads(longer, more, At(later, a.(settlers := map[0 := Selected]), wire))
    ensures NoEarlyExpiry(states, |actions|, 0) && Unexpired(later, a) ==> NoEarlyExpiry(longer, |more|, 0)
    ensures Quiesced(states, |actions|, 0) ==> Quiesced(longer, |more|, 0)
  {
    longer, more := Wait(states, actions, 0, a, wire, later);
    longer, more := ScanIt(longer, more, later, a, wire);
  }

  /** The worker's next step, on an auction no bid is accepted on meanwhile. */
  lemma Work(states: seq<System>, actions: seq<Action>, now: Time, a: Auction, wire: seq<Envelope>,
             act: Act, p: Settler, b: Auction) returns (longer: seq<System>, more: seq<Action>)
    requires Leads(states, actions, At(now, a, wire))
    requires act.Snap? || act.Lock? || act.Commit? || act.Cache?
    requires act.w == 0 && a.settlers.Keys == {0} && Can(now, a, act)
    requires Do(now, a, act).settlers == a.settlers[0 := p]
    requires b == Do(now, a, act).(settlers := map[0 := p])
    ensures more == actions + [On(0, act)] && states <= longer
    ensures Leads(longer, more, At(now, b, wire))
    ensures NoEarlyExpiry(states, |actions|, 0) && Unexpired(now, b) ==> NoEarlyExpiry(longer, |more|, 0)
    ensures Quiesced(states, |actions|, 0) ==> Quiesced(longer, |more|, 0)
  {
    assert a.settlers[0 := p] == map[0 := p];
    Silent(a, b, wire);
    longer, more := Own(states, actions, now, a, wire, act, b);
  }

  /** The auction once its bid has been accepted. */
  function Winning(now: Time, a: Auction, seconds: int, stage: Stage): Auction {
    var expires := Some(now + seconds * SECOND);
    a.(bidders := Handling(stage),
       hot := a.hot.(price := Held(110_00, expires), leader := Held(7, expires)),
       past := a.past.(accepted := [OFFER], published := [PriceUpdate(110_00)]))
  }

  /** The script of the request is next, and will find the word ACTIVE and the starting price. */
  predicate AboutToWin(now: Time, a: Auction, seconds: int) {
    && a.row == ROW && a.bidders == Handling(Armed(seconds)) && a.hot.price == Held(100_00, None)
    && Get(a.hot.status, now) == Some(ACTIVE)
    && a.past.accepted == [] && a.past.published == []
  }

  lemma Judge(now: Time, a: Auction, seconds: int)
    requires AboutToWin(now, a, seconds)
    ensures Can(now, a, Script(1)) && Do(now, a, Script(1)) == Winning(now, a, seconds, Judged(Accepted))
  {
    assert Handling(Armed(seconds))[1 := Bidder(OFFER, Some(ROW), Judged(Accepted))] == Handling(Judged(Accepted));
    assert [] + [OFFER] == [OFFER] && [] + [PriceUpdate(110_00)] == [PriceUpdate(110_00)];
  }

  lemma Answer(now: Time, a: Auction, seconds: int)
    requires a.row == ROW
    ensures Can(now, Winning(now, a, seconds, Judged(Accepted)), Respond(1))
    ensures Do(now, Winning(now, a, seconds, Judged(Accepted)), Respond(1))
            == Winning(now, a, seconds, Answered(Created))
  {
    assert Handling(Judged(Accepted))[1 := Bidder(OFFER, Some(ROW), Answered(Created))] == Handling(Answered(Created));
  }

  /** The script accepts the bid. */
  lemma Accept(states: seq<System>, actions: seq<Action>, now: Time, a: Auction, seconds: int)
      returns (longer: seq<System>, more: seq<Action>)
    requires Leads(states, actions, At(now, a, [])) && AboutToWin(now, a, seconds) && 0 <= seconds
    ensures Leads(longer, more, At(now, Winning(now, a, seconds, Judged(Accepted)), BROADCAST))
    ensures |more| == |actions| + 1 && longer[|actions|] == At(now, a, [])
    ensures NoEarlyExpiry(states, |actions|, 0) ==> NoEarlyExpiry(longer, |more|, 0)
    ensures Quiesced(states, |actions|, 0) && a.past.snapshots == 0 ==> Quiesced(longer, |more|, 0)
  {
    var b := Winning(now, a, seconds, Judged(Accepted));
    Judge(now, a, seconds);
    longer, more := Own(states, actions, now, a, [], Script(1), b);
    assert Tag(0, Fresh(a, b)) == BROADCAST;
  }

  /** And the handler answers 201. */
  lemma Win(states: seq<System>, actions: seq<Action>, now: Time, a: Auction, seconds: int)
      returns (longer: seq<System>, more: seq<Action>)
    requires Leads(states, actions, At(now, a, [])) && AboutToWin(now, a, seconds) && 0 <= seconds
    ensures Leads(longer, more, At(now, Winning(now, a, seconds, Answered(Created)), BROADCAST))
    ensures AcceptsAt(longer, |actions|, 0) && longer[|actions|] == At(now, a, [])
    ensures NoEarlyExpiry(states, |actions|, 0) ==> NoEarlyExpiry(longer, |more|, 0)
    ensures Quiesced(states, |actions|, 0) && a.past.snapshots == 0 ==> Quiesced(longer, |more|, 0)
  {
    var b, c := Winning(now, a, seconds, Judged(Accepted)), Winning(now, a, seconds, Answered(Created));
    longer, more := Accept(states, actions, now, a, seconds);
    ghost var accepted := longer;
    Answer(now, a, seconds);
    longer, more := Own(longer, more, now, b, BROADCAST, Respond(1), c);
    assert BROADCAST + Tag(0, Fresh(b, c)) == BROADCAST;
    assert longer[|actions|] == accepted[|actions|] && longer[|actions| + 1] == accepted[|actions| + 1];
  }

  /** The commit of a worker that holds the lock and has seen no leader. */
  lemma Unsell(now: Time, a: Auction, snap: Snapshot)
    requires a.row == ROW && a.ledger == [] && a.lock.None? && a.past.commits == [] && snap.leader.None?
    ensures var record := Record(0, snap, Unsold);
            Do(now, a.(settlers := map[0 := Holding(snap)], lock := Some(0)), Commit(0)) ==
            a.(row := ROW.(status := CLOSED), settlers := map[0 := Holding(snap)][0 := Committed(record)],
               past := a.past.(commits := [record]))
  {
    assert [] + [Record(0, snap, Unsold)] == [Record(0, snap, Unsold)];
  }

  /** Lock and commit on a snapshot without a leader. */
  lemma Close(states: seq<System>, actions: seq<Action>, now: Time, a: Auction, wire: seq<Envelope>, snap: Snapshot)
      returns (longer: seq<System>, more: seq<Action>)
    requires Leads(states, actions, At(now, a, wire))
    requires a.row == ROW && a.ledger == [] && a.lock.None? && a.past.commits == []
    requires a.settlers == map[0 := Snapped(snap)] && snap.leader.None?
    ensures var record := Record(0, snap, Unsold);
            Leads(longer, more, At(now, a.(row := ROW.(status := CLOSED), settlers := map[0 := Committed(record)],
                                           past := a.past.(commits := [record])), wire))
    ensures NoEarlyExpiry(states, |actions|, 0) && Unexpired(now, a) ==> NoEarlyExpiry(longer, |more|, 0)
    ensures Quiesced(states, |actions|, 0) ==> Quiesced(longer, |more|, 0)
  {
    var record := Record(0, snap, Unsold);
    var b := a.(settlers := map[0 := Holding(snap)], lock := Some(0));
    longer, more := Work(states, actions, now, a, wire, Lock(0), Holding(snap), b);
    var c := a.(row := ROW.(status := CLOSED), settlers := map[0 := Committed(record)],
                past := a.past.(commits := [record]));
    Unsell(now, a, snap);
    longer, more := Work(longer, more, now, b, wire, Commit(0), Committed(record), c);
  }

  /**
   * Quiescence is needed. The worker takes its snapshot exactly at the end, the script still finds ACTIVE at
   * that instant, the bid is answered 201, and the auction closes unsold, although no key expires early.
   */
  lemma LostBid() returns (states: seq<System>, actions: seq<Action>)
    ensures Run(states, actions) && Exists(states, |actions|, 0) && NoEarlyExpiry(states, |actions|, 0)
    ensures var a := states[|actions|].auctions[0];
            && states[|actions|].now == a.row.end
            && Reached(a, 1, Answered(Created)) && a.past.accepted == [OFFER]
            && a.past.commits != [] && a.row.status == CLOSED
            && !Decides(a.past.commits[0].outcome, a.past.accepted)
  {
    var early := Snapshot(Some(100_00), None, 0);
    states, actions := Prepare();
    states, actions := Expire(states, actions, Bidding(Armed(SECONDS), FLAGGED), [], END);
    var a0 := Bidding(Armed(SECONDS), FLAGGED).(settlers := map[0 := Selected]);
    var a1 := a0.(settlers := map[0 := Snapped(early)], past := a0.past.(snapshots := 1));
    states, actions := Work(states, actions, END, a0, [], Snap(0), Snapped(early), a1);
    states, actions := Win(states, actions, END, a1, SECONDS);
    var a2 := Winning(END, a1, SECONDS, Answered(Created));
    states, actions := Close(states, actions, END, a2, BROADCAST, early);
  }

  /**
   * So is settlement before expiry. No bid follows the snapshot here, but the worker is two days late: it finds
   * no keys, and the auction closes unsold on a bid answered 201.
   */
  lemma ForgottenBid() returns (states: seq<System>, actions: seq<Action>)
    ensures Run(states, actions) && Exists(states, |actions|, 0) && Quiesced(states, |actions|, 0)
    ensures var a := states[|actions|].auctions[0];
            && Reached(a, 1, Answered(Created)) && a.past.accepted == [OFFER]
            && a.past.commits != [] && a.row.status == CLOSED
            && !Decides(a.past.commits[0].outcome, a.past.accepted)
  {
    var late := 2 * DAY;
    var blank := Snapshot(None, None, 1);
    states, actions := Prepare();
    states, actions := Win(states, actions, 0, Bidding(Armed(SECONDS), FLAGGED), SECONDS);
    var won := Winning(0, Bidding(Armed(SECONDS), FLAGGED), SECONDS, Answered(Created));
    states, actions := Expire(states, actions, won, BROADCAST, late);
    var a0 := won.(settlers := map[0 := Selected]);
    var a1 := a0.(settlers := map[0 := Snapped(blank)], past := a0.past.(snapshots := 1));
    states, actions := Work(states, actions, late, a0, BROADCAST, Snap(0), Snapped(blank), a1);
    states, actions := Close(states, actions, late, a1, BROADCAST, blank);
  }

  /**
   * The end does not end the bidding. A handler computes the TTL of the status exactly at the end; its word has
   * no expiry, and two hours after the end its script accepts the bid, which is answered 201. No snapshot has
   * been taken yet, so every hypothesis about the run holds.
   */
  lemma LateBid() returns (states: seq<System>, actions: seq<Action>, i: nat)
    ensures Run(states, actions) && Exists(states, |actions|, 0)
    ensures NoEarlyExpiry(states, |actions|, 0) && Quiesced(states, |actions|, 0)
    ensures AcceptsAt(states, i, 0) && states[i].now == states[i].auctions[0].row.end + 2 * HOUR
    ensures var a := states[|actions|].auctions[0];
            Reached(a, 1, Answered(Created)) && a.past.accepted == [OFFER]
  {
    states, actions := PrepareLate();
    states, actions := Wait(states, actions, END, Bidding(Armed(86_400), LASTING), [], END + 2 * HOUR);
    i := |actions|;
    states, actions := Win(states, actions, END + 2 * HOUR, Bidding(Armed(86_400), LASTING), 86_400);
  }

  /**
   * A 409 with the word CLOSED for a price, on an auction that is still ACTIVE. The status key lapses between the
   * second check and the script.
   */
  lemma ClosedForAPrice() returns (states: seq<System>, actions: seq<Action>)
    ensures Run(states, actions) && Exists(states, |actions|, 0)
    ensures var a := states[|actions|].auctions[0];
            a.row.status == ACTIVE && a.past.commits == [] && Reached(a, 1, Answered(BidTooLow(None)))
  {
    var late := END + 1;
    states, actions := Prepare();
    states, actions := Wait(states, actions, 0, Bidding(Armed(SECONDS), FLAGGED), [], late);
    states, actions := Handle(states, actions, late, Armed(SECONDS), FLAGGED, Script(1), Judged(Refused), FLAGGED);
    states, actions := Handle(states, actions, late, Judged(Refused), FLAGGED, Respond(1),
                              Answered(BidTooLow(None)), FLAGGED);
  }

  // ---------- two bids ----------

  /** A bid below the starting price. */
  const LOW: Bid := Bid(2, 8, 50_00)

  predicate NoFail(actions: seq<Action>) {
    forall k | 0 <= k < |actions| && actions[k].On? :: !actions[k].act.Fail?
  }

  lemma NoFailNext(actions: seq<Action>, action: Action)
    requires NoFail(actions) && (action.On? ==> !action.act.Fail?)
    ensures NoFail(actions + [action])
  {
  }

  /** The auction with one of its handlers, and its keys, as given. */
  function With(a: Auction, h: RequestId, b: Bidder, hot: Hot): Auction {
    a.(bidders := a.bidders[h := b], hot := hot)
  }

  lemma WithBoth(a: Auction, h: RequestId, b: Bidder, hot: Hot, c: Bidder, then': Hot)
    ensures With(With(a, h, b, hot), h, c, then') == With(a, h, c, then')
  {
    assert a.bidders[h := b][h := c] == a.bidders[h := c];
  }

  /** One more step of that handler, at the end, and not the script. */
  lemma HandlerMoves(states: seq<System>, actions: seq<Action>, a: Auction, wire: seq<Envelope>, h: RequestId,
                     b: Bidder, hot: Hot, act: Act, c: Bidder, then': Hot)
      returns (longer: seq<System>, more: seq<Action>)
    requires Leads(states, actions, At(END, With(a, h, b, hot), wire))
    requires Can(END, With(a, h, b, hot), act) && !act.Select? && !act.Fail?
    requires Do(END, With(a, h, b, hot), act) == With(With(a, h, b, hot), h, c, then')
    ensures Leads(longer, more, At(END, With(a, h, c, then'), wire)) && (NoFail(actions) ==> NoFail(more))
    ensures Quiesced(states, |actions|, 0) ==> Quiesced(longer, |more|, 0)
  {
    WithBoth(a, h, b, hot, c, then');
    Silent(With(a, h, b, hot), With(a, h, c, then'), wire);
    if NoFail(actions) {
      NoFailNext(actions, On(0, act));
    }
    longer, more := Own(states, actions, END, With(a, h, b, hot), wire, act, With(a, h, c, then'));
  }

  /** The keys once a handler has set its word at the end, for good. */
  function Lasting(hot: Hot): Hot {
    SetNx(hot, 100_00, END).(status := Held(ACTIVE, None))
  }

  /** A request comes in at the end, and its handler is through to SETNX in no time. */
  lemma EnterAtEnd(states: seq<System>, actions: seq<Action>, a: Auction, wire: seq<Envelope>, bid: Bid)
      returns (longer: seq<System>, more: seq<Action>)
    requires Leads(states, actions, At(END, a, wire)) && NoFail(actions) && Quiesced(states, |actions|, 0)
    requires a.row == ROW && bid.request !in a.bidders && 0 <= bid.amount < NUMERIC_LIMIT
    ensures Leads(longer, more,
                  At(END, With(a, bid.request, Bidder(bid, Some(ROW), Primed), SetNx(a.hot, 100_00, END)), wire))
    ensures NoFail(more) && Quiesced(longer, |more|, 0)
  {
    var h, hot := bid.request, a.hot;
    var x, y, z := Bidder(bid, None, Asked), Bidder(bid, Some(ROW), Fetched), Bidder(bid, Some(ROW), Admitted);
    NoFailNext(actions, On(0, Ask(bid)));
    longer, more := Own(states, actions, END, a, wire, Ask(bid), With(a, h, x, hot));
    assert Tag(0, Fresh(a, With(a, h, x, hot))) == [] && wire + [] == wire;
    longer, more := HandlerMoves(longer, more, a, wire, h, x, hot, Fetch(h), y, hot);
    longer, more := HandlerMoves(longer, more, a, wire, h, y, hot, Gate(h), z, hot);
    longer, more := HandlerMoves(longer, more, a, wire, h, z, hot, Prime(h), Bidder(bid, Some(ROW), Primed),
                          SetNx(hot, 100_00, END));
  }

  /** And through to its script. */
  lemma ArmAtEnd(states: seq<System>, actions: seq<Action>, a: Auction, wire: seq<Envelope>, bid: Bid)
      returns (longer: seq<System>, more: seq<Action>)
    requires Leads(states, actions, At(END, a, wire)) && NoFail(actions) && Quiesced(states, |actions|, 0)
    requires a.row == ROW && bid.request !in a.bidders && 0 <= bid.amount < NUMERIC_LIMIT
    ensures Leads(longer, more,
                  At(END, With(a, bid.request, Bidder(bid, Some(ROW), Armed(86_400)), Lasting(a.hot)), wire))
    ensures NoFail(more) && Quiesced(longer, |more|, 0)
  {
    var h, primed, lasting := bid.request, SetNx(a.hot, 100_00, END), Lasting(a.hot);
    var x, y, z := Bidder(bid, Some(ROW), Timed(0)), Bidder(bid, Some(ROW), Flagged), Bidder(bid, Some(ROW), Cleared);
    longer, more := EnterAtEnd(states, actions, a, wire, bid);
    longer, more := HandlerMoves(longer, more, a, wire, h, Bidder(bid, Some(ROW), Primed), primed, Until(h), x, primed);
    longer, more := HandlerMoves(longer, more, a, wire, h, x, primed, Flag(h), y, lasting);
    longer, more := HandlerMoves(longer, more, a, wire, h, y, lasting, Regate(h), z, lasting);
    longer, more := HandlerMoves(longer, more, a, wire, h, z, lasting, Arm(h), Bidder(bid, Some(ROW), Armed(86_400)),
                                 lasting);
  }

  /** The auction once the script has accepted this bid. */
  function Accepting(now: Time, a: Auction, bid: Bid): Auction {
    var expires := Some(now + 86_400 * SECOND);
    With(a, bid.request, Bidder(bid, Some(ROW), Judged(Accepted)),
         a.hot.(price := Held(bid.amount, expires), leader := Held(bid.user, expires))).(
      past := a.past.(accepted := a.past.accepted + [bid], published := a.past.published + [PriceUpdate(bid.amount)]))
  }

  /** An armed script that finds the word, and no price that the bid does not exceed. */
  lemma AcceptIt(states: seq<System>, actions: seq<Action>, now: Time, a: Auction, wire: seq<Envelope>, bid: Bid)
      returns (longer: seq<System>, more: seq<Action>)
    requires Leads(states, actions, At(now, a, wire))
    requires bid.request in a.bidders && a.bidders[bid.request] == Bidder(bid, Some(ROW), Armed(86_400))
    requires Get(a.hot.status, now) == Some(ACTIVE) && Outbids(now, a, bid.request)
    ensures Leads(longer, more, At(now, Accepting(now, a, bid), wire + [Envelope(0, PriceUpdate(bid.amount))]))
    ensures NoFail(actions) ==> NoFail(more)
    ensures Quiesced(states, |actions|, 0) && a.past.snapshots == 0 ==> Quiesced(longer, |more|, 0)
  {
    var b := Accepting(now, a, bid);
    if NoFail(actions) {
      NoFailNext(actions, On(0, Script(bid.request)));
    }
    longer, more := Own(states, actions, now, a, wire, Script(bid.request), b);
    assert Fresh(a, b) == [PriceUpdate(bid.amount)];
    assert Tag(0, Fresh(a, b)) == [Envelope(0, PriceUpdate(bid.amount))];
  }

  /** Both bids accepted: 110.00 at the end, and 50.00 once the keys of the first one have expired. */
  lemma TwoAccepted() returns (states: seq<System>, actions: seq<Action>, a: Auction, wire: seq<Envelope>)
    ensures Leads(states, actions, At(END + DAY + 1, a, wire)) && NoFail(actions) && Quiesced(states, |actions|, 0)
    ensures a.row == ROW && a.ledger == [] && a.lock.None? && a.settlers == map[]
    ensures a.past.accepted == [OFFER, LOW] && a.past.snapshots == 0 && a.past.commits == []
    ensures Get(a.hot.price, END + DAY + 1) == Some(50_00) && Get(a.hot.leader, END + DAY + 1) == Some(8)
  {
    var empty, made := System(0, map[], []), NewAuction(ROW);
    states, actions := [empty], [];
    states, actions := Extend(states, actions, empty, Create(0, ROW), At(0, made, []));
    states, actions := Wait(states, actions, 0, made, [], END);
    states, actions := ArmAtEnd(states, actions, made, [], OFFER);
    a := With(made, 1, Bidder(OFFER, Some(ROW), Armed(86_400)), Lasting(EMPTY));
    states, actions := ArmAtEnd(states, actions, a, [], LOW);
    a := With(a, 2, Bidder(LOW, Some(ROW), Armed(86_400)), Lasting(a.hot));
    states, actions := AcceptIt(states, actions, END, a, [], OFFER);
    a, wire := Accepting(END, a, OFFER), [] + [Envelope(0, PriceUpdate(110_00))];
    NoFailNext(actions, Tick(END + DAY + 1));
    states, actions := Wait(states, actions, END, a, wire, END + DAY + 1);
    states, actions := AcceptIt(states, actions, END + DAY + 1, a, wire, LOW);
    a, wire := Accepting(END + DAY + 1, a, LOW), wire + [Envelope(0, PriceUpdate(50_00))];
  }

  /** The worker has its snapshot, and the lock. */
  function Seized(a: Auction, snap: Snapshot): Auction {
    a.(settlers := map[0 := Holding(snap)], lock := Some(0), past := a.past.(snapshots := 1))
  }

  lemma Seize(states: seq<System>, actions: seq<Action>, now: Time, a: Auction, wire: seq<Envelope>, snap: Snapshot)
      returns (longer: seq<System>, more: seq<Action>)
    requires Leads(states, actions, At(now, a, wire)) && NoFail(actions) && Quiesced(states, |actions|, 0)
    requires a.row == ROW && a.lock.None? && a.settlers == map[0 := Selected]
    requires a.past.snapshots == 0 && snap == TakeSnapshot(now, a)
    ensures more == actions + [On(0, Snap(0))] + [On(0, Lock(0))] && states <= longer
    ensures Leads(longer, more, At(now, Seized(a, snap), wire)) && NoFail(more) && Quiesced(longer, |more|, 0)
  {
    var b := a.(settlers := map[0 := Snapped(snap)], past := a.past.(snapshots := 1));
    NoFailNext(actions, On(0, Snap(0)));
    longer, more := Work(states, actions, now, a, wire, Snap(0), Snapped(snap), b);
    NoFailNext(more, On(0, Lock(0)));
    longer, more := Work(longer, more, now, b, wire, Lock(0), Holding(snap), Seized(a, snap));
  }

  /** On a pair below the starting price the commit aborts. */
  lemma LowAborts(now: Time, a: Auction, snap: Snapshot)
    requires a.row == ROW && snap.leader.Some? && snap.price.Some? && snap.price.value < 100_00
    ensures Can(now, Seized(a, snap), Commit(0))
    ensures Do(now, Seized(a, snap), Commit(0)) ==
            Seized(a, snap).(settlers := map[0 := Holding(snap)][0 := Failed], lock := None)
  {
  }

  lemma Abort(states: seq<System>, actions: seq<Action>, now: Time, a: Auction, wire: seq<Envelope>, snap: Snapshot)
      returns (longer: seq<System>, more: seq<Action>)
    requires Leads(states, actions, At(now, a, wire)) && NoFail(actions) && Quiesced(states, |actions|, 0)
    requires a.row == ROW && a.lock.None? && a.settlers == map[0 := Selected]
    requires a.past.snapshots == 0 && snap == TakeSnapshot(now, a)
    requires snap.leader.Some? && snap.price.Some? && snap.price.value < 100_00
    ensures more == actions + [On(0, Snap(0))] + [On(0, Lock(0))] + [On(0, Commit(0))] && states <= longer
    ensures Leads(longer, more, At(now, Seized(a, snap).(settlers := map[0 := Failed], lock := None), wire))
    ensures NoFail(more) && Quiesced(longer, |more|, 0)
  {
    longer, more := Seize(states, actions, now, a, wire, snap);
    LowAborts(now, a, snap);
    NoFailNext(more, On(0, Commit(0)));
    longer, more := Work(longer, more, now, Seized(a, snap), wire, Commit(0), Failed,
                         Seized(a, snap).(settlers := map[0 := Failed], lock := None));
  }

  /**
   * Scan completeness needs that no key expires early. No step of this run is an error or a crash, and no bid is
   * accepted after a snapshot; but a bid below the starting price has been accepted once the price key was gone.
   * Its settlement violates a constraint: the scan is through, and the auction that was due is still ACTIVE.
   */
  lemma StuckAuction() returns (states: seq<System>, actions: seq<Action>, i: nat)
    ensures Run(states, actions) && NoFail(actions) && Quiesced(states, |actions|, 0)
    ensures i < |actions| && actions[i] == Scan(0) && Exists(states, i, 0)
    ensures Due(states[i].auctions[0].row, states[i].now) && Undisturbed(actions, i, |actions|, 0, 0)
    ensures IdleEverywhere(states[|actions|], 0) && Exists(states, |actions|, 0)
    ensures states[|actions|].auctions[0].row.status == ACTIVE
  {
    var now := END + DAY + 1;
    var a, wire;
    states, actions, a, wire := TwoAccepted();
    i := |actions|;
    var first := states[i];
    NoFailNext(actions, Scan(0));
    states, actions := ScanIt(states, actions, now, a, wire);
    states, actions := Abort(states, actions, now, a.(settlers := map[0 := Selected]), wire,
                             Snapshot(Some(50_00), Some(8), 2));
    assert states[i] == first;
  }

  // ---------- a price after the settlement ----------

  const EARLY: Snapshot := Snapshot(Some(100_00), None, 0)
  const UNSOLD: Record := Record(0, EARLY, Unsold)

  /** The auction once its worker has announced at the end that it is unsold; a handler has its TTL ready. */
  const ANNOUNCED: Auction := Bidding(Timed(END), PRIMED.(status := Held(CLOSED, Some(END + DAY)))).(
    row := ROW.(status := CLOSED),
    settlers := map[0 := Announced],
    past := History([], 1, [UNSOLD], 1, 0, [Notice(UNSOLD)]))

  lemma CloseEmpty() returns (states: seq<System>, actions: seq<Action>, a: Auction)
    ensures Leads(states, actions, At(END, a, []))
    ensures a == ANNOUNCED.(hot := PRIMED, settlers := map[0 := Committed(UNSOLD)],
                            past := History([], 1, [UNSOLD], 0, 0, []))
  {
    states, actions := Open();
    states, actions := Handle(states, actions, 0, Primed, PRIMED, Until(1), Timed(END), PRIMED);
    var a0 := Bidding(Timed(END), PRIMED);
    states, actions := Expire(states, actions, a0, [], END);
    var a1 := a0.(settlers := map[0 := Selected]);
    var a2 := a0.(settlers := map[0 := Snapped(EARLY)], past := a0.past.(snapshots := 1));
    states, actions := Work(states, actions, END, a1, [], Snap(0), Snapped(EARLY), a2);
    states, actions := Close(states, actions, END, a2, [], EARLY);
    a := a2.(row := ROW.(status := CLOSED), settlers := map[0 := Committed(UNSOLD)],
             past := a2.past.(commits := [UNSOLD]));
  }

  /** Caching the word, and announcing. */
  lemma CacheEmpty(a: Auction)
    requires a == ANNOUNCED.(hot := PRIMED, settlers := map[0 := Committed(UNSOLD)],
                             past := History([], 1, [UNSOLD], 0, 0, []))
    ensures Can(END, a, Cache(0))
    ensures Do(END, a, Cache(0)) ==
            a.(settlers := map[0 := Committed(UNSOLD)][0 := Cached(UNSOLD)], hot := ANNOUNCED.hot)
  {
  }

  lemma PublishEmpty(b: Auction)
    requires b == ANNOUNCED.(settlers := map[0 := Cached(UNSOLD)], past := History([], 1, [UNSOLD], 0, 0, []))
    ensures Can(END, b, Announce(0)) && Do(END, b, Announce(0)) == ANNOUNCED
    ensures Tag(0, Fresh(b, ANNOUNCED)) == [Envelope(0, Notice(UNSOLD))]
  {
    assert map[0 := Cached(UNSOLD)][0 := Announced] == map[0 := Announced];
    assert [] + [Notice(UNSOLD)] == [Notice(UNSOLD)];
    assert Fresh(b, ANNOUNCED) == [Notice(UNSOLD)];
  }

  lemma AnnounceEmpty() returns (states: seq<System>, actions: seq<Action>)
    ensures Leads(states, actions, At(END, ANNOUNCED, [Envelope(0, Notice(UNSOLD))]))
  {
    var a;
    states, actions, a := CloseEmpty();
    var b := a.(settlers := map[0 := Cached(UNSOLD)], hot := ANNOUNCED.hot);
    CacheEmpty(a);
    states, actions := Work(states, actions, END, a, [], Cache(0), Cached(UNSOLD), b);
    PublishEmpty(b);
    states, actions := Own(states, actions, END, b, [], Announce(0), ANNOUNCED);
  }

  /** The keys once that handler has set its word. */
  const LATE: Hot := PRIMED.(status := Held(ACTIVE, Some(2 * END)))

  const OVERTAKEN: seq<Envelope> := [Envelope(0, Notice(UNSOLD)), Envelope(0, PriceUpdate(110_00))]

  /** The handler that has its TTL ready is through to its script. */
  lemma ArmLate() returns (states: seq<System>, actions: seq<Action>)
    ensures Leads(states, actions,
                  At(END, With(ANNOUNCED, 1, Bidder(OFFER, Some(ROW), Armed(86_400)), LATE),
                     [Envelope(0, Notice(UNSOLD))]))
  {
    var a, wire := ANNOUNCED, [Envelope(0, Notice(UNSOLD))];
    var w, x := Bidder(OFFER, Some(ROW), Timed(END)), Bidder(OFFER, Some(ROW), Flagged);
    var y, z := Bidder(OFFER, Some(ROW), Cleared), Bidder(OFFER, Some(ROW), Armed(86_400));
    states, actions := AnnounceEmpty();
    assert a.bidders[1 := w] == a.bidders && With(a, 1, w, a.hot) == a;
    states, actions := HandlerMoves(states, actions, a, wire, 1, w, a.hot, Flag(1), x, LATE);
    states, actions := HandlerMoves(states, actions, a, wire, 1, x, LATE, Regate(1), y, LATE);
    states, actions := HandlerMoves(states, actions, a, wire, 1, y, LATE, Arm(1), z, LATE);
  }

  /** A run that ends by the end of the auction is one in which no key expires early. */
  lemma AllInTime(states: seq<System>, actions: seq<Action>)
    requires Run(states, actions) && Exists(states, |actions|, 0) && states[|actions|].now <= END
    requires states[|actions|].auctions[0].row.end == END
    ensures NoEarlyExpiry(states, |actions|, 0)
  {
    forall k | 0 <= k <= |actions| && Exists(states, k, 0) && states[k].auctions[0].row.status == ACTIVE
      ensures states[k].now <= states[k].auctions[0].row.end + DAY - SECOND
    {
      Persists(states, actions, k, |actions|, 0);
      Growth(states, actions, k, |actions|, 0);
    }
    InTimeIsUnexpired(states, actions, |actions|, 0);
  }

  /**
   * Quiescence is needed for the order of the messages, too. A handler computes its TTL early, the auction is
   * settled and announced exactly at the end, and at that instant the handler sets its word, passes its second
   * check on the row it has read, and its script accepts: a price is published after the settlement. No key
   * expires early.
   */
  lemma Overtaken() returns (states: seq<System>, actions: seq<Action>)
    ensures Run(states, actions) && NoEarlyExpiry(states, |actions|, 0)
    ensures states[|actions|].wire == OVERTAKEN
  {
    states, actions := ArmLate();
    var a := With(ANNOUNCED, 1, Bidder(OFFER, Some(ROW), Armed(86_400)), LATE);
    states, actions := AcceptIt(states, actions, END, a, [Envelope(0, Notice(UNSOLD))], OFFER);
    assert [Envelope(0, Notice(UNSOLD))] + [Envelope(0, PriceUpdate(110_00))] == OVERTAKEN;
    AllInTime(states, actions);
  }
}
