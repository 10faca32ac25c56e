/**
 * The bid and settlement protocol: bid handlers and settlement workers that interleave at the granularity of
 * single database and Redis commands, on any number of auctions, under one clock. `Can` says which step is
 * enabled and `Do` what it does; a process may die, or meet an error, before any of its steps.
 */
module Protocol {
  import opened Domain
  import opened Schema
  import opened HotKeys

  // ---------- bid handlers ----------

  /** The reply of a bid request; `BidTooLow(None)` shows the word CLOSED as the current price. */
  datatype Reply = Created | NotBiddable | BidTooLow(shown: Option<Cents>)

  /** How far a handler has come: each constructor names the step it has just completed. */
  datatype Stage =
    | Asked
    | Fetched
    | Admitted
    | Primed
    | Timed(ttl: Time)
    | Flagged
    | Cleared
    | Armed(seconds: int)
    | Judged(verdict: Verdict)
    | Answered(reply: Reply)
    | Gone

  datatype Bidder = Bidder(bid: Bid, copy: Option<Row>, stage: Stage)

  /** The check of lines 637 and 654 on the row as it was read. */
  predicate Biddable(r: Row, now: Time) {
    r.status == ACTIVE && r.start <= now <= r.end
  }

  function ReplyTo(v: Verdict): Reply {
    match v
    case Accepted => Created
    case TooLow(current) => BidTooLow(Some(current))
    case Refused => BidTooLow(None)
  }

  // ---------- settlement workers ----------

  /** What MGET returned; `seen` counts the bids accepted so far and is there for the statements only. */
  datatype Snapshot = Snapshot(price: Option<Cents>, leader: Option<UserId>, seen: nat)

  /** A committed settlement. */
  datatype Record = Record(worker: WorkerId, snap: Snapshot, outcome: Outcome)

  /** How far a worker has come in settling one auction. */
  datatype Settler =
    | Selected
    | Snapped(snap: Snapshot)
    | Holding(snap: Snapshot)
    | Committed(record: Record)
    | Cached(record: Record)
    | Announced
    | Finished
    | Failed

  predicate Idle(p: Settler) {
    p.Finished? || p.Failed?
  }

  function FinalStatus(o: Outcome): Status {
    if o.Sold? then SETTLED else CLOSED
  }

  function WinnerOf(o: Outcome): Option<UserId> {
    if o.Sold? then Some(o.user) else None
  }

  // ---------- one auction ----------

  /** What has happened to the auction so far. */
  datatype History = History(
    accepted: seq<Bid>,
    snapshots: nat,
    commits: seq<Record>,
    announced: nat,
    deletes: nat,
    published: seq<Message>)

  datatype Auction = Auction(
    row: Row,
    ledger: seq<LedgerRow>,
    lock: Option<WorkerId>,
    hot: Hot,
    bidders: map<RequestId, Bidder>,
    settlers: map<WorkerId, Settler>,
    past: History)

  function NewAuction(row: Row): Auction {
    Auction(row, [], None, EMPTY, map[], map[], History([], 0, [], 0, 0, []))
  }

  /** The rows a creation request can insert. */
  predicate Creatable(row: Row) {
    RowOk(row) && row.status in {DRAFT, ACTIVE} && row.high.None? && row.winner.None?
  }

  /** Creation inserts a DRAFT or ACTIVE auction, without a high price or a winner, that meets the constraints. */
  lemma CreatableExactly(row: Row)
    ensures Creatable(row) <==>
            && row.status in {DRAFT, ACTIVE} && row.high == None && row.winner == None
            && 0 < row.starting < 1_000_000_000_000 && row.start < row.end
  {
  }

  datatype Act =
    | Ask(bid: Bid)
    | Fetch(h: RequestId)
    | Gate(h: RequestId)
    | Prime(h: RequestId)
    | Until(h: RequestId)
    | Flag(h: RequestId)
    | Regate(h: RequestId)
    | Arm(h: RequestId)
    | Script(h: RequestId)
    | Respond(h: RequestId)
    | Drop(h: RequestId)
    | Select(w: WorkerId)
    | Snap(w: WorkerId)
    | Lock(w: WorkerId)
    | Commit(w: WorkerId)
    | Cache(w: WorkerId)
    | Announce(w: WorkerId)
    | Erase(w: WorkerId)
    | Fail(w: WorkerId)

  predicate Reached(a: Auction, h: RequestId, stage: Stage) {
    h in a.bidders && a.bidders[h].stage == stage
  }

  predicate Over(stage: Stage) {
    stage.Answered? || stage.Gone?
  }

  predicate Can(now: Time, a: Auction, act: Act) {
    match act
    case Ask(bid) => bid.request !in a.bidders && 0 <= bid.amount < NUMERIC_LIMIT
    case Fetch(h) => Reached(a, h, Asked)
    case Gate(h) => Reached(a, h, Fetched) && a.bidders[h].copy.Some?
    case Prime(h) => Reached(a, h, Admitted) && a.bidders[h].copy.Some?
    case Until(h) => Reached(a, h, Primed) && a.bidders[h].copy.Some?
    case Flag(h) => h in a.bidders && a.bidders[h].stage.Timed?
    case Regate(h) => Reached(a, h, Flagged) && a.bidders[h].copy.Some?
    case Arm(h) => Reached(a, h, Cleared) && a.bidders[h].copy.Some?
    case Script(h) => h in a.bidders && a.bidders[h].stage.Armed?
    case Respond(h) => h in a.bidders && a.bidders[h].stage.Judged?
    case Drop(h) => h in a.bidders && !Over(a.bidders[h].stage)
    case Select(w) => a.row.status == ACTIVE && a.row.end <= now && (w in a.settlers ==> Idle(a.settlers[w]))
    case Snap(w) => w in a.settlers && a.settlers[w].Selected?
    case Lock(w) => w in a.settlers && a.settlers[w].Snapped? && a.lock.None?
    case Commit(w) => w in a.settlers && a.settlers[w].Holding?
    case Cache(w) => w in a.settlers && a.settlers[w].Committed?
    case Announce(w) => w in a.settlers && a.settlers[w].Cached?
    case Erase(w) => w in a.settlers && a.settlers[w].Announced?
    case Fail(w) => w in a.settlers && !Idle(a.settlers[w])
  }

  function Advance(a: Auction, h: RequestId, stage: Stage): Auction
    requires h in a.bidders
  {
    a.(bidders := a.bidders[h := a.bidders[h].(stage := stage)])
  }

  function Proceed(a: Auction, w: WorkerId, p: Settler): Auction {
    a.(settlers := a.settlers[w := p])
  }

  function DoFetch(a: Auction, h: RequestId): Auction
    requires h in a.bidders
  {
    a.(bidders := a.bidders[h := Bidder(a.bidders[h].bid, Some(a.row), Fetched)])
  }

  function DoCheck(now: Time, a: Auction, h: RequestId, passed: Stage): Auction
    requires h in a.bidders && a.bidders[h].copy.Some?
  {
    Advance(a, h, if Biddable(a.bidders[h].copy.value, now) then passed else Answered(NotBiddable))
  }

  function DoPrime(now: Time, a: Auction, h: RequestId): Auction
    requires h in a.bidders && a.bidders[h].copy.Some?
  {
    Advance(a, h, Primed).(hot := SetNx(a.hot, a.bidders[h].copy.value.starting, now))
  }

  function DoFlag(now: Time, a: Auction, h: RequestId): Auction
    requires h in a.bidders && a.bidders[h].stage.Timed?
  {
    Advance(a, h, Flagged).(hot := SetStatus(a.hot, ACTIVE, a.bidders[h].stage.ttl, now))
  }

  /** The script, and the message it publishes when it accepts. */
  function DoScript(now: Time, a: Auction, h: RequestId): Auction
    requires h in a.bidders && a.bidders[h].stage.Armed?
  {
    var b := a.bidders[h].bid;
    var (hot, verdict) := RunScript(a.hot, now, b.user, b.amount, a.bidders[h].stage.seconds);
    var past := if verdict.Accepted?
                then a.past.(accepted := a.past.accepted + [b],
                             published := a.past.published + [PriceUpdate(b.amount)])
                else a.past;
    Advance(a, h, Judged(verdict)).(hot := hot, past := past)
  }

  function TakeSnapshot(now: Time, a: Auction): Snapshot {
    Snapshot(Get(a.hot.price, now), Get(a.hot.leader, now), |a.past.accepted|)
  }

  function DoSnap(now: Time, a: Auction, w: WorkerId): Auction {
    Proceed(a, w, Snapped(TakeSnapshot(now, a))).(past := a.past.(snapshots := a.past.snapshots + 1))
  }

  /** `select status ... for update`: the transaction ends at once when the row is not ACTIVE. */
  function DoLock(a: Auction, w: WorkerId): Auction
    requires w in a.settlers && a.settlers[w].Snapped?
  {
    if a.row.status == ACTIVE
    then Proceed(a, w, Holding(a.settlers[w].snap)).(lock := Some(w))
    else Proceed(a, w, Finished)
  }

  function DoCommit(a: Auction, w: WorkerId): Auction
    requires w in a.settlers && a.settlers[w].Holding?
  {
    var snap := a.settlers[w].snap;
    match SettleTx(a.row, a.ledger, snap.price, snap.leader)
    case Aborted(_) => Proceed(a, w, Failed).(lock := None)
    case Done(row, ledger, outcome) =>
      var record := Record(w, snap, outcome);
      Proceed(a, w, Committed(record)).(
        row := row, ledger := ledger, lock := None,
        past := a.past.(commits := a.past.commits + [record]))
  }

  function DoCache(now: Time, a: Auction, w: WorkerId): Auction
    requires w in a.settlers && a.settlers[w].Committed?
  {
    var record := a.settlers[w].record;
    Proceed(a, w, Cached(record)).(
      hot := SetStatus(a.hot, FinalStatus(record.outcome), StatusTtl(a.row.end, now), now))
  }

  function Notice(r: Record): Message {
    Settlement(FinalStatus(r.outcome), r.snap.price, WinnerOf(r.outcome))
  }

  function DoAnnounce(a: Auction, w: WorkerId): Auction
    requires w in a.settlers && a.settlers[w].Cached?
  {
    Proceed(a, w, Announced).(
      past := a.past.(announced := a.past.announced + 1,
                      published := a.past.published + [Notice(a.settlers[w].record)]))
  }

  function DoErase(a: Auction, w: WorkerId): Auction {
    Proceed(a, w, Finished).(hot := Forget(a.hot), past := a.past.(deletes := a.past.deletes + 1))
  }

  /** An error or a crash: PostgreSQL rolls the open transaction back and frees its lock. */
  function DoFail(a: Auction, w: WorkerId): Auction {
    Proceed(a, w, Failed).(lock := if a.lock == Some(w) then None else a.lock)
  }

  function Do(now: Time, a: Auction, act: Act): Auction
    requires Can(now, a, act)
  {
    match act
    case Ask(bid) => a.(bidders := a.bidders[bid.request := Bidder(bid, None, Asked)])
    case Fetch(h) => DoFetch(a, h)
    case Gate(h) => DoCheck(now, a, h, Admitted)
    case Prime(h) => DoPrime(now, a, h)
    case Until(h) => Advance(a, h, Timed(a.bidders[h].copy.value.end - now))
    case Flag(h) => DoFlag(now, a, h)
    case Regate(h) => DoCheck(now, a, h, Cleared)
    case Arm(h) => Advance(a, h, Armed(BidTtl(a.bidders[h].copy.value.end, now)))
    case Script(h) => DoScript(now, a, h)
    case Respond(h) => Advance(a, h, Answered(ReplyTo(a.bidders[h].stage.verdict)))
    case Drop(h) => Advance(a, h, Gone)
    case Select(w) => Proceed(a, w, Selected)
    case Snap(w) => DoSnap(now, a, w)
    case Lock(w) => DoLock(a, w)
    case Commit(w) => DoCommit(a, w)
    case Cache(w) => DoCache(now, a, w)
    case Announce(w) => DoAnnounce(a, w)
    case Erase(w) => DoErase(a, w)
    case Fail(w) => DoFail(a, w)
  }

  // ---------- the system ----------

  datatype Envelope = Envelope(id: AuctionId, message: Message)

  /** All auctions, the clock, and everything ever published, in order. */
  datatype System = System(now: Time, auctions: map<AuctionId, Auction>, wire: seq<Envelope>)

  datatype Action =
    | Tick(to: Time)
    | Create(id: AuctionId, row: Row)
    | Scan(w: WorkerId)
    | On(id: AuctionId, act: Act)

  ghost predicate IdleEverywhere(s: System, w: WorkerId) {
    forall id | id in s.auctions :: w in s.auctions[id].settlers ==> Idle(s.auctions[id].settlers[w])
  }

  /** The query of a scan selects this row. */
  predicate Due(r: Row, now: Time) {
    r.status == ACTIVE && r.end <= now
  }

  /** The auction is next in the result set of the scan: nothing is half done, nothing selected ends earlier. */
  ghost predicate NextUp(s: System, w: WorkerId, id: AuctionId)
    requires id in s.auctions
  {
    forall x | x in s.auctions && x != id && w in s.auctions[x].settlers ::
      var p := s.auctions[x].settlers[w];
      Idle(p) || (p.Selected? && s.auctions[id].row.end <= s.auctions[x].row.end)
  }

  ghost predicate Enabled(s: System, action: Action) {
    match action
    case Tick(to) => s.now <= to
    case Create(id, row) => id !in s.auctions && Creatable(row)
    case Scan(w) => IdleEverywhere(s, w)
    case On(id, act) =>
      && id in s.auctions && Can(s.now, s.auctions[id], act) && !act.Select?
      && (act.Snap? ==> NextUp(s, act.w, id))
  }

  function Tag(id: AuctionId, messages: seq<Message>): seq<Envelope> {
    seq(|messages|, i requires 0 <= i < |messages| => Envelope(id, messages[i]))
  }

  /** The messages a step adds to those of its auction. */
  function Fresh(before: Auction, after: Auction): seq<Message> {
    if |before.past.published| <= |after.past.published|
    then after.past.published[|before.past.published|..] else []
  }

  function SelectBy(a: Auction, now: Time, w: WorkerId): Auction {
    if Due(a.row, now) then Proceed(a, w, Selected) else a
  }

  function Apply(s: System, action: Action): System
    requires Enabled(s, action)
  {
    match action
    case Tick(to) => s.(now := to)
    case Create(id, row) => s.(auctions := s.auctions[id := NewAuction(row)])
    case Scan(w) => s.(auctions := map id | id in s.auctions :: SelectBy(s.auctions[id], s.now, w))
    case On(id, act) =>
      var after := Do(s.now, s.auctions[id], act);
      s.(auctions := s.auctions[id := after], wire := s.wire + Tag(id, Fresh(s.auctions[id], after)))
  }

  /** A run from an empty system: `states[i + 1]` is what `actions[i]` makes of `states[i]`. */
  ghost predicate Run(states: seq<System>, actions: seq<Action>) {
    && |states| == |actions| + 1
    && states[0].auctions == map[] && states[0].wire == []
    && forall i | 0 <= i < |actions| :: Enabled(states[i], actions[i]) && states[i + 1] == Apply(states[i], actions[i])
  }
}
