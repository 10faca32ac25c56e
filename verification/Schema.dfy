/** The CHECK constraints and the partial unique index of the schema, and the settlement transaction. */
module Schema {
  import opened Domain

  predicate FitsNumeric(c: Cents) {
    -NUMERIC_LIMIT < c < NUMERIC_LIMIT
  }

  /** The CHECK constraints of `auctions`. */
  predicate RowOk(r: Row) {
    && FitsNumeric(r.starting)
    && 0 < r.starting
    && (r.high.Some? ==> FitsNumeric(r.high.value) && r.starting <= r.high.value)
    && r.start < r.end
    && (r.status == SETTLED ==> r.high.Some? && r.winner.Some?)
    && (r.winner.Some? ==> r.status == SETTLED)
  }

  /** The CHECK constraint of `bids`. */
  predicate LedgerRowOk(b: LedgerRow) {
    FitsNumeric(b.amount) && 0 < b.amount
  }

  predicate HasWinner(ledger: seq<LedgerRow>) {
    exists i | 0 <= i < |ledger| :: ledger[i].winning
  }

  /** The CHECK constraint of every row, and the partial unique index on winning rows. */
  predicate LedgerOk(ledger: seq<LedgerRow>) {
    && (forall i | 0 <= i < |ledger| :: LedgerRowOk(ledger[i]))
    && (forall i, j | 0 <= i < j < |ledger| :: !(ledger[i].winning && ledger[j].winning))
  }

  datatype AbortReason = CheckViolated | LeaderWithoutPrice

  /** The result of the settlement transaction: committed, or rolled back with nothing changed. */
  datatype TxResult =
    | Done(row: Row, ledger: seq<LedgerRow>, outcome: Outcome)
    | Aborted(reason: AbortReason)

  /** `insert into bids ... on conflict (auction_id) where is_winning_bid do nothing` */
  function InsertWinner(ledger: seq<LedgerRow>, b: LedgerRow): seq<LedgerRow> {
    if HasWinner(ledger) then ledger else ledger + [b]
  }

  /** A second winning row is never inserted, and no other row is ever changed. */
  lemma InsertWinnerExactly(ledger: seq<LedgerRow>, b: LedgerRow)
    ensures InsertWinner(ledger, b) ==
            if exists i | 0 <= i < |ledger| :: ledger[i].winning then ledger else ledger + [b]
  {
  }

  /** The statements a worker runs on a locked ACTIVE row, given the snapshot it took of the hot keys. */
  function SettleTx(row: Row, ledger: seq<LedgerRow>, price: Option<Cents>, leader: Option<UserId>): TxResult {
    var closed := row.(status := CLOSED);
    if !RowOk(closed) then
      Aborted(CheckViolated)
    else if price.Some? && leader.Some? then
      var entry := LedgerRow(leader.value, price.value, true);
      var settled := closed.(status := SETTLED, high := price, winner := leader);
      if LedgerRowOk(entry) && RowOk(settled) then
        Done(settled, InsertWinner(ledger, entry), Sold(price.value, leader.value))
      else
        Aborted(CheckViolated)
    else if price.None? && leader.Some? then
      Aborted(LeaderWithoutPrice)
    else
      Done(closed, ledger, Unsold)
  }

  /** What the row and the ledger look like once `outcome` has been committed. */
  predicate Records(row: Row, ledger: seq<LedgerRow>, outcome: Outcome) {
    match outcome
    case Unsold => row.status == CLOSED && row.winner.None? && ledger == []
    case Sold(amount, user) =>
      && row.status == SETTLED && row.high == Some(amount) && row.winner == Some(user)
      && ledger == [LedgerRow(user, amount, true)]
  }

  /**
   * On a row that no settlement has touched the transaction commits exactly when the snapshot is no leader
   * without a price and no bid below the starting price; a commit keeps every constraint, and the auction row
   * and the single winning ledger row agree.
   */
  lemma SettleTxCommits(row: Row, price: Option<Cents>, leader: Option<UserId>)
    requires RowOk(row) && row.status == ACTIVE && row.high.None?
    ensures SettleTx(row, [], price, leader).Done? <==>
            (leader.Some? ==> price.Some? && row.starting <= price.value && FitsNumeric(price.value))
    ensures var tx := SettleTx(row, [], price, leader);
            tx.Done? ==>
              && RowOk(tx.row) && LedgerOk(tx.ledger)
              && Records(tx.row, tx.ledger, tx.outcome)
              && tx.row.starting == row.starting && tx.row.start == row.start && tx.row.end == row.end
              && (tx.outcome.Sold? <==> leader.Some?)
              && (tx.outcome.Sold? ==> price == Some(tx.outcome.amount) && leader == Some(tx.outcome.user))
  {
    assert !HasWinner([]);
  }
}
