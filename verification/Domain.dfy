/** The vocabulary shared by the parts of the model: time, money, identities and rows. */
module Domain {

  datatype Option<+T> = None | Some(value: T)

  /** Instants and durations, in nanoseconds of one clock. */
  type Time = int

  const MILLISECOND: Time := 1_000_000
  const SECOND: Time := 1_000_000_000
  const MINUTE: Time := 60_000_000_000
  const HOUR: Time := 3_600_000_000_000
  const DAY: Time := 86_400_000_000_000

  /** Money, in cents: the two fractional digits of NUMERIC(12, 2). */
  type Cents = int

  /** NUMERIC(12, 2) holds values strictly below this many cents. */
  const NUMERIC_LIMIT: Cents := 1_000_000_000_000

  type AuctionId = nat
  type UserId = nat
  type RequestId = nat
  type WorkerId = nat

  datatype Status = DRAFT | ACTIVE | CLOSED | SETTLED | CANCELLED

  /** A row of the `auctions` table; the columns no code path depends on are left out. */
  datatype Row = Row(
    status: Status,
    starting: Cents,
    start: Time,
    end: Time,
    high: Option<Cents>,
    winner: Option<UserId>)

  /** A row of the `bids` table of one auction. */
  datatype LedgerRow = LedgerRow(user: UserId, amount: Cents, winning: bool)

  /** A bid as the handler receives it; `request` tells one HTTP request from another. */
  datatype Bid = Bid(request: RequestId, user: UserId, amount: Cents)

  /** What a settlement decides. */
  datatype Outcome = Unsold | Sold(amount: Cents, user: UserId)

  /** What is published on the channel of an auction. */
  datatype Message =
    | PriceUpdate(amount: Cents)
    | Settlement(status: Status, price: Option<Cents>, winner: Option<UserId>)
}
