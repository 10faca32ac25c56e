/** The two stores, as objects that the handlers and workers of a process share. */
module Stores {
  import opened Domain
  import opened HotKeys
  import opened Protocol

  /** An auction that worker 0 is about to settle. */
  function Task(row: Row, ledger: seq<LedgerRow>, hot: Hot): Auction {
    NewAuction(row).(ledger := ledger, hot := hot, settlers := map[0 := Selected])
  }

  /** PostgreSQL and Redis, as far as bids and settlements use them. */
  class Store {
    var rows: map<AuctionId, Row>
    var ledgers: map<AuctionId, seq<LedgerRow>>
    var keys: map<AuctionId, Hot>
    var wire: seq<Envelope>

    constructor ()
      ensures rows == map[] && ledgers == map[] && keys == map[] && wire == []
    {
      rows, ledgers, keys, wire := map[], map[], map[], [];
    }

    function Ledger(id: AuctionId): seq<LedgerRow>
      reads this
    {
      if id in ledgers then ledgers[id] else []
    }

    function Hot(id: AuctionId): Hot
      reads this
    {
      if id in keys then keys[id] else EMPTY
    }

    function TaskOf(id: AuctionId): Auction
      requires id in rows
      reads this
    {
      Task(rows[id], Ledger(id), Hot(id))
    }
  }
}
