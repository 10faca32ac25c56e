/** The three Redis keys of one auction, their lazy expiry, and the commands that touch them. */
module HotKeys {
  import opened Domain

  /** A stored value; an expired one stays stored, but no command sees it any more. */
  datatype Key<+V> = Absent | Held(value: V, expires: Option<Time>)

  predicate Visible<V>(k: Key<V>, now: Time) {
    k.Held? && (k.expires.Some? ==> now <= k.expires.value)
  }

  function Get<V>(k: Key<V>, now: Time): Option<V> {
    if Visible(k, now) then Some(k.value) else None
  }

  datatype Hot = Hot(price: Key<Cents>, leader: Key<UserId>, status: Key<Status>)

  const EMPTY: Hot := Hot(Absent, Absent, Absent)

  /** `SETNX price starting`, without an expiry. */
  function SetNx(hot: Hot, starting: Cents, now: Time): Hot {
    if Visible(hot.price, now) then hot else hot.(price := Held(starting, None))
  }

  /** The client library's rule for a TTL: milliseconds when positive, -1ns keeps the old one, else none. */
  function Expiry<V>(stored: Key<V>, ttl: Time, now: Time): Option<Time> {
    if 0 < ttl then
      Some(now + if ttl < MILLISECOND then MILLISECOND else ttl - ttl % MILLISECOND)
    else if ttl == -1 && Visible(stored, now) then
      stored.expires
    else
      None
  }

  /** `SET status word` with that TTL. */
  function SetStatus(hot: Hot, word: Status, ttl: Time, now: Time): Hot {
    hot.(status := Held(word, Expiry(hot.status, ttl, now)))
  }

  /** The whole seconds a bid asks its keys to live: until a day after the end, at least one second. */
  function BidTtl(end: Time, now: Time): int {
    var left := end + DAY - now;
    var seconds := if left < 0 then 0 else left / SECOND;
    if seconds <= 0 then 1 else seconds
  }

  /** The TTL a worker gives the terminal status. */
  function StatusTtl(end: Time, now: Time): Time {
    var left := end + DAY - now;
    if left <= 0 then HOUR else left
  }

  datatype Verdict = Refused | TooLow(current: Cents) | Accepted

  /** The bid script, run atomically by Redis. */
  function RunScript(hot: Hot, now: Time, user: UserId, amount: Cents, seconds: int): (Hot, Verdict) {
    if Get(hot.status, now) != Some(ACTIVE) then
      (hot, Refused)
    else if Visible(hot.price, now) && amount <= hot.price.value then
      (hot, TooLow(hot.price.value))
    else
      var expires := Some(now + seconds * SECOND);
      (hot.(price := Held(amount, expires), leader := Held(user, expires)), Accepted)
  }

  /** `DEL price leader` */
  function Forget(hot: Hot): Hot {
    hot.(price := Absent, leader := Absent)
  }

  /**
   * Truncation to seconds and the clamp to one second cost less than a second: a TTL computed now, and used
   * at any later instant, keeps the pair beyond a day after the end, less one second.
   */
  lemma BidTtlReaches(end: Time, computed: Time, executed: Time)
    requires computed <= executed
    ensures 1 <= BidTtl(end, computed)
    ensures end + DAY - SECOND < executed + BidTtl(end, computed) * SECOND
  {
    var left := end + DAY - computed;
    if 0 <= left {
      assert left == (left / SECOND) * SECOND + left % SECOND;
    }
  }

  // ---------- the rules in nanoseconds ----------

  /** The whole seconds until a day after the end, and one second when less is left. */
  predicate SecondsLeft(seconds: int, end: Time, now: Time) {
    var left := end + 86_400_000_000_000 - now;
    if left < 1_000_000_000 then seconds == 1
    else seconds * 1_000_000_000 <= left < (seconds + 1) * 1_000_000_000
  }

  lemma BidTtlExactly(end: Time, now: Time)
    ensures SecondsLeft(BidTtl(end, now), end, now)
  {
    var left := end + DAY - now;
    if 0 <= left {
      assert left == (left / SECOND) * SECOND + left % SECOND;
    }
  }

  /**
   * What is written with a TTL lives that long, less what is finer than a millisecond, but for a millisecond at
   * least. Without a positive TTL it has no expiry; only -1ns keeps the one of a visible key.
   */
  predicate LivesFor<V>(expires: Option<Time>, before: Key<V>, ttl: Time, now: Time) {
    if 1_000_000 <= ttl then
      expires.Some? && now + ttl - 1_000_000 < expires.value <= now + ttl && (expires.value - now) % 1_000_000 == 0
    else if 0 < ttl then expires == Some(now + 1_000_000)
    else if ttl == -1 && Visible(before, now) then expires == before.expires
    else expires == None
  }

  lemma ExpiryExactly<V>(stored: Key<V>, ttl: Time, now: Time)
    ensures LivesFor(Expiry(stored, ttl, now), stored, ttl, now)
  {
  }

  /** A terminal word lives until a day after the end, and for an hour when that is over. */
  predicate TerminalWord(k: Key<Status>, before: Key<Status>, word: Status, end: Time, now: Time) {
    var left := end + 86_400_000_000_000 - now;
    && k.Held? && k.value == word
    && LivesFor(k.expires, before, if 0 < left then left else 3_600_000_000_000, now)
  }

  lemma TerminalExactly(hot: Hot, word: Status, end: Time, now: Time)
    ensures var after := SetStatus(hot, word, StatusTtl(end, now), now);
            after.price == hot.price && after.leader == hot.leader
            && TerminalWord(after.status, hot.status, word, end, now)
  {
    ExpiryExactly(hot.status, StatusTtl(end, now), now);
  }

  /** A command sees a value without an expiry, and any other up to and including its expiry. */
  lemma VisibleExactly<V>(k: Key<V>, now: Time)
    ensures Visible(k, now) <==> k.Held? && (k.expires.None? || now <= k.expires.value)
    ensures Get(k, now).Some? <==> Visible(k, now)
    ensures Get(k, now).Some? ==> Get(k, now).value == k.value
  {
  }

  /** SETNX leaves a price that is still visible, and otherwise stores the starting price for good. */
  lemma SetNxExactly(hot: Hot, starting: Cents, now: Time)
    ensures var after := SetNx(hot, starting, now);
            && after.leader == hot.leader && after.status == hot.status
            && after.price == if Visible(hot.price, now) then hot.price else Held(starting, None)
  {
  }

  /**
   * The script, key by key: it refuses without a live word ACTIVE, it finds a bid too low that does not exceed a
   * live price, and it accepts any other: then price and leader are the bid's, for the same number of seconds.
   */
  lemma ScriptExactly(hot: Hot, now: Time, user: UserId, amount: Cents, seconds: int)
    ensures var (after, verdict) := RunScript(hot, now, user, amount, seconds);
            if !(Visible(hot.status, now) && hot.status.value == ACTIVE) then verdict == Refused && after == hot
            else if Visible(hot.price, now) && amount <= hot.price.value then
              verdict == TooLow(hot.price.value) && after == hot
            else
              var expires := Some(now + seconds * 1_000_000_000);
              verdict == Accepted && after == Hot(Held(amount, expires), Held(user, expires), hot.status)
  {
  }
}
