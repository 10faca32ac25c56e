/** The bid script on the texts that Redis stores and the handler sends, compared as doubles. */
module ScriptText {
  import opened Domain
  import opened HotKeys
  import opened Amounts

  datatype TextHot = TextHot(price: Key<string>, leader: Key<UserId>, status: Key<Status>)

  /** The two values that the script returns. */
  datatype Returned = Returned(code: int, text: string)

  /** `tonumber`: the double `f` makes of the decimal. */
  function ToNumber(f: real -> real, s: string): real
    requires MatchesPattern(s)
  {
    f(ValueOf(s))
  }

  predicate Readable(k: Key<string>) {
    k.Held? ==> MatchesPattern(k.value)
  }

  /** The script, run atomically by Redis; `f` converts decimals to doubles. */
  function Run(f: real -> real, hot: TextHot, now: Time, user: UserId, amount: string, seconds: int)
    : (TextHot, Returned)
    requires Readable(hot.price) && MatchesPattern(amount)
  {
    if Get(hot.status, now) != Some(ACTIVE) then
      (hot, Returned(-1, "CLOSED"))
    else if Visible(hot.price, now) && ToNumber(f, amount) <= ToNumber(f, hot.price.value) then
      (hot, Returned(0, hot.price.value))
    else
      var expires := Some(now + seconds * SECOND);
      (hot.(price := Held(amount, expires), leader := Held(user, expires)), Returned(1, amount))
  }

  // ---------- what the texts mean ----------

  function PriceOf(k: Key<string>): Key<Cents>
    requires Readable(k)
  {
    if k.Absent? then Absent else Held(CentsOf(k.value), k.expires)
  }

  function Meaning(hot: TextHot): Hot
    requires Readable(hot.price)
  {
    Hot(PriceOf(hot.price), hot.leader, hot.status)
  }

  /** How the handler reads what the script returns on a bid of this amount. */
  predicate Means(r: Returned, amount: string, v: Verdict) {
    match v
    case Refused => r == Returned(-1, "CLOSED")
    case TooLow(current) => r.code == 0 && MatchesPattern(r.text) && CentsOf(r.text) == current
    case Accepted => r == Returned(1, amount)
  }

  /**
   * Whatever the texts look like, leading zeros included, and however the conversion breaks ties: the script does
   * on texts and doubles what it does on exact cents, and leaves a text of the pattern behind.
   */
  lemma ScriptOnCents(f: real -> real, hot: TextHot, now: Time, user: UserId, amount: string, seconds: int)
    requires CorrectlyRounding(f) && Readable(hot.price) && MatchesPattern(amount)
    ensures var (after, verdict) := Run(f, hot, now, user, amount, seconds);
            && Readable(after.price)
            && Meaning(after) == RunScript(Meaning(hot), now, user, CentsOf(amount), seconds).0
            && Means(verdict, amount, RunScript(Meaning(hot), now, user, CentsOf(amount), seconds).1)
  {
    if hot.price.Held? {
      ComparisonExact(f, amount, hot.price.value);
    }
  }

  /** SETNX stores the database's text of the starting price, which means the starting price. */
  lemma SetNxOnCents(hot: TextHot, starting: Cents, now: Time)
    requires Readable(hot.price) && 0 <= starting < NUMERIC_LIMIT
    ensures var after := if Visible(hot.price, now) then hot else hot.(price := Held(PriceText(starting), None));
            Readable(after.price) && Meaning(after) == SetNx(Meaning(hot), starting, now)
  {
    PriceTextRoundTrip(starting);
  }

  /** Two bids that differ in leading zeros only: the second is never accepted on top of the first. */
  lemma PaddedIsTooLow(f: real -> real, hot: TextHot, now: Time, user: UserId, amount: string, seconds: int)
    requires CorrectlyRounding(f) && Readable(hot.price) && MatchesPattern(amount) && MatchesPattern("0" + amount)
    requires Visible(hot.price, now) && hot.price.value == amount && Get(hot.status, now) == Some(ACTIVE)
    ensures Run(f, hot, now, user, "0" + amount, seconds) == (hot, Returned(0, amount))
  {
    LeadingZero(amount);
    ComparisonExact(f, "0" + amount, amount);
  }
}
