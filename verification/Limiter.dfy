/** The fixed-window rate limiter: the object, and what its decisions amount to over whole traces. */
module RateLimiter {
  import opened Domain
  import opened Subsequences

  type Key = string

  /** The window of one key: when it began, and how many calls it has granted. */
  datatype Entry = Entry(at: Time, n: nat)

  /** What one call decides; `hint` is the Retry-After of a refusal, in seconds. */
  datatype Decision = Decision(entry: Entry, allowed: bool, hint: int)

  function Decide(e: Option<Entry>, max: nat, now: Time): Decision {
    if e.None? || MINUTE <= now - e.value.at then
      Decision(Entry(now, 1), true, 0)
    else if max <= e.value.n then
      var left := MINUTE - (now - e.value.at);
      Decision(e.value, false, if left / SECOND < 1 then 1 else left / SECOND)
    else
      Decision(Entry(e.value.at, e.value.n + 1), true, 0)
  }

  function Lookup(m: map<Key, Entry>, k: Key): Option<Entry> {
    if k in m then Some(m[k]) else None
  }

  /** The hint of a refusal: the whole seconds until the window is over, and one second when less is left. */
  predicate SecondsUntil(hint: int, left: Time) {
    if left < 1_000_000_000 then hint == 1
    else hint * 1_000_000_000 <= left < (hint + 1) * 1_000_000_000
  }

  /** There is room for one more call: no window, one that is a minute old, or one that is not full. */
  predicate HasRoom(e: Option<Entry>, max: nat, now: Time) {
    e.None? || 60_000_000_000 <= now - e.value.at || e.value.n < max
  }

  /**
   * A call is granted exactly when there is room. It begins a window, or is counted in the one there is; a refusal
   * changes nothing and hints at the rest of the minute.
   */
  lemma DecideExactly(e: Option<Entry>, max: nat, now: Time)
    ensures var d := Decide(e, max, now);
            && (d.allowed <==> HasRoom(e, max, now))
            && (d.allowed ==> d.hint == 0)
            && (e.None? || 60_000_000_000 <= now - e.value.at ==> d.entry == Entry(now, 1))
            && (e.Some? && now - e.value.at < 60_000_000_000 ==>
                  if d.allowed then d.entry == Entry(e.value.at, e.value.n + 1)
                  else d.entry == e.value && SecondsUntil(d.hint, 60_000_000_000 - (now - e.value.at)))
  {
    if e.Some? {
      var left := MINUTE - (now - e.value.at);
      assert left == (left / SECOND) * SECOND + left % SECOND;
    }
  }

  // ---------- the object ----------

  class LimitEntry {
    var at: Time
    var n: nat

    constructor (at: Time, n: nat)
      ensures this.at == at && this.n == n
    {
      this.at, this.n := at, n;
    }
  }

  class Limiter {
    var m: map<Key, LimitEntry>
    const max: nat

    constructor (max: nat)
      ensures Valid() && View() == map[] && this.max == max && m == map[]
    {
      m := map[];
      this.max := max;
    }

    /** No two keys share an entry. */
    ghost predicate Valid()
      reads this
    {
      forall k, j | k in m && j in m && k != j :: m[k] != m[j]
    }

    ghost function Entries(): set<LimitEntry>
      reads this
    {
      m.Values
    }

    /** The windows, as values. */
    ghost function View(): map<Key, Entry>
      reads this, Entries()
    {
      map k | k in m :: Entry(m[k].at, m[k].n)
    }

    /** `Allow`: decides, and changes the window of this key only. */
    method Allow(k: Key, now: Time) returns (ok: bool, retry: int)
      requires Valid()
      modifies this, Entries()
      ensures Valid() && fresh(Entries() - old(Entries()))
      ensures var d := Decide(Lookup(old(View()), k), max, now);
              View() == old(View())[k := d.entry] && ok == d.allowed && retry == d.hint
      ensures ok <==> HasRoom(Lookup(old(View()), k), max, now)
    {
      if k !in m || MINUTE <= now - m[k].at {
        var e := new LimitEntry(now, 1);
        m := m[k := e];
        return true, 0;
      }
      var e := m[k];
      if max <= e.n {
        retry := (MINUTE - (now - e.at)) / SECOND;
        if retry < 1 {
          retry := 1;
        }
        assert View() == old(View())[k := old(View())[k]];
        return false, retry;
      }
      e.n := e.n + 1;
      return true, 0;
    }
  }

  // ---------- traces ----------

  datatype Call = Call(key: Key, at: Time)

  /** The windows after these calls on a new limiter. */
  function After(max: nat, calls: seq<Call>): map<Key, Entry>
    decreases |calls|, 1
  {
    if calls == [] then map[]
    else After(max, Front(calls))[Last(calls).key := Verdict(max, calls).entry]
  }

  /** The decision on the latest of these calls. */
  function Verdict(max: nat, calls: seq<Call>): Decision
    requires calls != []
    decreases |calls|, 0
  {
    Decide(Lookup(After(max, Front(calls)), Last(calls).key), max, Last(calls).at)
  }

  /** One call more. */
  lemma AfterNext(max: nat, calls: seq<Call>, c: Call)
    ensures var d := Decide(Lookup(After(max, calls), c.key), max, c.at);
            Verdict(max, calls + [c]) == d && After(max, calls + [c]) == After(max, calls)[c.key := d.entry]
  {
    assert Front(calls + [c]) == calls;
  }

  /** The calls of a trace on a new limiter: its windows and decisions are those of the two functions above. */
  method Serve(max: nat, calls: seq<Call>) returns (limiter: Limiter, allowed: seq<bool>, hints: seq<int>)
    ensures limiter.Valid() && limiter.View() == After(max, calls)
    ensures |allowed| == |hints| == |calls|
    ensures forall i | 0 <= i < |calls| ::
              allowed[i] == Verdict(max, calls[..i + 1]).allowed && hints[i] == Verdict(max, calls[..i + 1]).hint
  {
    limiter := new Limiter(max);
    allowed, hints := [], [];
    var i := 0;
    while i < |calls|
      invariant 0 <= i <= |calls| && |allowed| == |hints| == i
      invariant fresh(limiter) && fresh(limiter.Entries()) && limiter.Valid() && limiter.max == max
      invariant limiter.View() == After(max, calls[..i])
      invariant forall j | 0 <= j < i ::
                  allowed[j] == Verdict(max, calls[..j + 1]).allowed && hints[j] == Verdict(max, calls[..j + 1]).hint
    {
      var ok, retry := limiter.Allow(calls[i].key, calls[i].at);
      assert Front(calls[..i + 1]) == calls[..i] && Last(calls[..i + 1]) == calls[i];
      allowed, hints := allowed + [ok], hints + [retry];
      i := i + 1;
    }
    assert calls[..i] == calls;
  }

  /** The clock is read under the lock: times do not decrease. */
  predicate Ordered(calls: seq<Call>) {
    forall i, j | 0 <= i < j < |calls| :: calls[i].at <= calls[j].at
  }

  /** How many calls of `k` in the half-open interval are granted. */
  function Granted(max: nat, calls: seq<Call>, k: Key, from: Time, to: Time): nat {
    if calls == [] then 0
    else
      Granted(max, Front(calls), k, from, to) +
      if Last(calls).key == k && from <= Last(calls).at < to && Verdict(max, calls).allowed then 1 else 0
  }

  // ---------- non-interference ----------

  /** The calls of one key. */
  function Only(calls: seq<Call>, k: Key): seq<Call> {
    if calls == [] then []
    else Only(Front(calls), k) + if Last(calls).key == k then [Last(calls)] else []
  }

  /**
   * The shared limiter gives each key the window that a private limiter, fed that key's calls alone, would
   * give it; so each decision, hint included, is the private limiter's.
   */
  lemma {:induction false} PrivateWindow(max: nat, calls: seq<Call>, k: Key)
    ensures Lookup(After(max, calls), k) == Lookup(After(max, Only(calls, k)), k)
    ensures calls != [] && Last(calls).key == k ==>
              Only(calls, k) != [] && Verdict(max, calls) == Verdict(max, Only(calls, k))
    decreases |calls|
  {
    if calls != [] {
      PrivateWindow(max, Front(calls), k);
      var only := Only(calls, k);
      if Last(calls).key == k {
        assert only == Only(Front(calls), k) + [Last(calls)];
        assert Front(only) == Only(Front(calls), k) && Last(only) == Last(calls);
      } else {
        assert only == Only(Front(calls), k);
      }
    }
  }

  // ---------- the sliding window ----------

  function CeilMinutes(length: Time): int {
    (length + MINUTE - 1) / MINUTE
  }

  lemma {:induction false} NoneBefore(max: nat, calls: seq<Call>, k: Key, from: Time, to: Time)
    requires forall i | 0 <= i < |calls| :: calls[i].at < from
    ensures Granted(max, calls, k, from, to) == 0
    decreases |calls|
  {
    if calls != [] {
      NoneBefore(max, Front(calls), k, from, to);
    }
  }

  /**
   * The most grants in any interval of this length: the rest of one window and a full window for each minute
   * begun. If the last minute is one of a single nanosecond, the rest and all full windows do not fit together.
   */
  function Most(length: Time, max: nat): int {
    var c := CeilMinutes(length);
    if length == (c - 1) * MINUTE + 1 then c * max else c * max + max - 1
  }

  /**
   * What is known of the latest window and the grants so far. With `s` windows begun in the interval, either all
   * grants are theirs, or some are of an earlier window, and then the first of them did not begin at once.
   */
  predicate Bounded(max: nat, e: Option<Entry>, from: Time, to: Time, s: nat, granted: nat) {
    if e.None? then granted == 0
    else
      && 1 <= e.value.n <= max
      && if e.value.at < from then
           granted <= e.value.n - 1 && (0 < granted ==> from < e.value.at + MINUTE)
         else if e.value.at < to then
           && 1 <= s
           && (|| (from + (s - 1) * MINUTE <= e.value.at && granted <= (s - 1) * max + e.value.n)
               || (from + (s - 1) * MINUTE < e.value.at && granted <= s * max - 1 + e.value.n))
         else
           granted <= Most(to - from, max)
  }

  lemma WindowsFit(length: Time, s: nat)
    requires 1 <= s && (s - 1) * MINUTE < length
    ensures s <= CeilMinutes(length)
    ensures (s - 1) * MINUTE + 1 < length == (CeilMinutes(length) - 1) * MINUTE + 1 ==> s < CeilMinutes(length)
  {
  }

  lemma Product(s: int, t: int, max: nat)
    requires s <= t
    ensures s * max <= t * max
  {
  }

  lemma BoundedAtEnd(max: nat, e: Option<Entry>, from: Time, to: Time, s: nat, granted: nat)
    requires 1 <= max && from < to && Bounded(max, e, from, to, s, granted)
    ensures granted <= Most(to - from, max)
  {
    var c := CeilMinutes(to - from);
    Product(1, c, max);
    if e.Some? && from <= e.value.at < to {
      WindowsFit(to - from, s);
      Product(s, c, max);
      assert (s - 1) * max + max == s * max;
      if s < c {
        Product(s + 1, c, max);
        assert (s + 1) * max == s * max + max;
      }
    }
  }

  /** One call of the key. */
  lemma BoundedStep(max: nat, e: Option<Entry>, now: Time, from: Time, to: Time, s: nat, granted: nat) returns (t: nat)
    requires 1 <= max && from < to && Bounded(max, e, from, to, s, granted)
    requires e.Some? ==> e.value.at <= now
    requires now < from ==> granted == 0
    ensures var d := Decide(e, max, now);
            Bounded(max, Some(d.entry), from, to, t, granted + if from <= now < to && d.allowed then 1 else 0)
  {
    t := s;
    BoundedAtEnd(max, e, from, to, s, granted);
    if e.None? || MINUTE <= now - e.value.at {
      if from <= now < to {
        t := if e.Some? && from <= e.value.at then s + 1 else 1;
        assert (s + 1) * max == s * max + max && (s - 1) * max + max == s * max;
      }
    }
  }

  lemma {:induction false} WindowBound(max: nat, calls: seq<Call>, k: Key, from: Time, to: Time) returns (s: nat)
    requires 1 <= max && from < to && Ordered(calls)
    ensures Bounded(max, Lookup(After(max, calls), k), from, to, s, Granted(max, calls, k, from, to))
    ensures Lookup(After(max, calls), k).Some? ==>
              calls != [] && Lookup(After(max, calls), k).value.at <= Last(calls).at
    decreases |calls|
  {
    s := 0;
    if calls != [] {
      s := WindowBound(max, Front(calls), k, from, to);
      if Last(calls).key == k {
        if Last(calls).at < from {
          NoneBefore(max, Front(calls), k, from, to);
        }
        s := BoundedStep(max, Lookup(After(max, Front(calls)), k), Last(calls).at, from, to, s,
                         Granted(max, Front(calls), k, from, to));
      }
    }
  }

  /**
   * The sliding window: over any trace, any half-open interval of any length admits at most `Most` calls of a key,
   * which is fewer than (ceil(length / 60s) + 1) * max; so fewer than 2 * max in any minute.
   */
  lemma SlidingWindow(max: nat, calls: seq<Call>, k: Key, from: Time, length: Time)
    requires 1 <= max && 0 < length && Ordered(calls)
    ensures Granted(max, calls, k, from, from + length) <= Most(length, max) <= (CeilMinutes(length) + 1) * max - 1
    ensures length <= MINUTE ==> Granted(max, calls, k, from, from + length) <= 2 * max - 1
  {
    var s := WindowBound(max, calls, k, from, from + length);
    BoundedAtEnd(max, Lookup(After(max, calls), k), from, from + length, s,
                 Granted(max, calls, k, from, from + length));
    assert (CeilMinutes(length) + 1) * max == CeilMinutes(length) * max + max;
  }

  // ---------- the bound is reached ----------

  function Burst(k: Key, at: Time, m: nat): seq<Call> {
    seq(m, _ => Call(k, at))
  }

  /** A burst within one window, and within its limit, is granted as a whole. */
  lemma {:induction false} BurstGranted(max: nat, calls: seq<Call>, k: Key, now: Time, m: nat, from: Time, to: Time)
    requires Lookup(After(max, calls), k).Some?
    requires var e := Lookup(After(max, calls), k).value; now - e.at < MINUTE && e.n + m <= max
    ensures var e := Lookup(After(max, calls), k).value;
            Lookup(After(max, calls + Burst(k, now, m)), k) == Some(Entry(e.at, e.n + m))
    ensures Granted(max, calls + Burst(k, now, m), k, from, to)
            == Granted(max, calls, k, from, to) + if from <= now < to then m else 0
    decreases m
  {
    var all := calls + Burst(k, now, m);
    if m == 0 {
      assert all == calls;
    } else {
      BurstGranted(max, calls, k, now, m - 1, from, to);
      assert Front(all) == calls + Burst(k, now, m - 1);
    }
  }

  lemma FirstOfWindow(max: nat, calls: seq<Call>, k: Key, now: Time, from: Time, to: Time)
    requires Lookup(After(max, calls), k).Some? ==> MINUTE <= now - Lookup(After(max, calls), k).value.at
    ensures Lookup(After(max, calls + [Call(k, now)]), k) == Some(Entry(now, 1))
    ensures Granted(max, calls + [Call(k, now)], k, from, to)
            == Granted(max, calls, k, from, to) + if from <= now < to then 1 else 0
  {
    assert Front(calls + [Call(k, now)]) == calls;
  }

  /** A first window with one call at 0s and the rest at `rest`, and then full windows at each of `c` minutes. */
  function Rush(k: Key, max: nat, rest: Time, c: nat): seq<Call>
    requires 1 <= max
  {
    if c == 0 then [Call(k, 0)] + Burst(k, rest, max - 1)
    else Rush(k, max, rest, c - 1) + [Call(k, c * MINUTE)] + Burst(k, c * MINUTE, max - 1)
  }

  lemma OrderedTogether(calls: seq<Call>, k: Key, at: Time, m: nat)
    requires Ordered(calls) && forall i | 0 <= i < |calls| :: calls[i].at <= at
    ensures Ordered(calls + [Call(k, at)] + Burst(k, at, m))
    ensures forall i | 0 <= i < |calls + [Call(k, at)] + Burst(k, at, m)| ::
              (calls + [Call(k, at)] + Burst(k, at, m))[i].at <= at
  {
  }

  lemma {:induction false} RushOrdered(k: Key, max: nat, rest: Time, c: nat)
    requires 1 <= max && 0 <= rest < MINUTE
    ensures Ordered(Rush(k, max, rest, c))
    ensures forall i | 0 <= i < |Rush(k, max, rest, c)| ::
              Rush(k, max, rest, c)[i].at <= if c == 0 then rest else c * MINUTE
    decreases c
  {
    if 0 < c {
      RushOrdered(k, max, rest, c - 1);
      assert (c - 1) * MINUTE + MINUTE == c * MINUTE;
      OrderedTogether(Rush(k, max, rest, c - 1), k, c * MINUTE, max - 1);
    }
  }

  /** A full window within the interval. */
  lemma WindowGranted(max: nat, calls: seq<Call>, k: Key, at: Time, from: Time, to: Time)
    requires 1 <= max && from <= at < to
    requires Lookup(After(max, calls), k).Some? ==> MINUTE <= at - Lookup(After(max, calls), k).value.at
    ensures var all := calls + [Call(k, at)] + Burst(k, at, max - 1);
            && Lookup(After(max, all), k) == Some(Entry(at, max))
            && Granted(max, all, k, from, to) == Granted(max, calls, k, from, to) + max
  {
    FirstOfWindow(max, calls, k, at, from, to);
    BurstGranted(max, calls + [Call(k, at)], k, at, max - 1, from, to);
  }

  /** The first window. */
  lemma RushStart(k: Key, max: nat, rest: Time, from: Time, to: Time)
    requires 1 <= max && 0 <= from <= rest < MINUTE && rest < to
    ensures Lookup(After(max, Rush(k, max, rest, 0)), k) == Some(Entry(0, max))
    ensures Granted(max, Rush(k, max, rest, 0), k, from, to) == max - if from == 0 then 0 else 1
  {
    var first := [Call(k, 0)];
    FirstOfWindow(max, [], k, 0, from, to);
    assert [] + first == first;
    BurstGranted(max, first, k, rest, max - 1, from, to);
  }

  /** All calls are granted; those from `from` on are counted, up to the last window before `to`. */
  lemma {:induction false} RushGranted(k: Key, max: nat, rest: Time, c: nat, from: Time, to: Time)
    requires 1 <= max && 0 <= from <= rest < MINUTE && rest < to && (1 <= c ==> c * MINUTE < to)
    ensures Lookup(After(max, Rush(k, max, rest, c)), k) == Some(Entry(c * MINUTE, max))
    ensures Granted(max, Rush(k, max, rest, c), k, from, to) == c * max + max - if from == 0 then 0 else 1
    decreases c
  {
    if c == 0 {
      RushStart(k, max, rest, from, to);
    } else {
      assert (c - 1) * MINUTE + MINUTE == c * MINUTE && (c - 1) * max + max == c * max;
      RushGranted(k, max, rest, c - 1, from, to);
      WindowGranted(max, Rush(k, max, rest, c - 1), k, c * MINUTE, from, to);
    }
  }

  lemma CeilMinutesMeans(length: Time)
    requires 0 < length
    ensures 1 <= CeilMinutes(length) && (CeilMinutes(length) - 1) * MINUTE < length <= CeilMinutes(length) * MINUTE
  {
  }

  /** Full windows only, the last of which begins in the last nanosecond. */
  lemma FullWindows(k: Key, max: nat, c: nat)
    requires 1 <= max && 1 <= c
    ensures Ordered(Rush(k, max, 0, c - 1))
    ensures Granted(max, Rush(k, max, 0, c - 1), k, 0, (c - 1) * MINUTE + 1) == c * max
  {
    RushOrdered(k, max, 0, c - 1);
    RushGranted(k, max, 0, c - 1, 0, (c - 1) * MINUTE + 1);
    assert (c - 1) * max + max == c * max;
  }

  /** The rest of a window in its last nanosecond, and then full windows. */
  lemma RestAndWindows(k: Key, max: nat, c: nat, length: Time)
    requires 1 <= max && 1 <= c && (c - 1) * MINUTE + 1 < length
    ensures Ordered(Rush(k, max, MINUTE - 1, c))
    ensures Granted(max, Rush(k, max, MINUTE - 1, c), k, MINUTE - 1, MINUTE - 1 + length) == c * max + max - 1
  {
    RushOrdered(k, max, MINUTE - 1, c);
    assert (c - 1) * MINUTE + MINUTE == c * MINUTE;
    RushGranted(k, max, MINUTE - 1, c, MINUTE - 1, MINUTE - 1 + length);
  }

  /** For every limit and every length there is a trace, and an interval of this length, with that many grants. */
  lemma BoundReached(max: nat, k: Key, length: Time) returns (calls: seq<Call>, from: Time)
    requires 1 <= max && 0 < length
    ensures Ordered(calls) && Granted(max, calls, k, from, from + length) == Most(length, max)
  {
    var c := CeilMinutes(length);
    CeilMinutesMeans(length);
    if length == (c - 1) * MINUTE + 1 {
      calls, from := Rush(k, max, 0, c - 1), 0;
      FullWindows(k, max, c);
    } else {
      calls, from := Rush(k, max, MINUTE - 1, c), MINUTE - 1;
      RestAndWindows(k, max, c, length);
    }
  }

  // ---------- the retry hint ----------

  /**
   * A refusal leaves the window alone and hints at 1 to 60 seconds. A second more than the hint is always
   * enough; the hint itself is enough exactly when truncation lost nothing.
   */
  lemma HintSound(max: nat, e: Entry, now: Time)
    requires e.at <= now && !Decide(Some(e), max, now).allowed
    ensures var d := Decide(Some(e), max, now);
            && d.entry == e && 1 <= d.hint <= 60 && SecondsUntil(d.hint, MINUTE - (now - e.at))
            && (forall later | now + (d.hint + 1) * SECOND <= later :: Decide(Some(e), max, later).allowed)
            && (Decide(Some(e), max, now + d.hint * SECOND).allowed <==>
                MINUTE - (now - e.at) < SECOND || (MINUTE - (now - e.at)) % SECOND == 0)
  {
    var left := MINUTE - (now - e.at);
    assert left == (left / SECOND) * SECOND + left % SECOND;
  }

  /** The calls of `k` after the first `from` ones are all refused. */
  ghost predicate AllRefused(max: nat, calls: seq<Call>, k: Key, from: nat) {
    forall i | from <= i < |calls| && calls[i].key == k :: !Verdict(max, calls[..i + 1]).allowed
  }

  lemma {:induction false} RefusalsKeepWindow(max: nat, calls: seq<Call>, k: Key, from: nat)
    requires from <= |calls| && AllRefused(max, calls, k, from)
    ensures Lookup(After(max, calls), k) == Lookup(After(max, calls[..from]), k)
    decreases |calls|
  {
    if from == |calls| {
      assert calls[..from] == calls;
    } else {
      assert calls[..|calls|] == calls;
      forall i | from <= i < |Front(calls)| && Front(calls)[i].key == k
        ensures !Verdict(max, Front(calls)[..i + 1]).allowed
      {
        assert Front(calls)[..i + 1] == calls[..i + 1];
      }
      RefusalsKeepWindow(max, Front(calls), k, from);
      assert Front(calls)[..from] == calls[..from];
    }
  }

  lemma {:induction false} StartsEarlier(max: nat, calls: seq<Call>, k: Key)
    requires Ordered(calls)
    ensures Lookup(After(max, calls), k).Some? ==>
              calls != [] && Lookup(After(max, calls), k).value.at <= Last(calls).at
    decreases |calls|
  {
    if calls != [] {
      StartsEarlier(max, Front(calls), k);
    }
  }

  /**
   * In any trace: if call `i` of a key is refused with hint r, and the key's calls up to the last one are refused
   * too, then the last one is granted as soon as it comes r + 1 seconds after call `i`, whatever other keys do.
   */
  lemma RetryIsGranted(max: nat, calls: seq<Call>, i: nat)
    requires Ordered(calls) && i < |calls| - 1 && Last(calls).key == calls[i].key
    requires !Verdict(max, calls[..i + 1]).allowed
    requires AllRefused(max, Front(calls), calls[i].key, i + 1)
    requires calls[i].at + (Verdict(max, calls[..i + 1]).hint + 1) * SECOND <= Last(calls).at
    ensures Verdict(max, calls).allowed
  {
    var k := calls[i].key;
    RefusalsKeepWindow(max, Front(calls), k, i + 1);
    assert Front(calls)[..i + 1] == calls[..i + 1];
    assert Front(calls[..i + 1]) == calls[..i] && Last(calls[..i + 1]) == calls[i];
    StartsEarlier(max, calls[..i], k);
    HintSound(max, Lookup(After(max, calls[..i]), k).value, calls[i].at);
  }
}
