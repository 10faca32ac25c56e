/** The middleware's choice between the two limiters. */
module Middleware {
  import opened Domain
  import opened Subsequences
  import opened RateLimiter

  datatype Request = Request(verb: string, path: string, host: string)

  datatype Arrival = Arrival(request: Request, at: Time)

  /** `Preflight` is the 204 of an OPTIONS request, `TooMany` the 429 with its Retry-After. */
  datatype Passage = Preflight | Passed | TooMany(retry: int)

  predicate HasPrefix(s: string, prefix: string) {
    prefix <= s
  }

  /** Requests that are charged to the authentication limiter, when there is one. */
  predicate IsAuth(r: Request) {
    r.verb == "POST" && HasPrefix(r.path, "/api/v1/auth")
  }

  function Passing(d: Decision): Passage {
    if d.allowed then Passed else TooMany(if d.hint < 1 then 1 else d.hint)
  }

  class Guard {
    const general: Limiter?
    const auth: Limiter?

    constructor (general: Limiter?, auth: Limiter?)
      ensures this.general == general && this.auth == auth
    {
      this.general, this.auth := general, auth;
    }

    /** The limiter a request is charged to. */
    function Charged(r: Request): Limiter? {
      if r.verb == "OPTIONS" then null
      else if IsAuth(r) && auth != null then auth
      else general
    }

    /** A POST below the path of the authentication goes to its limiter, if there is one; everything else does not. */
    lemma ChargedExactly(r: Request)
      ensures r.verb == "OPTIONS" ==> Charged(r) == null
      ensures r.verb != "OPTIONS" ==>
                Charged(r) == if r.verb == "POST" && 12 <= |r.path| && r.path[..12] == "/api/v1/auth" && auth != null
                              then auth else general
    {
      assert HasPrefix(r.path, "/api/v1/auth") <==> 12 <= |r.path| && r.path[..12] == "/api/v1/auth";
    }

    /** Two limiters that share nothing. */
    ghost predicate Valid()
      reads general, auth
    {
      && (general != null ==> general.Valid())
      && (auth != null ==> auth.Valid())
      && (general != null && auth != null ==> general != auth && general.Entries() !! auth.Entries())
    }

    ghost function Footprint(): set<object>
      reads general, auth
    {
      (if general == null then {} else {general} + general.Entries()) +
      (if auth == null then {} else {auth} + auth.Entries())
    }

    /**
     * An OPTIONS request is charged to neither limiter; every other one is charged once, under its host, to
     * exactly the limiter chosen for it, and leaves the other limiter as it was.
     */
    method Admit(r: Request, now: Time) returns (p: Passage)
      requires Valid()
      modifies Footprint()
      ensures Valid() && fresh(Footprint() - old(Footprint()))
      ensures r.verb == "OPTIONS" <==> p.Preflight?
      ensures var l := Charged(r);
              l != null ==>
                var d := Decide(Lookup(old(l.View()), r.host), l.max, now);
                p == Passing(d) && l.View() == old(l.View())[r.host := d.entry]
      ensures Charged(r) == null ==> p in {Preflight, Passed}
      ensures var l := Charged(r);
              l != null ==>
                var e := Lookup(old(l.View()), r.host);
                && (p.Passed? <==> HasRoom(e, l.max, now))
                && (!p.Passed? ==> p.TooMany? && e.Some? && SecondsUntil(p.retry, 60_000_000_000 - (now - e.value.at)))
      ensures general != null && general != Charged(r) ==> general.View() == old(general.View())
      ensures auth != null && auth != Charged(r) ==> auth.View() == old(auth.View())
    {
      if Charged(r) != null {
        DecideExactly(Lookup(Charged(r).View(), r.host), Charged(r).max, now);
      }
      if r.verb == "OPTIONS" {
        return Preflight;
      }
      var limiter := general;
      if r.verb == "POST" && HasPrefix(r.path, "/api/v1/auth") && auth != null {
        limiter := auth;
      }
      if limiter != null {
        var ok, retry := limiter.Allow(r.host, now);
        if !ok {
          if retry < 1 {
            retry := 1;
          }
          return TooMany(retry);
        }
      }
      return Passed;
    }

    /** The calls that these requests make on a limiter. */
    function CallsOn(l: Limiter, arrivals: seq<Arrival>): seq<Call> {
      if arrivals == [] then []
      else
        var a := Last(arrivals);
        CallsOn(l, Front(arrivals)) + if Charged(a.request) == l then [Call(a.request.host, a.at)] else []
    }

    /** The answer to the latest of these requests. */
    function Answer(arrivals: seq<Arrival>): Passage
      requires arrivals != []
    {
      var l := Charged(Last(arrivals).request);
      if Last(arrivals).request.verb == "OPTIONS" then Preflight
      else if l == null then Passed
      else Passing(Verdict(l.max, CallsOn(l, arrivals)))
    }

    /** The limiter has seen the calls of these requests and no others. */
    ghost predicate Served(arrivals: seq<Arrival>)
      reads general, auth
      reads if general == null then {} else general.Entries()
      reads if auth == null then {} else auth.Entries()
    {
      && (general != null ==> general.View() == After(general.max, CallsOn(general, arrivals)))
      && (auth != null ==> auth.View() == After(auth.max, CallsOn(auth, arrivals)))
    }

    lemma CallsOnNext(l: Limiter, arrivals: seq<Arrival>, a: Arrival)
      ensures CallsOn(l, arrivals + [a])
              == CallsOn(l, arrivals) + if Charged(a.request) == l then [Call(a.request.host, a.at)] else []
    {
      assert Front(arrivals + [a]) == arrivals;
    }

    /** One request more. */
    method AdmitNext(ghost before: seq<Arrival>, a: Arrival) returns (p: Passage)
      requires Valid() && Served(before)
      modifies Footprint()
      ensures Valid() && fresh(Footprint() - old(Footprint()))
      ensures Served(before + [a]) && p == Answer(before + [a])
    {
      p := Admit(a.request, a.at);
      ghost var l, c := Charged(a.request), Call(a.request.host, a.at);
      if general != null {
        CallsOnNext(general, before, a);
        AfterNext(general.max, CallsOn(general, before), c);
        assert CallsOn(general, before) + [] == CallsOn(general, before);
      }
      if auth != null {
        CallsOnNext(auth, before, a);
        AfterNext(auth.max, CallsOn(auth, before), c);
        assert CallsOn(auth, before) + [] == CallsOn(auth, before);
      }
    }

    /** These are the answers to the first requests of the trace. */
    predicate Answers(arrivals: seq<Arrival>, answers: seq<Passage>) {
      |answers| <= |arrivals| && forall i | 0 <= i < |answers| :: answers[i] == Answer(arrivals[..i + 1])
    }

    lemma AnswersNext(arrivals: seq<Arrival>, answers: seq<Passage>, p: Passage)
      requires Answers(arrivals, answers) && |answers| < |arrivals| && p == Answer(arrivals[..|answers| + 1])
      ensures Answers(arrivals, answers + [p])
    {
    }

    /** How many requests of the host, charged to this limiter, have passed in the half-open interval. */
    function CountPassed(l: Limiter, arrivals: seq<Arrival>, answers: seq<Passage>, host: Key, from: Time, to: Time)
      : nat
      requires |answers| == |arrivals|
    {
      if arrivals == [] then 0
      else
        var a := Last(arrivals);
        CountPassed(l, Front(arrivals), Front(answers), host, from, to) +
        if Charged(a.request) == l && a.request.host == host && from <= a.at < to && Last(answers).Passed? then 1 else 0
    }

    lemma {:induction false} PassedAreGranted(l: Limiter, arrivals: seq<Arrival>, answers: seq<Passage>, host: Key,
                                              from: Time, to: Time)
      requires |answers| == |arrivals| && Answers(arrivals, answers)
      ensures CountPassed(l, arrivals, answers, host, from, to)
              == Granted(l.max, CallsOn(l, arrivals), host, from, to)
      decreases |arrivals|
    {
      if arrivals != [] {
        var before, a := Front(arrivals), Last(arrivals);
        forall i | 0 <= i < |Front(answers)| ensures Front(answers)[i] == Answer(before[..i + 1]) {
          assert before[..i + 1] == arrivals[..i + 1];
        }
        PassedAreGranted(l, before, Front(answers), host, from, to);
        assert arrivals[..|arrivals|] == arrivals && Last(answers) == Answer(arrivals);
        assert arrivals == before + [a];
        CallsOnNext(l, before, a);
        if Charged(a.request) == l {
          var call := Call(a.request.host, a.at);
          assert Front(CallsOn(l, before) + [call]) == CallsOn(l, before);
        } else {
          assert CallsOn(l, arrivals) == CallsOn(l, before);
        }
      }
    }

    /** The clock is read under the lock of each limiter: times do not decrease. */
    predicate InTime(arrivals: seq<Arrival>) {
      forall i, j | 0 <= i < j < |arrivals| :: arrivals[i].at <= arrivals[j].at
    }

    lemma {:induction false} CallsInTime(l: Limiter, arrivals: seq<Arrival>)
      requires InTime(arrivals)
      ensures Ordered(CallsOn(l, arrivals))
      ensures forall k | 0 <= k < |CallsOn(l, arrivals)| :: CallsOn(l, arrivals)[k].at <= Last(arrivals).at
      decreases |arrivals|
    {
      if arrivals != [] {
        CallsInTime(l, Front(arrivals));
      }
    }

    /**
     * The sliding window of the middleware: of the requests of one host that are charged to one limiter, at most
     * `Most` pass in any interval of any length.
     */
    lemma PassedAtMost(l: Limiter, arrivals: seq<Arrival>, answers: seq<Passage>, host: Key, from: Time, length: Time)
      requires 1 <= l.max && 0 < length && InTime(arrivals)
      requires |answers| == |arrivals| && Answers(arrivals, answers)
      ensures CountPassed(l, arrivals, answers, host, from, from + length) <= Most(length, l.max)
    {
      PassedAreGranted(l, arrivals, answers, host, from, from + length);
      CallsInTime(l, arrivals);
      SlidingWindow(l.max, CallsOn(l, arrivals), host, from, length);
    }

    /**
     * A whole trace of requests through the middleware: each limiter ends up as it does on the calls charged to
     * it alone, and each request is answered by the decision of its limiter on those calls.
     */
    method Serve(arrivals: seq<Arrival>) returns (answers: seq<Passage>)
      requires Valid() && Served([])
      modifies Footprint()
      ensures Valid() && Served(arrivals)
      ensures |answers| == |arrivals| && Answers(arrivals, answers)
    {
      answers := [];
      var i := 0;
      assert arrivals[..0] == [];
      while i < |arrivals|
        invariant 0 <= i <= |arrivals| && |answers| == i
        invariant Valid() && fresh(Footprint() - old(Footprint())) && Served(arrivals[..i])
        invariant Answers(arrivals, answers)
      {
        assert arrivals[..i + 1] == arrivals[..i] + [arrivals[i]];
        var p := AdmitNext(arrivals[..i], arrivals[i]);
        AnswersNext(arrivals, answers, p);
        answers := answers + [p];
        i := i + 1;
      }
      assert arrivals[..i] == arrivals;
    }
  }
}
