/** When a bid can be accepted. */
module Window {
  import opened Domain
  import opened HotKeys
  import opened Protocol
  import opened Invariants
  import opened Runs
  import opened Timing

  /** Step `i` accepts a bid on the auction. */
  ghost predicate AcceptsAt(states: seq<System>, i: nat, id: AuctionId) {
    && Exists(states, i, id) && Exists(states, i + 1, id)
    && states[i + 1].auctions[id].past.accepted != states[i].auctions[id].past.accepted
  }

  // ---------- not before the start ----------

  /** No handler is past its first check before the start. */
  predicate Opened(now: Time, a: Auction) {
    forall h | h in a.bidders && PastGate(a.bidders[h].stage) :: a.row.start <= now
  }

  lemma StepKeepsOpened(now: Time, a: Auction, act: Act)
    requires Inv(now, a) && Can(now, a, act) && Opened(now, a)
    ensures Opened(now, Do(now, a, act))
  {
    DoGrows(now, a, act);
    if act.Gate? || act.Regate? {
      assert BidderOk(now, a, act.h, a.bidders[act.h]);
    }
  }

  lemma {:induction false} RunOpened(states: seq<System>, actions: seq<Action>, i: nat, id: AuctionId)
    requires Run(states, actions) && Exists(states, i, id)
    ensures Opened(states[i].now, states[i].auctions[id])
  {
    if 0 < i {
      StepOf(states, actions, i - 1, id);
      if Exists(states, i - 1, id) {
        RunOpened(states, actions, i - 1, id);
        Reachable(states, actions, i - 1, id);
        var now, a, after := states[i - 1].now, states[i - 1].auctions[id], states[i].auctions[id];
        if after != a {
          var act :| Can(now, a, act) && after == Do(now, a, act);
          StepKeepsOpened(now, a, act);
        }
      }
    }
  }

  // ---------- as long as the word ACTIVE lives ----------

  /** The step writes the status key. */
  predicate Writes(action: Action, id: AuctionId) {
    action.On? && action.id == id && (action.act.Flag? || action.act.Cache?)
  }

  /** The latest write of the status key before step `i` is the SET of request `g`, in step `k`. */
  ghost predicate WordFrom(
      states: seq<System>, actions: seq<Action>, k: nat, i: nat, id: AuctionId, g: RequestId)
  {
    && k < i <= |actions| && k < |states| && Exists(states, k, id) && actions[k] == On(id, Flag(g))
    && Can(states[k].now, states[k].auctions[id], Flag(g))
    && forall m | k < m < i :: !Writes(actions[m], id)
  }

  function TtlOf(a: Auction, g: RequestId): Time
    requires g in a.bidders && a.bidders[g].stage.Timed?
  {
    a.bidders[g].stage.ttl
  }

  /** The word that the SET stores is still there: it has no expiry, or has not reached it. */
  predicate Outlives(written: Time, a: Auction, g: RequestId, now: Time)
    requires g in a.bidders && a.bidders[g].stage.Timed?
  {
    var expires := Expiry(a.hot.status, TtlOf(a, g), written);
    expires.Some? ==> now <= expires.value
  }

  ghost predicate LiveWord(
      states: seq<System>, actions: seq<Action>, k: nat, i: nat, id: AuctionId, g: RequestId)
    requires i < |states|
  {
    && WordFrom(states, actions, k, i, id, g)
    && Outlives(states[k].now, states[k].auctions[id], g, states[i].now)
  }

  /** What a step makes of the status key. */
  lemma WordStep(now: Time, a: Auction, act: Act)
    requires Can(now, a, act)
    ensures act.Flag? ==>
              Do(now, a, act).hot.status == Held(ACTIVE, Expiry(a.hot.status, TtlOf(a, act.h), now))
    ensures act.Cache? ==> Do(now, a, act).hot.status.Held? && Do(now, a, act).hot.status.value != ACTIVE
    ensures !act.Flag? && !act.Cache? ==> Do(now, a, act).hot.status == a.hot.status
  {
  }

  /** A step of the system that is none of the auction's own leaves its keys alone. */
  lemma ForeignStep(s: System, action: Action, id: AuctionId)
    requires Enabled(s, action) && id in s.auctions && !(action.On? && action.id == id)
    ensures id in Apply(s, action).auctions && Apply(s, action).auctions[id].hot == s.auctions[id].hot
    ensures Apply(s, action).auctions[id].past == s.auctions[id].past
  {
  }

  /** The same for a step of the system. */
  lemma WordInStep(s: System, action: Action, id: AuctionId)
    requires Enabled(s, action) && id in s.auctions
    ensures id in Apply(s, action).auctions
    ensures var a, word := s.auctions[id], Apply(s, action).auctions[id].hot.status;
            if !Writes(action, id) then word == a.hot.status
            else if action.act.Flag? then
              Can(s.now, a, action.act) && word == Held(ACTIVE, Expiry(a.hot.status, TtlOf(a, action.act.h), s.now))
            else word.Held? && word.value != ACTIVE
  {
    if action.On? && action.id == id {
      WordStep(s.now, s.auctions[id], action.act);
    } else {
      ForeignStep(s, action, id);
    }
  }

  /** A new auction has no word. */
  lemma WordIsOlder(states: seq<System>, actions: seq<Action>, i: nat, id: AuctionId)
    requires Run(states, actions) && Exists(states, i, id) && states[i].auctions[id].hot.status.Held?
    ensures 0 < i && Exists(states, i - 1, id)
  {
    if id !in states[i - 1].auctions {
      Appears(states[i - 1], actions[i - 1], id);
    }
  }

  /** Every ACTIVE word was set by some request. */
  lemma {:induction false} WordOrigin(states: seq<System>, actions: seq<Action>, i: nat, id: AuctionId)
      returns (k: nat, g: RequestId)
    requires Run(states, actions) && Exists(states, i, id)
    requires states[i].auctions[id].hot.status.Held? && states[i].auctions[id].hot.status.value == ACTIVE
    ensures WordFrom(states, actions, k, i, id, g)
    decreases i
  {
    WordIsOlder(states, actions, i, id);
    WordInStep(states[i - 1], actions[i - 1], id);
    if Writes(actions[i - 1], id) {
      k, g := i - 1, actions[i - 1].act.h;
    } else {
      k, g := WordOrigin(states, actions, i - 1, id);
    }
  }

  /** And stays as it was set until the next write. */
  lemma {:induction false} WordStays(
      states: seq<System>, actions: seq<Action>, k: nat, i: nat, id: AuctionId, g: RequestId)
    requires Run(states, actions) && Exists(states, i, id) && WordFrom(states, actions, k, i, id, g)
    ensures states[i].auctions[id].hot.status ==
            Held(ACTIVE, Expiry(states[k].auctions[id].hot.status, TtlOf(states[k].auctions[id], g), states[k].now))
    decreases i
  {
    Persists(states, actions, k, i - 1, id);
    WordInStep(states[i - 1], actions[i - 1], id);
    if k < i - 1 {
      WordStays(states, actions, k, i - 1, id, g);
    }
  }

  /** The bid exceeds the price, if there is one. */
  predicate Outbids(now: Time, a: Auction, h: RequestId)
    requires h in a.bidders
  {
    Visible(a.hot.price, now) ==> a.hot.price.value < a.bidders[h].bid.amount
  }

  lemma ScriptAccepts(now: Time, a: Auction, h: RequestId)
    requires Can(now, a, Script(h))
    ensures Do(now, a, Script(h)).past.accepted != a.past.accepted
            <==> Get(a.hot.status, now) == Some(ACTIVE) && Outbids(now, a, h)
  {
  }

  /** The script finds the word ACTIVE exactly when some request's SET wrote it last and it is still alive. */
  lemma WordIsLive(states: seq<System>, actions: seq<Action>, i: nat, id: AuctionId)
    requires Run(states, actions) && Exists(states, i, id)
    ensures Get(states[i].auctions[id].hot.status, states[i].now) == Some(ACTIVE) <==>
            exists k: nat, g: RequestId :: LiveWord(states, actions, k, i, id, g)
  {
    var now, a := states[i].now, states[i].auctions[id];
    if a.hot.status.Held? && a.hot.status.value == ACTIVE {
      var k, g := WordOrigin(states, actions, i, id);
      WordStays(states, actions, k, i, id, g);
      assert LiveWord(states, actions, k, i, id, g) <==> Visible(a.hot.status, now);
    }
    if k: nat, g: RequestId :| LiveWord(states, actions, k, i, id, g) {
      WordStays(states, actions, k, i, id, g);
    }
  }

  /**
   * Exactly when a script accepts, at whatever time: the bid exceeds the price, and the latest write of the
   * status key is some request's SET of ACTIVE, whose word has no expiry or has not reached it. The row and the
   * time play no part.
   */
  lemma AcceptedExactly(states: seq<System>, actions: seq<Action>, i: nat, id: AuctionId, h: RequestId)
    requires Run(states, actions) && i < |actions| && Exists(states, i, id) && actions[i] == On(id, Script(h))
    ensures h in states[i].auctions[id].bidders
    ensures AcceptsAt(states, i, id) <==>
            && Outbids(states[i].now, states[i].auctions[id], h)
            && exists k: nat, g: RequestId :: LiveWord(states, actions, k, i, id, g)
  {
    ScriptAccepts(states[i].now, states[i].auctions[id], h);
    assert states[i + 1].auctions[id] == Do(states[i].now, states[i].auctions[id], Script(h));
    WordIsLive(states, actions, i, id);
  }

  /**
   * Exactly when a bid is refused, to be answered 409 with the word CLOSED for a price: when no such word is
   * alive. The row plays no part.
   */
  lemma RefusedExactly(states: seq<System>, actions: seq<Action>, i: nat, id: AuctionId, h: RequestId)
    requires Run(states, actions) && i < |actions| && Exists(states, i, id) && actions[i] == On(id, Script(h))
    ensures Exists(states, i + 1, id) && h in states[i + 1].auctions[id].bidders
    ensures Reached(states[i + 1].auctions[id], h, Judged(Refused)) <==>
            !exists k: nat, g: RequestId :: LiveWord(states, actions, k, i, id, g)
  {
    assert states[i + 1].auctions[id] == Do(states[i].now, states[i].auctions[id], Script(h));
    WordIsLive(states, actions, i, id);
  }

  /** Only a script accepts. */
  lemma AcceptingStep(states: seq<System>, actions: seq<Action>, i: nat, id: AuctionId) returns (h: RequestId)
    requires Run(states, actions) && AcceptsAt(states, i, id)
    ensures i < |actions| && actions[i] == On(id, Script(h))
  {
    var s, action := states[i], actions[i];
    if action.On? && action.id == id {
      OnlyScriptAccepts(s.now, s.auctions[id], action.act);
      h := action.act.h;
    } else {
      ForeignStep(s, action, id);
    }
  }

  /**
   * The SET was late for a word to be found at `now`: its TTL was computed at or after the end (a TTL is the end
   * minus the instant of computing it), or it ran about as long after computing it as `now` is after the end.
   */
  predicate LateSet(written: Time, a: Auction, g: RequestId, now: Time)
    requires g in a.bidders && a.bidders[g].stage.Timed?
  {
    var ttl := TtlOf(a, g);
    ttl <= 0 || now - a.row.end <= written - (a.row.end - ttl) + MILLISECOND
  }

  /**
   * The acceptance window, without any hypothesis: no bid is accepted before the start, and a bid accepted
   * after the end was let in by a late SET of the status key.
   */
  lemma AcceptedInWindow(states: seq<System>, actions: seq<Action>, i: nat, id: AuctionId)
    requires Run(states, actions) && AcceptsAt(states, i, id)
    ensures states[i].auctions[id].row.start <= states[i].now
    ensures states[i].auctions[id].row.end < states[i].now ==>
              exists k: nat, g: RequestId ::
                && WordFrom(states, actions, k, i, id, g)
                && LateSet(states[k].now, states[k].auctions[id], g, states[i].now)
  {
    var h := AcceptingStep(states, actions, i, id);
    RunOpened(states, actions, i, id);
    assert PastGate(states[i].auctions[id].bidders[h].stage);
    AcceptedExactly(states, actions, i, id, h);
    var k: nat, g: RequestId :| LiveWord(states, actions, k, i, id, g);
    Growth(states, actions, k, i, id);
  }

  /** With prompt handlers the window closes a delay and a millisecond after the end. */
  lemma PromptWindow(states: seq<System>, actions: seq<Action>, i: nat, id: AuctionId, delay: Time)
    requires Run(states, actions) && AcceptsAt(states, i, id) && PromptFlags(states, actions, id, delay)
    ensures var row := states[i].auctions[id].row;
            row.start <= states[i].now <= row.end + delay + MILLISECOND
  {
    var h := AcceptingStep(states, actions, i, id);
    AcceptedInWindow(states, actions, i, id);
    WordsStayShort(states, actions, i, id, delay);
    ScriptAccepts(states[i].now, states[i].auctions[id], h);
  }
}
