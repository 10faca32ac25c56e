/** Conditions on times alone under which the hypotheses about runs hold. */
module Timing {
  import opened Domain
  import opened Subsequences
  import opened HotKeys
  import opened Protocol
  import opened Runs
  import opened Settlement

  // ---------- expiry ----------

  /** Settlement within a day of the end, less one second. */
  ghost predicate SettledInTime(states: seq<System>, upTo: int, id: AuctionId) {
    forall k | 0 <= k <= upTo && Exists(states, k, id) && states[k].auctions[id].row.status == ACTIVE ::
      states[k].now <= states[k].auctions[id].row.end + DAY - SECOND
  }

  /**
   * However the TTL was truncated and however late the script ran, no accepted pair expires before a day after
   * the end, less one second: an auction settled by then never loses its hot keys to expiry.
   */
  lemma InTimeIsUnexpired(states: seq<System>, actions: seq<Action>, upTo: nat, id: AuctionId)
    requires Run(states, actions) && upTo < |states| && SettledInTime(states, upTo, id)
    ensures NoEarlyExpiry(states, upTo, id)
  {
    forall k | 0 <= k <= upTo && Exists(states, k, id)
      ensures Unexpired(states[k].now, states[k].auctions[id])
    {
      Reachable(states, actions, k, id);
    }
  }

  /** A snapshot taken within that time from an ACTIVE auction shows exactly the latest accepted bid. */
  lemma SnapshotSeesPair(states: seq<System>, actions: seq<Action>, i: nat, id: AuctionId, w: WorkerId)
    requires Run(states, actions) && i + 1 < |states| && Exists(states, i, id)
    requires SettledInTime(states, i, id) && states[i].auctions[id].row.status == ACTIVE
    requires actions[i] == On(id, Snap(w))
    ensures var bids := states[i].auctions[id].past.accepted;
            var snap := states[i + 1].auctions[id].settlers[w].snap;
            if bids == [] then snap.leader.None?
            else snap.leader == Some(Last(bids).user) && snap.price == Some(Last(bids).amount)
  {
    InTimeIsUnexpired(states, actions, i, id);
    Reachable(states, actions, i, id);
    RunFaithful(states, actions, i, id);
    ActiveIsIntact(states[i].now, states[i].auctions[id]);
  }

  // ---------- quiescence ----------

  /** From the first snapshot on, no step finds the status key ACTIVE. */
  ghost predicate StatusLapsed(states: seq<System>, upTo: int, id: AuctionId) {
    forall k | 0 <= k < upTo && Exists(states, k, id) && 0 < states[k].auctions[id].past.snapshots ::
      Get(states[k].auctions[id].hot.status, states[k].now) != Some(ACTIVE)
  }

  lemma LapsedIsQuiesced(states: seq<System>, actions: seq<Action>, upTo: nat, id: AuctionId)
    requires Run(states, actions) && upTo < |states| && StatusLapsed(states, upTo, id)
    ensures Quiesced(states, upTo, id)
  {
    forall k | 0 <= k < upTo && Exists(states, k, id) && Exists(states, k + 1, id)
      ensures Quiet(states[k].auctions[id], states[k + 1].auctions[id])
    {
      StepOf(states, actions, k, id);
      var now, a, after := states[k].now, states[k].auctions[id], states[k + 1].auctions[id];
      if after != a {
        var act :| Can(now, a, act) && after == Do(now, a, act);
        OnlyScriptAccepts(now, a, act);
      }
    }
  }

  /**
   * Handlers are prompt: each status SET computes a positive TTL (so before the end) and runs within `delay`
   * of computing it. The TTL being `end` minus the instant of computing, that instant is `end - ttl`.
   */
  ghost predicate PromptFlags(states: seq<System>, actions: seq<Action>, id: AuctionId, delay: Time) {
    forall k, h | 0 <= k < |actions| && k < |states| && id in states[k].auctions
                  && actions[k] == On(id, Flag(h))
                  && h in states[k].auctions[id].bidders && states[k].auctions[id].bidders[h].stage.Timed? ::
      var ttl := states[k].auctions[id].bidders[h].stage.ttl;
      0 < ttl && states[k].now - (states[k].auctions[id].row.end - ttl) <= delay
  }

  /** Workers leave a grace period: no snapshot before `delay` and one millisecond after the end. */
  ghost predicate Grace(states: seq<System>, actions: seq<Action>, id: AuctionId, delay: Time) {
    forall k, w | 0 <= k < |actions| && k < |states| && id in states[k].auctions
                  && actions[k] == On(id, Snap(w)) ::
      states[k].auctions[id].row.end + delay + MILLISECOND < states[k].now
  }

  /** An ACTIVE word, if there is one, has an expiry, and an early one. */
  predicate ShortWord(a: Auction, delay: Time) {
    a.hot.status.Held? && a.hot.status.value == ACTIVE ==>
      a.hot.status.expires.Some? && a.hot.status.expires.value <= a.row.end + delay + MILLISECOND
  }

  lemma OwnStepStaysShort(now: Time, a: Auction, act: Act, delay: Time)
    requires Can(now, a, act) && ShortWord(a, delay)
    requires act.Flag? ==>
               0 < a.bidders[act.h].stage.ttl && now - (a.row.end - a.bidders[act.h].stage.ttl) <= delay
    ensures Do(now, a, act).row.end == a.row.end ==> ShortWord(Do(now, a, act), delay)
  {
  }

  lemma {:induction false} WordsStayShort(
      states: seq<System>, actions: seq<Action>, i: nat, id: AuctionId, delay: Time)
    requires Run(states, actions) && Exists(states, i, id) && PromptFlags(states, actions, id, delay)
    ensures ShortWord(states[i].auctions[id], delay)
  {
    if 0 < i {
      StepOf(states, actions, i - 1, id);
      if Exists(states, i - 1, id) {
        WordsStayShort(states, actions, i - 1, id, delay);
        Growth(states, actions, i - 1, i, id);
        if actions[i - 1].On? && actions[i - 1].id == id {
          OwnStepStaysShort(states[i - 1].now, states[i - 1].auctions[id], actions[i - 1].act, delay);
        }
      }
    }
  }

  lemma SnapshotsAreCounted(now: Time, a: Auction, act: Act)
    requires Can(now, a, act) && !act.Snap?
    ensures Do(now, a, act).past.snapshots == a.past.snapshots
  {
  }

  lemma {:induction false} SnapshotsAreLate(
      states: seq<System>, actions: seq<Action>, i: nat, id: AuctionId, delay: Time)
    requires Run(states, actions) && Exists(states, i, id) && Grace(states, actions, id, delay)
    requires 0 < states[i].auctions[id].past.snapshots
    ensures states[i].auctions[id].row.end + delay + MILLISECOND < states[i].now
  {
    StepOf(states, actions, i - 1, id);
    assert Exists(states, i - 1, id);
    Persists(states, actions, i - 1, i, id);
    Growth(states, actions, i - 1, i, id);
    var action := actions[i - 1];
    if action.On? && action.id == id && !action.act.Snap? {
      SnapshotsAreCounted(states[i - 1].now, states[i - 1].auctions[id], action.act);
    }
    if !(action.On? && action.id == id && action.act.Snap?) {
      SnapshotsAreLate(states, actions, i - 1, id, delay);
    }
  }

  /**
   * A sufficient condition that the code does not enforce: with prompt handlers and a grace period, every
   * ACTIVE status key has expired before the first snapshot, and the run is quiesced.
   */
  lemma PromptAndGraceQuiesce(states: seq<System>, actions: seq<Action>, upTo: nat, id: AuctionId, delay: Time)
    requires Run(states, actions) && upTo < |states|
    requires PromptFlags(states, actions, id, delay) && Grace(states, actions, id, delay)
    ensures StatusLapsed(states, upTo, id) && Quiesced(states, upTo, id)
  {
    forall k | 0 <= k < upTo && Exists(states, k, id) && 0 < states[k].auctions[id].past.snapshots
      ensures Get(states[k].auctions[id].hot.status, states[k].now) != Some(ACTIVE)
    {
      WordsStayShort(states, actions, k, id, delay);
      SnapshotsAreLate(states, actions, k, id, delay);
    }
    LapsedIsQuiesced(states, actions, upTo, id);
  }
}
