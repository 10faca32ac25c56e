/** A scan can always be brought to its end, by its own worker's steps. */
module Schedule {
  import opened Domain
  import opened Subsequences
  import opened Protocol
  import opened Invariants
  import opened Runs

  // ---------- one auction ----------

  /** The next step of a worker that is at work on an auction. */
  function NextOf(p: Settler, w: WorkerId): Act
    requires !Idle(p)
  {
    match p
    case Selected => Snap(w)
    case Snapped(_) => Lock(w)
    case Holding(_) => Commit(w)
    case Committed(_) => Cache(w)
    case Cached(_) => Announce(w)
    case Announced => Erase(w)
  }

  /** How many steps it needs at most. */
  function StepsLeft(p: Settler): nat {
    match p
    case Selected => 6
    case Snapped(_) => 5
    case Holding(_) => 4
    case Committed(_) => 3
    case Cached(_) => 2
    case Announced => 1
    case _ => 0
  }

  predicate Busy(a: Auction, w: WorkerId) {
    w in a.settlers && !Idle(a.settlers[w])
  }

  /** Nobody else is in the way: the row is free, or locked by this worker. */
  predicate Free(a: Auction, w: WorkerId) {
    a.lock in {None, Some(w)}
  }

  lemma StepProgresses(now: Time, a: Auction, w: WorkerId)
    requires Inv(now, a) && Free(a, w) && Busy(a, w)
    ensures Can(now, a, NextOf(a.settlers[w], w))
    ensures var b := Do(now, a, NextOf(a.settlers[w], w));
            && Free(b, w) && w in b.settlers && !b.settlers[w].Selected?
            && StepsLeft(b.settlers[w]) < StepsLeft(a.settlers[w])
  {
  }

  // ---------- all auctions ----------

  /** What the schedule relies on, and keeps. */
  ghost predicate Ready(s: System, w: WorkerId) {
    forall id | id in s.auctions :: Inv(s.now, s.auctions[id]) && Free(s.auctions[id], w)
  }

  ghost function Unfinished(s: System, w: WorkerId): set<AuctionId> {
    set id | id in s.auctions && Busy(s.auctions[id], w)
  }

  /** Steps of this worker in settling auctions, none of them a failure. */
  predicate Own(actions: seq<Action>, w: WorkerId) {
    forall i | 0 <= i < |actions| ::
      actions[i].On? && actions[i].act in {Snap(w), Lock(w), Commit(w), Cache(w), Announce(w), Erase(w)}
  }

  /** Taking these actions, one after the other, leads from `s` to `t`. */
  ghost predicate Takes(s: System, actions: seq<Action>, t: System)
    decreases |actions|
  {
    if actions == [] then t == s
    else Enabled(s, actions[0]) && Takes(Apply(s, actions[0]), actions[1..], t)
  }

  lemma TakesFirst(s: System, action: Action, rest: seq<Action>, t: System)
    requires Enabled(s, action) && Takes(Apply(s, action), rest, t)
    ensures Takes(s, [action] + rest, t)
  {
    assert ([action] + rest)[1..] == rest;
  }

  lemma OwnBoth(first: seq<Action>, rest: seq<Action>, w: WorkerId)
    requires Own(first, w) && Own(rest, w)
    ensures Own(first + rest, w)
  {
  }

  /** Only this auction has changed. */
  predicate OnlyIn(id: AuctionId, s: System, t: System) {
    && t.now == s.now && t.auctions.Keys == s.auctions.Keys
    && forall x | x in s.auctions && x != id :: t.auctions[x] == s.auctions[x]
  }

  lemma OnlyInBoth(id: AuctionId, s: System, t: System, u: System)
    requires OnlyIn(id, s, t) && OnlyIn(id, t, u)
    ensures OnlyIn(id, s, u)
  {
  }

  lemma OneStep(s: System, w: WorkerId, id: AuctionId) returns (action: Action, t: System)
    requires Ready(s, w) && id in s.auctions && Busy(s.auctions[id], w)
    requires s.auctions[id].settlers[w].Selected? ==> NextUp(s, w, id)
    ensures Enabled(s, action) && t == Apply(s, action) && Own([action], w)
    ensures OnlyIn(id, s, t) && Ready(t, w) && w in t.auctions[id].settlers
    ensures !t.auctions[id].settlers[w].Selected?
    ensures StepsLeft(t.auctions[id].settlers[w]) < StepsLeft(s.auctions[id].settlers[w])
  {
    action := On(id, NextOf(s.auctions[id].settlers[w], w));
    StepProgresses(s.now, s.auctions[id], w);
    DoInv(s.now, s.auctions[id], action.act);
    t := Apply(s, action);
  }

  /** One settle, to its end. */
  lemma {:induction false} Finish(s: System, w: WorkerId, id: AuctionId) returns (actions: seq<Action>, t: System)
    requires Ready(s, w) && id in s.auctions && w in s.auctions[id].settlers
    requires s.auctions[id].settlers[w].Selected? ==> NextUp(s, w, id)
    ensures Takes(s, actions, t) && Own(actions, w) && |actions| <= StepsLeft(s.auctions[id].settlers[w])
    ensures OnlyIn(id, s, t) && Ready(t, w) && !Busy(t.auctions[id], w)
    decreases StepsLeft(s.auctions[id].settlers[w])
  {
    if Busy(s.auctions[id], w) {
      var action, u := OneStep(s, w, id);
      var rest;
      rest, t := Finish(u, w, id);
      actions := [action] + rest;
      TakesFirst(s, action, rest, t);
      OwnBoth([action], rest, w);
      OnlyInBoth(id, s, u, t);
    } else {
      actions, t := [], s;
    }
  }

  /** The auction that ends first, of these. */
  lemma {:induction false} EarliestOf(s: System, ids: set<AuctionId>) returns (id: AuctionId)
    requires ids != {} && forall x | x in ids :: x in s.auctions
    ensures id in ids && forall x | x in ids :: s.auctions[id].row.end <= s.auctions[x].row.end
    decreases |ids|
  {
    id :| id in ids;
    var rest := ids - {id};
    if rest != {} {
      var other := EarliestOf(s, rest);
      if s.auctions[other].row.end < s.auctions[id].row.end {
        id := other;
      }
    } else {
      assert ids == {id};
    }
  }

  /** The auction to go on with: one that has been begun, or else the one that ends first. */
  lemma NextAuction(s: System, w: WorkerId) returns (id: AuctionId)
    requires Unfinished(s, w) != {}
    ensures id in Unfinished(s, w)
    ensures s.auctions[id].settlers[w].Selected? ==> NextUp(s, w, id)
  {
    if x :| x in Unfinished(s, w) && !s.auctions[x].settlers[w].Selected? {
      id := x;
    } else {
      id := EarliestOf(s, Unfinished(s, w));
      forall x | x in s.auctions && x != id && w in s.auctions[x].settlers
        ensures Idle(s.auctions[x].settlers[w])
                || (s.auctions[x].settlers[w].Selected? && s.auctions[id].row.end <= s.auctions[x].row.end)
      {
        assert Busy(s.auctions[x], w) ==> x in Unfinished(s, w);
      }
    }
  }

  lemma {:induction false} TakesBoth(s: System, first: seq<Action>, t: System, then': seq<Action>, u: System)
    requires Takes(s, first, t) && Takes(t, then', u)
    ensures Takes(s, first + then', u)
    decreases |first|
  {
    if first == [] {
      assert first + then' == then';
    } else {
      TakesBoth(Apply(s, first[0]), first[1..], t, then', u);
      assert (first + then')[1..] == first[1..] + then';
    }
  }

  lemma OneLess(s: System, w: WorkerId, id: AuctionId, t: System)
    requires id in Unfinished(s, w) && OnlyIn(id, s, t) && id in t.auctions && !Busy(t.auctions[id], w)
    ensures Unfinished(t, w) == Unfinished(s, w) - {id} && |Unfinished(t, w)| == |Unfinished(s, w)| - 1
  {
    assert Unfinished(t, w) == Unfinished(s, w) - {id};
  }

  lemma NoneUnfinished(s: System, w: WorkerId)
    requires Unfinished(s, w) == {}
    ensures IdleEverywhere(s, w)
  {
    assert forall id | id in s.auctions :: id !in Unfinished(s, w);
  }

  lemma {:induction false} FinishAll(s: System, w: WorkerId) returns (actions: seq<Action>, t: System)
    requires Ready(s, w)
    ensures Takes(s, actions, t) && Own(actions, w) && |actions| <= 6 * |Unfinished(s, w)|
    ensures IdleEverywhere(t, w)
    decreases |Unfinished(s, w)|
  {
    if Unfinished(s, w) == {} {
      actions, t := [], s;
      NoneUnfinished(s, w);
    } else {
      var id := NextAuction(s, w);
      var first, u := Finish(s, w, id);
      OneLess(s, w, id, u);
      var rest;
      rest, t := FinishAll(u, w);
      TakesBoth(s, first, u, rest, t);
      OwnBoth(first, rest, w);
      actions := first + rest;
    }
  }

  // ---------- as part of a run ----------

  lemma ExtendRun(states: seq<System>, actions: seq<Action>, action: Action)
    requires Run(states, actions) && Enabled(Last(states), action)
    ensures Run(states + [Apply(Last(states), action)], actions + [action])
  {
    var longer, more := states + [Apply(Last(states), action)], actions + [action];
    forall i | 0 <= i < |more| ensures Enabled(longer[i], more[i]) && longer[i + 1] == Apply(longer[i], more[i]) {
      if i < |actions| {
        assert longer[i] == states[i] && longer[i + 1] == states[i + 1] && more[i] == actions[i];
      }
    }
  }

  lemma {:induction false} RunOn(states: seq<System>, actions: seq<Action>, more: seq<Action>, t: System)
      returns (longer: seq<System>)
    requires Run(states, actions) && Takes(Last(states), more, t)
    ensures Run(longer, actions + more) && states <= longer && Last(longer) == t
    decreases |more|
  {
    if more == [] {
      longer := states;
      assert actions + more == actions;
    } else {
      ExtendRun(states, actions, more[0]);
      longer := RunOn(states + [Apply(Last(states), more[0])], actions + [more[0]], more[1..], t);
      assert actions + more == actions + [more[0]] + more[1..];
    }
  }

  /**
   * Any run in whose last state no other worker holds a row lock can be continued, by at most six steps of the
   * worker for each auction that it is at work on, none of them a failure, until its scan is through.
   */
  lemma ScanCanEnd(states: seq<System>, actions: seq<Action>, w: WorkerId)
      returns (longer: seq<System>, more: seq<Action>)
    requires Run(states, actions)
    requires forall id | id in Last(states).auctions :: Free(Last(states).auctions[id], w)
    ensures Run(longer, actions + more) && states <= longer && Own(more, w)
    ensures |more| <= 6 * |Unfinished(Last(states), w)| && IdleEverywhere(Last(longer), w)
  {
    forall id | id in Last(states).auctions ensures Inv(Last(states).now, Last(states).auctions[id]) {
      Reachable(states, actions, |states| - 1, id);
    }
    var t;
    more, t := FinishAll(Last(states), w);
    longer := RunOn(states, actions, more, t);
  }
}
