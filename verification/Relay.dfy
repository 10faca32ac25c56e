/** A connection that is open from the start, and loses nothing, is sent everything that is published. */
module Relay {
  import opened Protocol
  import opened Subsequences
  import opened Broadcast
  import opened Hub
  import opened Delivery
  import Witness

  /** Taking these steps, one after the other, leads from `b` to `t`. */
  ghost predicate Goes(b: Backend, steps: seq<Step>, t: Backend)
    decreases |steps|
  {
    if steps == [] then t == b
    else StepEnabled(b, steps[0]) && Goes(StepApply(b, steps[0]), steps[1..], t)
  }

  lemma GoesOne(b: Backend, step: Step)
    requires StepEnabled(b, step)
    ensures Goes(b, [step], StepApply(b, step))
  {
    assert [step][1..] == [];
  }

  lemma {:induction false} GoesBoth(b: Backend, first: seq<Step>, t: Backend, then': seq<Step>, u: Backend)
    requires Goes(b, first, t) && Goes(t, then', u)
    ensures Goes(b, first + then', u)
    decreases |first|
  {
    if first == [] {
      assert first + then' == then';
    } else {
      GoesBoth(StepApply(b, first[0]), first[1..], t, then', u);
      assert (first + then')[1..] == first[1..] + then';
    }
  }

  // ---------- the stages ----------

  /** The connection while it is served, and has been sent these messages. */
  function Served(sent: seq<Envelope>): Conn {
    FRESH.(server := Serving, writer := Ready, subscriber := Waiting, fed := sent, written := sent)
  }

  /** The backend with this one connection, whose subscription has come as far as `k`. */
  function With(s: System, c: Conn, k: nat): Backend {
    Backend(s, Hub({0}, map[0 := c]), map[0 := k])
  }

  lemma Open(s: System) returns (steps: seq<Step>)
    requires s.wire == []
    ensures Goes(Backend(s, EMPTY_HUB, map[]), steps, With(s, Served([]), 0))
  {
    var b0 := Backend(s, EMPTY_HUB, map[]);
    var s0, s1 := Connecting(Connect(0), 0), Connecting(Turns(0, Register), 0);
    var s2, s3 := Connecting(Turns(0, Greet), 0), Connecting(Turns(0, Spawn), 0);
    var b1 := StepApply(b0, s0);
    var b2 := StepApply(b1, s1);
    var b3 := StepApply(b2, s2);
    GoesOne(b0, s0);
    GoesOne(b1, s1);
    GoesBoth(b0, [s0], b1, [s1], b2);
    GoesOne(b2, s2);
    GoesBoth(b0, [s0] + [s1], b2, [s2], b3);
    GoesOne(b3, s3);
    GoesBoth(b0, [s0] + [s1] + [s2], b3, [s3], StepApply(b3, s3));
    steps := [s0] + [s1] + [s2] + [s3];
    assert StepApply(b3, s3).hub.live == map[0 := Served([])];
    assert StepApply(b3, s3) == With(s, Served([]), 0);
  }

  /** The auctions do what they do; the connection waits. */
  lemma {:induction false} Meanwhile(states: seq<System>, actions: seq<Action>, c: Conn, k: nat, i: nat)
      returns (steps: seq<Step>)
    requires Run(states, actions) && i < |states|
    ensures Goes(With(states[0], c, k), steps, With(states[i], c, k))
    decreases i
  {
    if i == 0 {
      steps := [];
    } else {
      var before := Meanwhile(states, actions, c, k, i - 1);
      var step := Auctioning(actions[i - 1]);
      GoesOne(With(states[i - 1], c, k), step);
      GoesBoth(With(states[0], c, k), before, With(states[i - 1], c, k), [step], With(states[i], c, k));
      steps := before + [step];
    }
  }

  /** A turn of the connection. */
  lemma TurnGoes(s: System, c: Conn, k: nat, t: Turn, at: nat, d: Conn, m: nat)
    requires CanTurn(c, t) && TakeTurn(c, t) == d && t != Register && t != Unregister && !t.Spawn?
    requires if t.Receive? then k <= at < |s.wire| && t.envelope == s.wire[at] && m == at + 1 else m == k
    ensures Goes(With(s, c, k), [Connecting(Turns(0, t), at)], With(s, d, m))
  {
    var b, step := With(s, c, k), Connecting(Turns(0, t), at);
    GoesOne(b, step);
    assert map[0 := c][0 := d] == map[0 := d] && map[0 := k][0 := m] == map[0 := m];
    assert StepApply(b, step) == With(s, d, m);
  }

  /** One message, from Redis to the socket. */
  lemma DeliverOne(s: System, k: nat) returns (steps: seq<Step>)
    requires k < |s.wire|
    ensures Goes(With(s, Served(s.wire[..k]), k), steps, With(s, Served(s.wire[..k + 1]), k + 1))
  {
    var m, c := s.wire[k], Served(s.wire[..k]);
    var c1 := c.(subscriber := Carrying(m), fed := c.fed + [m]);
    var c2 := c1.(subscriber := Waiting, send := [m]);
    var c3 := c2.(writer := Writing(m), send := []);
    var c4 := Served(s.wire[..k + 1]);
    assert s.wire[..k + 1] == s.wire[..k] + [m];
    TurnGoes(s, c, k, Receive(m), k, c1, k + 1);
    assert [] + [m] == [m];
    TurnGoes(s, c1, k + 1, Push, 0, c2, k + 1);
    assert [m][1..] == [];
    TurnGoes(s, c2, k + 1, Take, 0, c3, k + 1);
    TurnGoes(s, c3, k + 1, Write, 0, c4, k + 1);
    var r, p := [Connecting(Turns(0, Receive(m)), k)], [Connecting(Turns(0, Push), 0)];
    var t, w := [Connecting(Turns(0, Take), 0)], [Connecting(Turns(0, Write), 0)];
    GoesBoth(With(s, c, k), r, With(s, c1, k + 1), p, With(s, c2, k + 1));
    GoesBoth(With(s, c, k), r + p, With(s, c2, k + 1), t, With(s, c3, k + 1));
    GoesBoth(With(s, c, k), r + p + t, With(s, c3, k + 1), w, With(s, c4, k + 1));
    steps := r + p + t + w;
  }

  lemma {:induction false} DeliverAll(s: System, k: nat) returns (steps: seq<Step>)
    requires k <= |s.wire|
    ensures Goes(With(s, Served([]), 0), steps, With(s, Served(s.wire[..k]), k))
    decreases k
  {
    if k == 0 {
      steps := [];
      assert s.wire[..0] == [];
    } else {
      var before := DeliverAll(s, k - 1);
      var one := DeliverOne(s, k - 1);
      GoesBoth(With(s, Served([]), 0), before, With(s, Served(s.wire[..k - 1]), k - 1), one,
               With(s, Served(s.wire[..k]), k));
      steps := before + one;
    }
  }

  // ---------- as a run ----------

  lemma ExtendBackendRun(bs: seq<Backend>, steps: seq<Step>, step: Step)
    requires BackendRun(bs, steps) && StepEnabled(Last(bs), step)
    ensures BackendRun(bs + [StepApply(Last(bs), step)], steps + [step])
  {
    var longer, more := bs + [StepApply(Last(bs), step)], steps + [step];
    forall i | 0 <= i < |more|
      ensures StepEnabled(longer[i], more[i]) && longer[i + 1] == StepApply(longer[i], more[i])
    {
      if i < |steps| {
        assert longer[i] == bs[i] && longer[i + 1] == bs[i + 1] && more[i] == steps[i];
      }
    }
  }

  lemma {:induction false} GoesOn(bs: seq<Backend>, steps: seq<Step>, more: seq<Step>, t: Backend)
      returns (longer: seq<Backend>)
    requires BackendRun(bs, steps) && Goes(Last(bs), more, t)
    ensures BackendRun(longer, steps + more) && Last(longer) == t
    decreases |more|
  {
    if more == [] {
      longer := bs;
      assert steps + more == steps;
    } else {
      ExtendBackendRun(bs, steps, more[0]);
      longer := GoesOn(bs + [StepApply(Last(bs), more[0])], steps + [more[0]], more[1..], t);
      assert steps + more == steps + [more[0]] + more[1..];
    }
  }

  /** Every run of the auctions is part of a run of the backend in which a client is sent all that they publish. */
  lemma EverythingCanArrive(states: seq<System>, actions: seq<Action>) returns (bs: seq<Backend>, steps: seq<Step>)
    requires Run(states, actions)
    ensures BackendRun(bs, steps) && Last(bs).sys == Last(states)
    ensures 0 in Last(bs).hub.live && Last(bs).hub.live[0].written == Last(states).wire
  {
    var first, s := Backend(states[0], EMPTY_HUB, map[]), Last(states);
    var opening := Open(states[0]);
    var auctioning := Meanwhile(states, actions, Served([]), 0, |actions|);
    var delivering := DeliverAll(s, |s.wire|);
    GoesBoth(first, opening, With(states[0], Served([]), 0), auctioning, With(s, Served([]), 0));
    GoesBoth(first, opening + auctioning, With(s, Served([]), 0), delivering,
             With(s, Served(s.wire[..|s.wire|]), |s.wire|));
    steps := [] + (opening + auctioning + delivering);
    bs := GoesOn([first], [], opening + auctioning + delivering, With(s, Served(s.wire[..|s.wire|]), |s.wire|));
    assert s.wire[..|s.wire|] == s.wire;
  }

  /**
   * Without quiescence a client may see a price after the settlement, although no key has expired early and
   * nothing has been lost.
   */
  lemma PriceAfterTheEnd() returns (bs: seq<Backend>, steps: seq<Step>)
    ensures BackendRun(bs, steps) && 0 in Last(bs).hub.live
    ensures var frames := Frames(Last(bs), 0, 0);
            |frames| == 2 && frames[0].Settlement? && frames[1].PriceUpdate? && !SettlementLast(frames)
  {
    var states, actions := Witness.Overtaken();
    bs, steps := EverythingCanArrive(states, actions);
    assert Last(states) == states[|actions|];
    AppendWire([Witness.OVERTAKEN[0]], Witness.OVERTAKEN[1], 0);
    AppendWire([], Witness.OVERTAKEN[0], 0);
    assert Witness.OVERTAKEN == [] + [Witness.OVERTAKEN[0]] + [Witness.OVERTAKEN[1]];
    assert [] + [Witness.OVERTAKEN[0]] == [Witness.OVERTAKEN[0]];
  }
}
