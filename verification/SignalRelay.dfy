/** Relaying a supervisor's signals to the child it starts, including those that come before the child exists. */
module SignalRelay {
  import opened Options

  datatype Signal = INT | QUIT | TERM | HUP

  datatype Delivery = Delivery(process: nat, signal: Signal)

  /** What the relay loop remembers, and what it has sent so far. */
  datatype Memory = Memory(child: Option<nat>, pending: seq<Signal>, sent: seq<Delivery>)

  const RECEIVED_CAPACITY: nat := 4
  const CHILDREN_CAPACITY: nat := 1

  /** The terminal delivers the other two to the child itself. */
  predicate IsRelayed(s: Signal) {
    s == TERM || s == HUP
  }

  function Relayed(signals: seq<Signal>): seq<Signal> {
    if signals == [] then []
    else
      var last := signals[|signals| - 1];
      Relayed(signals[..|signals| - 1]) + (if IsRelayed(last) then [last] else [])
  }

  /**
   * TERM and HUP are relayed and nothing else, in order: the signals one by one, and lists end to end, leave
   * only one function for it.
   */
  lemma {:induction false} RelayedExactly(a: seq<Signal>, b: seq<Signal>)
    ensures Relayed([]) == [] && Relayed([TERM]) == [TERM] && Relayed([HUP]) == [HUP]
    ensures Relayed([INT]) == [] && Relayed([QUIT]) == []
    ensures Relayed(a + b) == Relayed(a) + Relayed(b)
  {
    OneSignal();
    hide Relayed;
    if b == [] {
      assert a + b == a;
    } else {
      var init, last := b[..|b| - 1], b[|b| - 1];
      RelayedExactly(a, init);
      assert a + b == (a + init) + [last] && b == init + [last];
      RelayedStep(a + init, last);
      RelayedStep(init, last);
    }
  }

  lemma OneSignal()
    ensures Relayed([]) == []
    ensures forall s :: Relayed([s]) == if s == TERM || s == HUP then [s] else []
  {
    forall s ensures Relayed([s]) == if s == TERM || s == HUP then [s] else [] {
      assert [s][..0] == [];
    }
  }

  function SentTo(process: nat, signals: seq<Signal>): (r: seq<Delivery>)
    ensures |r| == |signals| && forall i :: 0 <= i < |r| ==> r[i] == Delivery(process, signals[i])
  {
    seq(|signals|, i requires 0 <= i < |signals| => Delivery(process, signals[i]))
  }

  function Signals(sent: seq<Delivery>): (r: seq<Signal>)
    ensures |r| == |sent| && forall i :: 0 <= i < |r| ==> r[i] == sent[i].signal
  {
    seq(|sent|, i requires 0 <= i < |sent| => sent[i].signal)
  }

  function OnChild(m: Memory, process: nat): Memory {
    Memory(Some(process), [], m.sent + SentTo(process, m.pending))
  }

  function OnSignal(m: Memory, value: Signal): Memory {
    if !IsRelayed(value) then m
    else if m.child.None? then m.(pending := m.pending + [value])
    else m.(sent := m.sent + [Delivery(m.child.value, value)])
  }

  /** The goroutine's variables, updated by one branch of its select at a time. */
  class Relay {
    var child: Option<nat>
    var pending: seq<Signal>
    var sent: seq<Delivery>

    constructor ()
      ensures Contents() == Memory(None, [], [])
    {
      child, pending, sent := None, [], [];
    }

    function Contents(): Memory
      reads this
    {
      Memory(child, pending, sent)
    }

    method TakeChild(process: nat)
      modifies this
      ensures Contents() == OnChild(old(Contents()), process)
      ensures child == Some(process) && pending == [] && Signals(sent) == old(Signals(sent) + pending)
      ensures forall i :: old(|sent|) <= i < |sent| ==> sent[i].process == process
    {
      child := Some(process);
      for i := 0 to |pending|
        invariant child == Some(process) && pending == old(pending)
        invariant sent == old(sent) + SentTo(process, pending[..i])
      {
        sent := sent + [Delivery(process, pending[i])];
      }
      assert pending[..|pending|] == pending;
      pending := [];
    }

    method TakeSignal(value: Signal)
      modifies this
      ensures Contents() == OnSignal(old(Contents()), value)
      ensures child == old(child) && old(sent) <= sent
      ensures value != TERM && value != HUP ==> Contents() == old(Contents())
      ensures (value == TERM || value == HUP) && child.None? ==> sent == old(sent) && pending == old(pending) + [value]
      ensures (value == TERM || value == HUP) && child.Some? ==>
        pending == old(pending) && sent == old(sent) + [Delivery(child.value, value)]
      ensures child.None? ==> sent == old(sent) && pending == old(pending) + Relayed([value])
      ensures child.Some? ==> pending == old(pending) && sent == old(sent) + SentTo(child.value, Relayed([value]))
      ensures old(child.Some? ==> pending == []) ==>
        Signals(sent) + pending == old(Signals(sent) + pending) + Relayed([value])
    {
      RelayedStep([], value);
      NothingRelayed();
      assert [] + [value] == [value];
      if value != TERM && value != HUP { return; }
      if child == None {
        pending := pending + [value];
      } else {
        sent := sent + [Delivery(child.value, value)];
      }
    }
  }

  // ---- Every interleaving ------------------------------------------------------------------------------

  /**
   * The relay with its two channels. A signal that arrives while its channel is full is dropped, as
   * os/signal does; `arrived`, `accepted` and `dropped` only record what happened.
   */
  datatype System = System(
    memory: Memory, received: seq<Signal>, children: seq<nat>, stopped: bool, exited: bool,
    arrived: seq<Signal>, accepted: seq<Signal>, dropped: seq<Signal>)

  datatype Step = Arrive(signal: Signal) | Attach(process: nat) | TakeChild | TakeSignal | Stop | Exit

  const INITIAL := System(Memory(None, [], []), [], [], false, false, [], [], [])

  /** A step that cannot be taken now waits. */
  function Next(s: System, step: Step): System {
    match step
    case Arrive(x) =>
      if s.stopped then s
      else if |s.received| < RECEIVED_CAPACITY then
        s.(received := s.received + [x], arrived := s.arrived + [x], accepted := s.accepted + [x])
      else s.(arrived := s.arrived + [x], dropped := s.dropped + [x])
    case Attach(p) =>
      if |s.children| < CHILDREN_CAPACITY then s.(children := s.children + [p]) else s
    case TakeChild =>
      if s.exited || s.children == [] then s
      else s.(children := s.children[1..], memory := OnChild(s.memory, s.children[0]))
    case TakeSignal =>
      if s.exited || s.received == [] then s
      else s.(received := s.received[1..], memory := OnSignal(s.memory, s.received[0]))
    case Stop => s.(stopped := true)
    case Exit => if s.stopped then s.(exited := true) else s
  }

  function Exec(s: System, steps: seq<Step>): System {
    if steps == [] then s else Next(Exec(s, steps[..|steps| - 1]), steps[|steps| - 1])
  }

  /** Nothing accepted is lost, duplicated or reordered, and nothing is pending once a child is attached. */
  predicate Conserved(s: System) {
    && Signals(s.memory.sent) + s.memory.pending + Relayed(s.received) == Relayed(s.accepted)
    && (s.memory.child.Some? ==> s.memory.pending == [])
    && (s.memory.child.None? ==> s.memory.sent == [])
  }

  lemma RelayedStep(signals: seq<Signal>, x: Signal)
    ensures Relayed(signals + [x]) == Relayed(signals) + (if IsRelayed(x) then [x] else [])
  {
    assert (signals + [x])[..|signals|] == signals;
  }

  lemma {:induction false} RelayedHead(signals: seq<Signal>)
    requires signals != []
    ensures Relayed(signals) == (if IsRelayed(signals[0]) then [signals[0]] else []) + Relayed(signals[1..])
  {
    hide Relayed;
    var n := |signals| - 1;
    assert signals == signals[..n] + [signals[n]];
    RelayedStep(signals[..n], signals[n]);
    NothingRelayed();
    if n == 0 {
      assert signals[..0] == [] && signals[1..] == [];
    } else {
      RelayedHead(signals[..n]);
      RelayedStep(signals[..n][1..], signals[n]);
      assert signals[1..] == signals[..n][1..] + [signals[n]];
    }
  }

  lemma NextConserves(s: System, step: Step)
    requires Conserved(s)
    ensures Conserved(Next(s, step))
  {
    hide Relayed;
    match step
    case Arrive(x) =>
      RelayedStep(s.received, x);
      RelayedStep(s.accepted, x);
    case TakeChild =>
      if !s.exited && s.children != [] {
        assert Signals(s.memory.sent + SentTo(s.children[0], s.memory.pending))
          == Signals(s.memory.sent) + s.memory.pending;
      }
    case TakeSignal =>
      if !s.exited && s.received != [] {
        RelayedHead(s.received);
        if s.memory.child.Some? {
          var d := Delivery(s.memory.child.value, s.received[0]);
          assert Signals(s.memory.sent + [d]) == Signals(s.memory.sent) + [d.signal];
        }
      }
    case _ =>
  }

  /** Conservation, after every interleaving of arrivals, attaching, the loop's own steps and stopping. */
  lemma {:induction false} ConservedAlways(steps: seq<Step>)
    ensures Conserved(Exec(INITIAL, steps))
  {
    if steps != [] {
      ConservedAlways(steps[..|steps| - 1]);
      NextConserves(Exec(INITIAL, steps[..|steps| - 1]), steps[|steps| - 1]);
    }
  }

  /** What arrived is what was accepted and what was dropped, and agrees with the former when nothing relayed was. */
  lemma {:induction false} ArrivalsAccounted(steps: seq<Step>)
    ensures var s := Exec(INITIAL, steps);
            && |Relayed(s.arrived)| == |Relayed(s.accepted)| + |Relayed(s.dropped)|
            && (Relayed(s.dropped) == [] ==> Relayed(s.arrived) == Relayed(s.accepted))
            && |s.received| <= RECEIVED_CAPACITY
  {
    hide Relayed;
    if steps == [] {
      NothingRelayed();
    } else {
      var before, step := Exec(INITIAL, steps[..|steps| - 1]), steps[|steps| - 1];
      ArrivalsAccounted(steps[..|steps| - 1]);
      if step.Arrive? {
        RelayedStep(before.arrived, step.signal);
        RelayedStep(before.accepted, step.signal);
        RelayedStep(before.dropped, step.signal);
      }
    }
  }

  /** How much fits: four signals nobody has read yet, and one child nobody has taken. */
  lemma {:induction false} ChannelsHold(steps: seq<Step>, x: Signal, p: nat)
    ensures var s := Exec(INITIAL, steps);
            && |s.received| <= 4 && |s.children| <= 1
            && (!s.stopped && |s.received| < 4 ==>
                  && Next(s, Arrive(x)).received == s.received + [x] && Next(s, Arrive(x)).accepted == s.accepted + [x])
            && (!s.stopped && |s.received| == 4 ==> Next(s, Arrive(x)) == s.(arrived := s.arrived + [x],
                                                                              dropped := s.dropped + [x]))
            && (s.children == [] ==> Next(s, Attach(p)).children == [p])
            && (s.children != [] ==> Next(s, Attach(p)) == s)
            && (s.stopped ==> Next(s, Arrive(x)) == s)
  {
    if steps != [] { ChannelsHold(steps[..|steps| - 1], x, p); }
  }

  /** Stopping closes the channel for good, the loop ends after that and not before, and then it sends nothing more. */
  lemma StopsForGood(s: System, step: Step)
    ensures Next(s, Stop) == s.(stopped := true)
    ensures Next(s, Exit) == if s.stopped then s.(exited := true) else s
    ensures s.stopped ==> Next(s, step).stopped && Next(s, step).arrived == s.arrived
    ensures s.exited ==> Next(s, step).exited && Next(s, step).memory == s.memory
  {
  }

  lemma NothingRelayed()
    ensures Relayed([]) == []
  {
  }

  /** Every TERM or HUP that came while the relay was on found room in its channel. */
  predicate HadRoom(steps: seq<Step>) {
    forall i :: 0 <= i < |steps| && steps[i].Arrive? && IsRelayed(steps[i].signal) ==>
                  var before := Exec(INITIAL, steps[..i]);
                  before.stopped || |before.received| < RECEIVED_CAPACITY
  }

  lemma {:induction false} DroppedForWantOfRoom(steps: seq<Step>)
    ensures Relayed(Exec(INITIAL, steps).dropped) == [] <==> HadRoom(steps)
  {
    hide Relayed, Exec;
    if steps == [] {
      NothingDone();
      NothingRelayed();
    } else {
      var n := |steps| - 1;
      var earlier, step := steps[..n], steps[n];
      DroppedForWantOfRoom(earlier);
      assert steps == earlier + [step];
      ExecStep(earlier, step);
      assert forall i :: 0 <= i < n ==> steps[..i] == earlier[..i] && steps[i] == earlier[i];
      if step.Arrive? { RelayedStep(Exec(INITIAL, earlier).dropped, step.signal); }
    }
  }

  /**
   * Everything that arrived reaches the child in order, or is waiting to, exactly when every TERM or HUP
   * found room in the channel.
   */
  lemma NothingLost(steps: seq<Step>)
    ensures var s := Exec(INITIAL, steps);
            Signals(s.memory.sent) + s.memory.pending + Relayed(s.received) == Relayed(s.arrived) <==> HadRoom(steps)
  {
    hide Relayed, Exec, HadRoom;
    ConservedAlways(steps);
    ArrivalsAccounted(steps);
    DroppedForWantOfRoom(steps);
  }

  /** Interrupts nobody has read yet stay in the channel, though none will be relayed. */
  lemma {:induction false} InterruptsQueue(n: nat)
    requires n <= RECEIVED_CAPACITY
    ensures var s := Exec(INITIAL, Repeat(Arrive(INT), n));
            && |s.received| == n && !s.stopped && s.dropped == [] && Relayed(s.accepted) == []
  {
    hide Relayed, Exec;
    if n == 0 {
      NothingDone();
      NothingRelayed();
    } else {
      InterruptsQueue(n - 1);
      ExecStep(Repeat(Arrive(INT), n - 1), Arrive(INT));
      assert Repeat(Arrive(INT), n - 1) + [Arrive(INT)] == Repeat(Arrive(INT), n);
      RelayedStep(Exec(INITIAL, Repeat(Arrive(INT), n - 1)).accepted, INT);
    }
  }

  /** The condition can fail: four unread interrupts fill the channel, and a TERM is dropped. */
  lemma InterruptsCrowdOutTerminate()
    ensures var s := Exec(INITIAL, Repeat(Arrive(INT), RECEIVED_CAPACITY) + [Arrive(TERM)]);
            s.dropped == [TERM] && Relayed(s.accepted) == []
  {
    hide Relayed, Exec;
    InterruptsQueue(RECEIVED_CAPACITY);
    ExecStep(Repeat(Arrive(INT), RECEIVED_CAPACITY), Arrive(TERM));
  }

  lemma NothingDone()
    ensures Exec(INITIAL, []) == INITIAL
  {
  }

  /** Signals go only to processes that were attached. */
  lemma {:induction false} SentToAttached(steps: seq<Step>)
    ensures var s := Exec(INITIAL, steps);
            && (forall d :: d in s.memory.sent ==> Attach(d.process) in steps)
            && (forall p :: p in s.children ==> Attach(p) in steps)
            && (s.memory.child.Some? ==> Attach(s.memory.child.value) in steps)
  {
    if steps != [] {
      var earlier, step := steps[..|steps| - 1], steps[|steps| - 1];
      SentToAttached(earlier);
      var s := Exec(INITIAL, earlier);
      assert forall x :: x in earlier ==> x in steps;
      assert step in steps;
      if step.TakeChild? && !s.exited && s.children != [] {
        assert s.children[0] in s.children;
      }
    }
  }

  function Repeat(step: Step, n: nat): (r: seq<Step>)
    ensures |r| == n && forall i :: 0 <= i < n ==> r[i] == step
  {
    seq(n, _ => step)
  }

  /** A running relay with a child, left to itself, reads every waiting signal: the child then has them all. */
  lemma {:induction false} Drains(steps: seq<Step>)
    requires var s := Exec(INITIAL, steps); !s.exited && s.memory.child.Some?
    ensures var s := Exec(INITIAL, steps);
            var done := Exec(INITIAL, steps + Repeat(TakeSignal, |s.received|));
            done.received == [] && Signals(done.memory.sent) == Relayed(s.accepted)
    decreases |Exec(INITIAL, steps).received|
  {
    hide Relayed, Exec;
    var s := Exec(INITIAL, steps);
    ConservedAlways(steps);
    if s.received == [] {
      assert steps + Repeat(TakeSignal, 0) == steps;
      NothingRelayed();
    } else {
      var more := steps + [TakeSignal];
      ExecStep(steps, TakeSignal);
      Drains(more);
      assert more + Repeat(TakeSignal, |s.received| - 1) == steps + Repeat(TakeSignal, |s.received|);
    }
  }

  lemma ExecStep(steps: seq<Step>, step: Step)
    ensures Exec(INITIAL, steps + [step]) == Next(Exec(INITIAL, steps), step)
  {
    assert (steps + [step])[..|steps|] == steps;
  }
}
