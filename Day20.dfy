/** The pulse-propagation network of `src/bin/20.rs`.

    A system maps module names to modules: the broadcaster, flip-flops and conjunctions.
    One button press puts a Low pulse for the broadcaster on a FIFO queue and delivers
    queued signals until the queue is empty. The state that the press loops thread through
    `process_signal` (the queue, the flip-flop bits and the shared `last_sent` map) is the
    class `PressState`. The pure function `Processed` states what one delivery does to it.
    `Run` is the machine that the press loops follow: a step starts a press when the queue
    is empty and otherwise delivers the head of the queue, logging it. */
module Day20 {
  import opened Wrappers
  import opened Text
  import opened Divisibility

  datatype Pulse = Low | High

  datatype ModuleName = Broadcaster | Other(first: char, second: char)

  datatype ModuleType = BroadcastModule | FlipFlop | Conjunction(inputs: set<ModuleName>)

  /** A module. Its destinations are a set in the source, iterated in an unspecified
      order; here they are a sequence without repetitions, in the order they are listed
      on the module's line, and signals are queued in that order. */
  datatype Module = Module(name: ModuleName, kind: ModuleType, destinations: seq<ModuleName>)

  datatype Signal = Signal(pulse: Pulse, destination: ModuleName)

  type System = map<ModuleName, Module>

  /** `Signal::initial()`: a button press sends Low to the broadcaster. */
  const INITIAL: Signal := Signal(Low, Broadcaster)

  /** Every module is stored under its own name, as the parser stores them. */
  ghost predicate Keyed(system: System)
  {
    forall n :: n in system ==> system[n].name == n
  }

  predicate Distinct<T(==)>(s: seq<T>)
  {
    forall i, j :: 0 <= i < j < |s| ==> s[i] != s[j]
  }

  // ---------------------------------------------------------------------------------------
  // One delivery

  /** The state threaded through the press loops: the queue of signals, the flip-flop bits
      and the pulse that each module sent last. */
  datatype Circuit = Circuit(signals: seq<Signal>, flipflops: map<ModuleName, bool>, lastSent: map<ModuleName, Pulse>)

  const QUIET: Circuit := Circuit([], map[], map[])

  /** A flip-flop bit, off unless recorded as on. */
  predicate IsOn(flipflops: map<ModuleName, bool>, name: ModuleName)
  {
    name in flipflops && flipflops[name]
  }

  /** Every input was last seen sending High; an input that never sent counts as Low. */
  predicate AllHigh(inputs: set<ModuleName>, lastSent: map<ModuleName, Pulse>)
  {
    forall input :: input in inputs ==> input in lastSent && lastSent[input] == High
  }

  /** One signal carrying `pulse` for each destination, in order. */
  function Fanout(destinations: seq<ModuleName>, pulse: Pulse): seq<Signal>
  {
    if destinations == [] then []
    else Fanout(destinations[..|destinations| - 1], pulse) + [Signal(pulse, destinations[|destinations| - 1])]
  }

  /** `Module::send_signals`: record the pulse as the module's last and queue it for every
      destination. */
  function Sent(m: Module, pulse: Pulse, c: Circuit): Circuit
  {
    c.(lastSent := c.lastSent[m.name := pulse], signals := c.signals + Fanout(m.destinations, pulse))
  }

  /** `ModuleSystem::process_signal`. */
  function Processed(system: System, signal: Signal, c: Circuit): (r: Circuit)
    ensures |c.signals| <= |r.signals| && r.signals[..|c.signals|] == c.signals
  {
    if signal.destination !in system then c
    else
      var m := system[signal.destination];
      match m.kind
      case BroadcastModule => Sent(m, signal.pulse, c)
      case FlipFlop =>
        if signal.pulse == High then c
        else if IsOn(c.flipflops, m.name) then Sent(m, Low, c.(flipflops := c.flipflops[m.name := false]))
        else Sent(m, High, c.(flipflops := c.flipflops[m.name := true]))
      case Conjunction(inputs) =>
        if AllHigh(inputs, c.lastSent) then Sent(m, Low, c) else Sent(m, High, c)
  }

  lemma UnknownDestinationIgnored(system: System, signal: Signal, c: Circuit)
    requires signal.destination !in system
    ensures Processed(system, signal, c) == c
  {
  }

  lemma BroadcasterForwards(system: System, signal: Signal, c: Circuit)
    requires signal.destination in system && system[signal.destination].kind == BroadcastModule
    ensures Processed(system, signal, c) == Sent(system[signal.destination], signal.pulse, c)
  {
  }

  lemma FlipFlopIgnoresHigh(system: System, c: Circuit, name: ModuleName)
    requires name in system && system[name].kind == FlipFlop
    ensures Processed(system, Signal(High, name), c) == c
  {
  }

  /** On Low a flip-flop toggles its bit and sends High when it turns on, Low when it turns off. */
  lemma FlipFlopToggles(system: System, c: Circuit, name: ModuleName)
    requires name in system && system[name].kind == FlipFlop && system[name].name == name
    ensures var r := Processed(system, Signal(Low, name), c);
      var wasOn := IsOn(c.flipflops, name);
      IsOn(r.flipflops, name) == !wasOn &&
      r.lastSent == c.lastSent[name := if wasOn then Low else High] &&
      r.signals == c.signals + Fanout(system[name].destinations, if wasOn then Low else High) &&
      forall n :: n != name ==> (n in r.flipflops <==> n in c.flipflops) && (n in c.flipflops ==> r.flipflops[n] == c.flipflops[n])
  {
  }

  /** A conjunction sends Low exactly when all of its inputs last sent High. */
  lemma ConjunctionSendsLowIffAllHigh(system: System, signal: Signal, c: Circuit)
    requires signal.destination in system && system[signal.destination].kind.Conjunction?
    ensures var m := system[signal.destination];
      var r := Processed(system, signal, c);
      r.flipflops == c.flipflops &&
      (r == Sent(m, Low, c) <==> AllHigh(m.kind.inputs, c.lastSent)) &&
      (r == Sent(m, High, c) <==> !AllHigh(m.kind.inputs, c.lastSent))
  {
    var m := system[signal.destination];
    var low, high := Sent(m, Low, c), Sent(m, High, c);
    assert m.name in low.lastSent && low.lastSent[m.name] == Low;
    assert m.name in high.lastSent && high.lastSent[m.name] == High;
  }

  lemma {:induction false} FanoutSignals(destinations: seq<ModuleName>, pulse: Pulse)
    ensures |Fanout(destinations, pulse)| == |destinations|
    ensures forall i :: 0 <= i < |destinations| ==> Fanout(destinations, pulse)[i] == Signal(pulse, destinations[i])
  {
    if destinations != [] {
      FanoutSignals(destinations[..|destinations| - 1], pulse);
    }
  }

  /** Sending records the pulse for the sender only and queues one signal per destination,
      behind the signals already queued. */
  lemma SentQueuesOnePerDestination(m: Module, pulse: Pulse, c: Circuit)
    ensures var r := Sent(m, pulse, c);
      |r.signals| == |c.signals| + |m.destinations| &&
      r.signals[..|c.signals|] == c.signals &&
      (forall i :: 0 <= i < |m.destinations| ==> r.signals[|c.signals| + i] == Signal(pulse, m.destinations[i])) &&
      r.lastSent.Keys == c.lastSent.Keys + {m.name} && r.lastSent[m.name] == pulse &&
      (forall n :: n in c.lastSent && n != m.name ==> r.lastSent[n] == c.lastSent[n]) &&
      r.flipflops == c.flipflops
  {
    FanoutSignals(m.destinations, pulse);
  }

  // ---------------------------------------------------------------------------------------
  // The mutable state of the press loops

  class PressState {
    var signals: seq<Signal>
    var flipflops: map<ModuleName, bool>
    var lastSent: map<ModuleName, Pulse>

    function Value(): Circuit
      reads this
    {
      Circuit(signals, flipflops, lastSent)
    }

    constructor ()
      ensures Value() == QUIET
    {
      signals, flipflops, lastSent := [], map[], map[];
    }

    /** `signals.push_back(signal)`. */
    method PushBack(signal: Signal)
      modifies this
      ensures Value() == old(Value()).(signals := old(signals) + [signal])
    {
      signals := signals + [signal];
    }

    /** `signals.pop_front()` on a non-empty queue. */
    method PopFront() returns (signal: Signal)
      requires signals != []
      modifies this
      ensures signal == old(signals)[0]
      ensures Value() == old(Value()).(signals := old(signals)[1..])
    {
      signal := signals[0];
      signals := signals[1..];
    }

    /** `Module::send_signals`. */
    method SendSignals(m: Module, pulse: Pulse)
      modifies this
      ensures Value() == Sent(m, pulse, old(Value()))
    {
      lastSent := lastSent[m.name := pulse];
      var i := 0;
      while i < |m.destinations|
        invariant 0 <= i <= |m.destinations|
        invariant signals == old(signals) + Fanout(m.destinations[..i], pulse)
        invariant lastSent == old(lastSent)[m.name := pulse] && flipflops == old(flipflops)
      {
        assert m.destinations[..i + 1][..i] == m.destinations[..i];
        signals := signals + [Signal(pulse, m.destinations[i])];
        i := i + 1;
      }
      assert m.destinations[..i] == m.destinations;
    }

    /** `ModuleSystem::process_signal`. */
    method ProcessSignal(system: System, signal: Signal)
      modifies this
      ensures Value() == Processed(system, signal, old(Value()))
    {
      if signal.destination in system {
        var m := system[signal.destination];
        match m.kind
        case BroadcastModule =>
          SendSignals(m, signal.pulse);
        case FlipFlop =>
          if signal.pulse == Low {
            if m.name in flipflops && flipflops[m.name] {
              flipflops := flipflops[m.name := false];
              SendSignals(m, Low);
            } else {
              flipflops := flipflops[m.name := true];
              SendSignals(m, High);
            }
          }
        case Conjunction(inputs) =>
          if AllHigh(inputs, lastSent) {
            SendSignals(m, Low);
          } else {
            SendSignals(m, High);
          }
      }
    }
  }

  // ---------------------------------------------------------------------------------------
  // The press machine

  /** A delivered signal and the number of the press (from 1) that delivered it. */
  datatype Delivery = Delivery(press: nat, signal: Signal)

  datatype Machine = Machine(circuit: Circuit, presses: nat, log: seq<Delivery>)

  /** One step of the press loops: press the button when the queue is empty, otherwise
      deliver the signal at the head of the queue. */
  function Step(system: System, m: Machine): Machine
  {
    if m.circuit.signals == [] then
      Machine(m.circuit.(signals := [INITIAL]), m.presses + 1, m.log)
    else
      var signal := m.circuit.signals[0];
      Machine(Processed(system, signal, m.circuit.(signals := m.circuit.signals[1..])),
              m.presses, m.log + [Delivery(m.presses, signal)])
  }

  /** The machine after `k` steps from a quiet circuit. */
  function Run(system: System, k: nat): Machine
  {
    if k == 0 then Machine(QUIET, 0, []) else Step(system, Run(system, k - 1))
  }

  /** The number of delivered signals carrying `pulse`. */
  function Count(log: seq<Delivery>, pulse: Pulse): (n: nat)
    ensures n <= |log|
  {
    if log == [] then 0
    else Count(log[..|log| - 1], pulse) + (if log[|log| - 1].signal.pulse == pulse then 1 else 0)
  }

  lemma {:induction false} CountsPartitionLog(log: seq<Delivery>)
    ensures Count(log, Low) + Count(log, High) == |log|
  {
    if log != [] {
      CountsPartitionLog(log[..|log| - 1]);
    }
  }

  /** Every delivery belongs to a press that has happened, the log is ordered by press,
      and a non-empty queue means at least one press. */
  ghost predicate WellOrdered(m: Machine)
  {
    (m.circuit.signals != [] ==> m.presses >= 1) &&
    (forall i :: 0 <= i < |m.log| ==> 1 <= m.log[i].press <= m.presses) &&
    (forall i, j :: 0 <= i <= j < |m.log| ==> m.log[i].press <= m.log[j].press)
  }

  lemma {:induction false} RunWellOrdered(system: System, k: nat)
    ensures WellOrdered(Run(system, k))
    ensures Run(system, k).presses <= k && |Run(system, k).log| <= k
  {
    if k > 0 {
      RunWellOrdered(system, k - 1);
      var m := Run(system, k - 1);
      if m.circuit.signals != [] {
        var log := Run(system, k).log;
        assert log == m.log + [Delivery(m.presses, m.circuit.signals[0])];
        assert forall i :: 0 <= i < |m.log| ==> log[i] == m.log[i];
      }
    }
  }

  /** A press begins with a Low pulse delivered to the broadcaster. */
  lemma PressBeginsAtBroadcaster(system: System, k: nat)
    requires Run(system, k).circuit.signals == []
    ensures Run(system, k + 1).presses == Run(system, k).presses + 1
    ensures Run(system, k + 2).log == Run(system, k).log + [Delivery(Run(system, k).presses + 1, INITIAL)]
  {
    assert Run(system, k + 2) == Step(system, Run(system, k + 1));
  }

  /** The log only grows. */
  lemma {:induction false} RunLogGrows(system: System, k: nat, l: nat)
    requires k <= l
    ensures Run(system, k).log <= Run(system, l).log
    decreases l - k
  {
    if k < l {
      RunLogGrows(system, k, l - 1);
    }
  }

  /** The flip-flop bits belong to flip-flops and the last-sent pulses to modules. */
  ghost predicate Consistent(system: System, c: Circuit)
  {
    (forall n :: n in c.flipflops ==> n in system && system[n].kind == FlipFlop) &&
    (forall n :: n in c.lastSent ==> n in system)
  }

  lemma ProcessedConsistent(system: System, signal: Signal, c: Circuit)
    requires Keyed(system) && Consistent(system, c)
    ensures Consistent(system, Processed(system, signal, c))
  {
  }

  lemma {:induction false} RunConsistent(system: System, k: nat)
    requires Keyed(system)
    ensures Consistent(system, Run(system, k).circuit)
  {
    if k > 0 {
      RunConsistent(system, k - 1);
      var m := Run(system, k - 1);
      if m.circuit.signals != [] {
        ProcessedConsistent(system, m.circuit.signals[0], m.circuit.(signals := m.circuit.signals[1..]));
      }
    }
  }

  /** The machine has finished `times` presses and has an empty queue. */
  ghost predicate Finished(system: System, k: nat, times: nat)
  {
    Run(system, k).presses == times && Run(system, k).circuit.signals == []
  }

  /** One more step from `Run(system, k)`. */
  lemma RunNext(system: System, k: nat)
    ensures Run(system, k + 1) == Step(system, Run(system, k))
  {
  }

  lemma CountAppend(log: seq<Delivery>, d: Delivery, pulse: Pulse)
    ensures Count(log + [d], pulse) == Count(log, pulse) + (if d.signal.pulse == pulse then 1 else 0)
  {
    assert (log + [d])[..|log|] == log;
  }

  /** Pops the head of the queue: the first half of a delivery step of the machine. */
  method PopHead(system: System, state: PressState, ghost k: nat) returns (signal: Signal)
    requires state.Value() == Run(system, k).circuit && state.signals != []
    modifies state
    ensures signal == Run(system, k).circuit.signals[0]
    ensures state.Value() == Run(system, k).circuit.(signals := Run(system, k).circuit.signals[1..])
    ensures Run(system, k + 1).presses == Run(system, k).presses
    ensures Run(system, k + 1).log == Run(system, k).log + [Delivery(Run(system, k).presses, signal)]
  {
    RunDeliver(system, k);
    signal := state.PopFront();
  }

  /** Processes the signal `PopHead` took: the second half of the delivery step. */
  method ProcessPopped(system: System, state: PressState, signal: Signal, ghost k: nat)
    requires Run(system, k).circuit.signals != [] && signal == Run(system, k).circuit.signals[0]
    requires state.Value() == Run(system, k).circuit.(signals := Run(system, k).circuit.signals[1..])
    modifies state
    ensures state.Value() == Run(system, k + 1).circuit
  {
    RunDeliver(system, k);
    state.ProcessSignal(system, signal);
  }

  /** Pops the head of the queue and processes it: one delivery step of the machine. */
  method DeliverHead(system: System, state: PressState, ghost k: nat) returns (signal: Signal)
    requires state.Value() == Run(system, k).circuit && state.signals != []
    modifies state
    ensures Run(system, k + 1) == Machine(state.Value(), Run(system, k).presses, Run(system, k).log + [Delivery(Run(system, k).presses, signal)])
  {
    signal := PopHead(system, state, k);
    ProcessPopped(system, state, signal, k);
  }

  /** With a non-empty queue the next step delivers its head. */
  lemma RunDeliver(system: System, k: nat)
    requires Run(system, k).circuit.signals != []
    ensures var m := Run(system, k);
      Run(system, k + 1) == Machine(Processed(system, m.circuit.signals[0], m.circuit.(signals := m.circuit.signals[1..])),
                                    m.presses, m.log + [Delivery(m.presses, m.circuit.signals[0])])
  {
  }

  /** With an empty queue the next step is a press. */
  lemma RunPress(system: System, k: nat)
    requires Run(system, k).circuit.signals == []
    ensures Run(system, k + 1) == Machine(Run(system, k).circuit.(signals := [INITIAL]), Run(system, k).presses + 1, Run(system, k).log)
  {
  }

  /** The inner loop of `press_button_times`: deliver queued signals, counting Low and High
      pulses, until the queue is empty or `fuel` deliveries have been made in all;
      `spent` says the budget ran out first. */
  method Drain(system: System, state: PressState, ghost k0: nat, fuel: nat, low0: nat, high0: nat)
      returns (ghost k: nat, low: nat, high: nat, spent: bool)
    requires Run(system, k0).circuit == state.Value()
    requires low0 == Count(Run(system, k0).log, Low) && high0 == Count(Run(system, k0).log, High)
    requires |Run(system, k0).log| == low0 + high0 <= fuel
    modifies state
    ensures Run(system, k).circuit == state.Value() && Run(system, k).presses == Run(system, k0).presses
    ensures low == Count(Run(system, k).log, Low) && high == Count(Run(system, k).log, High)
    ensures |Run(system, k).log| == low + high <= fuel
    ensures spent <==> state.signals != []
    ensures spent ==> low + high == fuel
  {
    k, low, high := k0, low0, high0;
    ghost var press := Run(system, k0).presses;
    ghost var log := Run(system, k0).log;
    while state.signals != []
      invariant Run(system, k).circuit == state.Value() && Run(system, k).presses == press && Run(system, k).log == log
      invariant low == Count(log, Low) && high == Count(log, High) && |log| == low + high <= fuel
      decreases fuel - (low + high)
    {
      if low + high == fuel {
        return k, low, high, true;
      }
      var signal := DeliverHead(system, state, k);
      if signal.pulse == Low {
        low := low + 1;
      } else {
        high := high + 1;
      }
      CountAppend(log, Delivery(press, signal), Low);
      CountAppend(log, Delivery(press, signal), High);
      log := log + [Delivery(press, signal)];
      k := k + 1;
    }
    spent := false;
  }

  /** `press_button_times`: the numbers of Low and High pulses delivered during `times`
      presses. A press whose queue never empties has no count in the source; here at most
      `fuel` signals are delivered in all, and `None` says the budget ran out. */
  method PressButtonTimes(system: System, times: nat, fuel: nat) returns (r: Option<(nat, nat)>)
    ensures r.Some? ==> exists k :: Finished(system, k, times) && |Run(system, k).log| <= fuel &&
                                    r.value == (Count(Run(system, k).log, Low), Count(Run(system, k).log, High))
    ensures r.None? ==> exists k :: Run(system, k).presses <= times && Run(system, k).circuit.signals != [] &&
                                    |Run(system, k).log| == fuel
  {
    var state := new PressState();
    var low, high := 0, 0;
    ghost var k := 0;
    for press := 0 to times
      invariant Run(system, k).circuit == state.Value() && Run(system, k).presses == press
      invariant state.signals == []
      invariant low == Count(Run(system, k).log, Low) && high == Count(Run(system, k).log, High)
      invariant |Run(system, k).log| == low + high <= fuel
    {
      state.PushBack(INITIAL);
      RunPress(system, k);
      var spent;
      k, low, high, spent := Drain(system, state, k + 1, fuel, low, high);
      if spent {
        return None;
      }
    }
    assert Finished(system, k, times);
    r := Some((low, high));
  }

  // ---------------------------------------------------------------------------------------
  // Binary gcd and lcm

  /** `gcd`: Stein's binary algorithm. */
  method BinaryGcd(a0: nat, b0: nat) returns (g: nat)
    ensures IsGcd(a0, b0, g) && g == Gcd(a0, b0)
    ensures a0 == 0 ==> g == b0
    ensures b0 == 0 ==> g == a0
  {
    if a0 == 0 || b0 == 0 {
      // `a | b`, with one of the two zero
      g := a0 + b0;
      GcdZero(a0);
      GcdZero(b0);
      GcdIsGcd(a0, b0);
      return;
    }
    // `(a | b).trailing_zeros()`: the trailing zeros the two numbers have in common
    var shift := if TrailingZeros(a0) <= TrailingZeros(b0) then TrailingZeros(a0) else TrailingZeros(b0);
    StripCommonTwos(a0, b0);
    var odd := OddGcd(OddPart(a0), OddPart(b0));
    // `a << shift`
    g := odd * Pow2(shift);
    GcdIsGcd(a0, b0);
  }

  /** The loop of `gcd` on two odd numbers: subtract the smaller from the larger and shift
      out the trailing zeros of the difference until the two are equal. */
  method OddGcd(a0: nat, b0: nat) returns (g: nat)
    requires a0 % 2 == 1 && b0 % 2 == 1
    ensures g == Gcd(a0, b0) && g % 2 == 1
  {
    var a, b := a0, b0;
    while a != b
      invariant a > 0 && b > 0 && a % 2 == 1 && b % 2 == 1
      invariant Gcd(a, b) == Gcd(a0, b0)
      decreases a + b
    {
      if a > b {
        StripDifference(a, b);
        a := a - b;
        a := OddPart(a);
      } else {
        StripDifference(b, a);
        GcdSymmetric(a, b);
        GcdSymmetric(OddPart(b - a), a);
        b := b - a;
        b := OddPart(b);
      }
    }
    GcdSelf(a);
    g := a;
  }

  /** Subtracting the smaller odd number and shifting out the zeros keeps the gcd. */
  lemma StripDifference(x: nat, y: nat)
    requires x > y > 0 && y % 2 == 1
    ensures Gcd(OddPart(x - y), y) == Gcd(x, y)
  {
    GcdSubtract(x, y);
    GcdShiftOne(OddPart(x - y), y, TrailingZeros(x - y));
  }

  lemma Pow2Add(x: nat, y: nat)
    ensures Pow2(x + y) == Pow2(x) * Pow2(y)
  {
    if x > 0 {
      Pow2Add(x - 1, y);
    }
  }

  /** Stripping the trailing zeros of both numbers divides the gcd by the common ones. */
  lemma StripCommonTwos(a0: nat, b0: nat)
    requires a0 > 0 && b0 > 0
    ensures var s := if TrailingZeros(a0) <= TrailingZeros(b0) then TrailingZeros(a0) else TrailingZeros(b0);
      Gcd(a0, b0) == Gcd(OddPart(a0), OddPart(b0)) * Pow2(s)
  {
    var ta, tb := TrailingZeros(a0), TrailingZeros(b0);
    var a, b := OddPart(a0), OddPart(b0);
    assert a0 == Pow2(ta) * a && b0 == Pow2(tb) * b;
    if ta <= tb {
      CommonShift(a, b, ta, tb);
    } else {
      CommonShift(b, a, tb, ta);
      GcdSymmetric(a0, b0);
      GcdSymmetric(a, b);
    }
  }

  /** Two odd numbers shifted left by `s` and by `t >= s` have `2^s` times their gcd. */
  lemma CommonShift(a: nat, b: nat, s: nat, t: nat)
    requires s <= t && a % 2 == 1 && b % 2 == 1
    ensures Gcd(Pow2(s) * a, Pow2(t) * b) == Gcd(a, b) * Pow2(s)
  {
    var y: nat := Pow2(t - s) * b;
    ShiftSplit(t, s, b);
    GcdShiftBoth(a, y, s);
    GcdSymmetric(a, y);
    GcdShiftOne(b, a, t - s);
    GcdSymmetric(b, a);
    MulCommutes(Gcd(a, b), Pow2(s));
  }

  /** Shifting left by `t` is shifting by `s` after shifting by `t - s`. */
  lemma ShiftSplit(t: nat, s: nat, a: nat)
    requires s <= t
    ensures Pow2(t) * a == Pow2(s) * (Pow2(t - s) * a)
  {
    Pow2Add(s, t - s);
    MulAssociates(Pow2(s), Pow2(t - s), a);
  }

  /** `lcm`. */
  function Lcm(a: nat, b: nat): nat
  {
    if a == 0 && b == 0 then 0
    else
      GcdPositive(a, b);
      var quotient: nat := b / Gcd(a, b);
      MulNonnegative(a, quotient);
      a * quotient
  }

  /** Both arguments divide their lcm, which is positive when they are. */
  lemma LcmCommonMultiple(a: nat, b: nat)
    ensures Divides(a, Lcm(a, b)) && Divides(b, Lcm(a, b))
    ensures a > 0 && b > 0 ==> Lcm(a, b) > 0
  {
    if a == 0 && b == 0 {
      DividesSelf(0);
    } else {
      GcdPositive(a, b);
      GcdIsGcd(a, b);
      var g := Gcd(a, b);
      var i :| a == g * i;
      var j :| b == g * j;
      if b > 0 {
        MulPositive(g, j);
      }
      ExactQuotient(g, j);
      var l := a * j;
      assert Lcm(a, b) == l;
      DividesWitness(a, l, j);
      SwapFactors(g, i, j);
      DividesWitness(b, l, i);
      if a > 0 && b > 0 {
        MulPositive(g, j);
        MulPositive(g, i);
        MulPositive(a, j);
      }
    }
  }

  lemma SwapFactors(g: int, i: int, j: int)
    ensures (g * i) * j == (g * j) * i
  {
  }

  // ---------------------------------------------------------------------------------------
  // Watching for Low pulses

  datatype Watch = Watch(remaining: set<ModuleName>, hits: seq<nat>)

  /** The watched names that have not yet received a Low pulse, and the presses at which the
      others first did, in the order they were found. */
  function Watched(log: seq<Delivery>, watched: set<ModuleName>): Watch
  {
    if log == [] then Watch(watched, [])
    else
      var w := Watched(log[..|log| - 1], watched);
      var d := log[|log| - 1];
      if d.signal.pulse == Low && d.signal.destination in w.remaining
      then Watch(w.remaining - {d.signal.destination}, w.hits + [d.press])
      else w
  }

  ghost predicate ReceivedLow(log: seq<Delivery>, name: ModuleName)
  {
    exists i :: 0 <= i < |log| && log[i].signal == Signal(Low, name)
  }

  /** A watched name is still awaited exactly when no Low pulse has reached it; each found
      name contributes one hit, the press of a Low delivery. */
  lemma {:induction false} WatchedFirstHits(log: seq<Delivery>, watched: set<ModuleName>)
    ensures var w := Watched(log, watched);
      w.remaining <= watched &&
      |w.hits| + |w.remaining| == |watched| &&
      (forall n :: n in watched ==> (n in w.remaining <==> !ReceivedLow(log, n))) &&
      (forall h :: h in w.hits ==> exists i :: 0 <= i < |log| && log[i].press == h && log[i].signal.pulse == Low)
  {
    if log != [] {
      var prefix := log[..|log| - 1];
      WatchedFirstHits(prefix, watched);
      var d := log[|log| - 1];
      forall n | n in watched
        ensures ReceivedLow(log, n) <==> ReceivedLow(prefix, n) || d.signal == Signal(Low, n)
      {
        if ReceivedLow(log, n) && !(d.signal == Signal(Low, n)) {
          var i :| 0 <= i < |log| && log[i].signal == Signal(Low, n);
          assert prefix[i] == log[i];
        }
        if ReceivedLow(prefix, n) {
          var i :| 0 <= i < |prefix| && prefix[i].signal == Signal(Low, n);
          assert log[i] == prefix[i];
        }
      }
      var w := Watched(prefix, watched);
      forall h | h in Watched(log, watched).hits
        ensures exists i :: 0 <= i < |log| && log[i].press == h && log[i].signal.pulse == Low
      {
        if h in w.hits {
          var i :| 0 <= i < |prefix| && prefix[i].press == h && prefix[i].signal.pulse == Low;
          assert log[i] == prefix[i];
        } else {
          assert log[|log| - 1].press == h;
        }
      }
    }
  }

  lemma WatchedAppend(log: seq<Delivery>, d: Delivery, watched: set<ModuleName>)
    ensures var w := Watched(log, watched);
      Watched(log + [d], watched) ==
        if d.signal.pulse == Low && d.signal.destination in w.remaining
        then Watch(w.remaining - {d.signal.destination}, w.hits + [d.press])
        else w
  {
    assert (log + [d])[..|log|] == log;
  }

  /** Once every watched name has been hit, later deliveries change nothing. */
  lemma {:induction false} WatchedSettled(log: seq<Delivery>, more: seq<Delivery>, watched: set<ModuleName>)
    requires Watched(log, watched).remaining == {}
    ensures Watched(log + more, watched) == Watched(log, watched)
    decreases |more|
  {
    if more != [] {
      var shorter := more[..|more| - 1];
      WatchedSettled(log, shorter, watched);
      assert log + more == (log + shorter) + [more[|more| - 1]];
      WatchedAppend(log + shorter, more[|more| - 1], watched);
    } else {
      assert log + more == log;
    }
  }

  /** The lcm, starting from 1, of the hits in the order they were found. */
  function LcmOf(hits: seq<nat>): nat
  {
    if hits == [] then 1 else Lcm(LcmOf(hits[..|hits| - 1]), hits[|hits| - 1])
  }

  lemma LcmOfAppend(hits: seq<nat>, press: nat)
    ensures LcmOf(hits + [press]) == Lcm(LcmOf(hits), press)
  {
    assert (hits + [press])[..|hits|] == hits;
  }

  /** The lcm of positive presses is a positive common multiple of all of them. */
  lemma {:induction false} LcmOfCommonMultiple(hits: seq<nat>)
    requires forall i :: 0 <= i < |hits| ==> hits[i] > 0
    ensures LcmOf(hits) > 0
    ensures forall i :: 0 <= i < |hits| ==> Divides(hits[i], LcmOf(hits))
  {
    if hits != [] {
      var prefix := hits[..|hits| - 1];
      LcmOfCommonMultiple(prefix);
      var last := hits[|hits| - 1];
      LcmCommonMultiple(LcmOf(prefix), last);
      forall i | 0 <= i < |hits| ensures Divides(hits[i], LcmOf(hits)) {
        if i < |hits| - 1 {
          assert hits[i] == prefix[i];
          DividesTransitive(hits[i], LcmOf(prefix), LcmOf(hits));
        }
      }
    }
  }

  /** The hits are press numbers, so they are positive. */
  lemma WatchedHitsPositive(system: System, k: nat, watched: set<ModuleName>)
    ensures forall i :: 0 <= i < |Watched(Run(system, k).log, watched).hits| ==> Watched(Run(system, k).log, watched).hits[i] > 0
  {
    var log := Run(system, k).log;
    RunWellOrdered(system, k);
    WatchedFirstHits(log, watched);
    var hits := Watched(log, watched).hits;
    forall i | 0 <= i < |hits| ensures hits[i] > 0 {
      assert hits[i] in hits;
    }
  }

  /** The inner loop of `find_lcm_of_signals_to_destinations` for one press: deliver the
      queued signals, noting the press at which each watched name first receives a Low
      pulse. It stops when the queue is empty, when the last watched name is hit (`found`)
      or when `fuel` deliveries have been made in all (`spent`). */
  method WatchPress(system: System, state: PressState, ghost k0: nat, destinations: set<ModuleName>, fuel: nat,
                    presses: nat, delivered0: nat, toFind0: set<ModuleName>, signalLcm0: nat, ghost hits0: seq<nat>)
      returns (ghost k: nat, delivered: nat, toFind: set<ModuleName>, signalLcm: nat, ghost hits: seq<nat>,
               found: bool, spent: bool)
    requires Run(system, k0).circuit == state.Value() && state.signals != [] && Run(system, k0).presses == presses
    requires |Run(system, k0).log| == delivered0 <= fuel
    requires Watched(Run(system, k0).log, destinations) == Watch(toFind0, hits0) && signalLcm0 == LcmOf(hits0)
    requires toFind0 <= destinations && (destinations == {} || toFind0 != {})
    modifies state
    ensures Run(system, k).presses == presses && |Run(system, k).log| == delivered <= fuel
    ensures Watched(Run(system, k).log, destinations) == Watch(toFind, hits) && signalLcm == LcmOf(hits)
    ensures toFind <= destinations
    ensures found ==> toFind == {} && destinations != {} && !spent
    ensures !found ==> (destinations == {} || toFind != {}) && Run(system, k).circuit == state.Value()
    ensures spent ==> delivered == fuel && state.signals != []
    ensures !found && !spent ==> state.signals == [] && delivered > delivered0
  {
    k, delivered, toFind, signalLcm, hits := k0, delivered0, toFind0, signalLcm0, hits0;
    ghost var log := Run(system, k0).log;
    while state.signals != []
      invariant Run(system, k).circuit == state.Value() && Run(system, k).presses == presses && Run(system, k).log == log
      invariant |log| == delivered <= fuel
      invariant state.signals == [] ==> delivered > delivered0
      invariant Watched(log, destinations) == Watch(toFind, hits) && signalLcm == LcmOf(hits)
      invariant toFind <= destinations && (destinations == {} || toFind != {})
      decreases fuel - delivered
    {
      if delivered == fuel {
        return k, delivered, toFind, signalLcm, hits, false, true;
      }
      var signal := PopHead(system, state, k);
      delivered := delivered + 1;
      WatchedAppend(log, Delivery(presses, signal), destinations);
      log := log + [Delivery(presses, signal)];
      if signal.pulse == Low && signal.destination in toFind {
        toFind := toFind - {signal.destination};
        LcmOfAppend(hits, presses);
        signalLcm := Lcm(signalLcm, presses);
        hits := hits + [presses];
        if toFind == {} {
          return k + 1, delivered, toFind, signalLcm, hits, true, false;
        }
      }
      ProcessPopped(system, state, signal, k);
      k := k + 1;
    }
    found, spent := false, false;
  }

  /** `find_lcm_of_signals_to_destinations`: press the button until every watched name has
      received a Low pulse and return the lcm of the presses at which each was first hit.
      The source presses without bound; here at most `fuel` signals are delivered and
      `None` says the budget ran out. With nothing to watch the source never returns. */
  method FindLcm(system: System, destinations: set<ModuleName>, fuel: nat) returns (r: Option<nat>)
    ensures destinations == {} ==> r == None
    ensures r.Some? ==> exists k :: |Run(system, k).log| <= fuel &&
                                    Watched(Run(system, k).log, destinations).remaining == {} &&
                                    r.value == LcmOf(Watched(Run(system, k).log, destinations).hits)
    ensures r.None? ==> exists k :: |Run(system, k).log| == fuel &&
                                    (destinations == {} || Watched(Run(system, k).log, destinations).remaining != {})
  {
    var signalLcm := 1;
    var toFind := destinations;
    var state := new PressState();
    var delivered := 0;
    var presses := 0;
    ghost var k := 0;
    ghost var hits: seq<nat> := [];
    while true
      invariant Run(system, k).circuit == state.Value() && Run(system, k).presses == presses
      invariant state.signals == []
      invariant |Run(system, k).log| == delivered <= fuel
      invariant Watched(Run(system, k).log, destinations) == Watch(toFind, hits) && signalLcm == LcmOf(hits)
      invariant toFind <= destinations && (destinations == {} || toFind != {})
      decreases fuel - delivered
    {
      presses := presses + 1;
      state.PushBack(INITIAL);
      RunPress(system, k);
      var found, spent;
      k, delivered, toFind, signalLcm, hits, found, spent :=
        WatchPress(system, state, k + 1, destinations, fuel, presses, delivered, toFind, signalLcm, hits);
      if found {
        ghost var w := Watched(Run(system, k).log, destinations);
        assert w.remaining == {} && signalLcm == LcmOf(w.hits);
        return Some(signalLcm);
      }
      if spent {
        return None;
      }
    }
  }

  // ---------------------------------------------------------------------------------------
  // Parsing

  /** `ModuleName::from_str`: "broadcaster", or a name of exactly two characters. */
  function ParseModuleName(name: String): (r: Result<ModuleName>)
    ensures r.Ok? <==> name == "broadcaster" || |name| == 2
    ensures r == Ok(Broadcaster) <==> name == "broadcaster"
  {
    if name == "broadcaster" then Ok(Broadcaster)
    else if |name| == 2 then Ok(Other(name[0], name[1]))
    else Err
  }

  /** How a name is written in the puzzle input. */
  function NameText(n: ModuleName): String
  {
    match n
    case Broadcaster => "broadcaster"
    case Other(a, b) => [a, b]
  }

  lemma ModuleNameRoundTrip(n: ModuleName)
    ensures ParseModuleName(NameText(n)) == Ok(n)
  {
  }

  /** The first occurrence of each name, in the order they are listed: the same names a
      set built from them holds, with the line's order fixed as the queueing order. */
  function Dedup(names: seq<ModuleName>): (r: seq<ModuleName>)
    ensures Distinct(r)
    ensures forall n :: n in r <==> n in names
  {
    if names == [] then []
    else
      var r := Dedup(names[..|names| - 1]);
      var n := names[|names| - 1];
      assert names == names[..|names| - 1] + [n];
      if n in r then r else r + [n]
  }

  lemma {:induction false} DedupDistinct(names: seq<ModuleName>)
    requires Distinct(names)
    ensures Dedup(names) == names
  {
    if names != [] {
      var init := names[..|names| - 1];
      DedupDistinct(init);
      assert names[|names| - 1] !in init;
      assert names == init + [names[|names| - 1]];
    }
  }

  /** The destination list: every item must be a name; repeated names are kept once. */
  function ParseDestinations(items: seq<String>): (r: Result<seq<ModuleName>>)
    ensures r.Ok? <==> forall i :: 0 <= i < |items| ==> ParseModuleName(items[i]).Ok?
    ensures r.Ok? ==> Distinct(r.value) && (|items| > 0 ==> |r.value| > 0)
  {
    if forall i :: 0 <= i < |items| ==> ParseModuleName(items[i]).Ok? then
      var names := seq(|items|, i requires 0 <= i < |items| => ParseModuleName(items[i]).value);
      assert |items| > 0 ==> names[0] in Dedup(names);
      Ok(Dedup(names))
    else Err
  }

  /** The part before the arrow: "broadcaster", or a name after '%' or '&'. */
  function ParseHeader(details: String): (r: Result<(ModuleName, ModuleType)>)
    ensures r.Ok? && r.value.1.Conjunction? ==> r.value.1.inputs == {}
  {
    if details == "broadcaster" then Ok((Broadcaster, BroadcastModule))
    else match StripPrefix(details, "%")
      case Some(name) =>
        (match ParseModuleName(name)
         case Ok(n) => Ok((n, FlipFlop))
         case Err => Err)
      case None =>
        match StripPrefix(details, "&")
        case Some(name) =>
          (match ParseModuleName(name)
           case Ok(n) => Ok((n, Conjunction({})))
           case Err => Err)
        case None => Err
  }

  /** `Module::from_str`: a header, " -> ", and destinations separated by ", ". */
  function ParseModule(line: String): (r: Result<Module>)
    ensures r.Ok? ==> Occurs(line, " -> ")
    ensures r.Ok? ==> |r.value.destinations| > 0 && Distinct(r.value.destinations)
    ensures r.Ok? && r.value.kind.Conjunction? ==> r.value.kind.inputs == {}
  {
    match SplitOnce(line, " -> ")
    case None => Err
    case Some((details, targets)) =>
      match ParseHeader(details)
      case Err => Err
      case Ok((name, kind)) =>
        match ParseDestinations(Split(targets, ", "))
        case Err => Err
        case Ok(destinations) => Ok(Module(name, kind, destinations))
  }

  predicate IsLower(c: char) { 'a' <= c <= 'z' }

  /** A name of lower-case letters, as the puzzle input uses. */
  predicate PlainName(n: ModuleName)
  {
    n.Broadcaster? || (IsLower(n.first) && IsLower(n.second))
  }

  /** A module as a line of the puzzle input. */
  function ModuleText(m: Module): String
  {
    var prefix := match m.kind case BroadcastModule => "" case FlipFlop => "%" case Conjunction(_) => "&";
    prefix + NameText(m.name) + " -> " + Join(NameTexts(m.destinations), ", ")
  }

  function NameTexts(names: seq<ModuleName>): (texts: seq<String>)
    ensures |texts| == |names| && forall i :: 0 <= i < |names| ==> texts[i] == NameText(names[i])
  {
    seq(|names|, i requires 0 <= i < |names| => NameText(names[i]))
  }

  /** A module that a line of the puzzle input can describe. */
  predicate Printable(m: Module)
  {
    PlainName(m.name) && |m.destinations| > 0 && Distinct(m.destinations) &&
    (forall i :: 0 <= i < |m.destinations| ==> PlainName(m.destinations[i])) &&
    match m.kind
    case BroadcastModule => m.name == Broadcaster
    case FlipFlop => true
    case Conjunction(inputs) => inputs == {}
  }

  lemma ParseHeaderRoundTrip(m: Module)
    requires Printable(m)
    ensures var prefix := match m.kind case BroadcastModule => "" case FlipFlop => "%" case Conjunction(_) => "&";
      ParseHeader(prefix + NameText(m.name)) == Ok((m.name, m.kind))
  {
    match m.kind
    case BroadcastModule =>
    case FlipFlop =>
      var details := "%" + NameText(m.name);
      assert details[0] == '%' && details[1..] == NameText(m.name);
    case Conjunction(_) =>
      var details := "&" + NameText(m.name);
      assert details[0] == '&' && details[1..] == NameText(m.name);
  }

  /** A plain name is written in lower-case letters. */
  lemma PlainNameText(n: ModuleName)
    requires PlainName(n)
    ensures forall i :: 0 <= i < |NameText(n)| ==> IsLower(NameText(n)[i])
  {
  }

  lemma ParseDestinationsRoundTrip(names: seq<ModuleName>)
    requires Distinct(names)
    ensures ParseDestinations(NameTexts(names)) == Ok(names)
  {
    var texts := NameTexts(names);
    forall i | 0 <= i < |texts| ensures ParseModuleName(texts[i]) == Ok(names[i]) {
      ModuleNameRoundTrip(names[i]);
    }
    assert seq(|texts|, i requires 0 <= i < |texts| => ParseModuleName(texts[i]).value) == names;
    DedupDistinct(names);
  }

  /** Writing a module as a line and parsing it back gives the module. */
  lemma ParseModuleRoundTrip(m: Module)
    requires Printable(m)
    ensures ParseModule(ModuleText(m)) == Ok(m)
  {
    var prefix := match m.kind case BroadcastModule => "" case FlipFlop => "%" case Conjunction(_) => "&";
    var details := prefix + NameText(m.name);
    var texts := NameTexts(m.destinations);
    var targets := Join(texts, ", ");
    PlainNameText(m.name);
    assert ' ' !in details;
    FindAfter(details, " -> ", targets);
    assert SplitOnce(ModuleText(m), " -> ") == Some((details, targets));
    ParseHeaderRoundTrip(m);
    forall k | 0 <= k < |texts| ensures ',' !in texts[k] {
      PlainNameText(m.destinations[k]);
    }
    SplitJoin(texts, ", ");
    ParseDestinationsRoundTrip(m.destinations);
  }

  /** The modules by name after the first pass: a later line replaces an earlier module of
      the same name, as map insertion does. */
  function Declared(modules: seq<Module>): (system: System)
    ensures Keyed(system)
    ensures forall n :: n in system <==> exists i :: 0 <= i < |modules| && modules[i].name == n
    ensures forall n :: n in system ==> system[n] in modules
  {
    if modules == [] then map[]
    else
      var init := modules[..|modules| - 1];
      var last := modules[|modules| - 1];
      assert modules == init + [last];
      Declared(init)[last.name := last]
  }

  lemma DeclaredAppend(modules: seq<Module>, m: Module)
    ensures Declared(modules + [m]) == Declared(modules)[m.name := m]
  {
    assert (modules + [m])[..|modules|] == modules;
  }

  /** The names of the modules among `keys` that list `n` as a destination. */
  ghost function SendersAmong(system: System, keys: set<ModuleName>, n: ModuleName): set<ModuleName>
  {
    set k | k in keys && k in system && n in system[k].destinations :: system[k].name
  }

  /** The names of all modules that list `n` as a destination. */
  ghost function Senders(system: System, n: ModuleName): set<ModuleName>
  {
    SendersAmong(system, system.Keys, n)
  }

  /** A conjunction with `senders` added to its inputs; other modules are unchanged. */
  function AddInputs(m: Module, senders: set<ModuleName>): Module
  {
    match m.kind
    case Conjunction(inputs) => m.(kind := Conjunction(inputs + senders))
    case _ => m
  }

  /** The second pass: every conjunction learns the modules that send to it. */
  ghost function Connected(system: System): System
  {
    map n | n in system :: AddInputs(system[n], Senders(system, n))
  }

  /** `ModuleSystem::from_str`, as a function of the input. */
  ghost function ParsedSystem(input: String): Result<System>
  {
    var lines := Lines(input);
    if ParseEach(ParseModule, lines).Ok? then
      Ok(Connected(Declared(ParseEach(ParseModule, lines).value)))
    else Err
  }

  /** After parsing, the input set of each conjunction is exactly the set of modules that list
      it as a destination, and the other modules are as their lines describe them. */
  lemma ConjunctionInputsAreSenders(input: String)
    requires ParsedSystem(input).Ok?
    ensures var system := ParsedSystem(input).value;
      Keyed(system) &&
      (forall n :: n in system && system[n].kind.Conjunction? ==> system[n].kind.inputs == Senders(system, n)) &&
      (forall n :: n in system ==> exists line :: line in Lines(input) && ParseModule(line).Ok? &&
                                     system[n] == AddInputs(ParseModule(line).value, Senders(system, n)))
  {
    var lines := Lines(input);
    var system := ParsedSystem(input).value;
    forall n | n in system
      ensures system[n].name == n
      ensures system[n].kind.Conjunction? ==> system[n].kind.inputs == Senders(system, n)
      ensures exists line :: line in lines && ParseModule(line).Ok? && system[n] == AddInputs(ParseModule(line).value, Senders(system, n))
    {
      var i := ParsedEntry(lines, n);
      assert lines[i] in lines;
    }
  }

  /** The entry for `n` comes from line `i`. */
  lemma ParsedEntry(lines: seq<String>, n: ModuleName) returns (i: nat)
    requires ParseEach(ParseModule, lines).Ok? && n in Connected(Declared(ParseEach(ParseModule, lines).value))
    ensures var system := Connected(Declared(ParseEach(ParseModule, lines).value));
      i < |lines| && ParseModule(lines[i]).Ok? &&
      system[n] == AddInputs(ParseModule(lines[i]).value, Senders(system, n)) && system[n].name == n &&
      (system[n].kind.Conjunction? ==> system[n].kind.inputs == Senders(system, n))
  {
    var modules := ParseEach(ParseModule, lines).value;
    forall j | 0 <= j < |modules| {
      ParseEachEntry(ParseModule, lines, j);
    }
    i := ConnectedEntry(modules, n);
    ParseEachEntry(ParseModule, lines, i);
  }

  /** An entry after the second pass: the line's module with its senders added. */
  lemma ConnectedEntry(modules: seq<Module>, n: ModuleName) returns (i: nat)
    requires forall j :: 0 <= j < |modules| && modules[j].kind.Conjunction? ==> modules[j].kind.inputs == {}
    requires n in Declared(modules)
    ensures var system := Connected(Declared(modules));
      i < |modules| && system[n] == AddInputs(modules[i], Senders(system, n)) && system[n].name == n &&
      (system[n].kind.Conjunction? ==> system[n].kind.inputs == Senders(system, n))
  {
    var declared := Declared(modules);
    ConnectedSenders(declared, n);
    i :| 0 <= i < |modules| && modules[i] == declared[n];
  }

  /** The second pass changes no name and no destination, so nor the senders. */
  lemma ConnectedSenders(system: System, n: ModuleName)
    ensures Senders(Connected(system), n) == Senders(system, n)
  {
    var connected := Connected(system);
    forall k | k in system ensures connected[k].name == system[k].name && connected[k].destinations == system[k].destinations {
    }
  }

  lemma SendersAmongStep(system: System, keys: set<ModuleName>, k: ModuleName, n: ModuleName)
    requires k in system
    ensures SendersAmong(system, keys + {k}, n) ==
            SendersAmong(system, keys, n) + (if n in system[k].destinations then {system[k].name} else {})
  {
  }

  lemma AddInputsTwice(m: Module, a: set<ModuleName>, b: set<ModuleName>)
    ensures AddInputs(AddInputs(m, a), b) == AddInputs(m, a + b)
  {
    if m.kind.Conjunction? {
      assert (m.kind.inputs + a) + b == m.kind.inputs + (a + b);
    }
  }

  /** One module's share of the second pass: `sender` joins the inputs of every conjunction
      among `targets`; a target that is not a module is skipped. */
  method AddSender(system: System, sender: ModuleName, targets: seq<ModuleName>) returns (updated: System)
    ensures updated.Keys == system.Keys
    ensures forall n :: n in system ==> updated[n] == AddInputs(system[n], if n in targets then {sender} else {})
  {
    updated := system;
    for j := 0 to |targets|
      invariant updated.Keys == system.Keys
      invariant forall n :: n in system ==> updated[n] == AddInputs(system[n], if n in targets[..j] then {sender} else {})
    {
      var input := targets[j];
      if input in updated && updated[input].kind.Conjunction? {
        updated := updated[input := updated[input].(kind := Conjunction(updated[input].kind.inputs + {sender}))];
      }
      assert targets[..j + 1] == targets[..j] + [input];
    }
    assert targets[..|targets|] == targets;
  }

  /** The second pass of `ModuleSystem::from_str`: for every module and each of its
      destinations, the module joins the destination's inputs when that is a conjunction.
      The source collects these pairs into a list before applying them; here they are
      applied module by module, which has the same effect because the pairs are read from
      the unchanged first-pass map. */
  method Connect(declared: System) returns (system: System)
    ensures system.Keys == declared.Keys
    ensures forall n :: n in declared ==> system[n] == AddInputs(declared[n], Senders(declared, n))
  {
    system := declared;
    var pending := declared.Keys;
    while pending != {}
      invariant pending <= declared.Keys && system.Keys == declared.Keys
      invariant forall n :: n in declared ==> system[n] == AddInputs(declared[n], SendersAmong(declared, declared.Keys - pending, n))
      decreases |pending|
    {
      var key :| key in pending;
      var output := declared[key];
      ghost var before := system;
      system := AddSender(system, output.name, output.destinations);
      ConnectStep(declared, before, system, declared.Keys - pending, key);
      MoveToDone(declared.Keys, pending, key);
      pending := pending - {key};
    }
    assert declared.Keys - pending == declared.Keys;
  }

  lemma ConnectDone(declared: System, system: System)
    requires system.Keys == declared.Keys
    requires forall n :: n in declared ==> system[n] == AddInputs(declared[n], Senders(declared, n))
    ensures system == Connected(declared)
  {
  }

  lemma MoveToDone(keys: set<ModuleName>, pending: set<ModuleName>, key: ModuleName)
    requires key in pending && pending <= keys
    ensures keys - (pending - {key}) == (keys - pending) + {key}
  {
  }

  lemma ConnectStep(declared: System, before: System, after: System, done: set<ModuleName>, key: ModuleName)
    requires key in declared && before.Keys == declared.Keys
    requires forall n :: n in declared ==> before[n] == AddInputs(declared[n], SendersAmong(declared, done, n))
    requires after.Keys == before.Keys
    requires forall n :: n in before ==>
      after[n] == AddInputs(before[n], if n in declared[key].destinations then {declared[key].name} else {})
    ensures forall n :: n in declared ==> after[n] == AddInputs(declared[n], SendersAmong(declared, done + {key}, n))
  {
    forall n | n in declared
      ensures after[n] == AddInputs(declared[n], SendersAmong(declared, done + {key}, n))
    {
      SendersAmongStep(declared, done, key, n);
      AddInputsTwice(declared[n], SendersAmong(declared, done, n), if n in declared[key].destinations then {declared[key].name} else {});
    }
  }

  /** The first pass of `ModuleSystem::from_str`: insert the modules line by line, keyed
      by name, stopping at the first line that does not parse. */
  method DeclareModules(lines: seq<String>) returns (r: Result<System>)
    ensures r.Ok? <==> ParseEach(ParseModule, lines).Ok?
    ensures r.Ok? ==> r.value == Declared(ParseEach(ParseModule, lines).value)
  {
    var system: System := map[];
    ghost var modules: seq<Module> := [];
    for i := 0 to |lines|
      invariant ParseEach(ParseModule, lines[..i]) == Ok(modules)
      invariant system == Declared(modules)
    {
      var m := ParseModule(lines[i]);
      if m.Err? {
        ParseEachFails(ParseModule, lines, i);
        return Err;
      }
      system := system[m.value.name := m.value];
      DeclaredAppend(modules, m.value);
      ParseEachExtend(ParseModule, lines, i, m.value);
      modules := modules + [m.value];
    }
    assert lines[..|lines|] == lines;
    r := Ok(system);
  }

  /** `ModuleSystem::from_str`: the first pass declares the modules, the second connects them. */
  method ParseSystem(input: String) returns (r: Result<System>)
    ensures r == ParsedSystem(input)
  {
    var declared := DeclareModules(Lines(input));
    if declared.Err? {
      return Err;
    }
    var system := Connect(declared.value);
    ConnectDone(declared.value, system);
    r := Ok(system);
  }

  // ---------------------------------------------------------------------------------------
  // The two answers

  /** `part_one`: the product of the Low and High counts over 1000 presses; `None` when the
      input does not parse (or, here, when the delivery budget runs out). */
  method PartOne(input: String, fuel: nat) returns (r: Option<nat>)
    ensures ParsedSystem(input).Err? ==> r == None
    ensures r.Some? ==> (ParsedSystem(input).Ok? &&
      exists k :: Finished(ParsedSystem(input).value, k, 1000) &&
                  r.value == Count(Run(ParsedSystem(input).value, k).log, Low) * Count(Run(ParsedSystem(input).value, k).log, High))
    ensures ParsedSystem(input).Ok? && r.None? ==>
      exists k :: Run(ParsedSystem(input).value, k).presses <= 1000 && Run(ParsedSystem(input).value, k).circuit.signals != [] &&
                  |Run(ParsedSystem(input).value, k).log| == fuel
  {
    var parsed := ParseSystem(input);
    if parsed.Err? {
      return None;
    }
    var counts := PressButtonTimes(parsed.value, 1000, fuel);
    if counts.None? {
      return None;
    }
    MulNonnegative(counts.value.0, counts.value.1);
    r := Some(counts.value.0 * counts.value.1);
  }

  /** No module sending to `rx` is a conjunction (in particular, when none sends to it). */
  ghost predicate NoConjunctionSendsToRx(system: System)
  {
    forall n :: n in system && Other('r', 'x') in system[n].destinations ==> !system[n].kind.Conjunction?
  }

  /** `part_two`: some module that sends to `rx` (the source takes the first one the map
      yields); when it is a conjunction, the lcm of the presses at which its inputs first
      receive a Low pulse. */
  method PartTwo(input: String, fuel: nat) returns (r: Option<nat>)
    ensures ParsedSystem(input).Err? ==> r == None
    ensures r.Some? ==> (ParsedSystem(input).Ok? &&
      var system := ParsedSystem(input).value;
      exists n :: n in system && Other('r', 'x') in system[n].destinations && system[n].kind.Conjunction? &&
        exists k :: Watched(Run(system, k).log, system[n].kind.inputs).remaining == {} &&
                    r.value == LcmOf(Watched(Run(system, k).log, system[n].kind.inputs).hits))
    ensures ParsedSystem(input).Ok? && NoConjunctionSendsToRx(ParsedSystem(input).value) ==> r == None
    ensures r.None? ==> (ParsedSystem(input).Err? ||
      var system := ParsedSystem(input).value;
      (forall n :: n in system ==> Other('r', 'x') !in system[n].destinations) ||
      exists n :: n in system && Other('r', 'x') in system[n].destinations &&
        (!system[n].kind.Conjunction? ||
         exists k :: |Run(system, k).log| == fuel &&
                     (system[n].kind.inputs == {} || Watched(Run(system, k).log, system[n].kind.inputs).remaining != {})))
  {
    var parsed := ParseSystem(input);
    if parsed.Err? {
      return None;
    }
    var system := parsed.value;
    if !exists n :: n in system && Other('r', 'x') in system[n].destinations {
      return None;
    }
    var n :| n in system && Other('r', 'x') in system[n].destinations;
    if !system[n].kind.Conjunction? {
      return None;
    }
    r := FindLcm(system, system[n].kind.inputs, fuel);
  }
}
