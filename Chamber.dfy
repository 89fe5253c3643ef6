/**
 * The control loop of the chamber: per iteration, refresh the per-channel
 * temperatures, average them, ask the PID controller for a duty cycle, drive
 * both hardware PWM channels from it and pick HEAT, COOL or REST by the sign
 * and size of the duty; plus the setpoint button callbacks and the final
 * de-energise on shutdown.
 *
 * Sensor readings and the PID output are inputs of each iteration. Button
 * edges are delivered between iterations.
 */
module Chamber {

  datatype Mode = Rest | Heat | Cool

  /** A hardware PWM setting: frequency in Hz and duty count. */
  datatype Pwm = Pwm(frequency: real, duty: real)

  /** The "off" command: frequency 0, duty 0. */
  const PWM_OFF: Pwm := Pwm(0.0, 0.0)
  /** Frequency of both PWM channels while running. */
  const PWM_FREQUENCY: real := 500000.0
  /** Duty count per unit of PID output. */
  const DUTY_SCALE: real := 10000.0
  /** |duty| above which the element is driven. */
  const MODE_THRESHOLD: real := 25.0
  /** Number of slots of the temperature vector (one per ADC channel). */
  const SLOTS: int := 8
  /** Setpoint at start-up. */
  const INITIAL_TARGET: int := 23
  /** GPIO pins of the increase and decrease buttons. */
  const INC_GPIO: int := 5
  const DEC_GPIO: int := 16
  /** The display is refreshed every DISPLAY_EVERY iterations. */
  const DISPLAY_EVERY: int := 10
  /** The channels the program samples. */
  const CHANNELS: seq<int> := [0, 2]
  /** Bounds the PID controller is constructed with. */
  const PID_MAX: real := 100.0
  const PID_MIN: real := -100.0

  function Abs(x: real): (r: real)
    ensures r >= 0.0 && (r == x || r == -x)
  {
    if x < 0.0 then -x else x
  }

  // ---------------------------------------------------------------------
  // Temperatures

  /** Every channel names a slot of the 8-entry temperature vector, and
      there is at least one (the average divides by their number). */
  predicate ChannelsValid(chans: seq<int>)
  {
    |chans| > 0 && forall i :: 0 <= i < |chans| ==> 0 <= chans[i] < SLOTS
  }

  predicate Distinct(chans: seq<int>)
  {
    forall i, j :: 0 <= i < j < |chans| ==> chans[i] != chans[j]
  }

  /** Slots of channels that are not configured hold 0. */
  predicate ZeroOutside(slots: seq<real>, chans: seq<int>)
  {
    forall k :: 0 <= k < |slots| && k !in chans ==> slots[k] == 0.0
  }

  /** The slots after writing readings[i] into slot chans[i], in order. */
  function Written(slots: seq<real>, chans: seq<int>, readings: seq<real>): (r: seq<real>)
    requires |chans| == |readings|
    requires forall i :: 0 <= i < |chans| ==> 0 <= chans[i] < |slots|
    ensures |r| == |slots|
    decreases |chans|
  {
    if chans == [] then slots
    else Written(slots[chans[0] := readings[0]], chans[1..], readings[1..])
  }

  /** std::accumulate over the slots. */
  function Sum(s: seq<real>): (r: real)
    ensures (forall i :: 0 <= i < |s| ==> s[i] >= 0.0) ==> r >= 0.0
  {
    if s == [] then 0.0 else s[0] + Sum(s[1..])
  }

  /** static_cast<int> of a floating-point value: truncation toward zero. */
  function TruncateTowardZero(x: real): (r: int)
    ensures Abs(r as real) <= Abs(x)
    ensures Abs(x - r as real) < 1.0
    ensures x >= 0.0 ==> r >= 0
    ensures x <= 0.0 ==> r <= 0
  {
    if x >= 0.0 then x.Floor else -((-x).Floor)
  }

  /** The loop temperature: the sum of all slots over the channel count. */
  function LoopTemperature(slots: seq<real>, channelCount: int): (t: int)
    requires channelCount > 0
    ensures Abs(Sum(slots) / channelCount as real - t as real) < 1.0
    ensures Abs(t as real) <= Abs(Sum(slots) / channelCount as real)
  {
    TruncateTowardZero(Sum(slots) / channelCount as real)
  }

  /** Slots no channel names keep their value. */
  lemma {:induction false} WrittenOutside(slots: seq<real>, chans: seq<int>, readings: seq<real>, k: int)
    requires |chans| == |readings|
    requires forall i :: 0 <= i < |chans| ==> 0 <= chans[i] < |slots|
    requires 0 <= k < |slots| && k !in chans
    ensures Written(slots, chans, readings)[k] == slots[k]
    decreases |chans|
  {
    if chans != [] {
      assert k != chans[0];
      assert k !in chans[1..];
      WrittenOutside(slots[chans[0] := readings[0]], chans[1..], readings[1..], k);
    }
  }

  /** The last write wins: a channel that does not occur again later in the
      list ends up holding the reading written for it. */
  lemma {:induction false} WrittenLast(slots: seq<real>, chans: seq<int>, readings: seq<real>, i: int)
    requires |chans| == |readings|
    requires forall j :: 0 <= j < |chans| ==> 0 <= chans[j] < |slots|
    requires 0 <= i < |chans|
    requires chans[i] !in chans[i + 1..]
    ensures Written(slots, chans, readings)[chans[i]] == readings[i]
    decreases |chans|
  {
    var next := slots[chans[0] := readings[0]];
    if i == 0 {
      WrittenOutside(next, chans[1..], readings[1..], chans[0]);
    } else {
      assert chans[1..][i - 1] == chans[i];
      assert chans[1..][i..] == chans[i + 1..];
      WrittenLast(next, chans[1..], readings[1..], i - 1);
    }
  }

  /** With distinct channels, each channel's slot holds its reading. */
  lemma WrittenAt(slots: seq<real>, chans: seq<int>, readings: seq<real>, i: int)
    requires |chans| == |readings|
    requires forall j :: 0 <= j < |chans| ==> 0 <= chans[j] < |slots|
    requires Distinct(chans)
    requires 0 <= i < |chans|
    ensures Written(slots, chans, readings)[chans[i]] == readings[i]
  {
    assert chans[i] !in chans[i + 1..] by {
      forall j | i + 1 <= j < |chans|
        ensures chans[j] != chans[i]
      {
      }
    }
    WrittenLast(slots, chans, readings, i);
  }

  /** Replacing one element changes the sum by the difference. */
  lemma {:induction false} SumUpdate(s: seq<real>, k: int, x: real)
    requires 0 <= k < |s|
    ensures Sum(s[k := x]) == Sum(s) - s[k] + x
  {
    if k > 0 {
      assert s[k := x][1..] == s[1..][k - 1 := x];
      SumUpdate(s[1..], k - 1, x);
    } else {
      assert s[k := x][1..] == s[1..];
    }
  }

  /** Writing distinct channels whose slots hold 0 adds the readings' sum. */
  lemma {:induction false} WrittenSum(slots: seq<real>, chans: seq<int>, readings: seq<real>)
    requires |chans| == |readings|
    requires forall i :: 0 <= i < |chans| ==> 0 <= chans[i] < |slots|
    requires Distinct(chans)
    requires forall i :: 0 <= i < |chans| ==> slots[chans[i]] == 0.0
    ensures Sum(Written(slots, chans, readings)) == Sum(slots) + Sum(readings)
    decreases |chans|
  {
    if chans != [] {
      var next := slots[chans[0] := readings[0]];
      SumUpdate(slots, chans[0], readings[0]);
      forall i | 0 <= i < |chans[1..]|
        ensures next[chans[1..][i]] == 0.0
      {
        assert chans[1..][i] == chans[i + 1] != chans[0];
      }
      WrittenSum(next, chans[1..], readings[1..]);
    }
  }

  lemma {:induction false} SumZeros(n: nat)
    ensures Sum(seq(n, _ => 0.0)) == 0.0
  {
    if n > 0 {
      assert seq(n, _ => 0.0)[1..] == seq(n - 1, _ => 0.0);
      SumZeros(n - 1);
    }
  }

  /** With distinct channels, writing them over slots that hold 0 outside
      the channels gives the same vector as writing them over all zeros. */
  lemma WrittenOverZeros(slots: seq<real>, chans: seq<int>, readings: seq<real>)
    requires |chans| == |readings|
    requires forall i :: 0 <= i < |chans| ==> 0 <= chans[i] < |slots|
    requires Distinct(chans)
    requires ZeroOutside(slots, chans)
    ensures Written(slots, chans, readings) == Written(seq(|slots|, _ => 0.0), chans, readings)
  {
    var zeros := seq(|slots|, _ => 0.0);
    forall k | 0 <= k < |slots|
      ensures Written(slots, chans, readings)[k] == Written(zeros, chans, readings)[k]
    {
      if k in chans {
        var i :| 0 <= i < |chans| && chans[i] == k;
        WrittenAt(slots, chans, readings, i);
        WrittenAt(zeros, chans, readings, i);
      } else {
        WrittenOutside(slots, chans, readings, k);
        WrittenOutside(zeros, chans, readings, k);
      }
    }
  }

  /** When slots outside the configured channels hold 0 and the channels are
      distinct, the loop temperature is the truncated mean of the readings. */
  lemma TemperatureIsMean(slots: seq<real>, chans: seq<int>, readings: seq<real>)
    requires |chans| == |readings|
    requires ChannelsValid(chans) && |slots| == SLOTS
    requires Distinct(chans)
    requires ZeroOutside(slots, chans)
    ensures LoopTemperature(Written(slots, chans, readings), |chans|)
            == TruncateTowardZero(Sum(readings) / |readings| as real)
  {
    var zeros := seq(|slots|, _ => 0.0);
    var w := Written(slots, chans, readings);
    WrittenOverZeros(slots, chans, readings);
    WrittenSum(zeros, chans, readings);
    SumZeros(|slots|);
    assert Sum(w) == Sum(readings);
  }

  /** Writing the configured channels keeps every other slot at 0. */
  lemma WrittenKeepsZeroOutside(slots: seq<real>, chans: seq<int>, readings: seq<real>)
    requires |chans| == |readings|
    requires forall i :: 0 <= i < |chans| ==> 0 <= chans[i] < |slots|
    requires ZeroOutside(slots, chans)
    ensures ZeroOutside(Written(slots, chans, readings), chans)
  {
    forall k | 0 <= k < |slots| && k !in chans
      ensures Written(slots, chans, readings)[k] == 0.0
    {
      WrittenOutside(slots, chans, readings, k);
    }
  }

  // ---------------------------------------------------------------------
  // Actuation

  /** The duty count both PWM channels are set to. */
  function PwmDuty(duty: real): real
  {
    DUTY_SCALE * Abs(duty)
  }

  /** The mode chosen from the PID output. */
  function Classify(duty: real): Mode
  {
    if duty > MODE_THRESHOLD then Heat
    else if duty < -MODE_THRESHOLD then Cool
    else Rest
  }

  /** Direction pin level and the two PWM settings after an iteration. */
  datatype Outputs = Outputs(directionPin: int, peltier: Pwm, fans: Pwm)

  function Actuate(duty: real, pinBefore: int): Outputs
  {
    var on := Pwm(PWM_FREQUENCY, PwmDuty(duty));
    match Classify(duty)
    case Heat => Outputs(1, on, on)
    case Cool => Outputs(0, on, on)
    case Rest => Outputs(pinBefore, PWM_OFF, PWM_OFF)
  }

  /** Exactly one branch fires: HEAT above +25, COOL below -25, REST on the
      closed band between. */
  lemma ClassifyCases(duty: real)
    ensures Classify(duty) == Heat <==> duty > MODE_THRESHOLD
    ensures Classify(duty) == Cool <==> duty < -MODE_THRESHOLD
    ensures Classify(duty) == Rest <==> -MODE_THRESHOLD <= duty <= MODE_THRESHOLD
  {
  }

  /** The element is energised exactly when the mode is not REST; both PWM
      channels always carry the same setting; HEAT writes 1 and COOL writes 0
      to the direction pin, REST leaves it; an energised duty count exceeds
      250000. */
  lemma ActuateProperties(duty: real, pinBefore: int)
    ensures var o := Actuate(duty, pinBefore);
            && o.peltier == o.fans
            && (o.peltier != PWM_OFF <==> Classify(duty) != Rest)
            && (Classify(duty) == Heat ==> o.directionPin == 1)
            && (Classify(duty) == Cool ==> o.directionPin == 0)
            && (Classify(duty) == Rest ==> o.directionPin == pinBefore)
            && (o.peltier != PWM_OFF ==> o.peltier.duty > DUTY_SCALE * MODE_THRESHOLD)
  {
  }

  /** With the PID output inside the bounds the controller is built with,
      the duty count stays within 0 ..1000000. */
  lemma PwmDutyBounded(duty: real)
    requires PID_MIN <= duty <= PID_MAX
    ensures 0.0 <= PwmDuty(duty) <= DUTY_SCALE * PID_MAX
  {
  }

  // ---------------------------------------------------------------------
  // Setpoint buttons

  /** A button edge as the GPIO library reports it. */
  datatype Edge = Edge(gpio: int, level: int)

  /** The setpoint change an edge causes: only falling edges (level 0) of the
      two registered buttons count. */
  function SetpointDelta(e: Edge): (d: int)
    ensures -1 <= d <= 1
    ensures d != 0 <==> e.level == 0 && (e.gpio == INC_GPIO || e.gpio == DEC_GPIO)
    ensures d == 1 <==> e.level == 0 && e.gpio == INC_GPIO
  {
    if e.gpio == INC_GPIO then (if e.level == 0 then 1 else 0)
    else if e.gpio == DEC_GPIO then (if e.level == 0 then -1 else 0)
    else 0
  }

  /** The total setpoint change of a sequence of edges. */
  function EdgesDelta(edges: seq<Edge>): int
  {
    if edges == [] then 0 else EdgesDelta(edges[..|edges| - 1]) + SetpointDelta(edges[|edges| - 1])
  }

  /** An increase followed by a decrease, both falling edges, restores the
      setpoint; so does the reverse order. */
  lemma IncreaseDecreaseCancel(level: int)
    ensures EdgesDelta([Edge(INC_GPIO, 0), Edge(DEC_GPIO, 0)]) == 0
    ensures EdgesDelta([Edge(DEC_GPIO, 0), Edge(INC_GPIO, 0)]) == 0
    ensures level != 0 ==> EdgesDelta([Edge(INC_GPIO, level), Edge(DEC_GPIO, level)]) == 0
  {
    forall a: Edge, b: Edge
      ensures EdgesDelta([a, b]) == SetpointDelta(a) + SetpointDelta(b)
    {
      assert [a][..0] == [];
      assert EdgesDelta([a]) == SetpointDelta(a);
      assert [a, b][..1] == [a];
    }
  }

  /** The net change of a sequence is the number of increasing falling edges
      minus the number of decreasing ones. */
  lemma {:induction false} EdgesDeltaCounts(edges: seq<Edge>)
    ensures EdgesDelta(edges) == Count(edges, Edge(INC_GPIO, 0)) - Count(edges, Edge(DEC_GPIO, 0))
  {
    if edges != [] {
      EdgesDeltaCounts(edges[..|edges| - 1]);
    }
  }

  function Count(edges: seq<Edge>, e: Edge): nat
  {
    if edges == [] then 0
    else Count(edges[..|edges| - 1], e) + (if edges[|edges| - 1] == e then 1 else 0)
  }

  // ---------------------------------------------------------------------
  // Display cadence

  /** The display is refreshed on iterations whose count is 0 or a multiple
      of 10. */
  predicate DisplayDue(loopCount: nat)
  {
    loopCount == 0 || loopCount % DISPLAY_EVERY == 0
  }

  /** The first disjunct is subsumed: a refresh happens exactly on every
      tenth iteration. */
  lemma DisplayDueEveryTenth(loopCount: nat)
    ensures DisplayDue(loopCount) <==> loopCount % DISPLAY_EVERY == 0
  {
  }

  /** Number of refreshes in the n iterations counted from `start`. */
  function DisplayCount(start: nat, n: nat): nat
  {
    if n == 0 then 0 else DisplayCount(start, n - 1) + (if DisplayDue(start + n - 1) then 1 else 0)
  }

  /** From start-up, n iterations refresh the display ceil(n / 10) times. */
  lemma {:induction false} DisplayCountFromStart(n: nat)
    ensures DisplayCount(0, n) == (n + DISPLAY_EVERY - 1) / DISPLAY_EVERY
  {
    if n > 0 {
      DisplayCountFromStart(n - 1);
    }
  }

  /** What a refresh shows: loop temperature, setpoint, mode and duty. */
  datatype Readout = Readout(temp: int, target: int, mode: Mode, duty: real)

  // ---------------------------------------------------------------------
  // The loop state

  /** One iteration's inputs: button edges that arrive before it, the
      readings of the configured channels, and the PID controller's answer
      to (setpoint, measured) in this iteration. */
  datatype Iteration = Iteration(edges: seq<Edge>, readings: seq<real>, pid: (int, int) -> real)

  /** The setpoint change of all button edges in a run. */
  function ScriptDelta(script: seq<Iteration>): int
  {
    if script == [] then 0 else ScriptDelta(script[..|script| - 1]) + EdgesDelta(script[|script| - 1].edges)
  }

  /** The loop state as a value. */
  datatype Snapshot = Snapshot(
    temps: seq<real>, tempTarget: int, loopCount: nat,
    directionPin: int, peltier: Pwm, fans: Pwm, shown: seq<Readout>)

  predicate Runnable(s: Snapshot, chans: seq<int>, script: seq<Iteration>)
  {
    ChannelsValid(chans) && |s.temps| == SLOTS
    && forall i :: 0 <= i < |script| ==> |script[i].readings| == |chans|
  }

  /** One iteration on the loop state: deliver the edges, update the
      temperatures, average, ask the PID, actuate, maybe refresh. */
  function Iterate(s: Snapshot, chans: seq<int>, it: Iteration): (r: Snapshot)
    requires ChannelsValid(chans) && |s.temps| == SLOTS && |it.readings| == |chans|
    ensures |r.temps| == SLOTS && r.loopCount == s.loopCount + 1
  {
    var target := s.tempTarget + EdgesDelta(it.edges);
    var temps := Written(s.temps, chans, it.readings);
    var temp := LoopTemperature(temps, |chans|);
    var duty := it.pid(target, temp);
    var out := Actuate(duty, s.directionPin);
    Snapshot(temps, target, s.loopCount + 1, out.directionPin, out.peltier, out.fans,
             s.shown + (if DisplayDue(s.loopCount) then [Readout(temp, target, Classify(duty), duty)] else []))
  }

  /** The loop state after running the iterations of a script in order. */
  function Run(s: Snapshot, chans: seq<int>, script: seq<Iteration>): (r: Snapshot)
    requires Runnable(s, chans, script)
    ensures |r.temps| == SLOTS
    decreases |script|
  {
    if script == [] then s
    else
      Iterate(Run(s, chans, script[..|script| - 1]), chans, script[|script| - 1])
  }

  /** A run counts its iterations, moves the setpoint by the script's
      edges, and only appends to the display log, one refresh per due
      iteration. */
  lemma {:induction false} RunCounters(s: Snapshot, chans: seq<int>, script: seq<Iteration>)
    requires Runnable(s, chans, script)
    ensures Run(s, chans, script).loopCount == s.loopCount + |script|
    ensures Run(s, chans, script).tempTarget == s.tempTarget + ScriptDelta(script)
    ensures s.shown <= Run(s, chans, script).shown
    ensures |Run(s, chans, script).shown| == |s.shown| + DisplayCount(s.loopCount, |script|)
    decreases |script|
  {
    if script != [] {
      RunCounters(s, chans, script[..|script| - 1]);
    }
  }

  /** After a non-empty run with distinct channels, each channel's slot
      holds the reading of the last iteration. */
  lemma RunLastTemps(s: Snapshot, chans: seq<int>, script: seq<Iteration>)
    requires Runnable(s, chans, script) && Distinct(chans) && |script| > 0
    ensures forall i :: 0 <= i < |chans| ==>
              Run(s, chans, script).temps[chans[i]] == script[|script| - 1].readings[i]
  {
    var prev := Run(s, chans, script[..|script| - 1]);
    forall i | 0 <= i < |chans|
      ensures Run(s, chans, script).temps[chans[i]] == script[|script| - 1].readings[i]
    {
      WrittenAt(prev.temps, chans, script[|script| - 1].readings, i);
    }
  }

  /** Unconfigured slots stay 0 through a run. */
  lemma {:induction false} RunKeepsZeroOutside(s: Snapshot, chans: seq<int>, script: seq<Iteration>)
    requires Runnable(s, chans, script) && ZeroOutside(s.temps, chans)
    ensures ZeroOutside(Run(s, chans, script).temps, chans)
    decreases |script|
  {
    if script != [] {
      RunKeepsZeroOutside(s, chans, script[..|script| - 1]);
      var prev := Run(s, chans, script[..|script| - 1]);
      WrittenKeepsZeroOutside(prev.temps, chans, script[|script| - 1].readings);
    }
  }

  class Controller {
    /** The configured ADC channels. */
    const channels: seq<int>
    /** Latest temperature per ADC channel. */
    const temps: array<real>
    var tempTarget: int
    var loopCount: nat
    /** Level last written to the direction pin (GPIO 23). */
    var directionPin: int
    /** PWM channel 18, driving the Peltier element. */
    var peltier: Pwm
    /** PWM channel 19, driving the fans. */
    var fans: Pwm
    /** Every refresh of the display so far. */
    var shown: seq<Readout>

    ghost predicate Valid()
      reads this, temps
    {
      temps.Length == SLOTS && ChannelsValid(channels) && ZeroOutside(temps[..], channels)
    }

    /** Start-up: all slots 0, setpoint 23, no iteration run yet. The
        direction pin's level is whatever it was before the program; the
        PWM channels are taken to be off. */
    constructor (chans: seq<int>, pinAtStart: int)
      requires ChannelsValid(chans)
      ensures Valid() && fresh(temps)
      ensures channels == chans && temps[..] == seq(SLOTS, _ => 0.0)
      ensures tempTarget == INITIAL_TARGET && loopCount == 0 && shown == []
      ensures directionPin == pinAtStart && peltier == PWM_OFF && fans == PWM_OFF
    {
      channels := chans;
      temps := new real[SLOTS](_ => 0.0);
      tempTarget := INITIAL_TARGET;
      loopCount := 0;
      directionPin := pinAtStart;
      peltier, fans := PWM_OFF, PWM_OFF;
      shown := [];
    }

    /** increase_setpoint: a falling edge raises the setpoint by one. */
    method IncreaseSetpoint(gpio: int, level: int, tick: int)
      modifies this`tempTarget
      ensures tempTarget == old(tempTarget) + (if level == 0 then 1 else 0)
    {
      if level == 0 {
        tempTarget := tempTarget + 1;
      }
    }

    /** decrease_setpoint: a falling edge lowers the setpoint by one. */
    method DecreaseSetpoint(gpio: int, level: int, tick: int)
      modifies this`tempTarget
      ensures tempTarget == old(tempTarget) - (if level == 0 then 1 else 0)
    {
      if level == 0 {
        tempTarget := tempTarget - 1;
      }
    }

    /** The GPIO library calling the callback registered for the edge's pin. */
    method Deliver(e: Edge, tick: int)
      modifies this`tempTarget
      ensures tempTarget == old(tempTarget) + SetpointDelta(e)
    {
      if e.gpio == INC_GPIO {
        IncreaseSetpoint(e.gpio, e.level, tick);
      } else if e.gpio == DEC_GPIO {
        DecreaseSetpoint(e.gpio, e.level, tick);
      }
    }

    /** The temperature update: each configured channel's slot gets its
        reading, in channel order. */
    method UpdateTemps(readings: seq<real>)
      requires Valid() && |readings| == |channels|
      modifies temps
      ensures Valid()
      ensures temps[..] == Written(old(temps[..]), channels, readings)
    {
      ghost var start := temps[..];
      for i := 0 to |channels|
        invariant Written(temps[..], channels[i..], readings[i..]) == Written(start, channels, readings)
      {
        assert channels[i..][1..] == channels[i + 1..];
        assert readings[i..][1..] == readings[i + 1..];
        temps[channels[i]] := readings[i];
      }
      assert channels[|channels|..] == [];
      WrittenKeepsZeroOutside(start, channels, readings);
    }

    /** One iteration of the control loop. */
    method Step(readings: seq<real>, pid: (int, int) -> real) returns (temp: int, duty: real, mode: Mode)
      requires Valid() && |readings| == |channels|
      modifies this, temps
      ensures Valid()
      ensures temps[..] == Written(old(temps[..]), channels, readings)
      ensures temp == LoopTemperature(temps[..], |channels|)
      ensures Distinct(channels) ==> temp == TruncateTowardZero(Sum(readings) / |readings| as real)
      ensures duty == pid(tempTarget, temp)
      ensures mode == Classify(duty)
      ensures Outputs(directionPin, peltier, fans) == Actuate(duty, old(directionPin))
      ensures tempTarget == old(tempTarget) && loopCount == old(loopCount) + 1
      ensures shown == old(shown) + (if DisplayDue(old(loopCount)) then [Readout(temp, tempTarget, mode, duty)] else [])
    {
      ghost var before := temps[..];
      UpdateTemps(readings);
      if Distinct(channels) {
        TemperatureIsMean(before, channels, readings);
      }
      temp := TruncateTowardZero(Sum(temps[..]) / |channels| as real);

      duty := pid(tempTarget, temp);
      peltier := Pwm(PWM_FREQUENCY, DUTY_SCALE * Abs(duty));
      fans := Pwm(PWM_FREQUENCY, DUTY_SCALE * Abs(duty));

      if duty > MODE_THRESHOLD {
        directionPin := 1;
        mode := Heat;
      } else if duty < -MODE_THRESHOLD {
        directionPin := 0;
        mode := Cool;
      } else {
        peltier := PWM_OFF;
        fans := PWM_OFF;
        mode := Rest;
      }

      if loopCount == 0 || loopCount % DISPLAY_EVERY == 0 {
        shown := shown + [Readout(temp, tempTarget, mode, duty)];
      }
      loopCount := loopCount + 1;
    }

    /** After the loop: both PWM channels off. */
    method Shutdown()
      modifies this`peltier, this`fans
      ensures peltier == PWM_OFF && fans == PWM_OFF
    {
      peltier := PWM_OFF;
      fans := PWM_OFF;
    }

    /** One pass of the loop: the button edges that arrive first, then the
        iteration itself. */
    method RunIteration(it: Iteration)
      requires Valid() && |it.readings| == |channels|
      modifies this, temps
      ensures Valid()
      ensures State() == Iterate(old(State()), channels, it)
    {
      ghost var before := State();
      for j := 0 to |it.edges|
        modifies this`tempTarget
        invariant State() == before.(tempTarget := before.tempTarget + EdgesDelta(it.edges[..j]))
      {
        assert it.edges[..j + 1][..j] == it.edges[..j];
        Deliver(it.edges[j], j);
      }
      assert it.edges[..|it.edges|] == it.edges;
      ghost var delivered := State();
      var temp, duty, mode := Step(it.readings, it.pid);
      assert State() == Iterate(delivered, channels, Iteration([], it.readings, it.pid));
    }

    /** The loop from now until the stop flag is seen: one pass per element
        of the script, then the shutdown. */
    method RunUntilStop(script: seq<Iteration>)
      requires Valid()
      requires forall i :: 0 <= i < |script| ==> |script[i].readings| == |channels|
      modifies this, temps
      ensures Valid()
      ensures State() == Run(old(State()), channels, script).(peltier := PWM_OFF, fans := PWM_OFF)
      ensures peltier == PWM_OFF && fans == PWM_OFF
      ensures loopCount == old(loopCount) + |script|
      ensures tempTarget == old(tempTarget) + ScriptDelta(script)
      ensures old(shown) <= shown
      ensures |shown| == |old(shown)| + DisplayCount(old(loopCount), |script|)
      ensures |script| == 0 ==> directionPin == old(directionPin) && temps[..] == old(temps[..])
      ensures |script| > 0 && Distinct(channels) ==>
                forall i :: 0 <= i < |channels| ==> temps[channels[i]] == script[|script| - 1].readings[i]
    {
      ghost var start := State();
      for i := 0 to |script|
        invariant Valid()
        invariant State() == Run(start, channels, script[..i])
      {
        assert script[..i + 1][..i] == script[..i];
        RunIteration(script[i]);
      }
      assert script[..|script|] == script;
      Shutdown();
      RunCounters(start, channels, script);
      if |script| > 0 && Distinct(channels) {
        RunLastTemps(start, channels, script);
      }
    }

    /** The loop state as a value. */
    function State(): Snapshot
      reads this, temps
    {
      Snapshot(temps[..], tempTarget, loopCount, directionPin, peltier, fans, shown)
    }
  }

  /** The configuration the program runs with satisfies the controller's
      requirements, and its channels are distinct. */
  lemma SourceChannels()
    ensures ChannelsValid(CHANNELS) && Distinct(CHANNELS)
  {
  }
}
