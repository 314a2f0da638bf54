/**
  The four-motor driver: one RMT data line shared by four ESCs through a
  4-way multiplexer whose address is set by two selector pins, the per-motor
  send order, and the scripted arm and calibration phases.

  Sending is described by the trace of observable events it produces:
  selector writes, transmissions, logged transmission errors and the
  assertion failure that a DShot value of 2048 or more raises.  Whether the
  RMT peripheral reports an error for a transmission is an input.
 */
module MotorDriver {
  import opened Wrappers
  import opened Clock
  import opened EscProtocol

  /** The two pins handed to the constructor, in the order they are passed. */
  datatype Pin = FirstPin | SecondPin

  /** A driver: its protocol and, per selector slot, the constructor pin that drives it. */
  datatype Motors = Motors(protocol: Protocol, selectors: seq<Pin>)

  /** `Motors::new`: selector slot 0 is driven by the second pin, slot 1 by the first; both start low. */
  function New(p: Protocol): (m: Motors)
    ensures m.protocol == p && |m.selectors| == 2
    ensures m.selectors[0] != m.selectors[1]
  {
    Motors(p, [SecondPin, FirstPin])
  }

  datatype Event =
    | Select(slot: nat, level: Level)
    | Transmit(codes: seq<PulseCode>)
    | TransmitErrorLogged
    | AssertionFailed

  /** `send_esc_value`: encode and transmit; a transmission error is logged and swallowed. */
  function SendEscValue(p: Protocol, value: u16, txFails: bool): (events: seq<Event>)
    ensures EncodePulse(p, value).Some? ==>
      |events| >= 1 && events[0] == Transmit(EncodePulse(p, value).value) && (|events| == 2 <==> txFails)
    ensures EncodePulse(p, value).None? <==> events == [AssertionFailed]
  {
    match EncodePulse(p, value)
    case None => [AssertionFailed]
    case Some(codes) => [Transmit(codes)] + (if txFails then [TransmitErrorLogged] else [])
  }

  /** The selector writes made before each of the four sends of `send_esc_values`. */
  const SelectorWrites: seq<seq<Event>> := [
    [Select(0, Low), Select(1, Low)],
    [Select(0, Low), Select(1, High)],
    [Select(0, High), Select(1, Low)],
    [Select(1, High), Select(1, High)]
  ]

  /** Sends `values[k..]` with the selector writes for motors `k..`, stopping at an assertion failure. */
  function SendFrom(p: Protocol, values: seq<u16>, txFails: seq<bool>, k: nat): (events: seq<Event>)
    requires |values| == |txFails| == 4 && k <= 4
    decreases 4 - k
  {
    if k == 4 then []
    else
      var sent := SelectorWrites[k] + SendEscValue(p, values[k], txFails[k]);
      if EncodePulse(p, values[k]).None? then sent
      else sent + SendFrom(p, values, txFails, k + 1)
  }

  /** `send_esc_values`: motors 0, 1, 2, 3 in that order, each after its selector writes. */
  function SendEscValues(m: Motors, values: seq<u16>, txFails: seq<bool>): (events: seq<Event>)
    requires |values| == |txFails| == 4
    ensures AssertionFailed in events <==> exists k | 0 <= k < 4 :: EncodePulse(m.protocol, values[k]).None?
  {
    SendFromPanics(m.protocol, values, txFails, 0);
    SendFrom(m.protocol, values, txFails, 0)
  }

  /** `send_throttles`: every throttle goes through the protocol's range transform first. */
  function SendThrottles(m: Motors, throttles: seq<u16>, txFails: seq<bool>): (events: seq<Event>)
    requires |throttles| == |txFails| == 4
    ensures AssertionFailed !in events
  {
    var values := seq(4, k requires 0 <= k < 4 => ThrottleTransform(m.protocol, throttles[k]));
    forall k | 0 <= k < 4 ensures EncodePulse(m.protocol, values[k]).Some? {
      TransformedThrottleEncodes(m.protocol, throttles[k]);
    }
    SendEscValues(m, values, txFails)
  }

  lemma {:induction false} SendFromPanics(p: Protocol, values: seq<u16>, txFails: seq<bool>, k: nat)
    requires |values| == |txFails| == 4 && k <= 4
    ensures AssertionFailed in SendFrom(p, values, txFails, k)
            <==> exists j | k <= j < 4 :: EncodePulse(p, values[j]).None?
    decreases 4 - k
  {
    if k < 4 {
      SendFromStep(p, values, txFails, k);
      SendFromPanics(p, values, txFails, k + 1);
      if EncodePulse(p, values[k]).None? {
        assert k <= k < 4;
      } else {
        forall j | k <= j < 4 && EncodePulse(p, values[j]).None?
          ensures k + 1 <= j
        {
        }
      }
    }
  }

  /** One motor further: the assertion trips here, or in what follows. */
  lemma SendFromStep(p: Protocol, values: seq<u16>, txFails: seq<bool>, k: nat)
    requires |values| == |txFails| == 4 && k < 4
    ensures AssertionFailed in SendFrom(p, values, txFails, k)
            <==> EncodePulse(p, values[k]).None? || AssertionFailed in SendFrom(p, values, txFails, k + 1)
  {
    var sent := SelectorWrites[k] + SendEscValue(p, values[k], txFails[k]);
    assert AssertionFailed !in SelectorWrites[k];
    if EncodePulse(p, values[k]).None? {
      assert sent[|sent| - 1] == AssertionFailed;
    } else {
      assert AssertionFailed !in sent;
    }
  }

  // ---------------------------------------------------------------------
  // What the multiplexer sees
  // ---------------------------------------------------------------------

  function LevelBit(l: Level): nat {
    if l == High then 1 else 0
  }

  /** Levels of the first and second constructor pin. */
  datatype Pins = Pins(first: Level, second: Level)

  /** The multiplexer address the pins select, the first pin being the low bit. */
  function Address(pins: Pins): (a: nat)
    ensures a < 4
    ensures a % 2 == LevelBit(pins.first) && a / 2 == LevelBit(pins.second)
  {
    LevelBit(pins.first) + 2 * LevelBit(pins.second)
  }

  /** The pin levels after one event: a selector write drives the pin wired to that slot. */
  function Apply(m: Motors, e: Event, pins: Pins): Pins
    requires |m.selectors| == 2
  {
    if e.Select? && e.slot < 2 then
      if m.selectors[e.slot] == FirstPin then pins.(first := e.level) else pins.(second := e.level)
    else pins
  }

  /** The pin levels after a whole trace. */
  function Settle(m: Motors, events: seq<Event>, pins: Pins): Pins
    requires |m.selectors| == 2
    decreases |events|
  {
    if |events| == 0 then pins else Settle(m, events[1..], Apply(m, events[0], pins))
  }

  /** Every transmission of a trace, paired with the multiplexer address it reaches. */
  function Replay(m: Motors, events: seq<Event>, pins: Pins): seq<(nat, seq<PulseCode>)>
    requires |m.selectors| == 2
    decreases |events|
  {
    if |events| == 0 then []
    else
      var here := if events[0].Transmit? then [(Address(pins), events[0].codes)] else [];
      here + Replay(m, events[1..], Apply(m, events[0], pins))
  }

  lemma {:induction false} ReplayAppend(m: Motors, a: seq<Event>, b: seq<Event>, pins: Pins)
    requires |m.selectors| == 2
    ensures Replay(m, a + b, pins) == Replay(m, a, pins) + Replay(m, b, Settle(m, a, pins))
    ensures Settle(m, a + b, pins) == Settle(m, b, Settle(m, a, pins))
    decreases |a|
  {
    if |a| > 0 {
      assert (a + b)[1..] == a[1..] + b;
      ReplayAppend(m, a[1..], b, Apply(m, a[0], pins));
    } else {
      assert a + b == b;
    }
  }

  /** The pins after the selector writes of step `k`, for a driver wired as `New` wires it. */
  function StepPins(k: nat): Pins
    requires k < 4
  {
    Pins(if k % 2 == 1 then High else Low, if k / 2 == 1 then High else Low)
  }

  /** One step of `send_esc_values`: the selector writes reach address `k`, then value `k` is transmitted there. */
  lemma SendStep(p: Protocol, value: u16, txFails: bool, k: nat, pins: Pins)
    requires k < 4 && EncodePulse(p, value).Some?
    requires k == 3 ==> pins.second == High
    ensures Settle(New(p), SelectorWrites[k] + SendEscValue(p, value, txFails), pins) == StepPins(k)
    ensures Replay(New(p), SelectorWrites[k] + SendEscValue(p, value, txFails), pins)
            == [(k, EncodePulse(p, value).value)]
  {
    var m := New(p);
    var writes := SelectorWrites[k];
    var send := SendEscValue(p, value, txFails);
    ReplayAppend(m, writes, send, pins);
    assert Settle(m, writes, pins) == StepPins(k) by {
      assert writes[1..][1..] == [];
    }
    assert Replay(m, writes, pins) == [] by {
      assert writes[1..][1..] == [];
    }
    assert Settle(m, send, StepPins(k)) == StepPins(k) && Replay(m, send, StepPins(k)) == [(k, send[0].codes)] by {
      if txFails {
        assert send[1..][1..] == [];
      }
    }
  }

  /** Motors `k..3`, each paired with its address and its encoded value. */
  function Expected(p: Protocol, values: seq<u16>, k: nat): (r: seq<(nat, seq<PulseCode>)>)
    requires |values| == 4 && k <= 4
    requires forall j | 0 <= j < 4 :: EncodePulse(p, values[j]).Some?
    ensures |r| == 4 - k
    ensures forall j | 0 <= j < 4 - k :: r[j] == (k + j, EncodePulse(p, values[k + j]).value)
    decreases 4 - k
  {
    if k == 4 then [] else [(k, EncodePulse(p, values[k]).value)] + Expected(p, values, k + 1)
  }

  lemma {:induction false} SendFromAddresses(p: Protocol, values: seq<u16>, txFails: seq<bool>, k: nat, pins: Pins)
    requires |values| == |txFails| == 4 && k <= 4
    requires forall j | 0 <= j < 4 :: EncodePulse(p, values[j]).Some?
    requires k == 3 ==> pins.second == High
    ensures Replay(New(p), SendFrom(p, values, txFails, k), pins) == Expected(p, values, k)
    decreases 4 - k
  {
    if k < 4 {
      var m := New(p);
      var step := SelectorWrites[k] + SendEscValue(p, values[k], txFails[k]);
      var rest := SendFrom(p, values, txFails, k + 1);
      assert SendFrom(p, values, txFails, k) == step + rest;
      SendStep(p, values[k], txFails[k], k, pins);
      SendFromAddresses(p, values, txFails, k + 1, StepPins(k));
      ReplayAppend(m, step, rest, pins);
    }
  }

  /**
    `send_esc_values` on a driver built by `new`: whatever the pins' levels
    beforehand and whichever transmissions fail, value `k` is transmitted
    exactly once, in index order, while the multiplexer address is `k`.
   */
  lemma SendEscValuesOrder(p: Protocol, values: seq<u16>, txFails: seq<bool>, pins: Pins)
    requires |values| == |txFails| == 4
    requires forall k | 0 <= k < 4 :: EncodePulse(p, values[k]).Some?
    ensures var sent := Replay(New(p), SendEscValues(New(p), values, txFails), pins);
      |sent| == 4 && forall k | 0 <= k < 4 :: sent[k] == (k, EncodePulse(p, values[k]).value)
  {
    SendFromAddresses(p, values, txFails, 0, pins);
  }

  /** Logged transmission errors never change what is transmitted or where. */
  lemma TransmitErrorsIgnored(p: Protocol, values: seq<u16>, a: seq<bool>, b: seq<bool>, pins: Pins)
    requires |values| == |a| == |b| == 4
    requires forall k | 0 <= k < 4 :: EncodePulse(p, values[k]).Some?
    ensures Replay(New(p), SendEscValues(New(p), values, a), pins)
            == Replay(New(p), SendEscValues(New(p), values, b), pins)
  {
    SendEscValuesOrder(p, values, a, pins);
    SendEscValuesOrder(p, values, b, pins);
  }

  /** `send_throttles`: motor `k` receives the transformed throttle `k`, and it decodes back to it. */
  lemma SendThrottlesDelivers(p: Protocol, throttles: seq<u16>, txFails: seq<bool>, pins: Pins, k: nat)
    requires |throttles| == |txFails| == 4 && k < 4
    ensures var sent := Replay(New(p), SendThrottles(New(p), throttles, txFails), pins);
      |sent| == 4 && sent[k].0 == k
      && (p.IsDShot() ==> DecodeFrame(p, sent[k].1) == Some((ThrottleTransform(p, throttles[k]), false)))
      && (!p.IsDShot() ==> DecodeOneShot(sent[k].1) == Some(ThrottleTransform(p, throttles[k])))
  {
    var values := seq(4, j requires 0 <= j < 4 => ThrottleTransform(p, throttles[j]));
    forall j | 0 <= j < 4 ensures EncodePulse(p, values[j]).Some? {
      TransformedThrottleEncodes(p, throttles[j]);
    }
    SendEscValuesOrder(p, values, txFails, pins);
    TransformedThrottleEncodes(p, throttles[k]);
  }

  /** How `new` wires the selectors: slot 0 drives the second pin and slot 1 the first, nothing else changes. */
  lemma NewWiring(p: Protocol, level: Level, pins: Pins)
    ensures Apply(New(p), Select(0, level), pins) == Pins(pins.first, level)
    ensures Apply(New(p), Select(1, level), pins) == Pins(level, pins.second)
  {
  }

  // ---------------------------------------------------------------------
  // Scripted arm and calibration phases
  // ---------------------------------------------------------------------

  /** One phase of a script: the four wire values sent over and over for `duration` ticks. */
  datatype Phase = Phase(duration: Ticks, values: seq<u16>)

  /**
    The loop `while Instant::now() <= end { send }` over a script of clock
    readings: the number of sends made before the first reading past `end`,
    and the readings left after it.  `None` when the script runs out first,
    which on the device is a loop that has not finished yet.
   */
  function Hold(end: Ticks, clock: seq<Ticks>): (r: Option<(nat, seq<Ticks>)>)
    ensures r.Some? <==> exists i | 0 <= i < |clock| :: clock[i] > end
    ensures r.Some? ==>
      r.value.0 < |clock| && clock[r.value.0] > end && r.value.1 == clock[r.value.0 + 1..]
      && forall i | 0 <= i < r.value.0 :: clock[i] <= end
    decreases |clock|
  {
    if |clock| == 0 then None
    else if clock[0] > end then Some((0, clock[1..]))
    else
      var later :- Hold(end, clock[1..]);
      Some((later.0 + 1, later.1))
  }

  /**
    One phase: a first reading fixes the deadline `now.saturating_add(duration)`,
    then the phase's values are sent while the readings stay within it.
    Yields the number of sends and the readings left.
   */
  function RunPhase(ph: Phase, clock: seq<Ticks>): (r: Option<(nat, seq<Ticks>)>)
    ensures r.Some? ==> var n := r.value.0;
      n + 1 < |clock| && r.value.1 == clock[n + 2..]
      && (forall i | 1 <= i <= n :: clock[i] <= SaturatingAdd(clock[0], ph.duration))
      && clock[n + 1] > SaturatingAdd(clock[0], ph.duration)
    ensures r.Some? && clock[0] + ph.duration <= MaxTicks ==> clock[r.value.0 + 1] - clock[0] > ph.duration
    ensures r.None? <==> |clock| == 0 || forall i | 1 <= i < |clock| :: clock[i] <= SaturatingAdd(clock[0], ph.duration)
  {
    if |clock| == 0 then None
    else Hold(SaturatingAdd(clock[0], ph.duration), clock[1..])
  }

  /** Runs the phases in order; yields how many times each phase sent its values. */
  function RunScript(phases: seq<Phase>, clock: seq<Ticks>): (r: Option<seq<nat>>)
    ensures r.Some? ==> |r.value| == |phases|
    decreases |phases|
  {
    if |phases| == 0 then Some([])
    else
      var first :- RunPhase(phases[0], clock);
      var rest :- RunScript(phases[1..], first.1);
      Some([first.0] + rest)
  }

  /** The clock readings the first `j` phases use up: each takes its first reading, one per send and the one past its deadline. */
  function Used(counts: seq<nat>, j: nat): nat
    requires j <= |counts|
    decreases j
  {
    if j == 0 then 0 else counts[0] + 2 + Used(counts[1..], j - 1)
  }

  /** The sends the first `j` phases make. */
  function SendsBefore(counts: seq<nat>, j: nat): nat
    requires j <= |counts|
    decreases j
  {
    if j == 0 then 0 else counts[0] + SendsBefore(counts[1..], j - 1)
  }

  /** A finished script is its first phase followed by the rest of the script on the readings that phase left. */
  lemma RunScriptFirst(phases: seq<Phase>, clock: seq<Ticks>)
    requires RunScript(phases, clock).Some? && |phases| > 0
    ensures RunPhase(phases[0], clock).Some?
    ensures var first := RunPhase(phases[0], clock).value;
      first.0 + 2 <= |clock| && first.1 == clock[first.0 + 2..]
      && RunScript(phases[1..], first.1).Some?
      && RunScript(phases, clock).value == [first.0] + RunScript(phases[1..], first.1).value
  {
  }

  /**
    A finished script, cut after its first `j` phases, is the rest of the
    script run on the readings those phases left: they use up
    `Used(counts, j)` readings.
   */
  lemma {:induction false} RunScriptSuffix(phases: seq<Phase>, clock: seq<Ticks>, counts: seq<nat>, j: nat)
    requires RunScript(phases, clock) == Some(counts) && j <= |phases|
    ensures Used(counts, j) <= |clock|
    ensures RunScript(phases[j..], clock[Used(counts, j)..]) == Some(counts[j..])
    decreases j
  {
    if j == 0 {
      assert phases[0..] == phases && clock[0..] == clock && counts[0..] == counts;
    } else {
      var n, left, rest := Peel(phases, clock, counts);
      var tail, k := phases[1..], j - 1;
      RunScriptSuffix(tail, left, rest, k);
      SuffixStep(phases, clock, counts, n, left, rest, tail, j, k, Used(rest, k));
    }
  }

  /** The first phase of a finished script: its count, the clock readings left, and the remaining counts. */
  lemma Peel(phases: seq<Phase>, clock: seq<Ticks>, counts: seq<nat>) returns (n: nat, left: seq<Ticks>, rest: seq<nat>)
    requires RunScript(phases, clock) == Some(counts) && |phases| > 0
    ensures counts == [n] + rest && n + 2 <= |clock| && left == clock[n + 2..]
    ensures RunScript(phases[1..], left) == Some(rest)
  {
    RunScriptFirst(phases, clock);
    var first := RunPhase(phases[0], clock).value;
    n, left, rest := first.0, first.1, RunScript(phases[1..], first.1).value;
  }

  /** The step of `RunScriptSuffix`: the suffix after the first phase, cut `j - 1` phases further on. */
  lemma SuffixStep(phases: seq<Phase>, clock: seq<Ticks>, counts: seq<nat>, n: nat, left: seq<Ticks>,
                   rest: seq<nat>, tail: seq<Phase>, j: nat, k: nat, start: nat)
    requires 0 < j <= |phases| && k == j - 1 && tail == phases[1..]
    requires |counts| == |phases| && counts == [n] + rest
    requires n + 2 <= |clock| && left == clock[n + 2..] && start == Used(rest, k) && start <= |left|
    requires RunScript(tail[k..], left[start..]) == Some(rest[k..])
    ensures Used(counts, j) <= |clock|
    ensures RunScript(phases[j..], clock[Used(counts, j)..]) == Some(counts[j..])
  {
    UsedStep(counts, n, rest, j);
    var u := Used(counts, j);
    assert rest[k..] == counts[j..] by {
      assert counts[1..] == rest;
    }
    assert tail[k..] == phases[j..];
    assert left[start..] == clock[u..];
    ScriptCongruent(tail[k..], phases[j..], left[start..], clock[u..], rest[k..], counts[j..]);
  }

  lemma UsedStep(counts: seq<nat>, n: nat, rest: seq<nat>, j: nat)
    requires 0 < j <= |counts| && counts == [n] + rest
    ensures Used(counts, j) == n + 2 + Used(rest, j - 1)
  {
    assert counts[1..] == rest;
  }

  lemma ScriptCongruent(phases: seq<Phase>, phases': seq<Phase>, clock: seq<Ticks>, clock': seq<Ticks>,
                        counts: seq<nat>, counts': seq<nat>)
    requires RunScript(phases, clock) == Some(counts)
    requires phases == phases' && clock == clock' && counts == counts'
    ensures RunScript(phases', clock') == Some(counts')
  {
  }

  /** The first phase of a finished script sends its count of times and leaves the readings after them. */
  lemma FirstOfSuffix(phases: seq<Phase>, clock: seq<Ticks>, counts: seq<nat>)
    requires RunScript(phases, clock) == Some(counts) && |phases| > 0
    ensures |counts| > 0 && counts[0] + 2 <= |clock|
    ensures RunPhase(phases[0], clock) == Some((counts[0], clock[counts[0] + 2..]))
  {
    RunScriptFirst(phases, clock);
  }

  /**
    Phase `j` of a finished script starts on reading `Used(counts, j)`, sends
    once per reading within its own saturated deadline counted from that
    reading, and ends on the first reading past it.
   */
  lemma PhaseDeadline(phases: seq<Phase>, clock: seq<Ticks>, j: nat)
    requires RunScript(phases, clock).Some? && j < |phases|
    ensures var counts := RunScript(phases, clock).value;
      var start := Used(counts, j);
      start + counts[j] + 2 <= |clock|
      && (forall i | start + 1 <= i <= start + counts[j] :: clock[i] <= SaturatingAdd(clock[start], phases[j].duration))
      && clock[start + counts[j] + 1] > SaturatingAdd(clock[start], phases[j].duration)
  {
    var counts := RunScript(phases, clock).value;
    RunScriptSuffix(phases, clock, counts, j);
    var start := Used(counts, j);
    FirstOfSuffix(phases[j..], clock[start..], counts[j..]);
    assert phases[j..][0] == phases[j] && counts[j..][0] == counts[j];
    PhaseWithin(phases[j], clock, start, counts[j]);
  }

  /** A phase run on the readings from `start` on, read back on the whole script of readings. */
  lemma PhaseWithin(ph: Phase, clock: seq<Ticks>, start: nat, n: nat)
    requires start <= |clock| && RunPhase(ph, clock[start..]).Some? && RunPhase(ph, clock[start..]).value.0 == n
    ensures start + n + 2 <= |clock|
    ensures forall i | start + 1 <= i <= start + n :: clock[i] <= SaturatingAdd(clock[start], ph.duration)
    ensures clock[start + n + 1] > SaturatingAdd(clock[start], ph.duration)
  {
    var c := clock[start..];
    forall i | start + 1 <= i <= start + n
      ensures clock[i] <= SaturatingAdd(clock[start], ph.duration)
    {
      assert clock[i] == c[i - start];
    }
    assert clock[start + n + 1] == c[n + 1];
  }

  /** Send number `SendsBefore(counts, j) + i` of a script is phase `j`'s values, for every `i` below its count. */
  lemma {:induction false} SentAt(phases: seq<Phase>, counts: seq<nat>, j: nat, i: nat)
    requires |counts| == |phases| && j < |phases| && i < counts[j]
    ensures |Sent(phases, counts)| == SendsBefore(counts, |phases|)
    ensures SendsBefore(counts, j) + i < |Sent(phases, counts)|
    ensures Sent(phases, counts)[SendsBefore(counts, j) + i] == phases[j].values
    decreases j
  {
    SentLength(phases, counts);
    var head := Repeat(phases[0].values, counts[0]);
    assert Sent(phases, counts) == head + Sent(phases[1..], counts[1..]);
    if j > 0 {
      SentAt(phases[1..], counts[1..], j - 1, i);
    }
  }

  lemma {:induction false} SentLength(phases: seq<Phase>, counts: seq<nat>)
    requires |counts| == |phases|
    ensures |Sent(phases, counts)| == SendsBefore(counts, |phases|)
    decreases |phases|
  {
    if |phases| > 0 {
      SentLength(phases[1..], counts[1..]);
    }
  }

  /**
    A finished script's timeline: its `k`-th send of phase `j` carries phase
    `j`'s values and is made on a clock reading within that phase's deadline.
   */
  lemma ScriptTimeline(phases: seq<Phase>, clock: seq<Ticks>, j: nat, i: nat)
    requires RunScript(phases, clock).Some? && j < |phases|
    requires i < RunScript(phases, clock).value[j]
    ensures var counts := RunScript(phases, clock).value;
      var start := Used(counts, j);
      start + i + 1 < |clock|
      && SendsBefore(counts, j) + i < |Sent(phases, counts)|
      && Sent(phases, counts)[SendsBefore(counts, j) + i] == phases[j].values
      && clock[start + i + 1] <= SaturatingAdd(clock[start], phases[j].duration)
  {
    var counts := RunScript(phases, clock).value;
    PhaseDeadline(phases, clock, j);
    SentAt(phases, counts, j, i);
  }

  function Repeat<T>(x: T, n: nat): (r: seq<T>)
    ensures |r| == n && forall i | 0 <= i < n :: r[i] == x
  {
    if n == 0 then [] else [x] + Repeat(x, n - 1)
  }

  /** The wire values a script sends, one entry per `send_esc_values` call, in order. */
  function Sent(phases: seq<Phase>, counts: seq<nat>): seq<seq<u16>>
    requires |counts| == |phases|
    decreases |phases|
  {
    if |phases| == 0 then [] else Repeat(phases[0].values, counts[0]) + Sent(phases[1..], counts[1..])
  }

  /** A script only ever sends the values of one of its phases. */
  lemma {:induction false} SentFromPhases(phases: seq<Phase>, counts: seq<nat>)
    requires |counts| == |phases|
    ensures forall v | v in Sent(phases, counts) :: exists j | 0 <= j < |phases| :: v == phases[j].values
    decreases |phases|
  {
    if |phases| > 0 {
      SentFromPhases(phases[1..], counts[1..]);
      forall v | v in Sent(phases, counts)
        ensures exists j | 0 <= j < |phases| :: v == phases[j].values
      {
        if v in Repeat(phases[0].values, counts[0]) {
          assert v == phases[0].values;
        } else {
          assert v in Sent(phases[1..], counts[1..]);
          var j :| 0 <= j < |phases| - 1 && v == phases[1..][j].values;
          assert v == phases[j + 1].values;
        }
      }
    }
  }

  /** Four copies of one wire value. */
  function All(v: u16): seq<u16> {
    [v, v, v, v]
  }

  /** `send_throttles([t; 4])` puts the transformed throttle on all four lines. */
  function Throttle(p: Protocol, t: u16): seq<u16> {
    All(ThrottleTransform(p, t))
  }

  /** `arm_oneshot` (RMT driver): 1 s of throttle 0, 1 s of 1200, 1 s of 1000. */
  function ArmOneShotScript(p: Protocol): seq<Phase> {
    [Phase(Seconds(1), Throttle(p, 0)), Phase(Seconds(1), Throttle(p, 1200)), Phase(Seconds(1), Throttle(p, 1000))]
  }

  /** `calibrate`: 1 s of throttle 0, 1 s of 1200, 4 s of 2000, 4 s of 1000. */
  function CalibrateScript(p: Protocol): seq<Phase> {
    [Phase(Seconds(1), Throttle(p, 0)), Phase(Seconds(1), Throttle(p, 1200)),
     Phase(Seconds(4), Throttle(p, 2000)), Phase(Seconds(4), Throttle(p, 1000))]
  }

  /** `arm_dshot`: 420 ms of raw value 0, 420 ms of raw value 48, then 420 ms of throttle 0. */
  function ArmDShotScript(p: Protocol): seq<Phase> {
    [Phase(Millis(420), All(0)), Phase(Millis(420), All(48)), Phase(Millis(420), Throttle(p, 0))]
  }

  /** `arm_oneshot` (drone driver): 3 s of throttle 1000. */
  function ArmOneShotHoldScript(p: Protocol): seq<Phase> {
    [Phase(Seconds(3), Throttle(p, 1000))]
  }

  /** A script whose every value encodes never trips the DShot assertion, whatever the clock does. */
  lemma {:induction false} ScriptNeverFails(m: Motors, phases: seq<Phase>, counts: seq<nat>, txFails: seq<bool>)
    requires |counts| == |phases| && |txFails| == 4
    requires forall j | 0 <= j < |phases| :: |phases[j].values| == 4
    requires forall j, k | 0 <= j < |phases| && 0 <= k < 4 :: EncodePulse(m.protocol, phases[j].values[k]).Some?
    ensures forall v | v in Sent(phases, counts) :: |v| == 4 && AssertionFailed !in SendEscValues(m, v, txFails)
  {
    SentFromPhases(phases, counts);
  }

  /** A script whose phases all send values from `allowed` sends nothing else. */
  lemma SentOnly(phases: seq<Phase>, counts: seq<nat>, allowed: set<seq<u16>>)
    requires |counts| == |phases|
    requires forall j | 0 <= j < |phases| :: phases[j].values in allowed
    ensures forall v | v in Sent(phases, counts) :: v in allowed
  {
    SentFromPhases(phases, counts);
  }

  /** The OneShot wire values of the scripted throttles: 0, 1000, 1200 and 2000 become 1000, 1500, 1600 and 2000. */
  lemma OneShotScriptValues(p: Protocol)
    requires !p.IsDShot()
    ensures Throttle(p, 0) == All(1000) && Throttle(p, 1000) == All(1500)
    ensures Throttle(p, 1200) == All(1600) && Throttle(p, 2000) == All(2000)
  {
  }

  /** OneShot arming sends only the idle 1000, the 1600 arming pulse and the 1500 hold on the wire. */
  lemma ArmOneShotWire(p: Protocol, counts: seq<nat>)
    requires !p.IsDShot() && |counts| == 3
    ensures forall v | v in Sent(ArmOneShotScript(p), counts) :: v in {All(1000), All(1600), All(1500)}
  {
    OneShotScriptValues(p);
    SentOnly(ArmOneShotScript(p), counts, {All(1000), All(1600), All(1500)});
  }

  /** Calibration sends 1000, 1600, then the full 2000 and the 1500 pulse widths, nothing else. */
  lemma CalibrateWire(p: Protocol, counts: seq<nat>)
    requires !p.IsDShot() && |counts| == 4
    ensures forall v | v in Sent(CalibrateScript(p), counts) :: v in {All(1000), All(1600), All(2000), All(1500)}
  {
    OneShotScriptValues(p);
    SentOnly(CalibrateScript(p), counts, {All(1000), All(1600), All(2000), All(1500)});
  }

  /** The drone's arm loop holds the 1500 pulse width (throttle 1000) and nothing else. */
  lemma ArmOneShotHoldWire(p: Protocol, counts: seq<nat>)
    requires !p.IsDShot() && |counts| == 1
    ensures forall v | v in Sent(ArmOneShotHoldScript(p), counts) :: v == All(1500)
  {
    OneShotScriptValues(p);
    SentOnly(ArmOneShotHoldScript(p), counts, {All(1500)});
  }

  /** DShot arming sends raw 0, raw 48 and the transformed zero throttle 49, and none trips the assertion. */
  lemma ArmDShotWire(p: Protocol, counts: seq<nat>, txFails: seq<bool>)
    requires p.IsDShot() && |counts| == 3 && |txFails| == 4
    ensures forall v | v in Sent(ArmDShotScript(p), counts) :: v in {All(0), All(48), All(49)}
    ensures forall v | v in Sent(ArmDShotScript(p), counts) :: AssertionFailed !in SendEscValues(New(p), v, txFails)
  {
    ArmDShotPhases(p);
    ArmingScriptWire(p, ArmDShotScript(p), counts, txFails);
  }

  /** A DShot script of the three arming values, each of which encodes, sends only those and never trips the assertion. */
  lemma ArmingScriptWire(p: Protocol, script: seq<Phase>, counts: seq<nat>, txFails: seq<bool>)
    requires p.IsDShot() && |counts| == |script| && |txFails| == 4
    requires forall j | 0 <= j < |script| :: script[j].values in {All(0), All(48), All(49)}
    requires forall j | 0 <= j < |script| :: |script[j].values| == 4
    requires forall j, k | 0 <= j < |script| && 0 <= k < 4 :: EncodePulse(p, script[j].values[k]).Some?
    ensures forall v | v in Sent(script, counts) :: v in {All(0), All(48), All(49)}
    ensures forall v | v in Sent(script, counts) :: |v| == 4 && AssertionFailed !in SendEscValues(New(p), v, txFails)
  {
    SentOnly(script, counts, {All(0), All(48), All(49)});
    ScriptNeverFails(New(p), script, counts, txFails);
  }

  /** Each DShot arming phase sends one of raw 0, raw 48 and 49 to all four motors, and each encodes. */
  lemma ArmDShotPhases(p: Protocol)
    requires p.IsDShot()
    ensures forall j | 0 <= j < |ArmDShotScript(p)| :: ArmDShotScript(p)[j].values in {All(0), All(48), All(49)}
    ensures forall j | 0 <= j < |ArmDShotScript(p)| :: |ArmDShotScript(p)[j].values| == 4
    ensures forall j, k | 0 <= j < |ArmDShotScript(p)| && 0 <= k < 4 :: EncodePulse(p, ArmDShotScript(p)[j].values[k]).Some?
  {
    assert Throttle(p, 0) == All(49);
    assert EncodePulse(p, 0).Some? && EncodePulse(p, 48).Some? && EncodePulse(p, 49).Some?;
  }
}
