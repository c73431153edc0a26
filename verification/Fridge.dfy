/**
 The Fridge: its temperature is not simulated but computed, whenever it is needed, from the last command
 that changed its course. Temperatures are real numbers and times are whole seconds.
 */
module Fridge {
  import opened Devices
  import opened Protocol

  const MIN_THERMOSTAT := 2
  const MAX_THERMOSTAT := 6
  const MIN_DELAY := 5
  const MAX_DELAY := 180
  const MAX_FILL_PERCENTAGE := 100
  const AMBIENT_TEMPERATURE := 26.0
  const THRESHOLD := 2
  const INCREASE_TIME := 3300
  const CYCLE_TIME := 3600
  const REGISTRY_DELAY: Code := 0x05
  const REGISTRY_THERMOSTAT: Code := 0x06
  const REGISTRY_PERCENTAGE: Code := 0x07
  const UNABLE_TO_CREATE_THREAD: Code := 0x41
  const UNABLE_TO_CANCEL_THREAD: Code := 0x43

  datatype State = State(open: bool, thermostat: U16, delay: U16, percentage: U16,
                         lastOpened: int, lastClosed: int, lastSet: int, lastTemperature: real)

  // ---------------------------------------------------------------- the temperature

  /** Degrees gained with the door open, gained with it closed, and lost while cooling. */
  function Warming(seconds: int): real { seconds as real * 26.0 / 600.0 }

  function Rising(seconds: int): real { seconds as real * 4.0 / 3300.0 }

  function Cooling(seconds: int): real { seconds as real * 4.0 / 300.0 }

  function Lowest(s: State): real { (s.thermostat - THRESHOLD) as real }

  function Highest(s: State): real { (s.thermostat + THRESHOLD) as real }

  /** The command that last changed the course of the temperature. */
  function Since(s: State): int {
    var changed := if s.open then s.lastOpened else s.lastClosed;
    if changed > s.lastSet then changed else s.lastSet
  }

  /** Whole seconds a closed Fridge takes to reach the lower bound. */
  function SettlingTime(s: State): int {
    if s.lastTemperature > Lowest(s) then ((s.lastTemperature - Lowest(s)) * 300.0 / 4.0).Floor
    else ((Lowest(s) - s.lastTemperature) * 3300.0 / 4.0).Floor
  }

  /** On the way to the lower bound. */
  function Settling(s: State, elapsed: int): real {
    if s.lastTemperature > Lowest(s) then
      if s.lastTemperature - Cooling(elapsed) < Lowest(s) then Lowest(s) else s.lastTemperature - Cooling(elapsed)
    else
      if s.lastTemperature + Rising(elapsed) > Lowest(s) then Lowest(s) else s.lastTemperature + Rising(elapsed)
  }

  /** The hysteresis cycle: up from the lower bound, and down again. */
  function Cycle(s: State, elapsed: int): real {
    var phase := elapsed % CYCLE_TIME;
    if phase < INCREASE_TIME then Lowest(s) + Rising(phase) else Highest(s) - Cooling(phase - INCREASE_TIME)
  }

  function ClosedTemperature(s: State, elapsed: int): real {
    if elapsed > SettlingTime(s) then Cycle(s, elapsed - SettlingTime(s)) else Settling(s, elapsed)
  }

  function OpenTemperature(s: State, elapsed: int): real {
    if s.lastTemperature + Warming(elapsed) > AMBIENT_TEMPERATURE then AMBIENT_TEMPERATURE
    else s.lastTemperature + Warming(elapsed)
  }

  function Temperature(s: State, now: int): real {
    if s.open then OpenTemperature(s, now - Since(s)) else ClosedTemperature(s, now - Since(s))
  }

  // ---------------------------------------------------------------- commands

  /** `threads` tells whether the autoclose thread could be started, or cancelled. */
  function DoorStep(s: State, open: bool, automatic: bool, threads: bool, now: int): (State, Code) {
    if open == s.open then (s, OK)
    else
      var t := if open then s.(lastOpened := now) else s.(lastClosed := now);
      if open && !threads then (t, UNABLE_TO_CREATE_THREAD)
      else if !open && !automatic && !threads then (t, UNABLE_TO_CANCEL_THREAD)
      else (t.(lastTemperature := Temperature(t, now), open := open), OK)
  }

  function SwitchStep(s: State, code: Code, threads: bool, now: int): (State, Code) {
    var kind := code & SWITCH_MASK;
    if kind != SWITCH_OPEN && kind != SWITCH_CLOSE then (s, UNEXPECTED_COMMAND)
    else if code & POSITION_ON != POSITION_ON then (s, OK)
    else DoorStep(s, kind == SWITCH_OPEN, false, threads, now)
  }

  function RegistryStep(s: State, code: Code, argument: U16, now: int): (State, Code) {
    var kind := code & REGISTRY_MASK;
    if kind == REGISTRY_DELAY then
      if MIN_DELAY <= argument <= MAX_DELAY then (s.(delay := argument), OK) else (s, INVALID_REQUEST_ARGUMENT)
    else if kind == REGISTRY_THERMOSTAT then
      if MIN_THERMOSTAT <= argument <= MAX_THERMOSTAT
      then (s.(lastTemperature := Temperature(s, now), lastSet := now, thermostat := argument), OK)
      else (s, INVALID_REQUEST_ARGUMENT)
    else if kind == REGISTRY_PERCENTAGE then
      if argument <= MAX_FILL_PERCENTAGE then (s.(percentage := argument), OK) else (s, INVALID_REQUEST_ARGUMENT)
    else (s, UNEXPECTED_COMMAND)
  }

  /** An accepted register is stored and changes nothing else but the course of the temperature. */
  lemma RegistryStores(s: State, code: Code, argument: U16, now: int)
    ensures var (t, answer) := RegistryStep(s, code, argument, now);
            var kind := code & REGISTRY_MASK;
            && (answer == UNEXPECTED_COMMAND <==> kind != REGISTRY_DELAY && kind != REGISTRY_THERMOSTAT
                                                  && kind != REGISTRY_PERCENTAGE)
            && (answer == OK <==>
                  || (kind == REGISTRY_DELAY && 5 <= argument <= 180)
                  || (kind == REGISTRY_THERMOSTAT && 2 <= argument <= 6)
                  || (kind == REGISTRY_PERCENTAGE && argument <= 100))
            && (answer != OK ==> t == s && answer in {UNEXPECTED_COMMAND, INVALID_REQUEST_ARGUMENT})
            && (answer == OK ==>
                  && t.delay == (if kind == REGISTRY_DELAY then argument else s.delay)
                  && t.thermostat == (if kind == REGISTRY_THERMOSTAT then argument else s.thermostat)
                  && t.percentage == (if kind == REGISTRY_PERCENTAGE then argument else s.percentage)
                  && t.lastSet == (if kind == REGISTRY_THERMOSTAT then now else s.lastSet)
                  && t.open == s.open && t.lastOpened == s.lastOpened && t.lastClosed == s.lastClosed)
  {
  }

  // ---------------------------------------------------------------- runs

  datatype Event = Switched(code: Code, threads: bool) | Registered(code: Code, argument: U16) | AutoClosed

  function Step(s: State, now: int, e: Event): State {
    match e
    case Switched(code, threads) => SwitchStep(s, code, threads, now).0
    case Registered(code, argument) => RegistryStep(s, code, argument, now).0
    case AutoClosed => DoorStep(s, false, true, true, now).0
  }

  ghost predicate Invariant(s: State, now: int) {
    && MIN_THERMOSTAT <= s.thermostat <= MAX_THERMOSTAT && MIN_DELAY <= s.delay <= MAX_DELAY
    && s.percentage <= MAX_FILL_PERCENTAGE && 0.0 <= s.lastTemperature <= AMBIENT_TEMPERATURE
    && s.lastOpened <= now && s.lastClosed <= now && s.lastSet <= now
  }

  /** A Fridge that starts, closed, at this time. */
  function Started(now: int): State { State(false, 4, 30, 0, now, now, now, 4.0) }

  lemma CycleInBand(s: State, elapsed: int)
    ensures Lowest(s) <= Cycle(s, elapsed) <= Highest(s)
  {
  }

  lemma SettlingInRange(s: State, elapsed: int)
    requires 0 <= elapsed
    ensures s.lastTemperature >= Lowest(s) ==> Lowest(s) <= Settling(s, elapsed) <= s.lastTemperature
    ensures s.lastTemperature <= Lowest(s) ==> s.lastTemperature <= Settling(s, elapsed) <= Lowest(s)
  {
  }

  /** The temperature never leaves the range from freezing to ambient. */
  lemma TemperatureInRange(s: State, now: int)
    requires Invariant(s, now)
    ensures 0.0 <= Temperature(s, now) <= AMBIENT_TEMPERATURE
  {
    if !s.open {
      if now - Since(s) > SettlingTime(s) {
        CycleInBand(s, now - Since(s) - SettlingTime(s));
      } else {
        SettlingInRange(s, now - Since(s));
      }
    }
  }

  lemma SetStateKeeps(s: State, open: bool, automatic: bool, threads: bool, now: int)
    requires Invariant(s, now)
    ensures var t := DoorStep(s, open, automatic, threads, now).0;
            Invariant(t, now) && Temperature(t, now) == Temperature(s, now)
  {
    TemperatureInRange(s, now);
    var t := if open then s.(lastOpened := now) else s.(lastClosed := now);
    if open != s.open {
      assert Since(t) == Since(s) && Temperature(t, now) == Temperature(s, now);
    }
  }

  lemma RegistryKeeps(s: State, code: Code, argument: U16, now: int)
    requires Invariant(s, now)
    ensures var t := RegistryStep(s, code, argument, now).0;
            Invariant(t, now) && Temperature(t, now) == Temperature(s, now)
  {
    TemperatureInRange(s, now);
    var t := RegistryStep(s, code, argument, now).0;
    if code & REGISTRY_MASK == REGISTRY_THERMOSTAT && MIN_THERMOSTAT <= argument <= MAX_THERMOSTAT {
      assert Since(t) == now;
    } else {
      assert Since(t) == Since(s) && t.lastTemperature == s.lastTemperature && Lowest(t) == Lowest(s);
    }
  }

  /** No command makes the temperature jump: right after it is what it was right before. */
  lemma StepKeepsTemperature(s: State, now: int, e: Event)
    requires Invariant(s, now)
    ensures Invariant(Step(s, now, e), now) && Temperature(Step(s, now, e), now) == Temperature(s, now)
  {
    match e
    case Switched(code, threads) => SetStateKeeps(s, code & SWITCH_MASK == SWITCH_OPEN, false, threads, now);
    case Registered(code, argument) => RegistryKeeps(s, code, argument, now);
    case AutoClosed => SetStateKeeps(s, false, true, true, now);
  }

  /** Events happen at non-decreasing times, not before `now`. */
  ghost predicate InTime(now: int, es: seq<(int, Event)>)
    decreases |es|
  {
    es == [] || (now <= es[0].0 && InTime(es[0].0, es[1..]))
  }

  function Run(s: State, es: seq<(int, Event)>): State
    decreases |es|
  {
    if es == [] then s else Run(Step(s, es[0].0, es[0].1), es[1..])
  }

  function EndTime(now: int, es: seq<(int, Event)>): int {
    if es == [] then now else es[|es| - 1].0
  }

  lemma {:induction false} RunKeepsInvariant(s: State, now: int, es: seq<(int, Event)>)
    requires Invariant(s, now) && InTime(now, es)
    ensures Invariant(Run(s, es), EndTime(now, es))
    decreases |es|
  {
    if es != [] {
      StepKeepsTemperature(s, es[0].0, es[0].1);
      RunKeepsInvariant(Step(s, es[0].0, es[0].1), es[0].0, es[1..]);
    }
  }

  /** At every moment after any commands, however long ago, the temperature lies between 0 and 26 degrees. */
  lemma AlwaysInRange(start: int, es: seq<(int, Event)>, now: int)
    requires InTime(start, es) && EndTime(start, es) <= now
    ensures var s := Run(Started(start), es);
            && 0.0 <= Temperature(s, now) <= AMBIENT_TEMPERATURE
            && MIN_THERMOSTAT <= s.thermostat <= MAX_THERMOSTAT && MIN_DELAY <= s.delay <= MAX_DELAY
            && s.percentage <= MAX_FILL_PERCENTAGE
  {
    RunKeepsInvariant(Started(start), start, es);
    TemperatureInRange(Run(Started(start), es), now);
  }

  // ---------------------------------------------------------------- the door

  /** The event moves the door to where it says, if it is not there already: the thread obeys, or is not asked. */
  predicate MovesDoor(e: Event) {
    match e
    case Switched(code, threads) =>
      threads && code & POSITION_ON == POSITION_ON
      && (code & SWITCH_MASK == SWITCH_OPEN || code & SWITCH_MASK == SWITCH_CLOSE)
    case Registered(_, _) => false
    case AutoClosed => true
  }

  predicate OpensDoor(e: Event) { e.Switched? && e.code & SWITCH_MASK == SWITCH_OPEN }

  /** The event asks for a change of the door, whether or not the thread obeys. */
  predicate AsksForChange(s: State, e: Event) {
    match e
    case Switched(code, _) =>
      code & POSITION_ON == POSITION_ON
      && ((code & SWITCH_MASK == SWITCH_OPEN && !s.open) || (code & SWITCH_MASK == SWITCH_CLOSE && s.open))
    case Registered(_, _) => false
    case AutoClosed => s.open
  }

  /** What a command does to the door: a thread that fails leaves it as it was, but what was asked for is stamped. */
  lemma DoorAfter(s: State, now: int, e: Event)
    ensures var t := Step(s, now, e);
            && t.open == (if MovesDoor(e) then OpensDoor(e) else s.open)
            && (e.Switched? && e.threads ==> t.open == Obeyed(FRIDGE_DEVICE, s.open, e.code))
            && t.lastOpened == (if AsksForChange(s, e) && !s.open then now else s.lastOpened)
            && t.lastClosed == (if AsksForChange(s, e) && s.open then now else s.lastClosed)
            && (t.open != s.open ==> AsksForChange(s, e))
  {
  }

  /** Event `i` of the run is the last that moves the door. */
  ghost predicate MovesLast(es: seq<(int, Event)>, i: int) {
    0 <= i < |es| && MovesDoor(es[i].1) && forall j | i < j < |es| :: !MovesDoor(es[j].1)
  }

  /** After any run the door is where the last event that moves it has put it, or closed if there was none. */
  lemma {:induction false} DoorIsLastMoved(s: State, es: seq<(int, Event)>)
    ensures forall i | MovesLast(es, i) :: Run(s, es).open == OpensDoor(es[i].1)
    ensures (forall i | 0 <= i < |es| :: !MovesDoor(es[i].1)) ==> Run(s, es).open == s.open
    ensures (exists i :: MovesLast(es, i)) || forall i | 0 <= i < |es| :: !MovesDoor(es[i].1)
    decreases |es|
  {
    if es != [] {
      var t, rest := Step(s, es[0].0, es[0].1), es[1..];
      DoorAfter(s, es[0].0, es[0].1);
      DoorIsLastMoved(t, rest);
      if i :| MovesLast(rest, i) {
        assert MovesLast(es, i + 1);
      } else if MovesDoor(es[0].1) {
        assert MovesLast(es, 0);
      }
      forall i | MovesLast(es, i) ensures Run(s, es).open == OpensDoor(es[i].1) {
        if i > 0 {
          assert MovesLast(rest, i - 1);
        }
      }
    }
  }

  // ---------------------------------------------------------------- an open Fridge

  /** An open Fridge warms by the same amount every second until it has the temperature around it. */
  lemma OpenWarms(s: State, now: int)
    requires s.open
    ensures Temperature(s, now + 1) == if Temperature(s, now) + Warming(1) < AMBIENT_TEMPERATURE
                                       then Temperature(s, now) + Warming(1) else AMBIENT_TEMPERATURE
    ensures Warming(600) == AMBIENT_TEMPERATURE
  {
  }

  /** So after ten minutes it has, wherever it started. */
  lemma OpenGetsWarm(s: State, now: int)
    requires s.open && 0.0 <= s.lastTemperature && now >= Since(s) + 600
    ensures Temperature(s, now) == AMBIENT_TEMPERATURE
  {
  }

  // ---------------------------------------------------------------- a closed Fridge

  /** Until it has settled, a closed Fridge moves only towards the lower bound and does not pass it. */
  lemma SettlesMonotonically(s: State, early: int, late: int)
    requires !s.open && Since(s) <= early <= late <= Since(s) + SettlingTime(s)
    ensures s.lastTemperature >= Lowest(s) ==>
              Lowest(s) <= Temperature(s, late) <= Temperature(s, early) <= s.lastTemperature
    ensures s.lastTemperature <= Lowest(s) ==>
              s.lastTemperature <= Temperature(s, early) <= Temperature(s, late) <= Lowest(s)
  {
  }

  /** It moves evenly, cooling or warming, and has settled when one second more would take it past the bound. */
  lemma SettlesEvenly(s: State, now: int)
    requires !s.open && Since(s) <= now <= Since(s) + SettlingTime(s)
    ensures s.lastTemperature > Lowest(s) ==>
              && Temperature(s, now) == s.lastTemperature - Cooling(now - Since(s)) >= Lowest(s)
              && s.lastTemperature - Cooling(SettlingTime(s) + 1) < Lowest(s)
    ensures s.lastTemperature <= Lowest(s) ==>
              && Temperature(s, now) == s.lastTemperature + Rising(now - Since(s)) <= Lowest(s)
              && s.lastTemperature + Rising(SettlingTime(s) + 1) > Lowest(s)
    ensures Cooling(300) == Rising(3300) == 4.0
  {
  }

  /** From then on it stays within two degrees of the thermostat for ever. */
  lemma SettledInBand(s: State, now: int)
    requires !s.open && now > Since(s) + SettlingTime(s)
    ensures Lowest(s) <= Temperature(s, now) <= Highest(s)
  {
    CycleInBand(s, now - Since(s) - SettlingTime(s));
  }

  /** Settling takes at most 55 minutes, wherever the temperature starts from. */
  lemma SettlesInTime(s: State, now: int)
    requires Invariant(s, now) && !s.open && now > Since(s) + INCREASE_TIME
    ensures SettlingTime(s) <= INCREASE_TIME && Lowest(s) <= Temperature(s, now) <= Highest(s)
  {
    SettledInBand(s, now);
  }

  /** Then it warms evenly for 55 minutes and cools evenly for five, again and again. */
  lemma CyclesEvenly(s: State, e: nat)
    requires !s.open && e > 0
    ensures var settled := Since(s) + SettlingTime(s);
            Temperature(s, settled + e + 1) - Temperature(s, settled + e) ==
            if e % CYCLE_TIME < INCREASE_TIME then Rising(1) else -Cooling(1)
  {
    Phases(e);
  }

  /** A settled Fridge swings over the whole band: every cycle has its lowest and its highest moment. */
  lemma SwingsFully(s: State, n: nat)
    requires !s.open && n > 0
    ensures var settled := Since(s) + SettlingTime(s);
            Temperature(s, settled + n * CYCLE_TIME) == Lowest(s) &&
            Temperature(s, settled + n * CYCLE_TIME + INCREASE_TIME) == Highest(s)
  {
  }

  lemma Phases(e: int)
    ensures (e + 1) % CYCLE_TIME == if e % CYCLE_TIME == CYCLE_TIME - 1 then 0 else e % CYCLE_TIME + 1
  {
  }

  /** The temperature never moves faster than the door or the compressor allows, not even where the cycle begins. */
  lemma NeverJumps(s: State, now: int)
    requires Invariant(s, now)
    ensures var change := Temperature(s, now + 1) - Temperature(s, now);
            if s.open then 0.0 <= change <= Warming(1) else -Cooling(1) <= change <= Cooling(1)
  {
    if !s.open {
      var e := now - Since(s);
      Phases(e - SettlingTime(s));
    }
  }

  class Fridge {
    const id: DeviceId
    var open: bool
    var autocloseDelay: U16
    var fillPercentage: U16
    var thermostat: U16
    var lastOpened: int
    var lastClosed: int
    var lastThermostatSet: int
    var lastTemperature: real
    var up: seq<Response>

    function Current(): State
      reads this
    {
      State(open, thermostat, autocloseDelay, fillPercentage,
            lastOpened, lastClosed, lastThermostatSet, lastTemperature)
    }

    constructor (id: DeviceId, now: int)
      ensures this.id == id && Current() == Started(now) && Invariant(Current(), now) && up == []
    {
      this.id, open, autocloseDelay, fillPercentage, thermostat := id, false, 30, 0, 4;
      lastOpened, lastClosed, lastThermostatSet, lastTemperature, up := now, now, now, 4.0, [];
    }

    method CalculateCurrentTemperature(now: int) returns (current: real)
      ensures current == Temperature(Current(), now)
    {
      if open {
        var elapsed := now - (if lastOpened > lastThermostatSet then lastOpened else lastThermostatSet);
        current := lastTemperature + elapsed as real * 26.0 / 600.0;
        return if current > AMBIENT_TEMPERATURE then AMBIENT_TEMPERATURE else current;
      }
      var elapsed := now - (if lastClosed > lastThermostatSet then lastClosed else lastThermostatSet);
      var lowest := (thermostat - THRESHOLD) as real;
      var toRange := 0;
      if lastTemperature > lowest {
        toRange := ((lastTemperature - lowest) * 300.0 / 4.0).Floor;
        current := lastTemperature - elapsed as real * 4.0 / 300.0;
        current := if current < lowest then lowest else current;
      } else {
        toRange := ((lowest - lastTemperature) * 3300.0 / 4.0).Floor;
        current := lastTemperature + elapsed as real * 4.0 / 3300.0;
        current := if current > lowest then lowest else current;
      }
      if elapsed > toRange {
        elapsed := (elapsed - toRange) % CYCLE_TIME;
        if elapsed < INCREASE_TIME {
          current := lowest + elapsed as real * 4.0 / 3300.0;
        } else {
          elapsed := elapsed - INCREASE_TIME;
          current := (thermostat + THRESHOLD) as real - elapsed as real * 4.0 / 300.0;
        }
      }
    }

    /** Opens or closes the door at `now`; `threads` tells whether the autoclose thread obeys. */
    method SetState(newOpen: bool, automatic: bool, threads: bool, now: int) returns (code: Code)
      modifies this`open, this`lastOpened, this`lastClosed, this`lastTemperature
      ensures (Current(), code) == DoorStep(old(Current()), newOpen, automatic, threads, now)
      ensures open == if code == OK then newOpen else old(open)
      ensures code == if newOpen == old(open) || threads || (automatic && !newOpen) then OK
                      else if newOpen then UNABLE_TO_CREATE_THREAD else UNABLE_TO_CANCEL_THREAD
      ensures lastOpened == if newOpen && !old(open) then now else old(lastOpened)
      ensures lastClosed == if !newOpen && old(open) then now else old(lastClosed)
      ensures old(Invariant(Current(), now)) ==>
                Invariant(Current(), now) && Temperature(Current(), now) == old(Temperature(Current(), now))
    {
      ghost var s := Current();
      if newOpen != open {
        if newOpen {
          lastOpened := now;
          if !threads {
            code := UNABLE_TO_CREATE_THREAD;
          }
        } else {
          lastClosed := now;
          if !automatic && !threads {
            code := UNABLE_TO_CANCEL_THREAD;
          }
        }
        if (newOpen || !automatic) && !threads {
          assert (Current(), code) == DoorStep(s, newOpen, automatic, threads, now);
          if Invariant(s, now) { SetStateKeeps(s, newOpen, automatic, threads, now); }
          return;
        }
        lastTemperature := CalculateCurrentTemperature(now);
        open := newOpen;
      }
      code := OK;
      assert (Current(), code) == DoorStep(s, newOpen, automatic, threads, now);
      if Invariant(s, now) { SetStateKeeps(s, newOpen, automatic, threads, now); }
    }

    method CreateSwitchResponse(request: Request, threads: bool, now: int)
      modifies this`open, this`lastOpened, this`lastClosed, this`lastTemperature, this`up
      ensures var (s, code) := SwitchStep(old(Current()), request.commandCode, threads, now);
              Current() == s && up == old(up) + [Response(id, request.commandCode, code, [])]
      ensures |up| == |old(up)| + 1
      ensures var kind, code := request.commandCode & SWITCH_MASK, up[|old(up)|].responseCode;
              var positive := request.commandCode & POSITION_ON == POSITION_ON;
              && (code == UNEXPECTED_COMMAND <==> kind != SWITCH_OPEN && kind != SWITCH_CLOSE)
              && (code == OK && positive ==> (open <==> kind == SWITCH_OPEN))
              && (code != OK || !positive ==> open == old(open))
              && (threads && code != UNEXPECTED_COMMAND ==> code == OK)
    {
      var code := OK;
      if request.commandCode & SWITCH_MASK == SWITCH_OPEN {
        if request.commandCode & POSITION_ON == POSITION_ON {
          code := SetState(true, false, threads, now);
        }
      } else if request.commandCode & SWITCH_MASK == SWITCH_CLOSE {
        if request.commandCode & POSITION_ON == POSITION_ON {
          code := SetState(false, false, threads, now);
        }
      } else {
        code := UNEXPECTED_COMMAND;
      }
      up := up + [Response(id, request.commandCode, code, [])];
    }

    method CreateRegistryResponse(request: Request, now: int)
      modifies this`autocloseDelay, this`fillPercentage, this`thermostat
      modifies this`lastThermostatSet, this`lastTemperature, this`up
      ensures var (s, code) := RegistryStep(old(Current()), request.commandCode, request.argument, now);
              Current() == s
              && up == old(up) + [Response(id, request.commandCode, code,
                                           if code == UNEXPECTED_COMMAND then [] else [request.argument])]
      ensures |up| == |old(up)| + 1
      ensures var kind := request.commandCode & REGISTRY_MASK;
              if up[|old(up)|].responseCode == OK then
                && (kind == REGISTRY_DELAY ==> autocloseDelay == request.argument)
                && (kind == REGISTRY_THERMOSTAT ==> thermostat == request.argument && lastThermostatSet == now)
                && (kind == REGISTRY_PERCENTAGE ==> fillPercentage == request.argument)
              else Current() == old(Current())
      ensures old(Invariant(Current(), now)) ==>
                Invariant(Current(), now) && Temperature(Current(), now) == old(Temperature(Current(), now))
    {
      ghost var s := Current();
      var code := OK;
      var arguments := [request.argument];
      var kind := request.commandCode & REGISTRY_MASK;
      if kind == REGISTRY_DELAY {
        if request.argument >= MIN_DELAY && request.argument <= MAX_DELAY {
          autocloseDelay := request.argument;
        } else {
          code := INVALID_REQUEST_ARGUMENT;
        }
      } else if kind == REGISTRY_THERMOSTAT {
        if request.argument >= MIN_THERMOSTAT && request.argument <= MAX_THERMOSTAT {
          lastTemperature := CalculateCurrentTemperature(now);
          lastThermostatSet := now;
          thermostat := request.argument;
        } else {
          code := INVALID_REQUEST_ARGUMENT;
        }
      } else if kind == REGISTRY_PERCENTAGE {
        if request.argument <= MAX_FILL_PERCENTAGE {
          fillPercentage := request.argument;
        } else {
          code := INVALID_REQUEST_ARGUMENT;
        }
      } else {
        code, arguments := UNEXPECTED_COMMAND, [];
      }
      assert Current() == RegistryStep(s, request.commandCode, request.argument, now).0;
      if Invariant(s, now) { RegistryKeeps(s, request.commandCode, request.argument, now); }
      up := up + [Response(id, request.commandCode, code, arguments)];
    }
  }
}
