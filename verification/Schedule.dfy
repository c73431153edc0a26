/** The Timer's daily schedule: its two registers, and when it switches its child on and off. */
module Schedule {
  import opened Protocol

  const MINUTES_IN_A_DAY := 1440
  const SECONDS_IN_A_DAY := 86400
  const DEFAULT_BEGIN := 0
  const DEFAULT_END := 1439

  /** Minutes from midnight. */
  datatype Registers = Registers(begin: U16, end: U16)

  ghost predicate InOrder(r: Registers) { r.begin <= r.end < MINUTES_IN_A_DAY }

  // ---------------------------------------------------------------- the registers

  function Subcommand(c: Code): Code { c & REGISTRY_MASK }

  /** The registers a request asks for, whether or not it is accepted. */
  function Requested(r: Registers, code: Code, argument: U16): Registers {
    if Subcommand(code) == REGISTRY_BEGIN then r.(begin := argument)
    else if Subcommand(code) == REGISTRY_END then r.(end := argument)
    else r
  }

  /** The answer to a registry request. */
  function RegistryCode(r: Registers, code: Code, argument: U16): Code {
    if Subcommand(code) == REGISTRY_BEGIN then if argument <= r.end then OK else INVALID_REQUEST_ARGUMENT
    else if Subcommand(code) == REGISTRY_END then
      if argument >= r.begin && argument < MINUTES_IN_A_DAY then OK else INVALID_REQUEST_ARGUMENT
    else UNEXPECTED_COMMAND
  }

  function RegistryStep(r: Registers, code: Code, argument: U16): Registers {
    if RegistryCode(r, code, argument) == OK then Requested(r, code, argument) else r
  }

  /** An accepted begin or end is stored, the other register is kept, and a refused request changes nothing. */
  lemma RegistryStores(r: Registers, code: Code, argument: U16)
    ensures var t, answer := RegistryStep(r, code, argument), RegistryCode(r, code, argument);
            var kind := code & REGISTRY_MASK;
            && (answer == UNEXPECTED_COMMAND <==> kind != REGISTRY_BEGIN && kind != REGISTRY_END)
            && (answer != OK ==> t == r && answer in {UNEXPECTED_COMMAND, INVALID_REQUEST_ARGUMENT})
            && (answer == OK && kind == REGISTRY_BEGIN ==> t.begin == argument && t.end == r.end)
            && (answer == OK && kind == REGISTRY_END ==> t.end == argument && t.begin == r.begin)
  {
  }

  /** A begin or end is refused exactly when accepting it would put the registers out of order. */
  lemma RefusedIffOutOfOrder(r: Registers, code: Code, argument: U16)
    requires InOrder(r) && Subcommand(code) in {REGISTRY_BEGIN, REGISTRY_END}
    ensures RegistryCode(r, code, argument) == OK <==> InOrder(Requested(r, code, argument))
  {
  }

  function RegistryRun(r: Registers, requests: seq<(Code, U16)>): Registers
    decreases |requests|
  {
    if requests == [] then r
    else RegistryRun(RegistryStep(r, requests[0].0, requests[0].1), requests[1..])
  }

  /** The registers stay in order through any requests. */
  lemma {:induction false} RegistersStayInOrder(r: Registers, requests: seq<(Code, U16)>)
    requires InOrder(r)
    ensures InOrder(RegistryRun(r, requests))
    decreases |requests|
  {
    if requests != [] {
      RegistersStayInOrder(RegistryStep(r, requests[0].0, requests[0].1), requests[1..]);
    }
  }

  // ---------------------------------------------------------------- waking up

  /** At a second of the day: which switch comes next, and at which second counted from this midnight. */
  function NextSwitch(r: Registers, nowSecond: int): (bool, int) {
    if nowSecond < r.begin * 60 then (true, r.begin * 60)
    else if nowSecond < r.end * 60 then (false, r.end * 60)
    else (true, r.begin * 60 + SECONDS_IN_A_DAY)
  }

  function SleepFrom(r: Registers, now: nat): int {
    NextSwitch(r, now % SECONDS_IN_A_DAY).1 - now % SECONDS_IN_A_DAY
  }

  /** The thread never sleeps for no time or less. */
  lemma SleepIsPositive(r: Registers, now: nat)
    requires InOrder(r)
    ensures 0 < SleepFrom(r, now) <= SECONDS_IN_A_DAY
  {
  }

  /** Second at which the thread wakes for the `n`-th time, when it starts at `start` and wakes exactly on time. */
  function Wake(r: Registers, start: nat, n: nat): nat
    requires InOrder(r)
    decreases n
  {
    if n == 0 then start
    else
      SleepIsPositive(r, Wake(r, start, n - 1));
      Wake(r, start, n - 1) + SleepFrom(r, Wake(r, start, n - 1))
  }

  /** Whether the `n`-th wake-up switches on. */
  function Commanded(r: Registers, start: nat, n: nat): bool
    requires InOrder(r) && n > 0
  {
    NextSwitch(r, Wake(r, start, n - 1) % SECONDS_IN_A_DAY).0
  }

  predicate InWindow(r: Registers, second: nat) {
    r.begin * 60 <= second % SECONDS_IN_A_DAY < r.end * 60
  }

  /** Adding less than a day either stays within the day or passes midnight once. */
  lemma SecondOfDay(w: nat, d: nat)
    requires d <= SECONDS_IN_A_DAY
    ensures (w + d) % SECONDS_IN_A_DAY ==
            if w % SECONDS_IN_A_DAY + d < SECONDS_IN_A_DAY then w % SECONDS_IN_A_DAY + d
            else w % SECONDS_IN_A_DAY + d - SECONDS_IN_A_DAY
  {
  }

  /** Every wake-up is at begin, switching on, or at end, switching off. */
  lemma WakesAtRegisters(r: Registers, start: nat, n: nat)
    requires InOrder(r) && n > 0
    ensures Wake(r, start, n) % SECONDS_IN_A_DAY == if Commanded(r, start, n) then r.begin * 60 else r.end * 60
  {
    var w := Wake(r, start, n - 1);
    SleepIsPositive(r, w);
    SecondOfDay(w, SleepFrom(r, w));
  }

  /** The thread wakes at the next register: from the start on, it sleeps through neither begin nor end. */
  lemma NothingSkipped(r: Registers, start: nat, n: nat, u: nat)
    requires InOrder(r) && Wake(r, start, n) < u < Wake(r, start, n + 1)
    ensures u % SECONDS_IN_A_DAY != r.begin * 60 && u % SECONDS_IN_A_DAY != r.end * 60
  {
    var w := Wake(r, start, n);
    SleepIsPositive(r, w);
    SecondOfDay(w, u - w);
  }

  /** A wake-up switches on exactly when it is at begin. */
  lemma OnExactlyAtBegin(r: Registers, start: nat, n: nat)
    requires InOrder(r) && n > 0
    ensures Commanded(r, start, n) <==> Wake(r, start, n) % SECONDS_IN_A_DAY == r.begin * 60
  {
    WakesAtRegisters(r, start, n);
  }

  /**
   From the first wake-up on, the commanded state at every second is ON exactly inside the window, as
   long as begin is before end.
   */
  lemma CommandedMatchesWindow(r: Registers, start: nat, n: nat, u: nat)
    requires InOrder(r) && r.begin < r.end && n > 0
    requires Wake(r, start, n) <= u < Wake(r, start, n + 1)
    ensures Commanded(r, start, n) <==> InWindow(r, u)
  {
    WakesAtRegisters(r, start, n);
    var w := Wake(r, start, n);
    SecondOfDay(w, u - w);
  }

  /** The wake-ups go on for ever, so every second from the first wake-up on lies between two of them. */
  lemma {:induction false} EverySecondIsCovered(r: Registers, start: nat, u: nat) returns (n: nat)
    requires InOrder(r) && Wake(r, start, 1) <= u
    ensures n > 0 && Wake(r, start, n) <= u < Wake(r, start, n + 1)
    decreases u
  {
    n := 1;
    while Wake(r, start, n + 1) <= u
      invariant n > 0 && Wake(r, start, n) <= u
      decreases u - Wake(r, start, n)
    {
      SleepIsPositive(r, Wake(r, start, n));
      n := n + 1;
    }
  }

  /** The schedule ever switches off exactly when begin is before end: equal registers only switch on. */
  lemma SwitchesOffIff(r: Registers, start: nat)
    requires InOrder(r)
    ensures (exists n: nat :: n > 0 && !Commanded(r, start, n)) <==> r.begin < r.end
  {
    if r.begin < r.end {
      if Commanded(r, start, 1) {
        WakesAtRegisters(r, start, 1);
        assert !Commanded(r, start, 2);
      }
    }
  }

  /** Setting the end to midnight on a new Timer makes it equal to begin, and from then on nothing switches off. */
  lemma EqualRegistersReached(start: nat) returns (requests: seq<(Code, U16)>)
    ensures var r := RegistryRun(Registers(DEFAULT_BEGIN, DEFAULT_END), requests);
            && InOrder(r) && r.begin == r.end
            && forall n: nat | n > 0 :: Commanded(r, start, n)
  {
    requests := [(REGISTRY | REGISTRY_END, 0)];
    assert requests[1..] == [];
    SwitchesOffIff(Registers(0, 0), start);
  }
}
