/**
 The `run` loop of ls8/cpu.py. Its condition is a local variable that is set to
 True and never changed, so the loop only ends when an iteration calls `exit(1)`
 or raises. The model runs it for at most `fuel` iterations.
 */
module Execution {
  import opened Wrappers
  import opened Ls8

  /** How a run of at most `fuel` iterations ended, with the state and what PRN printed. */
  datatype RunResult =
    | Paused(cpu: Cpu, out: seq<int>)                  // the fuel ran out; the loop would go on
    | Exited(status: int, cpu: Cpu, out: seq<int>)     // `exit(status)` was called
    | Raised(fault: Fault, cpu: Cpu, out: seq<int>)    // an exception escaped the loop

  /** The result with `printed` written before everything the result already holds. */
  function Prepend(printed: seq<int>, r: RunResult): (r': RunResult)
    ensures r'.out == printed + r.out && r'.cpu == r.cpu
    ensures r'.Paused? == r.Paused? && r'.Exited? == r.Exited? && r'.Raised? == r.Raised?
  {
    match r
    case Paused(m, out) => Paused(m, printed + out)
    case Exited(s, m, out) => Exited(s, m, printed + out)
    case Raised(f, m, out) => Raised(f, m, printed + out)
  }

  /** The loop `while True: body()`, cut off after `fuel` iterations. */
  function Iterate(body: Cpu -> Outcome, m: Cpu, fuel: nat): (r: RunResult)
    ensures r.Exited? ==> body(r.cpu) == Exit(r.status)
    ensures r.Raised? ==> body(r.cpu) == Raise(r.fault)
    decreases fuel
  {
    if fuel == 0 then Paused(m, [])
    else
      match body(m)
      case Next(next, printed) => Prepend(printed, Iterate(body, next, fuel - 1))
      case Exit(status) => Exited(status, m, [])
      case Raise(fault) => Raised(fault, m, [])
  }

  /** `run()`, cut off after `fuel` iterations. */
  function Run(m: Cpu, fuel: nat): (r: RunResult)
    ensures r.Exited? ==> Step(r.cpu) == Exit(r.status)
    ensures r.Raised? ==> Step(r.cpu) == Raise(r.fault)
  {
    Iterate(Step, m, fuel)
  }

  /** Continues a paused run for `fuel` more iterations; a finished run stays as it is. */
  function Resume(body: Cpu -> Outcome, r: RunResult, fuel: nat): RunResult {
    if r.Paused? then Prepend(r.out, Iterate(body, r.cpu, fuel)) else r
  }

  /** Running for `a + b` iterations is running for `a`, then for `b` more from where it paused. */
  lemma {:induction false} IterateSplit(body: Cpu -> Outcome, m: Cpu, a: nat, b: nat)
    ensures Iterate(body, m, a + b) == Resume(body, Iterate(body, m, a), b)
    decreases a
  {
    if a == 0 {
      assert Prepend([], Iterate(body, m, b)) == Iterate(body, m, b);
    } else if body(m).Next? {
      var next, printed := body(m).cpu, body(m).printed;
      IterateSplit(body, next, a - 1, b);
      var r := Iterate(body, next, a - 1);
      if r.Paused? {
        PrependTwice(printed, r.out, Iterate(body, r.cpu, b));
      }
    }
  }

  /** Prepending twice is prepending the concatenation. */
  lemma PrependTwice(p: seq<int>, q: seq<int>, r: RunResult)
    ensures Prepend(p, Prepend(q, r)) == Prepend(p + q, r)
  {
    assert p + (q + r.out) == (p + q) + r.out;
  }

  /** One iteration of the run loop. */
  lemma RunUnfold(m: Cpu, fuel: nat)
    requires fuel > 0
    ensures Step(m).Next? ==> Run(m, fuel) == Prepend(Step(m).printed, Run(Step(m).cpu, fuel - 1))
    ensures Step(m).Exit? ==> Run(m, fuel) == Exited(Step(m).status, m, [])
    ensures Step(m).Raise? ==> Run(m, fuel) == Raised(Step(m).fault, m, [])
  {
  }

  /**
   What holds of every run: memory is never written, the register list keeps its
   length, PC only moves forward, each iteration prints at most one value, `exit`
   is only ever called with status 1, the only exception is IndexError, and a run
   that stopped did so in the iteration that started from the state it reports.
   */
  lemma {:induction false} RunInvariant(m: Cpu, fuel: nat)
    ensures Run(m, fuel).cpu.ram == m.ram && |Run(m, fuel).cpu.reg| == |m.reg|
    ensures Run(m, fuel).cpu.pc >= m.pc
    ensures |Run(m, fuel).out| <= fuel
    ensures Run(m, fuel).Exited? ==> Run(m, fuel).status == 1
    ensures Run(m, fuel).Raised? ==> Run(m, fuel).fault == IndexError
    ensures Run(m, fuel).Exited? ==> Step(Run(m, fuel).cpu) == Exit(1)
    ensures Run(m, fuel).Raised? ==> Step(Run(m, fuel).cpu) == Raise(IndexError)
    decreases fuel
  {
    if fuel > 0 {
      RunUnfold(m, fuel);
      if Step(m).Next? {
        RunInvariant(Step(m).cpu, fuel - 1);
      }
    }
  }

  /**
   Every run ends, and never because of HLT: each iteration moves PC forward and
   the fetch of an instruction within two cells of the end of memory raises, so
   enough fuel always reaches `exit(1)` or an IndexError.
   */
  lemma {:induction false} RunAlwaysEnds(m: Cpu, fuel: nat)
    requires fuel >= 1 && m.pc + fuel + 1 >= |m.ram|
    ensures Run(m, fuel).Exited? || Run(m, fuel).Raised?
    decreases fuel
  {
    RunUnfold(m, fuel);
    if Step(m).Next? {
      RunAlwaysEnds(Step(m).cpu, fuel - 1);
    }
  }

  /** Executing HLT only moves PC past it and clears the attribute; the loop goes on at the next byte. */
  lemma HltDoesNotStopTheLoop(m: Cpu, fuel: nat)
    requires m.pc + 2 < |m.ram| && m.ram[m.pc] == HLT
    ensures Run(m, fuel + 1) == Run(m.(running := Some(false), pc := m.pc + 1), fuel)
  {
  }

  /** `while True: body()`, as a loop: iterate until the body exits, raises, or the fuel runs out. */
  method Loop(body: Cpu -> Outcome, m: Cpu, fuel: nat) returns (r: RunResult)
    ensures r == Iterate(body, m, fuel)
  {
    var cpu := m;
    var out: seq<int> := [];
    var left := fuel;
    while left > 0
      invariant Iterate(body, m, fuel) == Prepend(out, Iterate(body, cpu, left))
      decreases left
    {
      match body(cpu)
      case Exit(status) =>
        return Exited(status, cpu, out);
      case Raise(fault) =>
        return Raised(fault, cpu, out);
      case Next(next, printed) =>
        PrependTwice(out, printed, Iterate(body, next, left - 1));
        cpu, out, left := next, out + printed, left - 1;
    }
    r := Paused(cpu, out);
  }

  /** `run()` on the CPU, cut off after `fuel` iterations. */
  method RunLoop(m: Cpu, fuel: nat) returns (r: RunResult)
    ensures r == Run(m, fuel)
  {
    r := Loop(Step, m, fuel);
  }
}
