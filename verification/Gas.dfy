/** Gas metering and termination, for every program whatsoever. */
module Gas {
  import opened Text
  import opened Bytecode
  import opened Avm

  type Ticker = Machine -> Option<Machine>

  /** One instruction of StartExecution's loop; None when the loop ends. */
  function Tick(p: seq<Instruction>, cx: Context, m: Machine, limit: nat): Option<Machine> {
    if m.core.ic >= |p| then None
    else match Step(p, cx, m, limit) case Running(e) => Some(e) case Halted(_, _) => None
  }

  function Ticks(p: seq<Instruction>, cx: Context, limit: nat): Ticker { m => Tick(p, cx, m, limit) }

  /** The state after `n` instructions, if the run gets that far. */
  function Run(tick: Ticker, m: Machine, n: nat): Option<Machine> {
    if n == 0 then Some(m)
    else match Run(tick, m, n - 1)
         case None => None
         case Some(d) => tick(d)
  }

  /** Only STOP and PC are free, and neither lets the run continue. */
  lemma FreeInstructionsHalt(p: seq<Instruction>, cx: Context, m: Machine, limit: nat)
    requires 0 <= m.core.ic < |p| && Price(p[m.core.ic].op) == 0
    ensures Step(p, cx, m, limit).Halted?
  {
  }

  /** One return address per saved frame pointer. */
  predicate Balanced(c: Core) { |c.frames| == |c.rets| }

  /** Calls and storage are as before. */
  predicate Quiet(c: Core, r: Outcome) { r.Next? ==> r.core.frames == c.frames && r.core.rets == c.rets && r.core.store == c.store }

  lemma ConcatQuiet(c: Core, st: seq<int>, x: int, y: int, limit: nat)
    ensures Quiet(c, Concat(c, st, y, x, limit))
  {
  }

  lemma CutQuiet(c: Core, st: seq<int>, x: int, y: int, z: int, limit: nat)
    ensures Quiet(c, IndexString(c, st, y, x, limit)) && Quiet(c, SliceString(c, st, z, y, x, limit))
  {
  }

  predicate IsText(op: Opcode) {
    match op
    case STRCONCAT | STRLEN | EMITSTR | STRINDEX | STRSLICE | STRTOINT | INTTOSTR | TSXDATA | PLOAD | EQ => true
    case _ => false
  }

  lemma TextQuiet(code: nat, cx: Context, c: Core, ins: Instruction, st: seq<int>, x: int, y: int, z: int, limit: nat)
    requires Valid(ins) && IsText(ins.op)
    ensures Quiet(c, Apply(code, cx, c, ins, st, x, y, z, limit))
  {
    if ins.op == STRCONCAT { ConcatQuiet(c, st, x, y, limit); } else { CutQuiet(c, st, x, y, z, limit); }
  }

  lemma ApplyQuiet(code: nat, cx: Context, c: Core, ins: Instruction, st: seq<int>, x: int, y: int, z: int, limit: nat)
    requires Valid(ins) && ins.op != CALL && ins.op != RETURN && ins.op != PSTORE
    ensures Quiet(c, Apply(code, cx, c, ins, st, x, y, z, limit))
  {
    if IsText(ins.op) { TextQuiet(code, cx, c, ins, st, x, y, z, limit); }
  }

  lemma ApplyBalanced(code: nat, cx: Context, c: Core, ins: Instruction, st: seq<int>, x: int, y: int, z: int, limit: nat)
    requires Balanced(c) && Valid(ins) && Apply(code, cx, c, ins, st, x, y, z, limit).Next?
    ensures Balanced(Apply(code, cx, c, ins, st, x, y, z, limit).core)
  {
    if ins.op != CALL && ins.op != RETURN && ins.op != PSTORE { ApplyQuiet(code, cx, c, ins, st, x, y, z, limit); }
  }

  lemma StepBalanced(p: seq<Instruction>, cx: Context, c: Core, limit: nat)
    requires Balanced(c) && CoreStep(p, cx, c, limit).Next?
    ensures Balanced(CoreStep(p, cx, c, limit).core)
  {
    ApplyBalanced(|p|, cx, c, p[c.ic], c.stack[..|c.stack| - Arity(p[c.ic].op)], Nth(c.stack, 0), Nth(c.stack, 1), Nth(c.stack, 2), limit);
  }

  lemma StepMetered(p: seq<Instruction>, cx: Context, m: Machine, limit: nat)
    ensures var r := Step(p, cx, m, limit);
      && r.m.gasUsed + r.m.gasAvailable == m.gasUsed + m.gasAvailable
      && (r.Running? ==> r.m.gasUsed > m.gasUsed && (Balanced(m.core) ==> Balanced(r.m.core)))
  {
    StepCharges(p, cx, m, limit);
    if CoreStep(p, cx, m.core, limit).Next? && Balanced(m.core) { StepBalanced(p, cx, m.core, limit); }
  }

  /** What one tick does to gas and calls. */
  ghost predicate Honest(tick: Ticker) {
    forall m {:trigger tick(m)} :: tick(m).Some? ==>
      var e := tick(m).value;
      && e.gasUsed + e.gasAvailable == m.gasUsed + m.gasAvailable && e.gasUsed > m.gasUsed
      && (Balanced(m.core) ==> Balanced(e.core))
  }

  lemma TicksHonest(p: seq<Instruction>, cx: Context, limit: nat)
    ensures Honest(Ticks(p, cx, limit))
  {
    var tick := Ticks(p, cx, limit);
    forall m | tick(m).Some?
      ensures var e := tick(m).value; e.gasUsed + e.gasAvailable == m.gasUsed + m.gasAvailable && e.gasUsed > m.gasUsed && (Balanced(m.core) ==> Balanced(e.core))
    {
      StepMetered(p, cx, m, limit);
    }
  }

  lemma {:induction false} RunHonest(tick: Ticker, m: Machine, n: nat)
    requires Honest(tick) && Run(tick, m, n).Some?
    ensures var d := Run(tick, m, n).value;
      d.gasUsed + d.gasAvailable == m.gasUsed + m.gasAvailable && d.gasUsed >= m.gasUsed + n && (Balanced(m.core) ==> Balanced(d.core))
  {
    if n > 0 { RunHonest(tick, m, n - 1); }
  }

  /** In every reachable state of every program: gas is only moved from available to used, each instruction so far
      used some, and calls are balanced. */
  lemma Metered(p: seq<Instruction>, cx: Context, m: Machine, limit: nat, n: nat)
    requires Run(Ticks(p, cx, limit), m, n).Some?
    ensures var d := Run(Ticks(p, cx, limit), m, n).value;
      d.gasUsed + d.gasAvailable == m.gasUsed + m.gasAvailable && d.gasUsed >= m.gasUsed + n && (Balanced(m.core) ==> Balanced(d.core))
  {
    TicksHonest(p, cx, limit);
    RunHonest(Ticks(p, cx, limit), m, n);
  }

  /** `run` is what execution gives in every state, as far as `tick` can tell. */
  ghost predicate Continues(tick: Ticker, run: Machine -> Final) {
    forall m {:trigger tick(m)} :: (tick(m).Some? ==> run(m) == run(tick(m).value))
  }

  lemma ExecuteContinues(p: seq<Instruction>, cx: Context, limit: nat)
    ensures Continues(Ticks(p, cx, limit), m => Execute(p, cx, m, limit))
  {
  }

  lemma {:induction false} RunContinues(tick: Ticker, run: Machine -> Final, m: Machine, n: nat)
    requires Continues(tick, run) && Run(tick, m, n).Some?
    ensures run(m) == run(Run(tick, m, n).value)
  {
    if n > 0 { RunContinues(tick, run, m, n - 1); }
  }

  lemma {:induction false} LastTick(tick: Ticker, m: Machine, n: nat) returns (last: nat)
    requires Honest(tick) && Run(tick, m, n).Some?
    ensures last <= m.gasAvailable && Run(tick, m, last).Some? && Run(tick, m, last + 1).None?
    decreases m.gasAvailable - n
  {
    RunHonest(tick, m, n);
    last := n;
    if Run(tick, m, n + 1).Some? {
      RunHonest(tick, m, n + 1);
      last := LastTick(tick, m, n + 1);
    }
  }

  /** Where the run ends, execution ends, with the gas accounted for. */
  lemma ExecuteEnds(p: seq<Instruction>, cx: Context, m: Machine, limit: nat)
    requires Tick(p, cx, m, limit).None?
    ensures var r := Execute(p, cx, m, limit); r.m.gasUsed + r.m.gasAvailable == m.gasUsed + m.gasAvailable
  {
    StepMetered(p, cx, m, limit);
  }

  /** Execution ends after at most gas + 1 instructions, the last of which need not be paid for, and not a unit of
      gas is lost on the way. */
  lemma Terminates(p: seq<Instruction>, cx: Context, m: Machine, limit: nat) returns (n: nat)
    ensures var tick := Ticks(p, cx, limit);
      n <= m.gasAvailable && Run(tick, m, n).Some? && Run(tick, m, n + 1).None?
    ensures var r := Execute(p, cx, m, limit); r.m.gasUsed + r.m.gasAvailable == m.gasUsed + m.gasAvailable
  {
    var tick, run := Ticks(p, cx, limit), (d: Machine) => Execute(p, cx, d, limit);
    TicksHonest(p, cx, limit);
    n := LastTick(tick, m, 0);
    var d := Run(tick, m, n).value;
    RunHonest(tick, m, n);
    assert run(m) == run(d) by {
      ExecuteContinues(p, cx, limit);
      RunContinues(tick, run, m, n);
    }
    assert Run(tick, m, n + 1) == tick(d);
    ExecuteEnds(p, cx, d, limit);
  }
}
