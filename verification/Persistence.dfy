/** Integers survive the trip through persistent storage (avm/runtime.go, execution/execution.go). */
module Persistence {
  import opened Text
  import opened Bytecode
  import opened Avm
  import opened Strings
  import opened Transitions
  import Gas
  import Words

  // ---------------------------------------------------------------- INTTOSTR and STRTOINT

  lemma WrapResidue(a: int, b: int, d: int)
    requires a == Wrap(b)
    ensures Wrap(10 * a + d) == Wrap(10 * b + d) && Wrap(-a) == Wrap(-b)
  {
    var q := (b - a) / TWO64;
    assert b == a + TWO64 * q;
    assert (10 * b + d) % TWO64 == (10 * a + d) % TWO64 by { SameResidue(10 * a + d, 10 * q); }
    assert (-b) % TWO64 == (-a) % TWO64 by { SameResidue(-a, -q); }
  }

  lemma SameResidue(n: int, k: int)
    ensures (n + TWO64 * k) % TWO64 == n % TWO64
  {
    var m := n + TWO64 * k;
    assert m - TWO64 * (m / TWO64) == m % TWO64 && n - TWO64 * (n / TWO64) == n % TWO64;
    assert m % TWO64 - n % TWO64 == TWO64 * (k - m / TWO64 + n / TWO64);
  }

  /** Accumulating with wrap-around is wrapping once at the end. */
  lemma {:induction false} AccumulateWraps(s: Bytes)
    ensures Accumulate(s) == Wrap(DecValue(s))
  {
    if s != [] {
      AccumulateWraps(s[..|s| - 1]);
      WrapResidue(Accumulate(s[..|s| - 1]), DecValue(s[..|s| - 1]), s[|s| - 1] as int - 48);
    }
  }

  lemma ParseDigits(n: nat)
    ensures ParseInt(DecDigits(n)) == Some(Wrap(n)) && ParseInt([MINUS] + DecDigits(n)) == Some(Wrap(-(n as int)))
  {
    var s, t := DecDigits(n), [MINUS] + DecDigits(n);
    DecDigitsParse(n);
    AccumulateWraps(s);
    WrapResidue(Accumulate(s), n, 0);
    assert t[1..] == s && t[0] == MINUS && s[0] != MINUS by { assert IsDigit(s[0]); }
  }

  lemma WrapInRange(v: int)
    requires -TWO63 <= v < TWO63
    ensures Wrap(v) == v
  {
  }

  /** STRTOINT inverts INTTOSTR on every int64, the least one included. */
  lemma ParseDecimal(v: int)
    requires -TWO63 <= v < TWO63
    ensures ParseInt(Decimal(v)) == Some(v) && Decimal(v) != []
  {
    ParseDigits(Abs(v));
    WrapInRange(v);
    DecDigitsParse(Abs(v));
  }

  lemma Int64Range(n: int)
    ensures -TWO63 <= Int64(n) < TWO63
  {
  }

  // ---------------------------------------------------------------- storage over a run

  predicate At(p: seq<Instruction>, c: Core, op: Opcode) { 0 <= c.ic < |p| && p[c.ic] == Op(op) }

  /** The next instruction stores under key `k`. */
  predicate StoresTo(p: seq<Instruction>, c: Core, k: Bytes) {
    0 <= c.ic < |p| && p[c.ic].op == PSTORE && KeyOf(c.mem, Nth(c.stack, 0)) == Str(k)
  }

  lemma OthersKeepStore(code: nat, cx: Context, c: Core, ins: Instruction, st: seq<int>, x: int, y: int, z: int, limit: nat)
    requires Valid(ins) && ins.op != PSTORE
    ensures var r := Apply(code, cx, c, ins, st, x, y, z, limit); r.Next? ==> r.core.store == c.store
  {
    if ins.op != CALL && ins.op != RETURN { Gas.ApplyQuiet(code, cx, c, ins, st, x, y, z, limit); }
  }

  ghost predicate SameAt(s: Storage, t: Storage, k: Bytes) { (k in s <==> k in t) && (k in s ==> s[k] == t[k]) }

  lemma StepKeepsKey(vm: Vm, c: Core, d: Core, k: Bytes)
    requires Genuine(vm) && vm.step(c) == Next(d) && !StoresTo(vm.p, c, k)
    ensures SameAt(c.store, d.store, k)
  {
    assert CoreStep(vm.p, vm.cx, c, vm.limit) == Next(d);
    var ins := vm.p[c.ic];
    if ins.op != PSTORE {
      OthersKeepStore(|vm.p|, vm.cx, c, ins, c.stack[..|c.stack| - Arity(ins.op)], Nth(c.stack, 0), Nth(c.stack, 1), Nth(c.stack, 2), vm.limit);
    }
  }

  ghost predicate KeyUntouched(p: seq<Instruction>, cs: seq<Core>, k: Bytes) {
    |cs| <= 1 || (KeyUntouched(p, cs[..|cs| - 1], k) && !StoresTo(p, cs[|cs| - 2], k))
  }

  lemma {:induction false} RunKeepsKey(vm: Vm, cs: seq<Core>, k: Bytes)
    requires IsRun(vm, cs) && KeyUntouched(vm.p, cs, k)
    ensures SameAt(cs[0].store, cs[|cs| - 1].store, k)
    decreases |cs|
  {
    var n := |cs|;
    if n > 1 {
      RunKeepsKey(vm, cs[..n - 1], k);
      StepKeepsKey(vm, cs[n - 2], cs[n - 1], k);
    }
  }

  // ---------------------------------------------------------------- saving and loading

  ghost predicate Has(h: Heap, a: nat, s: Bytes) { a in h && h[a] == s }

  /** INTTOSTR and PLOAD put their string on the heap. */
  lemma MadeText(vm: Vm, c: Core, d: Core, h: Heap, op: Opcode)
    requires Genuine(vm) && At(vm.p, c, op) && (op == INTTOSTR || op == PLOAD) && vm.step(c) == Next(d)
    requires Expected(vm.cx, c, h, op).Some? && Fits(c.nextMem, Expected(vm.cx, c, h, op).value)
    ensures Has(HeapNext(vm, c, h), c.nextMem, Expected(vm.cx, c, h, op).value)
  {
    assert CoreStep(vm.p, vm.cx, c, vm.limit) == Next(d);
  }

  /** A string made by the first instruction of a run is on the heap at its end. */
  lemma {:induction false} MadeAndKept(vm: Vm, cs: seq<Core>, h: Heap, op: Opcode, s: Bytes)
    requires IsRun(vm, cs) && |cs| >= 2 && HeapOk(cs[0], h) && Unclobbered(vm, cs, h)
    requires At(vm.p, cs[0], op) && (op == INTTOSTR || op == PLOAD) && Expected(vm.cx, cs[0], h, op) == Some(s) && Fits(cs[0].nextMem, s)
    ensures HeapOk(cs[|cs| - 1], HeapAfter(vm, cs, h)) && Has(HeapAfter(vm, cs, h), cs[0].nextMem, s)
    decreases |cs|
  {
    var n := |cs|;
    HeapKept(vm, cs[..n - 1], h);
    if n == 2 { MadeText(vm, cs[0], cs[1], h, op); } else { MadeAndKept(vm, cs[..n - 1], h, op, s); }
    StepExtends(vm, cs[n - 2], cs[n - 1], HeapAfter(vm, cs[..n - 1], h));
  }

  /** A run that turns an integer into text, keeps it, and stores it under `key`. */
  ghost predicate Saves(vm: Vm, cs: seq<Core>, h: Heap, key: Bytes) {
    && IsRun(vm, cs) && |cs| >= 3 && HeapOk(cs[0], h)
    && At(vm.p, cs[0], INTTOSTR) && Fits(cs[0].nextMem, Decimal(Int64(Nth(cs[0].stack, 0))))
    && var front, w := cs[..|cs| - 1], cs[|cs| - 2];
    && Unclobbered(vm, front, h)
    && At(vm.p, w, PSTORE) && Low64(Nth(w.stack, 1)) == cs[0].nextMem
    && Has(HeapAfter(vm, front, h), Low64(Nth(w.stack, 0)), key) && key != []
  }

  /** From INTTOSTR to the PSTORE of its result: the decimal text of the integer is under the key. */
  lemma SaveInteger(vm: Vm, cs: seq<Core>, h: Heap, key: Bytes)
    requires Saves(vm, cs, h, key)
    ensures var v, s := Int64(Nth(cs[0].stack, 0)), cs[|cs| - 1].store; key in s && s[key] == Decimal(v)
  {
    var n, v := |cs|, Int64(Nth(cs[0].stack, 0));
    MadeAndKept(vm, cs[..n - 1], h, INTTOSTR, Decimal(v));
    DoStore(vm, cs[n - 2], cs[n - 1], HeapAfter(vm, cs[..n - 1], h), key, v);
  }

  lemma DoStore(vm: Vm, c: Core, d: Core, h: Heap, k: Bytes, v: int)
    requires Genuine(vm) && At(vm.p, c, PSTORE) && vm.step(c) == Next(d) && HeapOk(c, h) && k != []
    requires Has(h, Low64(Nth(c.stack, 0)), k) && Has(h, Low64(Nth(c.stack, 1)), Decimal(v))
    ensures d.store == c.store[k := Decimal(v)]
  {
    if |c.stack| < 2 { TooFew(vm, c, Op(PSTORE)); } else { OnStore(vm, c, Op(PSTORE)); }
    DecDigitsParse(Abs(v));
    HeapReads(c, h, Low64(Nth(c.stack, 0)));
    HeapReads(c, h, Low64(Nth(c.stack, 1)));
  }

  /** A run that loads what is stored under `key` and reads it as an integer. */
  ghost predicate Loads(vm: Vm, cs: seq<Core>, h: Heap, key: Bytes) {
    && IsRun(vm, cs) && |cs| >= 3 && HeapOk(cs[0], h)
    && At(vm.p, cs[0], PLOAD) && Has(h, Low64(Nth(cs[0].stack, 0)), key) && key != []
    && (key in cs[0].store ==> Fits(cs[0].nextMem, cs[0].store[key]))
    && var front, w := cs[..|cs| - 1], cs[|cs| - 2];
    && Unclobbered(vm, front, h)
    && At(vm.p, w, STRTOINT) && Low64(Nth(w.stack, 0)) == cs[0].nextMem
  }

  lemma LoadInteger(vm: Vm, cs: seq<Core>, h: Heap, key: Bytes, v: int)
    requires Loads(vm, cs, h, key) && key in cs[0].store && cs[0].store[key] == Decimal(v) && -TWO63 <= v < TWO63
    ensures Nth(cs[|cs| - 1].stack, 0) == v
  {
    var n := |cs|;
    MadeAndKept(vm, cs[..n - 1], h, PLOAD, Decimal(v));
    DoParse(vm, cs[n - 2], cs[n - 1], HeapAfter(vm, cs[..n - 1], h), v);
  }

  lemma DoParse(vm: Vm, c: Core, d: Core, h: Heap, v: int)
    requires Genuine(vm) && At(vm.p, c, STRTOINT) && vm.step(c) == Next(d) && HeapOk(c, h) && -TWO63 <= v < TWO63
    requires Has(h, Low64(Nth(c.stack, 0)), Decimal(v))
    ensures Nth(d.stack, 0) == v
  {
    if |c.stack| < 1 { TooFew(vm, c, Op(STRTOINT)); } else { OnToInteger(vm, c, Op(STRTOINT)); }
    HeapReads(c, h, Low64(Nth(c.stack, 0)));
    ParseDecimal(v);
  }

  /** Every int64 survives storage: saved by one run (`save`), left alone for the rest of it (`rest`) and by another run
      up to the load (`later`, the same run or a later call of any code started from the saved storage), it is loaded
      back unchanged, as a signed value. */
  lemma PersistentRoundTrip(vm: Vm, save: seq<Core>, rest: seq<Core>, vm': Vm, later: seq<Core>, load: seq<Core>, h: Heap, h': Heap, key: Bytes)
    requires Saves(vm, save, h, key)
    requires IsRun(vm, rest) && rest[0] == save[|save| - 1] && KeyUntouched(vm.p, rest, key)
    requires IsRun(vm', later) && later[0].store == rest[|rest| - 1].store && KeyUntouched(vm'.p, later, key)
    requires Loads(vm', load, h', key) && load[0] == later[|later| - 1]
    ensures var v := Int64(Nth(save[0].stack, 0)); Nth(load[|load| - 1].stack, 0) == v && Words.ToSigned(v) == v
  {
    var x := Nth(save[0].stack, 0);
    SaveInteger(vm, save, h, key);
    RunKeepsKey(vm, rest, key);
    RunKeepsKey(vm', later, key);
    Int64Range(x);
    LoadInteger(vm', load, h', key, Int64(x));
  }
}
