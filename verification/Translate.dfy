/** One label against one handler: with every register variable declared, the
    statements emitted for an instruction have exactly the effect of its
    interpreter handler. */
module Translate {
  import opened Words
  import opened Insn
  import opened CText
  import opened Guest
  import opened Codegen
  import Ir
  import Alu
  import Emit
  import Decode
  import opened Shape

  /** The host state of a block in which all register variables exist. */
  function At(c: Cpu, loc: Env): Ir.Host {
    Ir.Host(map r: Reg | 1 <= r < 32 :: c.gp[r], map r: Reg | 0 <= r < 32 :: c.fp[r], c.mem, loc)
  }

  /** h holds the registers and memory of c; locals and pc do not matter. */
  predicate Shows(h: Ir.Host, c: Cpu) {
    h == At(c, h.loc)
  }

  // ----- steps -----

  lemma {:induction false} Cons(fpu: Fpu, s: Ir.Stmt, rest: seq<Ir.Stmt>, h: Ir.Host, g: Ir.Host)
    requires Ir.Exec(fpu, s, h) == Ir.Fell(g)
    ensures Ir.Run(fpu, [s] + rest, h) == Ir.Run(fpu, rest, g)
  {
    hide Ir.Exec;
    assert ([s] + rest)[0] == s && ([s] + rest)[1..] == rest;
  }

  lemma {:induction false} Last(fpu: Fpu, s: Ir.Stmt, rest: seq<Ir.Stmt>, h: Ir.Host)
    requires !Ir.Exec(fpu, s, h).Fell?
    ensures Ir.Run(fpu, [s] + rest, h) == Ir.Exec(fpu, s, h)
  {
    hide Ir.Exec;
    assert ([s] + rest)[0] == s;
  }

  lemma {:induction false} GetStep(fpu: Fpu, s: Slot, r: Reg, rest: seq<Ir.Stmt>, c: Cpu, loc: Env)
    requires c.gp[0] == 0
    ensures Ir.Run(fpu, [Get(s, r)] + rest, At(c, loc)) == Ir.Run(fpu, rest, At(c, loc[s := CVal(U64, c.gp[r])]))
  {
    hide Ir.Run;
    Cons(fpu, Get(s, r), rest, At(c, loc), At(c, loc[s := CVal(U64, c.gp[r])]));
  }

  lemma {:induction false} GetFpStep(fpu: Fpu, s: Slot, r: Reg, p: Prec, rest: seq<Ir.Stmt>, c: Cpu, loc: Env)
    ensures Ir.Run(fpu, [Ir.GetFp(s, r, p)] + rest, At(c, loc))
         == Ir.Run(fpu, rest, At(c, loc[s := Ir.FpBits(p, c.fp[r])]))
  {
    hide Ir.Run, Ir.FpBits;
    Cons(fpu, Ir.GetFp(s, r, p), rest, At(c, loc), At(c, loc[s := Ir.FpBits(p, c.fp[r])]));
  }

  /** The guest after a handler wrote v to rd and x0 was reset. */
  function WithGp(c: Cpu, rd: Reg, v: u64): Cpu {
    c.(gp := c.gp[rd := v][0 := 0])
  }

  lemma {:induction false} SetStep(fpu: Fpu, r: Reg, e: Expr, v: u64, rest: seq<Ir.Stmt>, c: Cpu, loc: Env)
    requires c.gp[0] == 0 && Emit.Assigned(e, loc) == Some(v)
    ensures Ir.Run(fpu, Set(r, e) + rest, At(c, loc)) == Ir.Run(fpu, rest, At(WithGp(c, r, v), loc))
  {
    hide Ir.Run, Emit.Assigned;
    var d := WithGp(c, r, v);
    if r == 0 {
      assert d.gp == c.gp;
      assert Set(r, e) + rest == rest;
    } else {
      assert At(c, loc).x[r := v] == At(d, loc).x;
      Cons(fpu, Ir.SetGp(r, e), rest, At(c, loc), At(d, loc));
    }
  }

  function WithFp(c: Cpu, rd: Reg, v: u64): Cpu {
    c.(fp := c.fp[rd := v], gp := c.gp[0 := 0])
  }

  /** A write to a floating-point variable, whole or low word. */
  lemma {:induction false} PutFpStep(
    fpu: Fpu, s: Ir.Stmt, r: Reg, p: Prec, v: u64, rest: seq<Ir.Stmt>, c: Cpu, loc: Env)
    requires c.gp[0] == 0 && Ir.Exec(fpu, s, At(c, loc)) == Ir.PutFp(At(c, loc), r, p, v)
    ensures Ir.Run(fpu, [s] + rest, At(c, loc)) == Ir.Run(fpu, rest, At(WithFp(c, r, WriteFp(p, c.fp[r], v)), loc))
  {
    hide Ir.Run, WriteFp, Ir.Exec;
    var d := WithFp(c, r, WriteFp(p, c.fp[r], v));
    assert d.gp == c.gp;
    assert At(c, loc).f[r := WriteFp(p, c.fp[r], v)] == At(d, loc).f;
    Cons(fpu, s, rest, At(c, loc), At(d, loc));
  }

  lemma {:induction false} GotoStep(fpu: Fpu, t: u64, h: Ir.Host)
    ensures Ir.Run(fpu, [Ir.Goto(t)], h) == Ir.Jumped(t, h)
  {
    assert [Ir.Goto(t)] + [] == [Ir.Goto(t)];
    Last(fpu, Ir.Goto(t), [], h);
  }

  /** Result of a label that runs from its start to the transfer. */
  lemma {:induction false} LabelRun(fpu: Fpu, ss: seq<Ir.Stmt>, c: Cpu, r: Ir.Result)
    requires Ir.Run(fpu, ss, At(c, map[])) == r && !r.Fell?
    ensures forall loc :: Ir.RunLabel(fpu, ss, At(c, loc)) == r
  {
  }

  // ----- the claim -----

  /** The end of a label that stands for the effect e of instruction i. */
  predicate Matches(r: Ir.Result, i: Insn, c: Cpu, e: Effect) {
    match e
    case Trap => true
    case Effect(d, None) => r.Jumped? && r.target == Wrap(c.pc + InsnLength(i)) && Shows(r.host, d)
    case Effect(d, Some(x)) =>
      if x.reason == DirectBranch then r.Jumped? && r.target == x.reenter && Shows(r.host, d)
      else r.Left? && r.exit == x && Shows(r.host, d)
  }

  /** The label of i at c.pc, run on c. */
  predicate Correct(fpu: Fpu, i: Insn, c: Cpu) {
    match EmitInsn(i, c.pc)
    case None => Exec(fpu, i, c) == Trap
    case Some(e) =>
      var r := Ir.RunLabel(fpu, Finish(i, c.pc, e).stmts, At(c, map[]));
      if InterpOnly(i.ty) then r == Ir.Left(Exit(Interp, c.pc), At(c, map[]))
      else Matches(r, i, c, Exec(fpu, i, c))
  }

  /** A label that falls through to the next instruction. */
  lemma {:induction false} FallsThrough(fpu: Fpu, i: Insn, c: Cpu, d: Cpu, e: Emission, loc: Env)
    requires EmitInsn(i, c.pc) == Some(e) && !e.cont && !InterpOnly(i.ty)
    requires Exec(fpu, i, c) == Effect(d, None)
    requires Ir.Run(fpu, e.stmts + [Ir.Goto(Wrap(c.pc + InsnLength(i)))], At(c, map[]))
          == Ir.Run(fpu, [Ir.Goto(Wrap(c.pc + InsnLength(i)))], At(d, loc))
    ensures Correct(fpu, i, c)
  {
    hide Ir.Run, Exec, EmitInsn, InterpOnly;
    var next := Wrap(c.pc + InsnLength(i));
    GotoStep(fpu, next, At(d, loc));
    LabelRun(fpu, e.stmts + [Ir.Goto(next)], c, Ir.Jumped(next, At(d, loc)));
  }

  function NextGoto(i: Insn, c: Cpu): seq<Ir.Stmt> {
    [Ir.Goto(Wrap(c.pc + InsnLength(i)))]
  }

  // ----- families -----

  lemma {:induction false} ImmLabel(fpu: Fpu, i: Insn, c: Cpu)
    requires i.ty.OpImm? && Decoded(i) && c.gp[0] == 0
    ensures Correct(fpu, i, c)
  {
    hide Ir.Run, Emit.ImmText, Alu.ImmAlu, Emit.Assigned, Ir.Exec, Get, Set, Correct, At;
    var op, g := i.ty.imm, NextGoto(i, c);
    var loc: Env := map[Rs1 := CVal(U64, c.gp[i.rs1])];
    var v := Alu.ImmAlu(op, c.gp[i.rs1], i.imm);
    var text := Emit.ImmText(op, i.imm);
    Emit.ImmTextCorrect(op, i.imm, c.gp[i.rs1], loc);
    var e := EmitInsn(i, c.pc).value;
    assert e.stmts + g == [Get(Rs1, i.rs1)] + (Set(i.rd, text) + g);
    GetStep(fpu, Rs1, i.rs1, Set(i.rd, text) + g, c, map[]);
    SetStep(fpu, i.rd, text, v, g, c, loc);
    FallsThrough(fpu, i, c, WithGp(c, i.rd, v), e, loc);
  }

  /** The environment after `rs1` and `rs2` are read. */
  function Both(c: Cpu, i: Insn): Env {
    map[Rs1 := CVal(U64, c.gp[i.rs1])][Rs2 := CVal(U64, c.gp[i.rs2])]
  }

  lemma {:induction false} GetBoth(fpu: Fpu, i: Insn, rest: seq<Ir.Stmt>, c: Cpu)
    requires c.gp[0] == 0
    ensures Ir.Run(fpu, [Get(Rs1, i.rs1), Get(Rs2, i.rs2)] + rest, At(c, map[])) == Ir.Run(fpu, rest, At(c, Both(c, i)))
  {
    hide Ir.Run, Get, At;
    assert [Get(Rs1, i.rs1), Get(Rs2, i.rs2)] + rest == [Get(Rs1, i.rs1)] + ([Get(Rs2, i.rs2)] + rest);
    GetStep(fpu, Rs1, i.rs1, [Get(Rs2, i.rs2)] + rest, c, map[]);
    GetStep(fpu, Rs2, i.rs2, rest, c, map[Rs1 := CVal(U64, c.gp[i.rs1])]);
  }

  lemma {:induction false} RegLabel(fpu: Fpu, i: Insn, c: Cpu)
    requires i.ty.Op? && Emit.RegText(i.ty.op).Some? && Decoded(i) && c.gp[0] == 0
    ensures Correct(fpu, i, c)
  {
    hide Ir.Run, Emit.RegText, Alu.RegAlu, Emit.Assigned, Ir.Exec, Get, Set, At;
    var op, g, loc := i.ty.op, NextGoto(i, c), Both(c, i);
    TextedIsCompiled(op);
    var text := Emit.RegText(op).value;
    var e := EmitInsn(i, c.pc).value;
    var a := Alu.RegAlu(op, c.gp[i.rs1], c.gp[i.rs2]);
    if a.Some? {
      Emit.RegTextCorrect(op, c.gp[i.rs1], c.gp[i.rs2], loc);
      assert e.stmts + g == [Get(Rs1, i.rs1), Get(Rs2, i.rs2)] + (Set(i.rd, text) + g);
      GetBoth(fpu, i, Set(i.rd, text) + g, c);
      SetStep(fpu, i.rd, text, a.value, g, c, loc);
      FallsThrough(fpu, i, c, WithGp(c, i.rd, a.value), e, loc);
    }
  }

  lemma {:induction false} TextedIsCompiled(op: RegOp)
    ensures InterpOnly(Op(op)) <==> Emit.RegText(op).None? && Emit.ChainText(op).None?
    ensures Emit.ChainText(op).Some? ==> Emit.RegText(op).None?
  {
  }

  lemma {:induction false} ChainLabel(fpu: Fpu, i: Insn, c: Cpu)
    requires i.ty.Op? && Emit.ChainText(i.ty.op).Some? && Decoded(i) && c.gp[0] == 0
    ensures Correct(fpu, i, c)
  {
    hide Ir.Run, Emit.RegText, Emit.ChainText, Alu.RegAlu, Emit.AssignedChain, Get, Set, At, Correct;
    var op, g, loc := i.ty.op, NextGoto(i, c), Both(c, i);
    TextedIsCompiled(op);
    var arms := Emit.ChainText(op).value;
    var e := EmitInsn(i, c.pc).value;
    ChainValue(op, c.gp[i.rs1], c.gp[i.rs2], loc);
    var v := Alu.RegAlu(op, c.gp[i.rs1], c.gp[i.rs2]).value;
    var rest := Set(i.rd, Var(Rd)) + g;
    assert e.stmts + g == [Get(Rs1, i.rs1), Get(Rs2, i.rs2)] + ([Ir.Choose(arms)] + rest);
    GetBoth(fpu, i, [Ir.Choose(arms)] + rest, c);
    var loc' := loc[Rd := CVal(U64, v)];
    ChooseStep(fpu, arms, v, rest, c, loc);
    Emit.WordId(v);
    SetStep(fpu, i.rd, Var(Rd), v, g, c, loc');
    FallsThrough(fpu, i, c, WithGp(c, i.rd, v), e, loc');
  }

  lemma {:induction false} ChainValue(op: RegOp, a: u64, b: u64, env: Env)
    requires Emit.HoldsBoth(env, a, b) && Emit.ChainText(op).Some?
    ensures Alu.RegAlu(op, a, b).Some?
    ensures Emit.AssignedChain(Emit.ChainText(op).value, env) == Alu.RegAlu(op, a, b)
  {
    Emit.ChainTextCorrect(op, a, b, env);
  }

  lemma {:induction false} ChooseStep(fpu: Fpu, arms: seq<Emit.Arm>, v: u64, rest: seq<Ir.Stmt>, c: Cpu, loc: Env)
    requires Emit.AssignedChain(arms, loc) == Some(v)
    ensures Ir.Run(fpu, [Ir.Choose(arms)] + rest, At(c, loc)) == Ir.Run(fpu, rest, At(c, loc[Rd := CVal(U64, v)]))
  {
    hide Ir.Run, Emit.AssignedChain;
    Cons(fpu, Ir.Choose(arms), rest, At(c, loc), At(c, loc[Rd := CVal(U64, v)]));
  }

  lemma {:induction false} InterpLabel(fpu: Fpu, i: Insn, c: Cpu)
    requires InterpOnly(i.ty)
    ensures Correct(fpu, i, c)
  {
    hide Ir.Run, Exec;
    assert EmitInsn(i, c.pc) == Some(EmitInterp(c.pc));
    var s := Ir.Leave(Interp, Lit(U64, c.pc));
    Emit.WordId(c.pc);
    assert [s] + [] == [s];
    Last(fpu, s, [], At(c, map[]));
    LabelRun(fpu, [s], c, Ir.Left(Exit(Interp, c.pc), At(c, map[])));
  }

  // ----- constants and fences -----

  lemma {:induction false} SignedLiteral(v: u64, loc: Env)
    ensures Emit.Assigned(Lit(I64, S64(v)), loc) == Some(v)
  {
    Emit.Conversions(v);
    Emit.WordId(v);
  }

  lemma {:induction false} ConstantLabel(fpu: Fpu, i: Insn, c: Cpu)
    requires (i.ty.Auipc? || i.ty.Lui? || (i.ty.Csr? && KnownCsr(i.csr))) && Decoded(i) && c.gp[0] == 0
    ensures Correct(fpu, i, c)
  {
    hide Ir.Run, Set, At, Correct, Emit.Assigned, S64;
    var g := NextGoto(i, c);
    var v := if i.ty.Auipc? then Wrap(c.pc + i.imm) else if i.ty.Lui? then Wrap(i.imm) else 0;
    var text := if i.ty.Csr? then Lit(I32, 0) else Lit(I64, S64(v));
    var e := EmitInsn(i, c.pc).value;
    SignedLiteral(v, map[]);
    ZeroLiteral();
    SetStep(fpu, i.rd, text, v, g, c, map[]);
    FallsThrough(fpu, i, c, WithGp(c, i.rd, v), e, map[]);
  }

  lemma {:induction false} ZeroLiteral()
    ensures Emit.Assigned(Lit(I32, 0), map[]) == Some(0)
  {
  }

  lemma {:induction false} FenceLabel(fpu: Fpu, i: Insn, c: Cpu)
    requires (i.ty.Fence? || i.ty.FenceI?) && Decoded(i) && c.gp[0] == 0
    ensures Correct(fpu, i, c)
  {
    hide Ir.Run, At, Correct;
    var g := NextGoto(i, c);
    var e := EmitInsn(i, c.pc).value;
    assert e.stmts + g == g;
    assert c.gp[0 := 0] == c.gp;
    FallsThrough(fpu, i, c, c, e, map[]);
  }

  // ----- memory -----

  lemma {:induction false} LoadConverts(op: LoadOp, raw: nat)
    ensures Ir.Bytes(LoadType(op)) == LoadSize(op)
    ensures Wrap(Convert(LoadType(op), raw)) == LoadValue(op, raw)
  {
  }

  lemma {:induction false} AddressText(imm: int, a: u64, loc: Env)
    requires Emit.Holds(loc, a)
    ensures Emit.Assigned(Emit.PlusImm(imm), loc) == Some(Wrap(a + imm))
  {
    hide Emit.PlusImm, Wrap;
    Emit.PlusImmValue(imm, a, loc);
    Emit.WordId(Wrap(a + imm));
  }

  lemma {:induction false} LoadStep(fpu: Fpu, t: CType, imm: int, a: u64, rest: seq<Ir.Stmt>, c: Cpu, loc: Env)
    requires Emit.Holds(loc, a)
    ensures Ir.Run(fpu, [Ir.MemLoad(t, Emit.PlusImm(imm))] + rest, At(c, loc))
         == Ir.Run(fpu, rest, At(c, loc[Rd := CVal(t, Convert(t, LoadLE(c.mem, Wrap(a + imm), Ir.Bytes(t))))]))
  {
    hide Ir.Run, Emit.PlusImm, Convert, LoadLE, Wrap, Emit.Assigned;
    AddressText(imm, a, loc);
    var v := CVal(t, Convert(t, LoadLE(c.mem, Wrap(a + imm), Ir.Bytes(t))));
    Cons(fpu, Ir.MemLoad(t, Emit.PlusImm(imm)), rest, At(c, loc), At(c, loc[Rd := v]));
  }

  lemma {:induction false} LoadLabel(fpu: Fpu, i: Insn, c: Cpu)
    requires i.ty.Load? && Decoded(i) && c.gp[0] == 0
    ensures Correct(fpu, i, c)
  {
    hide Ir.Run, Get, Set, At, Correct, Convert, LoadValue, LoadLE, Wrap, Emit.PlusImm, LoadType, LoadSize, Ir.Bytes;
    var op, g := i.ty.load, NextGoto(i, c);
    var e := EmitInsn(i, c.pc).value;
    var t, a := LoadType(op), c.gp[i.rs1];
    var raw := LoadLE(c.mem, Wrap(a + i.imm), LoadSize(op));
    LoadConverts(op, raw);
    var loc: Env := map[Rs1 := CVal(U64, a)];
    var loc' := loc[Rd := CVal(t, Convert(t, raw))];
    var rest := Set(i.rd, Var(Rd)) + g;
    var load := Ir.MemLoad(t, Emit.PlusImm(i.imm));
    assert e.stmts + g == [Get(Rs1, i.rs1)] + ([load] + rest);
    GetStep(fpu, Rs1, i.rs1, [load] + rest, c, map[]);
    LoadStep(fpu, t, i.imm, a, rest, c, loc);
    SetStep(fpu, i.rd, Var(Rd), LoadValue(op, raw), g, c, loc');
    FallsThrough(fpu, i, c, WithGp(c, i.rd, LoadValue(op, raw)), e, loc');
  }

  /** Storing n bytes keeps only the low n bytes of the value. */
  lemma {:induction false} StoreTruncates(m: Mem, a: u64, n: nat, v: nat, w: nat)
    requires v % Pow2(8 * n) == w % Pow2(8 * n)
    ensures StoreLE(m, a, n, v) == StoreLE(m, a, n, w)
    decreases n
  {
    hide Wrap;
    if n != 0 {
      Pow2Add(8, 8 * (n - 1));
      assert Pow2(8) == 256;
      LowByte(v, Pow2(8 * (n - 1)));
      LowByte(w, Pow2(8 * (n - 1)));
      StoreTruncates(m[a := v % 256], Wrap(a + 1), n - 1, v / 256, w / 256);
    }
  }

  lemma {:induction false} LowByte(v: nat, p: int)
    requires p >= 1
    ensures v % 256 == v % (256 * p) % 256
    ensures v / 256 % p == v % (256 * p) / 256
  {
    var q, r := v / 256 / p, v / 256 % p;
    assert v / 256 == p * q + r;
    var m := r * 256 + v % 256;
    assert v == q * (256 * p) + m by {
      assert 256 * (p * q) == q * (256 * p);
    }
    DivModUnique(v, 256 * p, q, m);
    DivModUnique(m, 256, r, v % 256);
  }

  lemma {:induction false} StoreConverts(t: CType, m: Mem, a: u64, v: u64)
    requires t.U8? || t.U16? || t.U32? || t.U64?
    ensures StoreLE(m, a, Ir.Bytes(t), Wrap(Convert(t, v))) == StoreLE(m, a, Ir.Bytes(t), v)
  {
    hide StoreLE, Pow2, Wrap, Convert;
    LowBytes(t, v);
    StoreTruncates(m, a, Ir.Bytes(t), Wrap(Convert(t, v)), v);
  }

  lemma {:induction false} LowBytes(t: CType, v: u64)
    requires t.U8? || t.U16? || t.U32? || t.U64?
    ensures Wrap(Convert(t, v)) % Pow2(8 * Ir.Bytes(t)) == v % Pow2(8 * Ir.Bytes(t))
  {
    hide Pow2, Wrap;
    Pow2Values();
    Pow2Byte();
    WrapId(Convert(t, v));
    if t.U64? {
      WrapId(v);
    }
  }

  lemma {:induction false} Pow2Byte()
    ensures Pow2(8) == 256
  {
  }

  /** The guest after a store. */
  function WithMem(c: Cpu, m: Mem): Cpu {
    c.(mem := m, gp := c.gp[0 := 0])
  }

  lemma {:induction false} StoreStep(fpu: Fpu, t: CType, imm: int, a: u64, v: u64, rest: seq<Ir.Stmt>, c: Cpu, loc: Env)
    requires c.gp[0] == 0 && Emit.HoldsBoth(loc, a, v) && (t.U8? || t.U16? || t.U32? || t.U64?)
    ensures Ir.Run(fpu, [Ir.MemStore(t, Emit.PlusImm(imm))] + rest, At(c, loc))
         == Ir.Run(fpu, rest, At(WithMem(c, StoreLE(c.mem, Wrap(a + imm), Ir.Bytes(t), v)), loc))
  {
    hide Ir.Run, Emit.PlusImm, Convert, StoreLE, Wrap, Emit.Assigned;
    AddressText(imm, a, loc);
    StoreConverts(t, c.mem, Wrap(a + imm), v);
    var d := WithMem(c, StoreLE(c.mem, Wrap(a + imm), Ir.Bytes(t), v));
    assert d.gp == c.gp;
    Cons(fpu, Ir.MemStore(t, Emit.PlusImm(imm)), rest, At(c, loc), At(d, loc));
  }

  lemma {:induction false} StoreLabel(fpu: Fpu, i: Insn, c: Cpu)
    requires i.ty.Store? && Decoded(i) && c.gp[0] == 0
    ensures Correct(fpu, i, c)
  {
    hide Ir.Run, Get, At, Correct, StoreLE, Wrap, Emit.PlusImm;
    var op, g, loc := i.ty.store, NextGoto(i, c), Both(c, i);
    var e := EmitInsn(i, c.pc).value;
    var t, a, v := StoreType(op), c.gp[i.rs1], c.gp[i.rs2];
    assert Ir.Bytes(t) == StoreSize(op);
    var store := Ir.MemStore(t, Emit.PlusImm(i.imm));
    assert e.stmts + g == [Get(Rs1, i.rs1), Get(Rs2, i.rs2)] + ([store] + g);
    GetBoth(fpu, i, [store] + g, c);
    StoreStep(fpu, t, i.imm, a, v, g, c, loc);
    FallsThrough(fpu, i, c, WithMem(c, StoreLE(c.mem, Wrap(a + i.imm), StoreSize(op), v)), e, loc);
  }

  // ----- control -----

  lemma {:induction false} BranchLabel(fpu: Fpu, i: Insn, c: Cpu)
    requires i.ty.Branch? && Decoded(i) && c.gp[0] == 0
    ensures Correct(fpu, i, c)
  {
    hide Ir.Run, Get, Emit.BranchText, Eval, Alu.Taken;
    var op, g, loc := i.ty.branch, NextGoto(i, c), Both(c, i);
    var target := Wrap(c.pc + i.imm);
    var e := EmitInsn(i, c.pc).value;
    var jump := Ir.IfGoto(Emit.BranchText(op), target);
    Emit.BranchTextCorrect(op, c.gp[i.rs1], c.gp[i.rs2], loc);
    assert e.stmts + g == [Get(Rs1, i.rs1), Get(Rs2, i.rs2)] + ([jump] + g);
    GetBoth(fpu, i, [jump] + g, c);
    assert c.gp[0 := 0] == c.gp;
    if Alu.Taken(op, c.gp[i.rs1], c.gp[i.rs2]) {
      Last(fpu, jump, g, At(c, loc));
      LabelRun(fpu, e.stmts + g, c, Ir.Jumped(target, At(c, loc)));
      assert At(c.(pc := target), loc) == At(c, loc);
    } else {
      Cons(fpu, jump, g, At(c, loc), At(c, loc));
      FallsThrough(fpu, i, c, c, e, loc);
    }
  }

  lemma {:induction false} JalLabel(fpu: Fpu, i: Insn, c: Cpu)
    requires i.ty.Jal? && Decoded(i) && c.gp[0] == 0
    ensures Correct(fpu, i, c)
  {
    hide Ir.Run, Set, Emit.Assigned, S64;
    var target, link := Wrap(c.pc + i.imm), Wrap(c.pc + InsnLength(i));
    var e := EmitInsn(i, c.pc).value;
    SignedLiteral(link, map[]);
    SetStep(fpu, i.rd, Lit(I64, S64(link)), link, [Ir.Goto(target)], c, map[]);
    var d := WithGp(c, i.rd, link);
    GotoStep(fpu, target, At(d, map[]));
    LabelRun(fpu, e.stmts, c, Ir.Jumped(target, At(d, map[])));
    assert At(d.(pc := target), map[]) == At(d, map[]);
  }

  lemma {:induction false} JalrLabel(fpu: Fpu, i: Insn, c: Cpu)
    requires i.ty.Jalr? && Decoded(i) && c.gp[0] == 0
    ensures Correct(fpu, i, c)
  {
    hide Ir.Run, Get, Set, Emit.JalrText, Eval, S64, Wrap;
    var link, a := Wrap(c.pc + InsnLength(i)), c.gp[i.rs1];
    var target := ClearBit0(Wrap(a + i.imm));
    var e := EmitInsn(i, c.pc).value;
    var loc: Env := map[Rs1 := CVal(U64, a)];
    var leave := Ir.Leave(IndirectBranch, Emit.JalrText(i.imm));
    Emit.JalrTextCorrect(i.imm, a, loc);
    Emit.WordId(target);
    SignedLiteral(link, loc);
    assert e.stmts == [Get(Rs1, i.rs1)] + (Set(i.rd, Lit(I64, S64(link))) + [leave]);
    GetStep(fpu, Rs1, i.rs1, Set(i.rd, Lit(I64, S64(link))) + [leave], c, map[]);
    SetStep(fpu, i.rd, Lit(I64, S64(link)), link, [leave], c, loc);
    var d := WithGp(c, i.rd, link);
    assert [leave] + [] == [leave];
    Last(fpu, leave, [], At(d, loc));
    LabelRun(fpu, e.stmts, c, Ir.Left(Exit(IndirectBranch, target), At(d, loc)));
  }

  lemma {:induction false} EcallLabel(fpu: Fpu, i: Insn, c: Cpu)
    requires i.ty.Ecall? && Decoded(i) && c.gp[0] == 0
    ensures Correct(fpu, i, c)
  {
    hide Ir.Run, Wrap;
    var next := Wrap(c.pc + 4);
    var e := EmitInsn(i, c.pc).value;
    var leave := Ir.Leave(EcallExit, Lit(U64, next));
    Emit.WordId(next);
    assert [leave] + [] == [leave];
    Last(fpu, leave, [], At(c, map[]));
    LabelRun(fpu, e.stmts, c, Ir.Left(Exit(EcallExit, next), At(c, map[])));
    assert c.gp[0 := 0] == c.gp;
  }

  // ----- floating point -----

  lemma {:induction false} FpLocal(p: Prec, v: u64, s: Slot, h: Ir.Host)
    requires s in h.loc && h.loc[s] == Ir.FpBits(p, v)
    ensures Ir.Local(h, s) == ReadFp(p, v)
  {
  }

  lemma {:induction false} BoxedOr(w: int)
    requires 0 <= w < 0x1_0000_0000
    ensures Or64(w, 0xFFFF_FFFF_0000_0000) == Boxed(w) && Boxed(w) == 0xFFFF_FFFF_0000_0000 + w
  {
    hide BitOr, Pow2;
    Pow2Values();
    Alu.OrDisjoint(0xFFFF_FFFF, w, 32);
    OrCommutes(w, 0xFFFF_FFFF_0000_0000);
  }

  lemma {:induction false} BoxText(raw: nat, loc: Env)
    requires Rd in loc && loc[Rd] == CVal(U32, Lo32(raw))
    ensures Emit.Assigned(BOX_TEXT, loc) == Some(Boxed(raw))
  {
    hide Or64, And64, Xor64, Pow2, Wrap, S64, S32, Lo32;
    HighOnes(loc);
    BoxedOr(Lo32(raw));
    Emit.Conversions(raw);
    Emit.WordId(Lo32(raw));
    Emit.WordId(0xFFFF_FFFF_0000_0000);
    Emit.WordId(Boxed(raw));
    assert Eval(BOX_TEXT, loc) == Some(CVal(U64, Boxed(raw)));
  }

  lemma {:induction false} HighOnes(loc: Env)
    ensures Eval(Bin(CShl, Cast(U64, Lit(I32, -1)), Lit(I32, 32)), loc) == Some(CVal(U64, 0xFFFF_FFFF_0000_0000))
  {
    hide Pow2;
    var ones := Cast(U64, Lit(I32, -1));
    assert Eval(ones, loc) == Some(CVal(U64, 0xFFFF_FFFF_FFFF_FFFF));
    Pow2Values();
    assert Eval(Lit(I32, 32), loc) == Some(CVal(I32, 32));
    assert Wrap(0xFFFF_FFFF_FFFF_FFFF * 0x1_0000_0000) == 0xFFFF_FFFF_0000_0000;
  }

  lemma {:induction false} FpLoadLabel(fpu: Fpu, i: Insn, c: Cpu)
    requires i.ty.FpLoad? && Decoded(i) && c.gp[0] == 0
    ensures Correct(fpu, i, c)
  {
    hide Ir.Run, Get, Correct, Convert, LoadLE, Wrap, Lo32, Emit.PlusImm, BOX_TEXT, Emit.Assigned, Boxed, Ir.Exec;
    var p, g := i.ty.prec, NextGoto(i, c);
    var e := EmitInsn(i, c.pc).value;
    var t, a := if p.Single? then U32 else U64, c.gp[i.rs1];
    var raw := LoadLE(c.mem, Wrap(a + i.imm), FpSize(p));
    var v := if p.Single? then Boxed(raw) else Wrap(raw);
    var loc: Env := map[Rs1 := CVal(U64, a)];
    var loc' := loc[Rd := CVal(t, Convert(t, raw))];
    var load := Ir.MemLoad(t, Emit.PlusImm(i.imm));
    var text := if p.Single? then BOX_TEXT else Var(Rd);
    var put := Ir.SetFpBits(i.rd, Double, text);
    FpLoadText(p, raw, text, v, loc');
    assert e.stmts + g == [Get(Rs1, i.rs1)] + ([load] + ([put] + g));
    GetStep(fpu, Rs1, i.rs1, [load] + ([put] + g), c, map[]);
    LoadStep(fpu, t, i.imm, a, [put] + g, c, loc);
    PutBits(fpu, i.rd, Double, text, v, At(c, loc'));
    PutFpStep(fpu, put, i.rd, Double, v, g, c, loc');
    FallsThrough(fpu, i, c, WithFp(c, i.rd, v), e, loc');
  }

  lemma {:induction false} FpLoadText(p: Prec, raw: nat, text: Expr, v: u64, loc: Env)
    requires Rd in loc && loc[Rd] == (if p.Single? then CVal(U32, Convert(U32, raw)) else CVal(U64, Convert(U64, raw)))
    requires text == (if p.Single? then BOX_TEXT else Var(Rd))
    requires v == (if p.Single? then Boxed(raw) else Wrap(raw))
    ensures Emit.Assigned(text, loc) == Some(v)
  {
    if p.Single? {
      BoxText(raw, loc);
    } else {
      Emit.WordId(v);
    }
  }

  lemma {:induction false} PutBits(fpu: Fpu, r: Reg, p: Prec, e: Expr, v: u64, h: Ir.Host)
    requires Emit.Assigned(e, h.loc) == Some(v)
    ensures Ir.Exec(fpu, Ir.SetFpBits(r, p, e), h) == Ir.PutFp(h, r, p, v)
  {
    hide Emit.Assigned;
  }

  lemma {:induction false} FpStoreLabel(fpu: Fpu, i: Insn, c: Cpu)
    requires i.ty.FpStore? && Decoded(i) && c.gp[0] == 0
    ensures Correct(fpu, i, c)
  {
    hide Ir.Run, Get, At, Correct, StoreLE, Wrap, Emit.PlusImm;
    var p, g := i.ty.prec, NextGoto(i, c);
    var e := EmitInsn(i, c.pc).value;
    var t, a, v := if p.Single? then U32 else U64, c.gp[i.rs1], c.fp[i.rs2];
    var loc: Env := map[Rs1 := CVal(U64, a)];
    var loc' := loc[Rs2 := CVal(U64, v)];
    var get := Ir.GetFp(Rs2, i.rs2, Double);
    var store := Ir.MemStore(t, Emit.PlusImm(i.imm));
    assert e.stmts + g == [Get(Rs1, i.rs1)] + ([get] + ([store] + g));
    GetStep(fpu, Rs1, i.rs1, [get] + ([store] + g), c, map[]);
    GetFpStep(fpu, Rs2, i.rs2, Double, [store] + g, c, loc);
    StoreStep(fpu, t, i.imm, a, v, g, c, loc');
    FallsThrough(fpu, i, c, WithMem(c, StoreLE(c.mem, Wrap(a + i.imm), FpSize(p), v)), e, loc');
  }

  /** The environment after the floating-point sources are read. */
  function FpBoth(p: Prec, c: Cpu, i: Insn): Env {
    map[Rs1 := Ir.FpBits(p, c.fp[i.rs1])][Rs2 := Ir.FpBits(p, c.fp[i.rs2])]
  }

  lemma {:induction false} GetFpBoth(fpu: Fpu, p: Prec, i: Insn, rest: seq<Ir.Stmt>, c: Cpu)
    ensures Ir.Run(fpu, [Ir.GetFp(Rs1, i.rs1, p), Ir.GetFp(Rs2, i.rs2, p)] + rest, At(c, map[]))
         == Ir.Run(fpu, rest, At(c, FpBoth(p, c, i)))
  {
    hide Ir.Run, At, Ir.FpBits;
    var g1, g2 := Ir.GetFp(Rs1, i.rs1, p), Ir.GetFp(Rs2, i.rs2, p);
    assert [g1, g2] + rest == [g1] + ([g2] + rest);
    GetFpStep(fpu, Rs1, i.rs1, p, [g2] + rest, c, map[]);
    GetFpStep(fpu, Rs2, i.rs2, p, rest, c, map[Rs1 := Ir.FpBits(p, c.fp[i.rs1])]);
  }

  lemma {:induction false} FpArithLabel(fpu: Fpu, i: Insn, c: Cpu)
    requires i.ty.FpOp? && Decoded(i) && c.gp[0] == 0
    ensures Correct(fpu, i, c)
  {
    hide Ir.Run, Correct, Ir.FpBits, ReadFp, WriteFp, Ir.Local, Fused, Wrap;
    var op, p, g := i.ty.arith, i.ty.prec, NextGoto(i, c);
    var e := EmitInsn(i, c.pc).value;
    var put := Ir.SetFpHost(i.rd, Ir.HostArith(op, p));
    var loc := FpBoth(p, c, i);
    var third := if Fused(op) then [Ir.GetFp(Rs3, i.rs3, p)] else [];
    assert e.stmts + g == [Ir.GetFp(Rs1, i.rs1, p), Ir.GetFp(Rs2, i.rs2, p)] + (third + ([put] + g));
    GetFpBoth(fpu, p, i, third + ([put] + g), c);
    var loc' := if Fused(op) then loc[Rs3 := Ir.FpBits(p, c.fp[i.rs3])] else loc;
    if Fused(op) {
      GetFpStep(fpu, Rs3, i.rs3, p, [put] + g, c, loc);
      FpLocal(p, c.fp[i.rs3], Rs3, At(c, loc'));
    } else {
      assert third + ([put] + g) == [put] + g;
      NoThird(At(c, loc'));
    }
    FpLocal(p, c.fp[i.rs1], Rs1, At(c, loc'));
    FpLocal(p, c.fp[i.rs2], Rs2, At(c, loc'));
    var v := Ir.HostValue(fpu, Ir.HostArith(op, p), At(c, loc'));
    PutFpStep(fpu, put, i.rd, p, v, g, c, loc');
    FallsThrough(fpu, i, c, WithFp(c, i.rd, WriteFp(p, c.fp[i.rd], v)), e, loc');
  }

  lemma {:induction false} NoThird(h: Ir.Host)
    requires Rs3 !in h.loc
    ensures Ir.Local(h, Rs3) == 0
  {
  }

  lemma {:induction false} FpCompareLabel(fpu: Fpu, i: Insn, c: Cpu)
    requires i.ty.FpCmp? && Decoded(i) && c.gp[0] == 0
    ensures Correct(fpu, i, c)
  {
    hide Ir.Run, Correct, Ir.FpBits, ReadFp, Ir.Local, Wrap;
    var op, p, g, loc := i.ty.cmp, i.ty.prec, NextGoto(i, c), FpBoth(i.ty.prec, c, i);
    var e := EmitInsn(i, c.pc).value;
    var put := if i.rd != 0 then [Ir.SetGpCompare(i.rd, op, p)] else [];
    assert e.stmts + g == [Ir.GetFp(Rs1, i.rs1, p), Ir.GetFp(Rs2, i.rs2, p)] + (put + g);
    GetFpBoth(fpu, p, i, put + g, c);
    FpLocal(p, c.fp[i.rs1], Rs1, At(c, loc));
    FpLocal(p, c.fp[i.rs2], Rs2, At(c, loc));
    var v: u64 := if fpu.compare(op, p, ReadFp(p, c.fp[i.rs1]), ReadFp(p, c.fp[i.rs2])) then 1 else 0;
    var d := WithGp(c, i.rd, v);
    if i.rd != 0 {
      assert At(c, loc).x[i.rd := v] == At(d, loc).x;
      Cons(fpu, Ir.SetGpCompare(i.rd, op, p), g, At(c, loc), At(d, loc));
    } else {
      assert d.gp == c.gp && put + g == g;
    }
    FallsThrough(fpu, i, c, d, e, loc);
  }

  lemma {:induction false} WordLocal(v: u64, s: Slot, h: Ir.Host)
    requires s in h.loc && h.loc[s] == CVal(U64, v)
    ensures Ir.Local(h, s) == v
  {
  }

  lemma {:induction false} FpFromIntLabel(fpu: Fpu, i: Insn, c: Cpu)
    requires i.ty.FpFromInt? && Decoded(i) && c.gp[0] == 0
    ensures Correct(fpu, i, c)
  {
    hide Ir.Run, Correct, Get, WriteFp, Ir.Local, Wrap;
    var src, p, g := i.ty.source, i.ty.prec, NextGoto(i, c);
    var e := EmitInsn(i, c.pc).value;
    var put := Ir.SetFpHost(i.rd, Ir.HostFromInt(src, p));
    var loc: Env := map[Rs1 := CVal(U64, c.gp[i.rs1])];
    assert e.stmts + g == [Get(Rs1, i.rs1)] + ([put] + g);
    GetStep(fpu, Rs1, i.rs1, [put] + g, c, map[]);
    WordLocal(c.gp[i.rs1], Rs1, At(c, loc));
    var v := fpu.fromInt(src, p, c.gp[i.rs1]);
    PutFpStep(fpu, put, i.rd, p, v, g, c, loc);
    FallsThrough(fpu, i, c, WithFp(c, i.rd, WriteFp(p, c.fp[i.rd], v)), e, loc);
  }

  lemma {:induction false} FpConvertLabel(fpu: Fpu, i: Insn, c: Cpu)
    requires (i.ty.FpToSingle? || i.ty.FpToDouble?) && Decoded(i) && c.gp[0] == 0
    ensures Correct(fpu, i, c)
  {
    hide Ir.Run, Correct, Ir.FpBits, Ir.Local, Wrap, Lo32, LowWord;
    var g := NextGoto(i, c);
    var e := EmitInsn(i, c.pc).value;
    var p := if i.ty.FpToSingle? then Double else Single;
    var text := if i.ty.FpToSingle? then Ir.HostNarrow else Ir.HostWiden;
    var put := Ir.SetFpHost(i.rd, text);
    var loc: Env := map[Rs1 := Ir.FpBits(p, c.fp[i.rs1])];
    assert e.stmts + g == [Ir.GetFp(Rs1, i.rs1, p)] + ([put] + g);
    GetFpStep(fpu, Rs1, i.rs1, p, [put] + g, c, map[]);
    FpLocal(p, c.fp[i.rs1], Rs1, At(c, loc));
    var v := Ir.HostValue(fpu, text, At(c, loc));
    PutFpStep(fpu, put, i.rd, Ir.HostPrec(text), v, g, c, loc);
    FallsThrough(fpu, i, c, WithFp(c, i.rd, WriteFp(Ir.HostPrec(text), c.fp[i.rd], v)), e, loc);
  }

  lemma {:induction false} FpMoveToIntLabel(fpu: Fpu, i: Insn, c: Cpu)
    requires i.ty.FpMoveToInt? && Decoded(i) && c.gp[0] == 0
    ensures Correct(fpu, i, c)
  {
    hide Ir.Run, Correct, Set, Ir.FpBits, Wrap, S32, Emit.Assigned, Emit.Sext;
    var p, g := i.ty.prec, NextGoto(i, c);
    var e := EmitInsn(i, c.pc).value;
    var text := if p.Single? then Emit.Sext(Var(Rs1)) else Var(Rs1);
    var loc: Env := map[Rs1 := Ir.FpBits(p, c.fp[i.rs1])];
    var v := if p.Single? then SExt32(c.fp[i.rs1]) else c.fp[i.rs1];
    MoveText(p, c.fp[i.rs1], loc);
    assert e.stmts + g == [Ir.GetFp(Rs1, i.rs1, p)] + (Set(i.rd, text) + g);
    GetFpStep(fpu, Rs1, i.rs1, p, Set(i.rd, text) + g, c, map[]);
    SetStep(fpu, i.rd, text, v, g, c, loc);
    FallsThrough(fpu, i, c, WithGp(c, i.rd, v), e, loc);
  }

  lemma {:induction false} MoveText(p: Prec, v: u64, loc: Env)
    requires Rs1 in loc && loc[Rs1] == Ir.FpBits(p, v)
    ensures Emit.Assigned(if p.Single? then Emit.Sext(Var(Rs1)) else Var(Rs1), loc)
         == Some(if p.Single? then SExt32(v) else v)
  {
    if p.Single? {
      Emit.SextOf(Var(Rs1), Lo32(v), loc);
      Emit.Conversions(v);
    } else {
      Emit.WordId(v);
    }
  }

  lemma {:induction false} FpMoveFromIntLabel(fpu: Fpu, i: Insn, c: Cpu)
    requires i.ty.FpMoveFromInt? && Decoded(i) && c.gp[0] == 0
    ensures Correct(fpu, i, c)
  {
    hide Ir.Run, Correct, Get, Wrap, Emit.Assigned, Lo32, Ir.Exec;
    var p, g := i.ty.prec, NextGoto(i, c);
    var e := EmitInsn(i, c.pc).value;
    var text := if p.Single? then Cast(U32, Var(Rs1)) else Var(Rs1);
    var put := Ir.SetFpBits(i.rd, p, text);
    var a := c.gp[i.rs1];
    var loc: Env := map[Rs1 := CVal(U64, a)];
    var v := if p.Single? then Lo32(a) else a;
    LowText(p, a, loc);
    assert e.stmts + g == [Get(Rs1, i.rs1)] + ([put] + g);
    GetStep(fpu, Rs1, i.rs1, [put] + g, c, map[]);
    PutBits(fpu, i.rd, p, text, v, At(c, loc));
    PutFpStep(fpu, put, i.rd, p, v, g, c, loc);
    FallsThrough(fpu, i, c, WithFp(c, i.rd, WriteFp(p, c.fp[i.rd], a)), e, loc);
  }

  lemma {:induction false} LowText(p: Prec, a: u64, loc: Env)
    requires Emit.Holds(loc, a)
    ensures Emit.Assigned(if p.Single? then Cast(U32, Var(Rs1)) else Var(Rs1), loc)
         == Some(if p.Single? then Lo32(a) else a)
    ensures Lo32(Lo32(a)) == Lo32(a)
  {
    Emit.WordId(a);
    assert Eval(Cast(U32, Var(Rs1)), loc) == Some(CVal(U32, Lo32(a)));
  }

  // ----- all instructions -----

  /** Every decoded instruction: its label leaves the registers, memory and next
      pc of its handler, or hands the untouched state to the interpreter. */
  lemma {:induction false} LabelCorrect(fpu: Fpu, i: Insn, c: Cpu)
    requires Decoded(i) && c.gp[0] == 0
    ensures Correct(fpu, i, c)
  {
    hide Correct, Emit.RegText, Emit.ChainText;
    match i.ty
    case Load(_) => LoadLabel(fpu, i, c);
    case Store(_) => StoreLabel(fpu, i, c);
    case Fence => FenceLabel(fpu, i, c);
    case FenceI => FenceLabel(fpu, i, c);
    case OpImm(_) => ImmLabel(fpu, i, c);
    case Op(op) =>
      TextedIsCompiled(op);
      if Emit.RegText(op).Some? {
        RegLabel(fpu, i, c);
      } else if Emit.ChainText(op).Some? {
        ChainLabel(fpu, i, c);
      } else {
        InterpLabel(fpu, i, c);
      }
    case Auipc => ConstantLabel(fpu, i, c);
    case Lui => ConstantLabel(fpu, i, c);
    case Branch(_) => BranchLabel(fpu, i, c);
    case Jalr => JalrLabel(fpu, i, c);
    case Jal => JalLabel(fpu, i, c);
    case Ecall => EcallLabel(fpu, i, c);
    case Csr(_) =>
      if KnownCsr(i.csr) {
        ConstantLabel(fpu, i, c);
      } else {
        UnknownCsr(fpu, i, c);
      }
    case FpLoad(_) => FpLoadLabel(fpu, i, c);
    case FpStore(_) => FpStoreLabel(fpu, i, c);
    case FpOp(_, _) => FpArithLabel(fpu, i, c);
    case FpCmp(_, _) => FpCompareLabel(fpu, i, c);
    case FpFromInt(_, _) => FpFromIntLabel(fpu, i, c);
    case FpToSingle => FpConvertLabel(fpu, i, c);
    case FpToDouble => FpConvertLabel(fpu, i, c);
    case FpMoveToInt(_) => FpMoveToIntLabel(fpu, i, c);
    case FpMoveFromInt(_) => FpMoveFromIntLabel(fpu, i, c);
    case FpSqrt(_) => InterpLabel(fpu, i, c);
    case FpSignOp(_, _) => InterpLabel(fpu, i, c);
    case FpToInt(_, _) => InterpLabel(fpu, i, c);
  }

  lemma {:induction false} UnknownCsr(fpu: Fpu, i: Insn, c: Cpu)
    requires i.ty.Csr? && !KnownCsr(i.csr)
    ensures Correct(fpu, i, c)
  {
  }

  // ----- the decoder's guarantees -----

  lemma {:induction false} DecodeGuarantees(prev: Insn, w: bv32)
    requires Decode.InsnDecode(prev, w).Some?
    ensures Decoded(Decode.InsnDecode(prev, w).value)
  {
    hide Decode.InsnDecode;
    Shape.WordShape(prev, w);
  }

  /** The static record reused across `machine_genblock` iterations does not
      leak: a label does not depend on what an earlier decode left behind. */
  lemma {:induction false} StaleRecord(prev: Insn, w: bv32, pc: u64)
    ensures Label(prev, w, pc) == Label(ZERO_INSN, w, pc)
  {
    hide Decode.Quadrant0, Decode.Quadrant1, Decode.Quadrant2, Decode.Opcode, Decode.FpTypeOf, Decode.FusedOf,
      Decode.ImmOpOf, Decode.ImmWOpOf, Decode.RegOpOf, Decode.RegWOpOf, Decode.LoadOpOf, Decode.BranchOpOf,
      Decode.CsrOpOf, Decode.Funct3, Decode.IType, Decode.JType, Decode.BType, Decode.SType, Decode.RType,
      Decode.UType, Decode.CsrType, EmitOp, EmitFp;
  }
}
