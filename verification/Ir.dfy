/** The statements codegen.c prints under a label, and what the compiled C does
    with them: register variables exist only where the tracer declared them,
    and a label's locals live inside its braces. */
module Ir {
  import opened Words
  import opened Insn
  import opened CText
  import opened Guest
  import Emit

  /** Floating-point right-hand sides, evaluated by the host. */
  datatype FpText =
    | HostArith(op: FpArith, prec: Prec)
    | HostFromInt(source: FpSource, prec: Prec)
    | HostNarrow
    | HostWiden

  datatype Stmt =
    | GetGp(slot: Slot, reg: Reg)                  // uint64_t rs1 = x5;
    | GetZero(slot: Slot)                          // uint64_t rs1 = 0;
    | GetFp(slot: Slot, reg: Reg, prec: Prec)      // double rs1 = f5.d;
    | SetGp(reg: Reg, e: Expr)                     // x5 = e;
    | Choose(arms: seq<Emit.Arm>)                  // uint64_t rd = 0; if (c) { rd = e; } else ...
    | MemLoad(ty: CType, addr: Expr)               // T rd = *(T *)TO_HOST(addr);
    | MemStore(ty: CType, addr: Expr)              // *(T *)TO_HOST(addr) = (T)rs2;
    | SetFpBits(reg: Reg, prec: Prec, e: Expr)     // f5.v = e;
    | SetFpHost(reg: Reg, text: FpText)            // f5.d = rs1 * rs2 + rs3;
    | SetGpCompare(reg: Reg, cmp: FpCompare, prec: Prec) // x5 = rs1 < rs2;
    | IfGoto(c: Expr, target: u64)                 // if (c) { goto insn_t; }
    | Goto(target: u64)                            // goto insn_t;
    | Leave(reason: Reason, reenter: Expr)         // exit_reason = r; reenter_pc = e; goto end;

  /** Host side of a running block: the declared register variables, guest
      memory and the locals of the current label. */
  datatype Host = Host(x: map<Reg, u64>, f: map<Reg, u64>, mem: Mem, loc: Env)

  /** Ends of a statement; Broken covers C that does not compile, undefined
      behaviour and running past a label's closing brace. */
  datatype Result =
    | Fell(host: Host)
    | Jumped(target: u64, host: Host)
    | Left(exit: Exit, host: Host)
    | Broken

  function Bytes(t: CType): nat {
    match t
    case I8 => 1
    case U8 => 1
    case I16 => 2
    case U16 => 2
    case I32 => 4
    case U32 => 4
    case I64 => 8
    case U64 => 8
  }

  function Let(h: Host, s: Slot, v: CVal): Result {
    Fell(h.(loc := h.loc[s := v]))
  }

  function FpBits(p: Prec, v: u64): CVal {
    CVal(if p.Single? then U32 else U64, ReadFp(p, v))
  }

  /** Bits of a local, as the host's floating-point operations take them. */
  function Local(h: Host, s: Slot): u64 {
    if s in h.loc then Wrap(h.loc[s].v) else 0
  }

  /** The locals a host expression names. */
  function HostReads(t: FpText): set<Slot> {
    match t
    case HostArith(op, _) => if Fused(op) then {Rs1, Rs2, Rs3} else {Rs1, Rs2}
    case _ => {Rs1}
  }

  function HostValue(fpu: Fpu, t: FpText, h: Host): u64 {
    match t
    case HostArith(op, p) => fpu.arith(op, p, Local(h, Rs1), Local(h, Rs2), Local(h, Rs3))
    case HostFromInt(src, p) => fpu.fromInt(src, p, Local(h, Rs1))
    case HostNarrow => fpu.narrow(Local(h, Rs1))
    case HostWiden => fpu.widen(Local(h, Rs1))
  }

  function HostPrec(t: FpText): Prec {
    match t
    case HostArith(_, p) => p
    case HostFromInt(_, p) => p
    case HostNarrow => Single
    case HostWiden => Double
  }

  function PutGp(h: Host, r: Reg, v: u64): Result {
    if r in h.x then Fell(h.(x := h.x[r := v])) else Broken
  }

  function PutFp(h: Host, r: Reg, p: Prec, v: u64): Result {
    if r in h.f then Fell(h.(f := h.f[r := WriteFp(p, h.f[r], v)])) else Broken
  }

  function Exec(fpu: Fpu, s: Stmt, h: Host): Result {
    match s
    case GetGp(slot, r) => if r in h.x then Let(h, slot, CVal(U64, h.x[r])) else Broken
    case GetZero(slot) => Let(h, slot, CVal(U64, 0))
    case GetFp(slot, r, p) => if r in h.f then Let(h, slot, FpBits(p, h.f[r])) else Broken
    case SetGp(r, e) =>
      (match Emit.Assigned(e, h.loc)
       case None => Broken
       case Some(v) => PutGp(h, r, v))
    case Choose(arms) =>
      (match Emit.AssignedChain(arms, h.loc)
       case None => Broken
       case Some(v) => Let(h, Rd, CVal(U64, v)))
    case MemLoad(t, a) =>
      (match Emit.Assigned(a, h.loc)
       case None => Broken
       case Some(addr) => Let(h, Rd, CVal(t, Convert(t, LoadLE(h.mem, addr, Bytes(t))))))
    case MemStore(t, a) =>
      (match Emit.Assigned(a, h.loc)
       case None => Broken
       case Some(addr) =>
         if Rs2 in h.loc then Fell(h.(mem := StoreLE(h.mem, addr, Bytes(t), Wrap(Convert(t, h.loc[Rs2].v)))))
         else Broken)
    case SetFpBits(r, p, e) =>
      (match Emit.Assigned(e, h.loc)
       case None => Broken
       case Some(v) => PutFp(h, r, p, v))
    case SetFpHost(r, t) =>
      if HostReads(t) <= h.loc.Keys then PutFp(h, r, HostPrec(t), HostValue(fpu, t, h)) else Broken
    case SetGpCompare(r, op, p) =>
      if Rs1 in h.loc && Rs2 in h.loc then
        PutGp(h, r, if fpu.compare(op, p, Local(h, Rs1), Local(h, Rs2)) then 1 else 0)
      else Broken
    case IfGoto(c, t) =>
      (match Eval(c, h.loc)
       case None => Broken
       case Some(v) => if v.v != 0 then Jumped(t, h) else Fell(h))
    case Goto(t) => Jumped(t, h)
    case Leave(reason, e) =>
      (match Emit.Assigned(e, h.loc)
       case None => Broken
       case Some(v) => Left(Exit(reason, v), h))
  }

  /** Statements in order, up to the first transfer of control. */
  function Run(fpu: Fpu, ss: seq<Stmt>, h: Host): Result {
    if ss == [] then Fell(h)
    else
      match Exec(fpu, ss[0], h)
      case Fell(g) => Run(fpu, ss[1..], g)
      case r => r
  }

  /** A label, entered with no locals in scope; its end must not be reached. */
  function RunLabel(fpu: Fpu, ss: seq<Stmt>, h: Host): Result {
    match Run(fpu, ss, h.(loc := map[]))
    case Fell(_) => Broken
    case r => r
  }

  // ----- registers a statement names -----

  function GpOf(s: Stmt): set<Reg> {
    match s
    case GetGp(_, r) => {r}
    case SetGp(r, _) => {r}
    case SetGpCompare(r, _, _) => {r}
    case _ => {}
  }

  function FpOf(s: Stmt): set<Reg> {
    match s
    case GetFp(_, r, _) => {r}
    case SetFpBits(r, _, _) => {r}
    case SetFpHost(r, _) => {r}
    case _ => {}
  }

  predicate Names(ss: seq<Stmt>, gp: set<Reg>, fp: set<Reg>) {
    forall s <- ss :: GpOf(s) <= gp && FpOf(s) <= fp
  }

  // ----- restricting the register variables -----

  /** h is H with only the traced register variables declared. */
  predicate Restricts(h: Host, H: Host, gp: set<Reg>, fp: set<Reg>) {
    && h.mem == H.mem && h.loc == H.loc
    && h.x.Keys == H.x.Keys * gp && (forall r <- h.x :: h.x[r] == H.x[r])
    && h.f.Keys == H.f.Keys * fp && (forall r <- h.f :: h.f[r] == H.f[r])
  }

  /** G has H's register variables and differs from it only on traced ones. */
  predicate SameElsewhere(H: Host, G: Host, gp: set<Reg>, fp: set<Reg>) {
    && G.x.Keys == H.x.Keys && (forall r <- H.x :: r !in gp ==> G.x[r] == H.x[r])
    && G.f.Keys == H.f.Keys && (forall r <- H.f :: r !in fp ==> G.f[r] == H.f[r])
  }

  predicate SameEnd(r: Result, R: Result, H: Host, gp: set<Reg>, fp: set<Reg>) {
    match R
    case Broken => true
    case Fell(G) => r.Fell? && Restricts(r.host, G, gp, fp) && SameElsewhere(H, G, gp, fp)
    case Jumped(t, G) => r.Jumped? && r.target == t && Restricts(r.host, G, gp, fp) && SameElsewhere(H, G, gp, fp)
    case Left(e, G) => r.Left? && r.exit == e && Restricts(r.host, G, gp, fp) && SameElsewhere(H, G, gp, fp)
  }

  lemma {:induction false} TracedPutGp(h: Host, H: Host, r: Reg, v: u64, gp: set<Reg>, fp: set<Reg>)
    requires Restricts(h, H, gp, fp) && r in gp
    ensures SameEnd(PutGp(h, r, v), PutGp(H, r, v), H, gp, fp)
  {
  }

  lemma {:induction false} TracedPutFp(h: Host, H: Host, r: Reg, p: Prec, v: u64, gp: set<Reg>, fp: set<Reg>)
    requires Restricts(h, H, gp, fp) && r in fp
    ensures SameEnd(PutFp(h, r, p, v), PutFp(H, r, p, v), H, gp, fp)
  {
    hide WriteFp;
  }

  lemma {:induction false} TracedLet(h: Host, H: Host, s: Slot, v: CVal, gp: set<Reg>, fp: set<Reg>)
    requires Restricts(h, H, gp, fp)
    ensures SameEnd(Let(h, s, v), Let(H, s, v), H, gp, fp)
  {
  }

  lemma {:induction false} TracedStmt(fpu: Fpu, s: Stmt, h: Host, H: Host, gp: set<Reg>, fp: set<Reg>)
    requires Restricts(h, H, gp, fp) && GpOf(s) <= gp && FpOf(s) <= fp
    ensures SameEnd(Exec(fpu, s, h), Exec(fpu, s, H), H, gp, fp)
  {
    hide StoreLE, LoadLE, Convert, Emit.Assigned, Emit.AssignedChain, Eval, FpBits, Wrap, PutGp, PutFp, Let;
    match s
    case GetGp(slot, r) =>
      if r in H.x {
        TracedLet(h, H, slot, CVal(U64, H.x[r]), gp, fp);
      }
    case GetZero(slot) =>
      TracedLet(h, H, slot, CVal(U64, 0), gp, fp);
    case GetFp(slot, r, p) =>
      if r in H.f {
        TracedLet(h, H, slot, FpBits(p, H.f[r]), gp, fp);
      }
    case SetGp(r, e) =>
      var a := Emit.Assigned(e, h.loc);
      if a.Some? {
        TracedPutGp(h, H, r, a.value, gp, fp);
      }
    case Choose(arms) =>
      var a := Emit.AssignedChain(arms, h.loc);
      if a.Some? {
        TracedLet(h, H, Rd, CVal(U64, a.value), gp, fp);
      }
    case MemLoad(t, e) =>
      var a := Emit.Assigned(e, h.loc);
      if a.Some? {
        TracedLet(h, H, Rd, CVal(t, Convert(t, LoadLE(h.mem, a.value, Bytes(t)))), gp, fp);
      }
    case MemStore(t, a) =>
    case SetFpBits(r, p, e) =>
      var a := Emit.Assigned(e, h.loc);
      if a.Some? {
        TracedPutFp(h, H, r, p, a.value, gp, fp);
      }
    case SetFpHost(r, t) =>
      TracedPutFp(h, H, r, HostPrec(t), HostValue(fpu, t, h), gp, fp);
    case SetGpCompare(r, op, p) =>
      TracedPutGp(h, H, r, if fpu.compare(op, p, Local(h, Rs1), Local(h, Rs2)) then 1 else 0, gp, fp);
    case IfGoto(c, t) =>
    case Goto(t) =>
    case Leave(reason, e) =>
  }

  /** Tracer soundness: statements that name only traced registers behave the
      same whether or not the other register variables are declared. */
  lemma {:induction false} TracedRun(fpu: Fpu, ss: seq<Stmt>, h: Host, H: Host, gp: set<Reg>, fp: set<Reg>)
    requires Restricts(h, H, gp, fp) && Names(ss, gp, fp)
    ensures SameEnd(Run(fpu, ss, h), Run(fpu, ss, H), H, gp, fp)
    decreases ss
  {
    hide Exec;
    if ss != [] {
      TracedStmt(fpu, ss[0], h, H, gp, fp);
      var r, R := Exec(fpu, ss[0], h), Exec(fpu, ss[0], H);
      if R.Fell? {
        TracedRun(fpu, ss[1..], r.host, R.host, gp, fp);
      }
    }
  }
}
