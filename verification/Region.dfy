/** The region `machine_genblock` translates: static successors, reachability,
    and the order in which the worklist visits it. */
module Region {
  import opened Words
  import opened Insn
  import opened Guest
  import opened Block
  import opened Worklist
  import Probe
  import Codegen
  import Decode
  import Translate
  import Shape

  // ----- static successors -----

  /** Where control may go after instruction i at pc without leaving the block. */
  function Successors(i: Insn, pc: u64): set<u64> {
    var next := Wrap(pc + InsnLength(i));
    match i.ty
    case Branch(_) => {Wrap(pc + i.imm), next}
    case Jal => {Wrap(pc + i.imm)}
    case Jalr => {}
    case Ecall => {}
    case t => if InterpOnly(t) then {} else {next}
  }

  function SuccessorsAt(m: Mem, pc: u64): set<u64> {
    match Decode.InsnDecode(ZERO_INSN, Fetch(m, pc))
    case None => {}
    case Some(i) => Successors(i, pc)
  }

  /** The pcs a label pushes are exactly its instruction's static successors. */
  lemma {:induction false} PushesAreSuccessors(m: Mem, pc: u64)
    requires LabelAt(m, pc).Some?
    ensures Probe.Elements(LabelAt(m, pc).value.pushes) == SuccessorsAt(m, pc)
  {
    hide Decode.InsnDecode, Wrap;
    Translate.DecodeGuarantees(ZERO_INSN, Fetch(m, pc));
    var i := Decode.InsnDecode(ZERO_INSN, Fetch(m, pc)).value;
    PushesOf(i, pc);
  }

  lemma {:induction false} PushesOf(i: Insn, pc: u64)
    requires Shape.Decoded(i) && Codegen.EmitInsn(i, pc).Some?
    ensures Probe.Elements(Codegen.Finish(i, pc, Codegen.EmitInsn(i, pc).value).pushes) == Successors(i, pc)
  {
    hide Wrap;
    if i.ty.Op? {
      Translate.TextedIsCompiled(i.ty.op);
    }
  }

  /** A set of pcs closed under static successors. */
  ghost predicate Closed(m: Mem, t: iset<u64>) {
    forall pc <- t :: forall q <- SuccessorsAt(m, pc) :: q in t
  }

  /** pc lies in every closed set around the entry: it is statically reachable. */
  ghost predicate Reachable(m: Mem, entry: u64, pc: u64) {
    forall t: iset<u64> :: entry in t && Closed(m, t) ==> pc in t
  }

  lemma {:induction false} ReachableStep(m: Mem, entry: u64, pc: u64, q: u64)
    requires Reachable(m, entry, pc) && q in SuccessorsAt(m, pc)
    ensures Reachable(m, entry, q)
  {
    hide SuccessorsAt;
  }

  ghost predicate AllReachable(m: Mem, entry: u64, s: seq<u64>) {
    forall pc <- s :: Reachable(m, entry, pc)
  }

  lemma {:induction false} StillReachable(m: Mem, entry: u64, w: seq<u64>, pc: u64, w': seq<u64>)
    requires AllReachable(m, entry, w) && Reachable(m, entry, pc) && LabelAt(m, pc).Some?
    requires forall q <- w' :: q in w || q in LabelAt(m, pc).value.pushes
    ensures AllReachable(m, entry, w')
  {
    hide LabelAt, Reachable, SuccessorsAt;
    PushesAreSuccessors(m, pc);
    forall q <- w'
      ensures Reachable(m, entry, q)
    {
      if q !in w {
        assert q in Probe.Elements(LabelAt(m, pc).value.pushes);
        ReachableStep(m, entry, pc, q);
      }
    }
  }

  lemma {:induction false} SplitReachable(m: Mem, entry: u64, w: seq<u64>, pc: u64)
    requires AllReachable(m, entry, w + [pc])
    ensures AllReachable(m, entry, w) && Reachable(m, entry, pc)
  {
    hide Reachable;
    assert pc in w + [pc];
    assert forall q <- w :: q in w + [pc];
  }

  lemma {:induction false} StartReachable(m: Mem, entry: u64)
    ensures AllReachable(m, entry, []) && AllReachable(m, entry, [entry])
  {
    hide SuccessorsAt;
  }

  // ----- the order of the visit -----

  /** Labels printed, and pcs waiting, the last on top. */
  datatype Work = Work(order: seq<u64>, waiting: seq<u64>)

  function Pushes(m: Mem, pc: u64): seq<u64> {
    match LabelAt(m, pc)
    case None => []
    case Some(e) => e.pushes
  }

  /** One round of the loop, were its containers unbounded. */
  function Advance(m: Mem, w: Work): Work {
    if w.waiting == [] then w
    else
      var rest, pc := w.waiting[..|w.waiting| - 1], w.waiting[|w.waiting| - 1];
      if pc in w.order then Work(w.order, rest) else Work(w.order + [pc], PushSeq(rest, Pushes(m, pc)))
  }

  function WorkAfter(m: Mem, entry: u64, n: nat): Work {
    if n == 0 then Work([], [entry]) else Advance(m, WorkAfter(m, entry, n - 1))
  }

  /** A round that takes pc off the stack. */
  lemma {:induction false} AdvanceIs(m: Mem, w: Work, rest: seq<u64>, pc: u64)
    requires w.waiting == rest + [pc]
    ensures Advance(m, w) == if pc in w.order then Work(w.order, rest)
                             else Work(w.order + [pc], PushSeq(rest, Pushes(m, pc)))
    ensures Verdict(m, w) == if pc == 0 then Some(RejectedAt(0))
                             else if pc in w.order then None
                             else if Probe.Crowded(TableOf(w.order), pc) then Some(NoRoom)
                             else if LabelAt(m, pc).None? then Some(RejectedAt(pc))
                             else if StackFull(rest, Pushes(m, pc)) then Some(NoRoom)
                             else None
  {
    hide LabelAt, TableOf, PushSeq, StackFull, Pushes, Probe.Crowded;
    assert w.waiting[..|w.waiting| - 1] == rest;
  }

  datatype Ending = Finished | RejectedAt(pc: u64) | NoRoom

  /** How the loop ends in this round; None if it goes on. */
  ghost function Verdict(m: Mem, w: Work): Option<Ending> {
    if w.waiting == [] then Some(Finished)
    else
      var rest, pc := w.waiting[..|w.waiting| - 1], w.waiting[|w.waiting| - 1];
      if pc == 0 then Some(RejectedAt(0))
      else if pc in w.order then None
      else if Probe.Crowded(TableOf(w.order), pc) then Some(NoRoom)
      else if LabelAt(m, pc).None? then Some(RejectedAt(pc))
      else if StackFull(rest, Pushes(m, pc)) then Some(NoRoom)
      else None
  }

  /** The loop goes on for n rounds and then ends like this. */
  ghost predicate Ends(m: Mem, entry: u64, end: Ending, n: nat) {
    && (forall k: nat | k < n :: Verdict(m, WorkAfter(m, entry, k)).None?)
    && Verdict(m, WorkAfter(m, entry, n)) == Some(end)
  }

  /** At most one ending is possible. */
  lemma {:induction false} EndsOnce(m: Mem, entry: u64, a: Ending, i: nat, b: Ending, j: nat)
    requires Ends(m, entry, a, i) && Ends(m, entry, b, j)
    ensures a == b && i == j
  {
    hide Verdict, WorkAfter;
  }

  // ----- what the visit keeps -----

  lemma {:induction false} PushSeqIn(w: seq<u64>, es: seq<u64>)
    ensures forall q <- PushSeq(w, es) :: q in w || q in es
    ensures forall q <- w + es :: q in PushSeq(w, es)
    ensures |w| <= |PushSeq(w, es)| <= |w| + |es|
    decreases |es|
  {
    if es != [] {
      PushSeqIn(PushOne(w, es[0]), es[1..]);
      assert es == [es[0]] + es[1..];
    }
  }

  lemma {:induction false} PushesReachable(m: Mem, entry: u64, w: seq<u64>, pc: u64)
    requires AllReachable(m, entry, w) && Reachable(m, entry, pc)
    ensures AllReachable(m, entry, PushSeq(w, Pushes(m, pc)))
  {
    hide LabelAt, Reachable, PushSeq;
    PushSeqIn(w, Pushes(m, pc));
    if LabelAt(m, pc).Some? {
      StillReachable(m, entry, w, pc, PushSeq(w, Pushes(m, pc)));
    }
  }

  /** Every pc printed or waiting is statically reachable. */
  lemma {:induction false} WorkReachable(m: Mem, entry: u64, n: nat)
    ensures AllReachable(m, entry, WorkAfter(m, entry, n).order)
    ensures AllReachable(m, entry, WorkAfter(m, entry, n).waiting)
    decreases n
  {
    hide LabelAt, Reachable, PushSeq, Pushes;
    if n == 0 {
      StartReachable(m, entry);
    } else {
      WorkReachable(m, entry, n - 1);
      var w := WorkAfter(m, entry, n - 1);
      if w.waiting != [] {
        var rest, pc := w.waiting[..|w.waiting| - 1], w.waiting[|w.waiting| - 1];
        assert w.waiting == rest + [pc];
        SplitReachable(m, entry, rest, pc);
        PushesReachable(m, entry, rest, pc);
        assert forall q <- w.order + [pc] :: q in w.order || q == pc;
      }
    }
  }

  // ----- how high the stack gets -----

  predicate IsBranchAt(m: Mem, pc: u64) {
    var i := Decode.InsnDecode(ZERO_INSN, Fetch(m, pc));
    i.Some? && i.value.ty.Branch?
  }

  /** Only a conditional branch pushes two pcs, and nothing pushes more. */
  lemma {:induction false} FewPushes(m: Mem, pc: u64)
    ensures |Pushes(m, pc)| <= if IsBranchAt(m, pc) then 2 else 1
  {
    hide Decode.InsnDecode, Wrap, Fetch;
    if LabelAt(m, pc).Some? {
      Translate.DecodeGuarantees(ZERO_INSN, Fetch(m, pc));
      PushesCount(Decode.InsnDecode(ZERO_INSN, Fetch(m, pc)).value, pc);
    }
  }

  lemma {:induction false} PushesCount(i: Insn, pc: u64)
    requires Shape.Decoded(i) && Codegen.EmitInsn(i, pc).Some?
    ensures |Codegen.Finish(i, pc, Codegen.EmitInsn(i, pc).value).pushes| <= if i.ty.Branch? then 2 else 1
  {
    hide Wrap;
  }

  /** Branches among the pcs of s. */
  function Branches(m: Mem, s: seq<u64>): set<u64> {
    set pc | pc in s && IsBranchAt(m, pc)
  }

  lemma {:induction false} BranchesMore(m: Mem, s: seq<u64>, pc: u64)
    requires pc !in s
    ensures |Branches(m, s + [pc])| == |Branches(m, s)| + if IsBranchAt(m, pc) then 1 else 0
  {
    hide IsBranchAt;
    if IsBranchAt(m, pc) {
      assert Branches(m, s + [pc]) == Branches(m, s) + {pc};
    } else {
      assert Branches(m, s + [pc]) == Branches(m, s);
    }
  }

  /** Each round pops one pc, so the stack is at most one higher than the number
      of branches printed. */
  lemma {:induction false} Height(m: Mem, entry: u64, n: nat)
    ensures |WorkAfter(m, entry, n).waiting| <= 1 + |Branches(m, WorkAfter(m, entry, n).order)|
    decreases n
  {
    hide LabelAt, Pushes, PushSeq, IsBranchAt, Branches;
    if n != 0 {
      Height(m, entry, n - 1);
      var w := WorkAfter(m, entry, n - 1);
      if w.waiting != [] {
        var rest, pc := w.waiting[..|w.waiting| - 1], w.waiting[|w.waiting| - 1];
        if pc !in w.order {
          BranchesMore(m, w.order, pc);
          FewPushes(m, pc);
          PushSeqIn(rest, Pushes(m, pc));
        }
      }
    }
  }

  /** The fixed-size containers cannot hold the region: 256 branches are
      statically reachable, or more than 32 pcs of which two hash alike. */
  ghost predicate Overfull(m: Mem, entry: u64) {
    exists s: set<u64> ::
      ((|s| >= 256 && (forall pc <- s :: IsBranchAt(m, pc))) || (|s| > 32 && Collides(s)))
      && forall pc <- s :: Reachable(m, entry, pc)
  }

  /** A push that fails needs 256 reachable branches. */
  lemma {:induction false} FullStack(m: Mem, entry: u64, n: nat, rest: seq<u64>, pc: u64)
    requires WorkAfter(m, entry, n).waiting == rest + [pc] && pc !in WorkAfter(m, entry, n).order
    requires StackFull(rest, Pushes(m, pc))
    ensures Overfull(m, entry)
  {
    hide LabelAt, Pushes, IsBranchAt, Branches, WorkAfter, Reachable, Collides;
    var w := WorkAfter(m, entry, n);
    Height(m, entry, n);
    FewPushes(m, pc);
    BranchesMore(m, w.order, pc);
    var es := Pushes(m, pc);
    assert |es| == 2 ==> (StackFull(rest, es) <==> |rest| >= 256 || |PushOne(rest, es[0])| >= 256) by {
      if |es| == 2 { FullTwice(rest, es); }
    }
    WorkReachable(m, entry, n);
    SplitReachable(m, entry, rest, pc);
    var s := Branches(m, w.order + [pc]);
    BranchesReachable(m, entry, w.order, pc);
    assert |s| >= 256;
  }

  lemma {:induction false} FullTwice(w: seq<u64>, es: seq<u64>)
    requires |es| == 2
    ensures StackFull(w, es) <==> |w| >= 256 || |PushOne(w, es[0])| >= 256
  {
    assert es[1..] == [es[1]] && es[1..][1..] == [];
    assert StackFull(PushOne(w, es[0]), es[1..]) <==> |PushOne(w, es[0])| >= 256;
  }

  lemma {:induction false} BranchesReachable(m: Mem, entry: u64, s: seq<u64>, pc: u64)
    requires AllReachable(m, entry, s) && Reachable(m, entry, pc)
    ensures forall q <- Branches(m, s + [pc]) :: IsBranchAt(m, q) && Reachable(m, entry, q)
  {
    hide IsBranchAt, Reachable;
  }

  /** A region with fewer branches whose pcs do not collide always has room. */
  lemma {:induction false} HasRoom(m: Mem, entry: u64)
    requires forall s: set<u64> | forall pc <- s :: IsBranchAt(m, pc) && Reachable(m, entry, pc) :: |s| < 256
    requires forall a: u64, b: u64 | Reachable(m, entry, a) && Reachable(m, entry, b) && a != b :: Home(a) != Home(b)
    ensures !Overfull(m, entry)
  {
    hide IsBranchAt, Reachable, Home;
  }
}
