/** `machine_genblock`: the worklist loop that turns the region statically
    reachable from a pc into one label+goto program. */
module GenBlock {
  import opened Words
  import opened Insn
  import opened Guest
  import opened Block
  import opened Worklist
  import opened Region
  import Probe
  import Codegen
  import Decode
  import Translate
  import Shape

  // ----- the loop -----

  datatype GenResult =
    | Generated(program: Program)
    | Rejected(pc: u64)
    | OutOfSpace

  /** The labels of p are exactly the statically reachable pcs, the entry first. */
  ghost predicate IsBlockFor(p: Program, m: Mem, entry: u64) {
    && GeneratedFrom(p, m)
    && p.order[0] == entry
    && (forall pc <- p.code :: Reachable(m, entry, pc))
    && (forall pc <- p.code :: SuccessorsAt(m, pc) <= p.code.Keys)
    && TracedOnly(p, m)
  }

  /** Only registers some label names are declared, loaded and stored back. */
  predicate TracedOnly(p: Program, m: Mem) {
    && (forall r <- p.gp :: exists pc <- p.code :: NamesGp(m, pc, r))
    && (forall r <- p.fp :: exists pc <- p.code :: NamesFp(m, pc, r))
  }

  predicate NamesGp(m: Mem, pc: u64, r: Reg) {
    LabelAt(m, pc).Some? && r in LabelAt(m, pc).value.gp
  }

  predicate NamesFp(m: Mem, pc: u64, r: Reg) {
    LabelAt(m, pc).Some? && r in LabelAt(m, pc).value.fp
  }

  lemma {:induction false} ExtendTraced(p: Program, m: Mem, pc: u64)
    requires TracedOnly(p, m) && pc !in p.code && LabelAt(m, pc).Some?
    ensures TracedOnly(Extend(p, pc, LabelAt(m, pc).value), m)
  {
    hide LabelAt;
    var p' := Extend(p, pc, LabelAt(m, pc).value);
    forall r <- p'.gp
      ensures exists q <- p'.code :: NamesGp(m, q, r)
    {
      if r in LabelAt(m, pc).value.gp {
        assert pc in p'.code && NamesGp(m, pc, r);
      } else {
        var q :| q in p.code && NamesGp(m, q, r);
        assert q in p'.code;
      }
    }
    forall r <- p'.fp
      ensures exists q <- p'.code :: NamesFp(m, q, r)
    {
      if r in LabelAt(m, pc).value.fp {
        assert pc in p'.code && NamesFp(m, pc, r);
      } else {
        var q :| q in p.code && NamesFp(m, q, r);
        assert q in p'.code;
      }
    }
  }

  /** Labels printed so far: right statements, traced, successors printed or waiting. */
  predicate Pending(p: Program, m: Mem, waiting: seq<u64>) {
    && NoDuplicates(p.order) && p.code.Keys == Probe.Elements(p.order)
    && forall pc <- p.code :: PendingLabel(p, m, waiting, pc)
  }

  predicate PendingLabel(p: Program, m: Mem, waiting: seq<u64>, pc: u64)
    requires pc in p.code
  {
    && pc != 0
    && var e := LabelAt(m, pc);
       e.Some? && p.code[pc] == e.value.stmts && e.value.gp <= p.gp && e.value.fp <= p.fp
       && forall t <- e.value.pushes :: t in p.code || t in waiting
  }

  function Extend(p: Program, pc: u64, e: Codegen.Emission): Program {
    Program(p.order + [pc], p.code[pc := e.stmts], p.gp + e.gp, p.fp + e.fp)
  }

  /** Printing a label and pushing its successors. */
  lemma {:induction false} ExtendPending(p: Program, m: Mem, w: seq<u64>, pc: u64, w': seq<u64>)
    requires Pending(p, m, w + [pc]) && pc !in p.code && pc != 0 && LabelAt(m, pc).Some?
    requires forall q <- w + LabelAt(m, pc).value.pushes :: q in w'
    ensures Pending(Extend(p, pc, LabelAt(m, pc).value), m, w')
  {
    hide LabelAt;
    var p' := Extend(p, pc, LabelAt(m, pc).value);
    assert p'.code.Keys == Probe.Elements(p'.order) by {
      assert forall q :: q in p'.order <==> q in p.order || q == pc;
    }
    forall q <- p'.code
      ensures PendingLabel(p', m, w', q)
    {
      if q == pc {
      } else {
        assert PendingLabel(p, m, w + [pc], q);
      }
    }
  }

  /** A pc that already has a label can be dropped. */
  lemma {:induction false} DropPending(p: Program, m: Mem, w: seq<u64>, pc: u64)
    requires Pending(p, m, w + [pc]) && pc in p.code
    ensures Pending(p, m, w) && p.order != []
  {
    hide LabelAt;
    assert pc in Probe.Elements(p.order);
    forall q <- p.code
      ensures PendingLabel(p, m, w, q)
    {
      assert PendingLabel(p, m, w + [pc], q);
    }
  }

  lemma {:induction false} PendingDone(p: Program, m: Mem, entry: u64)
    requires Pending(p, m, []) && p.order != [] && p.order[0] == entry && AllReachable(m, entry, p.order)
    requires TracedOnly(p, m)
    ensures IsBlockFor(p, m, entry)
  {
    hide LabelAt, SuccessorsAt, Reachable, TracedOnly;
    forall pc <- p.code
      ensures LabelFrom(p, m, pc) && Reachable(m, entry, pc) && SuccessorsAt(m, pc) <= p.code.Keys
    {
      assert PendingLabel(p, m, [], pc);
      PushesAreSuccessors(m, pc);
    }
  }

  method PushAll(stack: Stack, pcs: seq<u64>) returns (ok: bool)
    requires stack.Valid()
    modifies stack, stack.elems
    ensures stack.Valid()
    ensures ok <==> !StackFull(old(stack.Contents()), pcs)
    ensures ok ==> stack.Contents() == PushSeq(old(stack.Contents()), pcs)
  {
    for k := 0 to |pcs|
      invariant stack.Valid()
      invariant PushSeq(old(stack.Contents()), pcs) == PushSeq(stack.Contents(), pcs[k..])
      invariant StackFull(old(stack.Contents()), pcs) == StackFull(stack.Contents(), pcs[k..])
    {
      assert pcs[k..][1..] == pcs[k + 1..] && pcs[k..][0] == pcs[k];
      ok := stack.Push(pcs[k]);
      if !ok {
        return;
      }
    }
    ok := true;
  }

  /** The loop invariant: what is printed and waiting after n rounds, and in the
      set. */
  ghost predicate Invariant(p: Program, m: Mem, entry: u64, waiting: seq<u64>, seen: set<u64>, n: nat) {
    && p.code.Keys == seen
    && Pending(p, m, waiting) && TracedOnly(p, m)
    && WorkAfter(m, entry, n) == Work(p.order, waiting)
    && (forall k: nat | k < n :: Verdict(m, WorkAfter(m, entry, k)).None?)
    && if p.order == [] then waiting == [entry] else p.order[0] == entry
  }

  lemma {:induction false} CrowdedSet(p: Program, m: Mem, entry: u64, w: seq<u64>, pc: u64, seen: set<u64>, n: nat)
    requires Invariant(p, m, entry, w + [pc], seen, n)
    requires |seen| > Probe.LIMIT && Collides(seen + {pc})
    ensures Overfull(m, entry)
  {
    hide Reachable, LabelAt, Collides, Verdict, WorkAfter, TracedOnly;
    WorkReachable(m, entry, n);
    SplitReachable(m, entry, w, pc);
    assert forall q <- seen :: q in Probe.Elements(p.order);
    var s := seen + {pc};
    Probe.SubsetSize(seen, s);
    assert forall q <- s :: Reachable(m, entry, q);
  }

  function EndingOf(r: GenResult): Ending {
    match r
    case Generated(_) => Finished
    case Rejected(pc) => RejectedAt(pc)
    case OutOfSpace => NoRoom
  }

  /** The loop ends with r in round n, and what that means. */
  ghost predicate Answer(r: GenResult, m: Mem, entry: u64, n: nat) {
    && Ends(m, entry, EndingOf(r), n)
    && match r
       case Generated(p) => IsBlockFor(p, m, entry) && p.order == WorkAfter(m, entry, n).order
       case Rejected(pc) => Reachable(m, entry, pc) && (pc == 0 || LabelAt(m, pc).None?)
       case OutOfSpace => Overfull(m, entry)
  }

  /** The rest of a round for a pc that is new: print its label and push. */
  method Print(m: Mem, stack: Stack, p: Program, insn: Insn, pc: u64)
    returns (p': Program, insn': Insn, end: Option<Ending>)
    requires stack.Valid() && pc !in p.code && pc != 0 && Pending(p, m, stack.Contents() + [pc]) && TracedOnly(p, m)
    modifies stack, stack.elems
    ensures stack.Valid()
    ensures end == Some(RejectedAt(pc)) <==> LabelAt(m, pc).None?
    ensures end == Some(NoRoom) <==> LabelAt(m, pc).Some? && StackFull(old(stack.Contents()), Pushes(m, pc))
    ensures end.None? || end == Some(NoRoom) || end == Some(RejectedAt(pc))
    ensures end.None? ==> p'.order == p.order + [pc] && p'.code.Keys == p.code.Keys + {pc}
    ensures end.None? ==> stack.Contents() == PushSeq(old(stack.Contents()), Pushes(m, pc))
    ensures end.None? ==> Pending(p', m, stack.Contents()) && TracedOnly(p', m)
  {
    hide LabelAt, Pending, Codegen.Label, Decode.InsnDecode, Fetch, NoDuplicates, TracedOnly, PushSeq, StackFull;
    p', insn', end := p, insn, None;
    ghost var waiting := stack.Contents();
    var emitted := Codegen.Label(insn, Fetch(m, pc), pc);
    SameLabel(m, insn, pc);
    if emitted == None {
      end := Some(RejectedAt(pc));
      return;
    }
    insn' := Decode.InsnDecode(insn, Fetch(m, pc)).value;
    var ok := PushAll(stack, emitted.value.pushes);
    if !ok {
      end := Some(NoRoom);
      return;
    }
    PushSeqIn(waiting, emitted.value.pushes);
    ExtendPending(p, m, waiting, pc, stack.Contents());
    ExtendTraced(p, m, pc);
    p' := Extend(p, pc, emitted.value);
  }

  lemma {:induction false} Concludes(
    p: Program, m: Mem, entry: u64, waiting: seq<u64>, seen: set<u64>, n: nat, end: Ending)
    requires Invariant(p, m, entry, waiting, seen, n) && Verdict(m, Work(p.order, waiting)) == Some(end)
    ensures Ends(m, entry, end, n)
  {
    hide Verdict, WorkAfter, Pending, TracedOnly;
  }

  lemma {:induction false} Continues(
    p: Program, m: Mem, entry: u64, rest: seq<u64>, pc: u64, seen: set<u64>, n: nat,
    p': Program, waiting': seq<u64>, seen': set<u64>)
    requires Invariant(p, m, entry, rest + [pc], seen, n) && Verdict(m, Work(p.order, rest + [pc])).None?
    requires Work(p'.order, waiting') == Advance(m, Work(p.order, rest + [pc]))
    requires p'.order == (if pc in p.order then p.order else p.order + [pc])
    requires p'.code.Keys == seen' && Pending(p', m, waiting') && TracedOnly(p', m)
    ensures Invariant(p', m, entry, waiting', seen', n + 1)
  {
    hide Verdict, Pending, TracedOnly, Advance, WorkAfter;
    NextRound(m, entry, n);
    assert (rest + [pc])[|rest|] == pc;
    var n' := n + 1;
    forall k: nat | k < n'
      ensures Verdict(m, WorkAfter(m, entry, k)).None?
    {
    }
  }

  lemma {:induction false} NextRound(m: Mem, entry: u64, n: nat)
    ensures WorkAfter(m, entry, n + 1) == Advance(m, WorkAfter(m, entry, n))
  {
    hide Advance;
  }

  lemma {:induction false} Completes(p: Program, m: Mem, entry: u64, seen: set<u64>, n: nat)
    requires Invariant(p, m, entry, [], seen, n)
    ensures Answer(Generated(p), m, entry, n)
  {
    hide Pending, TracedOnly, WorkAfter, IsBlockFor, LabelAt;
    WorkReachable(m, entry, n);
    PendingDone(p, m, entry);
    assert Verdict(m, Work(p.order, [])) == Some(Finished);
  }

  /** What is known of the pc a round takes off the stack. */
  lemma {:induction false} TopOfStack(p: Program, m: Mem, entry: u64, rest: seq<u64>, pc: u64, seen: set<u64>, n: nat)
    requires Invariant(p, m, entry, rest + [pc], seen, n)
    ensures Reachable(m, entry, pc) && AllReachable(m, entry, rest)
    ensures pc in seen <==> pc in p.order
    ensures pc in seen ==> pc != 0 && Pending(p, m, rest)
  {
    hide LabelAt, Reachable, WorkAfter, Verdict, TracedOnly;
    WorkReachable(m, entry, n);
    SplitReachable(m, entry, rest, pc);
    assert pc in p.code <==> pc in Probe.Elements(p.order);
    if pc in p.code {
      assert PendingLabel(p, m, rest + [pc], pc);
      DropPending(p, m, rest, pc);
    }
  }

  /** One round: pop, insert, print, push. */
  method Round(m: Mem, ghost entry: u64, stack: Stack, seen: PcSet, p: Program, insn: Insn, ghost n: nat)
    returns (p': Program, insn': Insn, r: Option<GenResult>)
    requires stack.Valid() && seen.Valid() && stack.elems != seen.table
    requires Invariant(p, m, entry, stack.Contents(), seen.Elems(), n) && seen.table[..] == TableOf(p.order)
    modifies stack, stack.elems, seen, seen.table
    ensures stack.Valid() && seen.Valid()
    ensures r.Some? ==> Answer(r.value, m, entry, n)
    ensures r.None? ==>
              Invariant(p', m, entry, stack.Contents(), seen.Elems(), n + 1) && seen.table[..] == TableOf(p'.order)
    ensures r.None? ==> old(seen.Elems()) <= seen.Elems()
    ensures r.None? && seen.Elems() == old(seen.Elems()) ==> |stack.Contents()| < old(|stack.Contents()|)
  {
    hide LabelAt, Reachable, SuccessorsAt, Codegen.Label, Decode.InsnDecode, Fetch, IsBlockFor, WorkAfter,
      NoDuplicates, Probe.Placed, AllReachable, Probe.Crowded, Overfull, Collides, Spread, TracedOnly, Pushes,
      PushSeq, StackFull, Inserted, TableOf, Verdict, Advance, Ends, PendingLabel;
    p', insn', r := p, insn, None;
    ghost var printed := seen.Elems();
    var top := stack.Pop();
    if top == None {
      Completes(p, m, entry, printed, n);
      r := Some(Generated(p));
      return;
    }
    var pc := top.value;
    ghost var rest := stack.Contents();
    TopOfStack(p, m, entry, rest, pc, printed, n);
    AdvanceIs(m, Work(p.order, rest + [pc]), rest, pc);
    var added := seen.Add(pc);
    if added == Abort {
      Concludes(p, m, entry, rest + [pc], printed, n, if pc == 0 then RejectedAt(0) else NoRoom);
      if pc != 0 {
        CrowdedSet(p, m, entry, rest, pc, printed, n);
      }
      r := Some(if pc == 0 then Rejected(pc) else OutOfSpace);
      return;
    }
    if added == Present {
      Continues(p, m, entry, rest, pc, printed, n, p, rest, printed);
      return;
    }
    TableMore(p.order, pc);
    var end;
    p', insn', end := Print(m, stack, p, insn, pc);
    if end.Some? {
      Concludes(p, m, entry, rest + [pc], printed, n, end.value);
      if end.value.NoRoom? {
        FullStack(m, entry, n, rest, pc);
      }
      r := Some(if end.value.NoRoom? then OutOfSpace else Rejected(pc));
      return;
    }
    Continues(p, m, entry, rest, pc, printed, n, p', stack.Contents(), seen.Elems());
  }

  lemma {:induction false} TableMore(order: seq<u64>, pc: u64)
    ensures TableOf(order + [pc]) == Inserted(TableOf(order), pc)
  {
    hide Inserted;
    var s := order + [pc];
    assert s[..|s| - 1] == order;
  }

  /** `machine_genblock` at `entry`, reading code bytes from m. Terminates for
      every guest image: each round either fills a free slot of the pc set or
      shortens the stack. It ends in exactly the round, and exactly as, the
      loop with unbounded containers first gets there or outgrows them. A
      rejected pc is statically reachable and is 0 or does not decode; the
      fixed-size containers run out only if 256 branches are reachable, or more
      than 32 pcs of which two hash alike. */
  method Generate(m: Mem, entry: u64) returns (r: GenResult, ghost n: nat)
    ensures Ends(m, entry, EndingOf(r), n)
    ensures r.Generated? ==> IsBlockFor(r.program, m, entry) && r.program.order == WorkAfter(m, entry, n).order
    ensures r.Rejected? ==> Reachable(m, entry, r.pc) && (r.pc == 0 || LabelAt(m, r.pc).None?)
    ensures r.OutOfSpace? ==> Overfull(m, entry)
  {
    hide LabelAt, Reachable, Pending, SuccessorsAt, Overfull, Collides, Spread, IsBlockFor, NoDuplicates,
      Probe.Placed, AllReachable, TracedOnly, Verdict, TableOf, Invariant, Answer, Ends, WorkAfter, Codegen.Label;
    var stack := new Stack();
    var seen := new PcSet();
    var p := Program([], map[], {}, {});
    var insn := ZERO_INSN;
    var ok := stack.Push(entry);
    assert stack.Contents() == [entry];
    StartInvariant(m, entry);
    var answer: Option<GenResult> := None;
    n := 0;
    while answer == None
      invariant stack.Valid() && seen.Valid() && fresh(stack) && fresh(stack.elems) && fresh(seen) && fresh(seen.table)
      invariant stack.elems != seen.table
      invariant answer.None? ==>
                  Invariant(p, m, entry, stack.Contents(), seen.Elems(), n) && seen.table[..] == TableOf(p.order)
      invariant answer.Some? ==> Answer(answer.value, m, entry, n)
      decreases answer.None?, SET_SIZE - |seen.Elems()|, |stack.Contents()|
    {
      ghost var before := seen.Elems();
      p, insn, answer := Round(m, entry, stack, seen, p, insn, n);
      seen.Bounded();
      if answer.None? {
        n := n + 1;
        if seen.Elems() != before {
          StrictSubset(before, seen.Elems());
        }
      }
    }
    r := answer.value;
    AnswerMeans(r, m, entry, n);
  }

  lemma {:induction false} StrictSubset(a: set<u64>, b: set<u64>)
    requires a < b
    ensures |a| < |b|
  {
    var x :| x in b && x !in a;
    Probe.SubsetSize(a, b - {x});
  }

  lemma {:induction false} StartInvariant(m: Mem, entry: u64)
    ensures Invariant(Program([], map[], {}, {}), m, entry, [entry], {}, 0)
  {
    hide Verdict;
  }

  lemma {:induction false} AnswerMeans(r: GenResult, m: Mem, entry: u64, n: nat)
    requires Answer(r, m, entry, n)
    ensures Ends(m, entry, EndingOf(r), n)
    ensures r.Generated? ==> IsBlockFor(r.program, m, entry) && r.program.order == WorkAfter(m, entry, n).order
    ensures r.Rejected? ==> Reachable(m, entry, r.pc) && (r.pc == 0 || LabelAt(m, r.pc).None?)
    ensures r.OutOfSpace? ==> Overfull(m, entry)
  {
    hide LabelAt, Reachable, Overfull, IsBlockFor, Ends, WorkAfter;
  }

  lemma {:induction false} SameLabel(m: Mem, prev: Insn, pc: u64)
    ensures Codegen.Label(prev, Fetch(m, pc), pc) == LabelAt(m, pc)
    ensures LabelAt(m, pc).Some? ==> Decode.InsnDecode(prev, Fetch(m, pc)).Some?
  {
    hide Fetch, Codegen.EmitInsn, Decode.InsnDecode;
    Translate.StaleRecord(prev, Fetch(m, pc), pc);
  }
}
