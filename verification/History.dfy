/** What a run of the guest has to keep for translated code to stay true: when a
    pc can get compiled, and that code words are still what they were when the
    run comes back to them. Stated over any sequence of outcomes, so that one
    definition serves the plain loop and whole guest sessions. */
module History {
  import opened Words
  import opened Guest
  import opened Block
  import opened Cache
  import GenBlock
  import Region

  type Trace = nat -> Outcome

  /** The plain loop from c. */
  function PlainRun(fpu: Fpu, c: Cpu): Trace {
    (k: nat) => Run(fpu, c, k)
  }

  /** Compiled code placed at an arena offset: its meaning and its linked bytes. */
  datatype Placed = Placed(program: Program, bytes: seq<u8>)

  ghost predicate NoAbort(t: Trace, n: nat) {
    forall k: nat | k <= n :: !t(k).Aborted?
  }

  // ----- heat -----

  predicate AtPc(o: Outcome, pc: u64) {
    o.Running? && o.cpu.pc == pc
  }

  /** How often the first n outcomes are at pc. */
  function Visits(t: Trace, pc: u64, n: nat): nat {
    if n == 0 then 0 else Visits(t, pc, n - 1) + if AtPc(t(n - 1), pc) then 1 else 0
  }

  function Heat(entries: map<u64, Entry>, pc: u64): nat {
    if pc in entries then entries[pc].hot else 0
  }

  /** The most heat v visits can add. */
  function Warmth(twice: bool, v: nat): nat {
    if twice then 2 * v else v
  }

  /** Heat of pc after at most v visits; an entry appears only by a visit. */
  predicate HeatOk(before: map<u64, Entry>, after: map<u64, Entry>, twice: bool, pc: u64, v: nat) {
    && Heat(before, pc) <= Heat(after, pc) <= Heat(before, pc) + Warmth(twice, v)
    && (pc in after ==> pc in before || v > 0)
  }

  /** Every pc was visited only where the first n outcomes are at it. */
  ghost predicate HeatBound(before: map<u64, Entry>, after: map<u64, Entry>, twice: bool, t: Trace, n: nat) {
    forall pc: u64 :: HeatOk(before, after, twice, pc, Visits(t, pc, n))
  }

  ghost predicate Visited(before: map<u64, Entry>, after: map<u64, Entry>, twice: bool, pc: u64) {
    forall q: u64 :: HeatOk(before, after, twice, q, Once(q, pc))
  }

  function Once(q: u64, pc: u64): nat {
    if q == pc then 1 else 0
  }

  lemma {:induction false} VisitsMono(t: Trace, pc: u64, a: nat, b: nat)
    requires a <= b
    ensures Visits(t, pc, a) <= Visits(t, pc, b)
    decreases b
  {
    if a < b {
      VisitsMono(t, pc, a, b - 1);
    }
  }

  lemma {:induction false} HeatBoundMore(
    before: map<u64, Entry>, after: map<u64, Entry>, twice: bool, t: Trace, n: nat, n': nat)
    requires HeatBound(before, after, twice, t, n) && n <= n'
    ensures HeatBound(before, after, twice, t, n')
  {
    forall pc: u64
      ensures HeatOk(before, after, twice, pc, Visits(t, pc, n'))
    {
      assert HeatOk(before, after, twice, pc, Visits(t, pc, n));
      VisitsMono(t, pc, n, n');
    }
  }

  lemma {:induction false} HeatBoundStart(entries: map<u64, Entry>, twice: bool, t: Trace)
    ensures HeatBound(entries, entries, twice, t, 0)
  {
  }

  lemma {:induction false} HeatBoundVisit(
    before: map<u64, Entry>, mid: map<u64, Entry>, after: map<u64, Entry>, twice: bool, t: Trace, n: nat, pc: u64)
    requires HeatBound(before, mid, twice, t, n) && AtPc(t(n), pc) && Visited(mid, after, twice, pc)
    ensures HeatBound(before, after, twice, t, n + 1)
  {
    var n' := n + 1;
    forall q: u64
      ensures HeatOk(before, after, twice, q, Visits(t, q, n'))
    {
      assert HeatOk(before, mid, twice, q, Visits(t, q, n));
      assert HeatOk(mid, after, twice, q, Once(q, pc));
    }
  }

  // ----- compilation -----

  /** The visit at step j can bring its pc, so far below it, to the threshold. */
  predicate MayCompile(entries: map<u64, Entry>, twice: bool, t: Trace, j: nat) {
    && t(j).Running?
    && var pc := t(j).cpu.pc;
       Heat(entries, pc) < HOT_COUNT <= Heat(entries, pc) + Warmth(twice, Visits(t, pc, j + 1))
  }

  /** One more visit brings pc, so far below it, to the threshold. */
  predicate Ripe(entries: map<u64, Entry>, twice: bool, pc: u64) {
    Heat(entries, pc) < HOT_COUNT <= Heat(entries, pc) + Warmth(twice, 1)
  }

  lemma {:induction false} RipeMayCompile(
    entries: map<u64, Entry>, entries': map<u64, Entry>, twice: bool, t: Trace, n: nat, pc: u64)
    requires HeatBound(entries, entries', twice, t, n) && AtPc(t(n), pc) && Ripe(entries', twice, pc)
    ensures MayCompile(entries, twice, t, n)
  {
    assert HeatOk(entries, entries', twice, pc, Visits(t, pc, n));
  }

  /** A pc statically reachable at a, executed at b, still has its word. */
  ghost predicate KeepsReachable(a: Outcome, b: Outcome) {
    a.Running? && b.Running? && Region.Reachable(a.cpu.mem, a.cpu.pc, b.cpu.pc)
    ==> Fetch(b.cpu.mem, b.cpu.pc) == Fetch(a.cpu.mem, b.cpu.pc)
  }

  /** Whenever a region may get compiled, the words of it the run executes from
      then on are the words it was compiled from. */
  ghost predicate Stable(entries: map<u64, Entry>, twice: bool, t: Trace, n: nat) {
    forall j: nat, k: nat | j <= k <= n && MayCompile(entries, twice, t, j) :: KeepsReachable(t(j), t(k))
  }

  /** The same for code that is compiled already. */
  ghost predicate CodeHolds(natives: map<nat, Placed>, sources: map<nat, Mem>, t: Trace, n: nat) {
    forall o <- natives, k: nat | o in sources && k <= n :: KeepsWord(natives[o].program, sources[o], t(k))
  }

  /** p was generated at one of the first n + 1 outcomes, by a visit that may
      have reached the threshold. */
  ghost predicate CompiledIn(entries: map<u64, Entry>, twice: bool, t: Trace, n: nat, p: Program, m: Mem) {
    exists j: nat :: j <= n && MayCompile(entries, twice, t, j) && t(j).Running?
                     && m == t(j).cpu.mem && GenBlock.IsBlockFor(p, m, t(j).cpu.pc)
  }

  /** Code placed is old, or was generated on the way. */
  ghost predicate Grown(
    natives: map<nat, Placed>, sources: map<nat, Mem>, natives': map<nat, Placed>, sources': map<nat, Mem>,
    entries: map<u64, Entry>, twice: bool, t: Trace, n: nat)
  {
    forall o <- natives' | o in sources' ::
      (o in natives && o in sources && natives[o] == natives'[o] && sources[o] == sources'[o])
      || CompiledIn(entries, twice, t, n, natives'[o].program, sources'[o])
  }

  lemma {:induction false} GrownStart(
    natives: map<nat, Placed>, sources: map<nat, Mem>, entries: map<u64, Entry>, twice: bool, t: Trace)
    ensures Grown(natives, sources, natives, sources, entries, twice, t, 0)
  {
  }

  lemma {:induction false} CompiledInMore(
    entries: map<u64, Entry>, twice: bool, t: Trace, n: nat, n': nat, p: Program, m: Mem)
    requires CompiledIn(entries, twice, t, n, p, m) && n <= n'
    ensures CompiledIn(entries, twice, t, n', p, m)
  {
    hide MayCompile, GenBlock.IsBlockFor;
  }

  lemma {:induction false} GrownMore(
    natives: map<nat, Placed>, sources: map<nat, Mem>, natives': map<nat, Placed>, sources': map<nat, Mem>,
    entries: map<u64, Entry>, twice: bool, t: Trace, n: nat, n': nat)
    requires Grown(natives, sources, natives', sources', entries, twice, t, n) && n <= n'
    ensures Grown(natives, sources, natives', sources', entries, twice, t, n')
  {
    hide CompiledIn;
    forall o <- natives' | o in sources' && CompiledIn(entries, twice, t, n, natives'[o].program, sources'[o])
      ensures CompiledIn(entries, twice, t, n', natives'[o].program, sources'[o])
    {
      CompiledInMore(entries, twice, t, n, n', natives'[o].program, sources'[o]);
    }
  }

  /** A block generated at step n joins the code. */
  lemma {:induction false} GrownAdd(
    natives: map<nat, Placed>, sources: map<nat, Mem>, natives': map<nat, Placed>, sources': map<nat, Mem>,
    entries: map<u64, Entry>, twice: bool, t: Trace, n: nat, o: nat, code: Placed, c: Cpu)
    requires Grown(natives, sources, natives', sources', entries, twice, t, n)
    requires t(n) == Running(c) && MayCompile(entries, twice, t, n) && GenBlock.IsBlockFor(code.program, c.mem, c.pc)
    ensures Grown(natives, sources, natives'[o := code], sources'[o := c.mem], entries, twice, t, n)
  {
    hide MayCompile, GenBlock.IsBlockFor;
    assert CompiledIn(entries, twice, t, n, code.program, c.mem);
  }

  lemma {:induction false} VisitsAtMost(t: Trace, pc: u64, n: nat)
    ensures Visits(t, pc, n) <= n
    decreases n
  {
    if n != 0 {
      VisitsAtMost(t, pc, n - 1);
    }
  }

  /** Nothing is asked of a run too short to bring any pc to the threshold: it
      may rewrite its code as it likes. */
  lemma {:induction false} ColdIsStable(entries: map<u64, Entry>, twice: bool, t: Trace, n: nat)
    requires forall pc: u64 :: Heat(entries, pc) + Warmth(twice, n + 1) < HOT_COUNT
    ensures (forall j: nat | j <= n :: !MayCompile(entries, twice, t, j)) && Stable(entries, twice, t, n)
  {
    hide KeepsReachable;
    forall j: nat | j <= n
      ensures !MayCompile(entries, twice, t, j)
    {
      if t(j).Running? {
        var pc := t(j).cpu.pc;
        VisitsAtMost(t, pc, j + 1);
        assert Heat(entries, pc) + Warmth(twice, n + 1) < HOT_COUNT;
      }
    }
  }

  // ----- arrivals -----

  /** pc has a label in some compiled block. */
  ghost predicate Covered(natives: map<nat, Placed>, pc: u64) {
    exists o <- natives :: pc in natives[o].program.code
  }

  /** Code placed stays placed. */
  ghost predicate Keeps(natives: map<nat, Placed>, natives': map<nat, Placed>) {
    forall o <- natives :: o in natives' && natives'[o] == natives[o]
  }

  /** The run comes to step j from outside: it starts there, or the instruction
      before was a branch, a jump or a system call. */
  predicate ArrivesAt(fpu: Fpu, t: Trace, j: nat) {
    t(j).Running? && (j == 0 || NextExit(fpu, t(j - 1)).Some?)
  }

  /** How often the first n steps arrive at pc. */
  function Arrivals(fpu: Fpu, t: Trace, pc: u64, n: nat): nat {
    if n == 0 then 0
    else Arrivals(fpu, t, pc, n - 1) + if ArrivesAt(fpu, t, n - 1) && AtPc(t(n - 1), pc) then 1 else 0
  }

  /** Every arrival at a pc that no compiled block covers has heated it. */
  ghost predicate Counted(
    before: map<u64, Entry>, after: map<u64, Entry>, natives: map<nat, Placed>, fpu: Fpu, t: Trace, n: nat)
  {
    forall pc: u64 :: Covered(natives, pc) || Heat(before, pc) + Arrivals(fpu, t, pc, n) <= Heat(after, pc)
  }

  /** Strictly between steps a and b the run arrives only at covered pcs. */
  ghost predicate Inner(fpu: Fpu, natives: map<nat, Placed>, t: Trace, a: nat, b: nat) {
    forall j: nat | a < j < b && ArrivesAt(fpu, t, j) :: Covered(natives, t(j).cpu.pc)
  }

  lemma {:induction false} CoveredMore(natives: map<nat, Placed>, natives': map<nat, Placed>, pc: u64)
    requires Keeps(natives, natives') && Covered(natives, pc)
    ensures Covered(natives', pc)
  {
    var o :| o in natives && pc in natives[o].program.code;
    assert o in natives' && pc in natives'[o].program.code;
  }

  lemma {:induction false} CountedStart(entries: map<u64, Entry>, natives: map<nat, Placed>, fpu: Fpu, t: Trace)
    ensures Counted(entries, entries, natives, fpu, t, 0)
  {
  }

  /** From a on, an uncovered pc is arrived at by step b only at a itself. */
  lemma {:induction false} ArrivalsInner(fpu: Fpu, natives: map<nat, Placed>, t: Trace, a: nat, b: nat, pc: u64)
    requires Inner(fpu, natives, t, a, b) && a <= b && !Covered(natives, pc)
    ensures Arrivals(fpu, t, pc, b) <= Arrivals(fpu, t, pc, a) + if AtPc(t(a), pc) then 1 else 0
    decreases b
  {
    hide Covered, NextExit;
    if a < b {
      var b' := b - 1;
      assert Inner(fpu, natives, t, a, b');
      ArrivalsInner(fpu, natives, t, a, b', pc);
      if a == b' {
        assert Arrivals(fpu, t, pc, b) <= Arrivals(fpu, t, pc, a) + if AtPc(t(a), pc) then 1 else 0;
      } else {
        assert ArrivesAt(fpu, t, b') ==> Covered(natives, t(b').cpu.pc);
      }
    }
  }

  /** A head at step n that heats its pc, or finds or makes it covered, and a
      run on that arrives only at covered pcs. */
  lemma {:induction false} CountedHead(
    before: map<u64, Entry>, mid: map<u64, Entry>, after: map<u64, Entry>, twice: bool,
    natives: map<nat, Placed>, natives': map<nat, Placed>, fpu: Fpu, t: Trace, n: nat, n': nat, pc: u64)
    requires Counted(before, mid, natives, fpu, t, n) && AtPc(t(n), pc) && Visited(mid, after, twice, pc)
    requires Covered(natives', pc) || Heat(mid, pc) < Heat(after, pc)
    requires Keeps(natives, natives') && n <= n' && Inner(fpu, natives', t, n, n')
    ensures Counted(before, after, natives', fpu, t, n')
  {
    hide Covered, Keeps;
    forall q: u64
      ensures Covered(natives', q) || Heat(before, q) + Arrivals(fpu, t, q, n') <= Heat(after, q)
    {
      if !Covered(natives', q) {
        if Covered(natives, q) {
          CoveredMore(natives, natives', q);
        }
        assert HeatOk(mid, after, twice, q, Once(q, pc));
        assert Heat(before, q) + Arrivals(fpu, t, q, n) <= Heat(mid, q);
        ArrivalsInner(fpu, natives', t, n, n', q);
      }
    }
  }

  /** Where u is t from step a on, its later arrivals are those of t. */
  lemma {:induction false} InnerWithin(fpu: Fpu, natives: map<nat, Placed>, u: Trace, t: Trace, a: nat, b: nat)
    requires Inner(fpu, natives, u, 0, b) && forall k: nat | k <= b :: Follows(u, t, a, k)
    ensures Inner(fpu, natives, t, a, a + b)
  {
    hide Covered, NextExit;
    var m := a + b;
    forall j: nat | a < j < m && ArrivesAt(fpu, t, j)
      ensures Covered(natives, t(j).cpu.pc)
    {
      var k: nat := j - a;
      var k': nat := k - 1;
      assert Follows(u, t, a, k) && Follows(u, t, a, k');
      assert ArrivesAt(fpu, u, k);
    }
  }

  lemma {:induction false} InnerJoin(fpu: Fpu, natives: map<nat, Placed>, t: Trace, a: nat, b: nat)
    requires Inner(fpu, natives, t, 0, a + 1) && Inner(fpu, natives, t, a, b)
    ensures Inner(fpu, natives, t, 0, b)
  {
    hide ArrivesAt, Covered;
  }

  lemma {:induction false} InnerMore(fpu: Fpu, natives: map<nat, Placed>, t: Trace, b: nat)
    requires Inner(fpu, natives, t, 0, b) && (ArrivesAt(fpu, t, b) ==> Covered(natives, t(b).cpu.pc))
    ensures Inner(fpu, natives, t, 0, b + 1)
  {
    hide Covered;
  }

  /** Arrivals of u, which is t from an arrival at step a on, come after those of t. */
  lemma {:induction false} ArrivalsJoin(fpu: Fpu, u: Trace, t: Trace, a: nat, b: nat, pc: u64)
    requires forall k: nat | k < b :: Follows(u, t, a, k)
    ensures Arrivals(fpu, t, pc, a + b) <= Arrivals(fpu, t, pc, a) + Arrivals(fpu, u, pc, b)
    decreases b
  {
    hide NextExit;
    if b != 0 {
      var b' := b - 1;
      ArrivalsJoin(fpu, u, t, a, b', pc);
      assert Follows(u, t, a, b');
      assert a + b - 1 == a + b';
      if b' > 0 {
        var b'' := b' - 1;
        assert Follows(u, t, a, b'');
        assert a + b' - 1 == a + b'';
      }
    }
  }

  lemma {:induction false} CountedJoin(
    before: map<u64, Entry>, mid: map<u64, Entry>, after: map<u64, Entry>,
    natives: map<nat, Placed>, natives': map<nat, Placed>, fpu: Fpu, u: Trace, t: Trace, a: nat, b: nat)
    requires Counted(before, mid, natives, fpu, t, a) && Counted(mid, after, natives', fpu, u, b)
    requires Keeps(natives, natives') && forall k: nat | k < b :: Follows(u, t, a, k)
    ensures Counted(before, after, natives', fpu, t, a + b)
  {
    hide Covered, Keeps;
    var n := a + b;
    forall pc: u64
      ensures Covered(natives', pc) || Heat(before, pc) + Arrivals(fpu, t, pc, n) <= Heat(after, pc)
    {
      if !Covered(natives', pc) {
        if Covered(natives, pc) {
          CoveredMore(natives, natives', pc);
        }
        assert Heat(before, pc) + Arrivals(fpu, t, pc, a) <= Heat(mid, pc);
        assert Heat(mid, pc) + Arrivals(fpu, u, pc, b) <= Heat(after, pc);
        ArrivalsJoin(fpu, u, t, a, b, pc);
      }
    }
  }

  // ----- a run inside a run -----

  /** While it is running, u is t from step a on. */
  ghost predicate Within(u: Trace, t: Trace, a: nat, b: nat) {
    forall k: nat | k <= b && u(k).Running? :: Follows(u, t, a, k)
  }

  predicate Follows(u: Trace, t: Trace, a: nat, k: nat) {
    u(k) == t(a + k)
  }

  lemma {:induction false} VisitsWithin(u: Trace, t: Trace, a: nat, b: nat, pc: u64, j: nat)
    requires Within(u, t, a, b) && j <= b + 1
    ensures Visits(t, pc, a) + Visits(u, pc, j) <= Visits(t, pc, a + j)
    decreases j
  {
    if j != 0 {
      VisitsWithin(u, t, a, b, pc, j - 1);
      assert u(j - 1).Running? ==> Follows(u, t, a, j - 1);
      assert a + j - 1 == a + (j - 1);
    }
  }

  lemma {:induction false} MayCompileWithin(
    entries: map<u64, Entry>, entries': map<u64, Entry>, twice: bool, u: Trace, t: Trace, a: nat, b: nat, j: nat)
    requires Within(u, t, a, b) && j <= b && HeatBound(entries, entries', twice, t, a)
    requires MayCompile(entries', twice, u, j)
    ensures MayCompile(entries, twice, t, a + j) && u(j) == t(a + j)
  {
    assert Follows(u, t, a, j);
    var pc := u(j).cpu.pc;
    assert HeatOk(entries, entries', twice, pc, Visits(t, pc, a));
    VisitsWithin(u, t, a, b, pc, j + 1);
    assert a + (j + 1) == a + j + 1;
  }

  lemma {:induction false} StableWithin(
    entries: map<u64, Entry>, entries': map<u64, Entry>, twice: bool, u: Trace, t: Trace, a: nat, b: nat, n: nat)
    requires Stable(entries, twice, t, n) && HeatBound(entries, entries', twice, t, a)
    requires Within(u, t, a, b) && a + b <= n
    ensures Stable(entries', twice, u, b)
  {
    hide MayCompile, HeatBound, Region.Reachable, Fetch;
    forall j: nat, k: nat | j <= k <= b && MayCompile(entries', twice, u, j)
      ensures KeepsReachable(u(j), u(k))
    {
      MayCompileWithin(entries, entries', twice, u, t, a, b, j);
      assert KeepsReachable(t(a + j), t(a + k));
      assert u(k).Running? ==> Follows(u, t, a, k);
    }
  }

  lemma {:induction false} HoldsWithin(
    natives: map<nat, Placed>, sources: map<nat, Mem>, u: Trace, t: Trace, a: nat, b: nat, n: nat)
    requires CodeHolds(natives, sources, t, n) && Within(u, t, a, b) && a + b <= n
    ensures CodeHolds(natives, sources, u, b)
  {
    hide Fetch;
    forall o <- natives, k: nat | o in sources && k <= b
      ensures KeepsWord(natives[o].program, sources[o], u(k))
    {
      assert KeepsWord(natives[o].program, sources[o], t(a + k));
      assert u(k).Running? ==> Follows(u, t, a, k);
    }
  }

  /** A label of a block is statically reachable from its entry. */
  lemma {:induction false} ReachableKept(p: Program, a: Outcome, b: Outcome)
    requires a.Running? && GenBlock.IsBlockFor(p, a.cpu.mem, a.cpu.pc) && KeepsReachable(a, b)
    ensures KeepsWord(p, a.cpu.mem, b)
  {
    hide Region.Reachable, Fetch, GeneratedFrom, Region.SuccessorsAt;
  }

  /** Code placed so far, old or generated on the way, holds from step a on. */
  lemma {:induction false} GrownHolds(
    natives: map<nat, Placed>, sources: map<nat, Mem>, natives': map<nat, Placed>, sources': map<nat, Mem>,
    entries: map<u64, Entry>, twice: bool, u: Trace, t: Trace, a: nat, b: nat, n: nat)
    requires CodeHolds(natives, sources, t, n) && Stable(entries, twice, t, n)
    requires Grown(natives, sources, natives', sources', entries, twice, t, a)
    requires Within(u, t, a, b) && a + b <= n
    ensures CodeHolds(natives', sources', u, b)
  {
    hide MayCompile, KeepsWord, KeepsReachable, GenBlock.IsBlockFor;
    forall o <- natives', k: nat | o in sources' && k <= b
      ensures KeepsWord(natives'[o].program, sources'[o], u(k))
    {
      var p, m := natives'[o].program, sources'[o];
      if !(o in natives && o in sources && natives[o] == natives'[o] && sources[o] == m) {
        var j: nat :| j <= a && MayCompile(entries, twice, t, j) && t(j).Running?
                      && m == t(j).cpu.mem && GenBlock.IsBlockFor(p, m, t(j).cpu.pc);
        assert KeepsReachable(t(j), t(a + k));
        ReachableKept(p, t(j), t(a + k));
      }
      assert KeepsWord(p, m, t(a + k));
      WordWithin(p, m, u, t, a, b, k);
    }
  }

  lemma {:induction false} WordWithin(p: Program, m: Mem, u: Trace, t: Trace, a: nat, b: nat, k: nat)
    requires Within(u, t, a, b) && k <= b && KeepsWord(p, m, t(a + k))
    ensures KeepsWord(p, m, u(k))
  {
    hide Fetch;
    assert u(k).Running? ==> Follows(u, t, a, k);
  }

  lemma {:induction false} NoAbortWithin(u: Trace, t: Trace, a: nat, b: nat, n: nat)
    requires NoAbort(t, n) && a + b <= n && forall k: nat | k <= b :: Follows(u, t, a, k)
    ensures NoAbort(u, b) && Within(u, t, a, b)
  {
    forall k: nat | k <= b
      ensures !u(k).Aborted?
    {
      assert Follows(u, t, a, k) && !t(a + k).Aborted?;
    }
  }

  // ----- one run after another -----

  lemma {:induction false} HeatBoundJoin(
    entries: map<u64, Entry>, mid: map<u64, Entry>, after: map<u64, Entry>,
    twice: bool, u: Trace, t: Trace, a: nat, b: nat)
    requires HeatBound(entries, mid, twice, t, a) && HeatBound(mid, after, twice, u, b)
    requires Within(u, t, a, b)
    ensures HeatBound(entries, after, twice, t, a + b)
  {
    var n := a + b;
    forall pc: u64
      ensures HeatOk(entries, after, twice, pc, Visits(t, pc, n))
    {
      assert HeatOk(entries, mid, twice, pc, Visits(t, pc, a));
      assert HeatOk(mid, after, twice, pc, Visits(u, pc, b));
      VisitsWithin(u, t, a, b, pc, b);
    }
  }

  lemma {:induction false} GrownJoin(
    n0: map<nat, Placed>, s0: map<nat, Mem>, n1: map<nat, Placed>, s1: map<nat, Mem>,
    n2: map<nat, Placed>, s2: map<nat, Mem>, entries: map<u64, Entry>, mid: map<u64, Entry>,
    twice: bool, u: Trace, t: Trace, a: nat, b: nat)
    requires Grown(n0, s0, n1, s1, entries, twice, t, a) && HeatBound(entries, mid, twice, t, a)
    requires Grown(n1, s1, n2, s2, mid, twice, u, b) && Within(u, t, a, b)
    ensures Grown(n0, s0, n2, s2, entries, twice, t, a + b)
  {
    hide MayCompile, GenBlock.IsBlockFor, HeatBound, CompiledIn;
    GrownMore(n0, s0, n1, s1, entries, twice, t, a, a + b);
    forall o <- n2 | o in s2 && CompiledIn(mid, twice, u, b, n2[o].program, s2[o])
      ensures CompiledIn(entries, twice, t, a + b, n2[o].program, s2[o])
    {
      CompiledInWithin(entries, mid, twice, u, t, a, b, n2[o].program, s2[o]);
    }
  }

  lemma {:induction false} CompiledInWithin(
    entries: map<u64, Entry>, mid: map<u64, Entry>, twice: bool, u: Trace, t: Trace, a: nat, b: nat, p: Program, m: Mem)
    requires HeatBound(entries, mid, twice, t, a) && Within(u, t, a, b) && CompiledIn(mid, twice, u, b, p, m)
    ensures CompiledIn(entries, twice, t, a + b, p, m)
  {
    hide MayCompile, GenBlock.IsBlockFor, HeatBound;
    var j: nat :| j <= b && MayCompile(mid, twice, u, j) && u(j).Running?
                  && m == u(j).cpu.mem && GenBlock.IsBlockFor(p, m, u(j).cpu.pc);
    MayCompileWithin(entries, mid, twice, u, t, a, b, j);
    var i: nat := a + j;
    assert i <= a + b && MayCompile(entries, twice, t, i);
  }
}
