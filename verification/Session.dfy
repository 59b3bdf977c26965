/** The loop of `main`: step the machine to a system call, let the host answer,
    go on. Whole guest runs, with every system call in them. */
module Session {
  import opened Words
  import opened Guest
  import opened Block
  import opened Machine
  import opened History
  import Insn
  import Cache

  /** The host: value returned and memory left by the k-th system call. */
  type Host = (nat, Cpu) -> (u64, Mem)

  function Answer(os: Host, k: nat, c: Cpu): Cpu {
    c.(gp := c.gp[Insn.A0 := os(k, c).0], mem := os(k, c).1)
  }

  /** A guest run: where it is, and the state at each system call so far. */
  datatype Session = Session(now: Outcome, calls: seq<Cpu>)

  /** One round of the plain loop, with system calls answered. */
  function Advance(fpu: Fpu, os: Host, s: Session): Session {
    if !s.now.Running? then s
    else
      match Step(fpu, s.now.cpu)
      case Syscall(e) => Session(Running(Answer(os, |s.calls|, e)), s.calls + [e])
      case o => Session(o, s.calls)
  }

  function Advances(fpu: Fpu, os: Host, s: Session, n: nat): Session {
    if n == 0 then s else Advance(fpu, os, Advances(fpu, os, s, n - 1))
  }

  lemma {:induction false} AdvancesSplit(fpu: Fpu, os: Host, s: Session, a: nat, b: nat)
    ensures Advances(fpu, os, s, a + b) == Advances(fpu, os, Advances(fpu, os, s, a), b)
    decreases b
  {
    hide Advance;
    if b != 0 {
      AdvancesSplit(fpu, os, s, a, b - 1);
    }
  }

  /** Up to its first system call a session is the plain run. */
  lemma {:induction false} BeforeCall(fpu: Fpu, os: Host, c: Cpu, calls: seq<Cpu>, n: nat)
    ensures Run(fpu, c, n).Syscall?
            || Advances(fpu, os, Session(Running(c), calls), n) == Session(Run(fpu, c, n), calls)
    decreases n
  {
    hide Guest.Step;
    if n != 0 {
      BeforeCall(fpu, os, c, calls, n - 1);
    }
  }

  /** A plain run that ends in a system call is a session that answers it. */
  lemma {:induction false} AtCall(fpu: Fpu, os: Host, c: Cpu, calls: seq<Cpu>, n: nat) returns (k: nat)
    requires Run(fpu, c, n).Syscall?
    ensures var e := Run(fpu, c, n).cpu;
            1 <= k <= n && (Run(fpu, c, n - 1).Running? ==> k == n)
            && Advances(fpu, os, Session(Running(c), calls), k) == Session(Running(Answer(os, |calls|, e)), calls + [e])
    decreases n
  {
    hide Guest.Step, Answer;
    if Run(fpu, c, n - 1).Syscall? {
      k := AtCall(fpu, os, c, calls, n - 1);
    } else {
      BeforeCall(fpu, os, c, calls, n - 1);
      k := n;
    }
  }

  /** The outcomes of a session. */
  function SessionRun(fpu: Fpu, os: Host, s: Session): Trace {
    (k: nat) => Advances(fpu, os, s, k).now
  }

  /** Within n rounds the session from here does not abort, and code compiled
      already or on the way still has its words whenever the session comes to
      them, whether the guest or the host writes memory. */
  ghost predicate SafeSession(m: Machine, os: Host, log: seq<Cpu>, n: nat)
    requires m.Valid()
    reads m, m.cache, m.cache.table, m.cache.jitcode
  {
    var t := SessionRun(m.fpu, os, Session(Running(m.cpu), log));
    NoAbort(t, n) && CodeHolds(m.natives, m.sources, t, n) && Stable(m.cache.Entries(), m.cache.twice, t, n)
  }

  lemma {:induction false} PlainWithin(fpu: Fpu, os: Host, c: Cpu, log: seq<Cpu>, b: nat)
    ensures Within(PlainRun(fpu, c), SessionRun(fpu, os, Session(Running(c), log)), 0, b)
  {
    hide Run, Advances;
    var u, t := PlainRun(fpu, c), SessionRun(fpu, os, Session(Running(c), log));
    forall k: nat | k <= b && u(k).Running?
      ensures Follows(u, t, 0, k)
    {
      BeforeCall(fpu, os, c, log, k);
    }
  }

  lemma {:induction false} PlainNoAbort(fpu: Fpu, os: Host, c: Cpu, log: seq<Cpu>, n: nat)
    requires NoAbort(SessionRun(fpu, os, Session(Running(c), log)), n)
    ensures NoAbort(PlainRun(fpu, c), n)
  {
    hide Run, Advances;
    var t := SessionRun(fpu, os, Session(Running(c), log));
    forall k: nat | k <= n
      ensures !PlainRun(fpu, c)(k).Aborted?
    {
      BeforeCall(fpu, os, c, log, k);
      assert !t(k).Aborted?;
    }
  }

  /** A safe session starts with a safe call of `machine_step`. */
  lemma {:induction false} SafeCall(m: Machine, os: Host, log: seq<Cpu>, n: nat)
    requires m.Valid() && SafeSession(m, os, log, n)
    ensures m.Safe(n)
  {
    hide NoAbort, CodeHolds, Stable, Within, HeatBound, Machine.Valid;
    CacheOk(m);
    var u, t := PlainRun(m.fpu, m.cpu), SessionRun(m.fpu, os, Session(Running(m.cpu), log));
    var e, twice := m.cache.Entries(), m.cache.twice;
    PlainNoAbort(m.fpu, os, m.cpu, log, n);
    PlainWithin(m.fpu, os, m.cpu, log, n);
    HoldsWithin(m.natives, m.sources, u, t, 0, n, n);
    HeatBoundStart(e, twice, t);
    StableWithin(e, e, twice, u, t, 0, n, n);
  }

  /** What a call that ended in a system call did, as part of the session. */
  lemma {:induction false} CallInSession(
    fpu: Fpu, os: Host, c: Cpu, log: seq<Cpu>, n: nat, twice: bool,
    e: map<u64, Cache.Entry>, e': map<u64, Cache.Entry>, n0: map<nat, Placed>, s0: map<nat, Mem>,
    n1: map<nat, Placed>, s1: map<nat, Mem>)
    requires HeatBound(e, e', twice, PlainRun(fpu, c), n + 1) && !Run(fpu, c, n).Running?
    requires Grown(n0, s0, n1, s1, e, twice, PlainRun(fpu, c), n)
    ensures HeatBound(e, e', twice, SessionRun(fpu, os, Session(Running(c), log)), n)
    ensures Grown(n0, s0, n1, s1, e, twice, SessionRun(fpu, os, Session(Running(c), log)), n)
  {
    hide Run, Within, HeatBound, Grown;
    var u, t := PlainRun(fpu, c), SessionRun(fpu, os, Session(Running(c), log));
    PlainWithin(fpu, os, c, log, n);
    HeatBoundStart(e, twice, t);
    HeatBoundStop(e, e', twice, u, n);
    HeatBoundJoin(e, e, e', twice, u, t, 0, n);
    GrownStart(n0, s0, e, twice, t);
    GrownJoin(n0, s0, n0, s0, n1, s1, e, e, twice, u, t, 0, n);
  }

  lemma {:induction false} HeatBoundStop(
    e: map<u64, Cache.Entry>, e': map<u64, Cache.Entry>, twice: bool, t: Trace, n: nat)
    requires HeatBound(e, e', twice, t, n + 1) && !t(n).Running?
    ensures HeatBound(e, e', twice, t, n)
  {
    var n' := n + 1;
    forall pc: u64
      ensures HeatOk(e, e', twice, pc, Visits(t, pc, n))
    {
      assert HeatOk(e, e', twice, pc, Visits(t, pc, n'));
    }
  }

  /** A run still running was running all the way. */
  lemma {:induction false} RunsBefore(fpu: Fpu, c: Cpu, k: nat, n: nat)
    requires Run(fpu, c, n).Running? && k <= n
    ensures Run(fpu, c, k).Running?
    decreases n
  {
    hide Guest.Step;
    if k < n {
      RunsBefore(fpu, c, k, n - 1);
    }
  }

  /** Up to a call, the session follows the plain run and serves nothing. */
  lemma {:induction false} PlainFollows(fpu: Fpu, os: Host, c: Cpu, log: seq<Cpu>, n: nat)
    requires n >= 1 ==> Run(fpu, c, n - 1).Running?
    ensures forall k: nat | k < n ::
              Follows(PlainRun(fpu, c), SessionRun(fpu, os, Session(Running(c), log)), 0, k)
    ensures Run(fpu, c, n).Running? ==> ServesNothing(fpu, os, c, log, n)
  {
    hide Run, Advances;
    var u, t := PlainRun(fpu, c), SessionRun(fpu, os, Session(Running(c), log));
    forall k: nat | k < n
      ensures Follows(u, t, 0, k)
    {
      RunsBefore(fpu, c, k, n - 1);
      BeforeCall(fpu, os, c, log, k);
    }
    if Run(fpu, c, n).Running? {
      forall k: nat | k <= n
        ensures Advances(fpu, os, Session(Running(c), log), k).calls == log
      {
        RunsBefore(fpu, c, k, n);
        BeforeCall(fpu, os, c, log, k);
      }
    }
  }

  /** For n rounds from c no call is served. */
  ghost predicate ServesNothing(fpu: Fpu, os: Host, c: Cpu, log: seq<Cpu>, n: nat) {
    forall k: nat | k <= n :: Advances(fpu, os, Session(Running(c), log), k).calls == log
  }

  /** No call was served in the last `budget / 2` rounds or so before round n. */
  ghost predicate Stalled(fpu: Fpu, os: Host, s: Session, log: seq<Cpu>, n: nat, budget: nat) {
    forall i: nat | i <= n && budget > 2 * (n - i) + 1 :: Advances(fpu, os, s, i).calls == log
  }

  lemma {:induction false} StalledAt(
    fpu: Fpu, os: Host, s: Session, c: Cpu, log: seq<Cpu>, n: nat, a: nat, budget: nat)
    requires Advances(fpu, os, s, n) == Session(Running(c), log) && ServesNothing(fpu, os, c, log, a)
    requires budget <= 2 * a + 1
    ensures Stalled(fpu, os, s, log, n + a, budget)
  {
    hide Advances;
    var m := n + a;
    forall i: nat | i <= m && budget > 2 * (m - i) + 1
      ensures Advances(fpu, os, s, i).calls == log
    {
      var k: nat := i - n;
      AdvancesSplit(fpu, os, s, n, k);
    }
  }

  /** What a call counted, as part of the session. */
  lemma {:induction false} CountInSession(
    fpu: Fpu, os: Host, c: Cpu, log: seq<Cpu>, n: nat,
    e: map<u64, Cache.Entry>, e': map<u64, Cache.Entry>, n0: map<nat, Placed>, n1: map<nat, Placed>)
    requires Counted(e, e', n1, fpu, PlainRun(fpu, c), n) && Keeps(n0, n1) && (n >= 1 ==> Run(fpu, c, n - 1).Running?)
    ensures Counted(e, e', n1, fpu, SessionRun(fpu, os, Session(Running(c), log)), n)
  {
    hide Run, Counted, Keeps, Advances;
    var t := SessionRun(fpu, os, Session(Running(c), log));
    PlainFollows(fpu, os, c, log, n);
    CountedStart(e, n0, fpu, t);
    CountedJoin(e, e, e', n0, n1, fpu, PlainRun(fpu, c), t, 0, n);
  }

  /** The session from a later state is the rest of the session. */
  lemma {:induction false} RestFollows(fpu: Fpu, os: Host, s: Session, a: nat, n: nat, b: nat)
    requires NoAbort(SessionRun(fpu, os, s), n) && a + b <= n
    ensures NoAbort(SessionRun(fpu, os, Advances(fpu, os, s, a)), b)
    ensures Within(SessionRun(fpu, os, Advances(fpu, os, s, a)), SessionRun(fpu, os, s), a, b)
    ensures forall k: nat | k <= b ::
              Follows(SessionRun(fpu, os, Advances(fpu, os, s, a)), SessionRun(fpu, os, s), a, k)
  {
    hide Advances, NoAbort, Within;
    var u, t := SessionRun(fpu, os, Advances(fpu, os, s, a)), SessionRun(fpu, os, s);
    forall k: nat | k <= b
      ensures Follows(u, t, a, k)
    {
      AdvancesSplit(fpu, os, s, a, k);
    }
    NoAbortWithin(u, t, a, b, n);
  }

  lemma {:induction false} LastRunning(fpu: Fpu, c: Cpu, n: nat)
    ensures Run(fpu, c, n).Running? || LastLeft(fpu, c, n) ==> n == 0 || Run(fpu, c, n - 1).Running?
  {
    hide Run, NextExit;
    if Run(fpu, c, n).Running? && n > 0 {
      RunsBefore(fpu, c, n - 1, n);
    }
  }

  /** One turn of the loop of `main`: step, and answer the system call. */
  method Turn(m: Machine, os: Host, log: seq<Cpu>, budget: nat)
    returns (r: Returned, log': seq<Cpu>, ghost n: nat)
    requires m.Valid() && SafeSession(m, os, log, budget)
    modifies m`cpu, m`natives, m`sources, m`compiled, m.cache, m.cache.table, m.cache.jitcode
    ensures !r.Died? ==> m.Valid()
    ensures n <= budget
    ensures Advances(m.fpu, os, Session(Running(old(m.cpu)), log), n) == Session(Running(m.cpu), log')
    ensures |log'| == if r == ReturnEcall then |log| + 1 else |log|
    ensures r == ReturnEcall ==>
              var e := log'[|log|];
              && log'[..|log|] == log && m.cpu.gp[10] == os(|log|, e).0 && m.cpu.mem == os(|log|, e).1
              && m.cpu.gp == e.gp[10 := m.cpu.gp[10]] && m.cpu.fp == e.fp && m.cpu.pc == e.pc
    ensures r == ReturnHalt ==> m.cpu.pc == 0
    ensures r == Suspended ==> budget <= 2 * n + 1
    ensures r.Died? ==> m.Excused(r.cause)
    ensures r == ReturnEcall ==>
              var t := SessionRun(m.fpu, os, Session(Running(old(m.cpu)), log));
              && HeatBound(old(m.cache.Entries()), m.cache.Entries(), m.cache.twice, t, n)
              && Grown(old(m.natives), old(m.sources), m.natives, m.sources, old(m.cache.Entries()),
                       m.cache.twice, t, n)
    ensures !r.Died? ==>
              Keeps(old(m.natives), m.natives)
              && Counted(old(m.cache.Entries()), m.cache.Entries(), m.natives, m.fpu,
                         SessionRun(m.fpu, os, Session(Running(old(m.cpu)), log)), n)
    ensures r != ReturnEcall ==> log' == log && ServesNothing(m.fpu, os, old(m.cpu), log, n)
  {
    hide Run, Advance, Advances, Answer, HotIsCompiled, CompiledOnce, BytesIntact, Cache.TableOk, Cache.RegionsOk,
      SafeSession, HeatBound, Grown, MayCompile, NoAbort, CodeHolds, Stable, NextExit, Cache.EntriesOf,
      Counted, Keeps, ServesNothing;
    ghost var c, e0, n0, s0 := m.cpu, m.cache.Entries(), m.natives, m.sources;
    SafeCall(m, os, log, budget);
    r, n := m.Step(budget);
    LastRunning(m.fpu, c, n);
    if !r.Died? {
      CountInSession(m.fpu, os, c, log, n, e0, m.cache.Entries(), n0, m.natives);
    }
    if r == ReturnEcall {
      ghost var k := AtCall(m.fpu, os, c, log, n);
      CallInSession(m.fpu, os, c, log, n, m.cache.twice, e0, m.cache.Entries(), n0, s0, m.natives, m.sources);
      var e := m.cpu;
      m.cpu := Answer(os, |log|, e);
      ZeroKept(os, |log|, e);
      AnswerIs(os, |log|, e);
      log' := log + [e];
    } else {
      BeforeCall(m.fpu, os, c, log, n);
      PlainFollows(m.fpu, os, c, log, n);
      log' := log;
    }
  }

  /** The loop of `main`, watched for `calls` system calls of at most `budget`
      instructions each. The states seen by the host at every system call, in
      order, are those of the plain loop, and so is the state at the end. */
  method Serve(m: Machine, os: Host, calls: nat, budget: nat)
    returns (r: Returned, log: seq<Cpu>, ghost n: nat)
    requires m.Valid() && SafeSession(m, os, [], calls * budget)
    modifies m`cpu, m`natives, m`sources, m`compiled, m.cache, m.cache.table, m.cache.jitcode
    ensures !r.Died? ==> m.Valid()
    ensures n <= calls * budget
    ensures Advances(m.fpu, os, Session(Running(old(m.cpu)), []), n) == Session(Running(m.cpu), log)
    ensures r == ReturnEcall ==> |log| == calls
    ensures r == ReturnHalt ==> m.cpu.pc == 0
    ensures r == Suspended ==> budget <= 2 * n + 1
    ensures r == Suspended ==> Stalled(m.fpu, os, Session(Running(old(m.cpu)), []), log, n, budget)
    ensures r.Died? ==> m.Excused(r.cause)
    ensures !r.Died? ==>
              Counted(old(m.cache.Entries()), m.cache.Entries(), m.natives, m.fpu,
                      SessionRun(m.fpu, os, Session(Running(old(m.cpu)), [])), n)
  {
    hide Counted, Keeps, Follows, ServesNothing, Stalled, Advance, Advances, Machine.Valid, Machine.Excused,
      HeatBound, Grown, NoAbort, CodeHolds, Stable, Within,
      Cache.CodeCache.Valid, Cache.CodeCache.Entries;
    CacheOk(m);
    ghost var start := Session(Running(m.cpu), []);
    ghost var t, e0, twice := SessionRun(m.fpu, os, start), m.cache.Entries(), m.cache.twice;
    ghost var n0, s0 := m.natives, m.sources;
    ghost var spent: nat := 0;
    r, log, n := ReturnEcall, [], 0;
    NoAdvance(m.fpu, os, start);
    HeatBoundStart(e0, twice, t);
    GrownStart(n0, s0, e0, twice, t);
    CountedStart(e0, n0, m.fpu, t);
    KeepsAll(n0);
    while |log| < calls
      invariant |log| <= calls && m.Valid() && n <= spent == |log| * budget <= calls * budget && r == ReturnEcall
      invariant Advances(m.fpu, os, start, n) == Session(Running(m.cpu), log)
      invariant m.cache.Valid() && HeatBound(e0, m.cache.Entries(), twice, t, n)
      invariant Grown(n0, s0, m.natives, m.sources, e0, twice, t, n)
      invariant Keeps(n0, m.natives) && Counted(e0, m.cache.Entries(), m.natives, m.fpu, t, n)
      decreases calls - |log|
    {
      Room(|log|, calls, budget);
      ghost var mid, n1, s1 := m.cache.Entries(), m.natives, m.sources;
      ghost var u := SessionRun(m.fpu, os, Session(Running(m.cpu), log));
      RestFollows(m.fpu, os, start, n, calls * budget, budget);
      StableWithin(e0, mid, twice, u, t, n, budget, calls * budget);
      GrownHolds(n0, s0, n1, s1, e0, twice, u, t, n, budget, calls * budget);
      ghost var a: nat;
      ghost var c := m.cpu;
      r, log, a := Turn(m, os, log, budget);
      AdvancesSplit(m.fpu, os, start, n, a);
      if !r.Died? {
        CacheOk(m);
        KeepsBoth(n0, n1, m.natives);
        CountedJoin(e0, mid, m.cache.Entries(), n1, m.natives, m.fpu, u, t, n, a);
      }
      if r == Suspended {
        StalledAt(m.fpu, os, start, c, log, n, a, budget);
      }
      n := n + a;
      if r != ReturnEcall {
        return;
      }
      WithinLess(u, t, n - a, budget, a);
      HeatBoundJoin(e0, mid, m.cache.Entries(), twice, u, t, n - a, a);
      GrownJoin(n0, s0, n1, s1, m.natives, m.sources, e0, mid, twice, u, t, n - a, a);
      spent := spent + budget;
    }
  }

  lemma {:induction false} CacheOk(m: Machine)
    requires m.Valid()
    ensures m.cache.Valid()
  {
  }

  lemma {:induction false} WithinLess(u: Trace, t: Trace, a: nat, b: nat, b': nat)
    requires Within(u, t, a, b) && b' <= b
    ensures Within(u, t, a, b')
  {
  }

  lemma {:induction false} NoAdvance(fpu: Fpu, os: Host, s: Session)
    ensures Advances(fpu, os, s, 0) == s
  {
  }

  lemma {:induction false} ZeroKept(os: Host, k: nat, c: Cpu)
    ensures Answer(os, k, c).gp[0] == c.gp[0]
  {
  }

  /** The host's value goes to register 10, its memory to the guest; nothing
      else changes. */
  lemma {:induction false} AnswerIs(os: Host, k: nat, c: Cpu)
    ensures var d := Answer(os, k, c);
            && d.gp[10] == os(k, c).0 && d.gp == c.gp[10 := d.gp[10]] && d.mem == os(k, c).1
            && d.fp == c.fp && d.pc == c.pc
  {
  }

  lemma {:induction false} Room(k: nat, calls: nat, budget: nat)
    requires k < calls
    ensures k * budget + budget == (k + 1) * budget <= calls * budget
  {
    assert (calls - k - 1) * budget >= 0;
    assert calls * budget == (calls - k - 1) * budget + k * budget + budget;
  }
}
