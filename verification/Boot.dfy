/**
 * Several processes starting against one database: the migrations of each, one service after another, under a lock
 * that all share, and the gate that keeps requests out until they are through.
 */
module Boot {
  import opened Wrappers

  /** What the health endpoint shows of the migrations. */
  datatype Progress = Progress(service: Option<nat>, done: nat, total: nat)

  /**
   * Starting: listening, the lock not yet settled. Migrating: between two services. Bootstrapping: inside one.
   * Migrated: the loop is over and the lock given back. Failing: a bootstrap has thrown. Up: serving.
   */
  datatype Phase = Starting | Migrating | Bootstrapping | Migrated | Failing | Up | Exited

  /** A process that owns `total` services; `done` lists those it has bootstrapped. */
  datatype Proc = Proc(total: nat, phase: Phase, done: seq<nat>, ready: bool, progress: Progress)

  datatype State = State(procs: map<nat, Proc>, lock: Option<nat>)

  datatype Event =
    | TakeLock(p: nat)
    | GoWithout(p: nat)
    | Begin(p: nat, service: nat)
    | Finish(p: nat, service: nat)
    | Fail(p: nat, service: nat)
    | Leave(p: nat)
    | Open(p: nat)
    | Hook(p: nat, service: nat)
    | Request(p: nat, passed: bool)
    | Crash(p: nat)

  predicate IsStart(s: State) {
    s.lock.None? && forall p :: p in s.procs ==>
      var c := s.procs[p];
      c == Proc(c.total, Starting, [], false, Progress(None, 0, 0))
  }

  /** What one process does on an event of its own, the lock apart. */
  function StepProc(c: Proc, e: Event): Option<Proc> {
    match e
    case TakeLock(_) => if c.phase.Starting? then Some(c.(phase := Migrating)) else None
    case GoWithout(_) => if c.phase.Starting? then Some(c.(phase := Migrating)) else None
    case Begin(_, k) =>
      if c.phase.Migrating? && |c.done| < c.total && k == |c.done|
      then Some(c.(phase := Bootstrapping, progress := Progress(Some(k), k, c.total))) else None
    case Finish(_, k) =>
      if c.phase.Bootstrapping? && k == |c.done| then Some(c.(phase := Migrating, done := c.done + [k])) else None
    case Fail(_, k) => if c.phase.Bootstrapping? && k == |c.done| then Some(c.(phase := Failing)) else None
    case Leave(_) =>
      if c.phase.Migrating? && |c.done| == c.total
      then Some(c.(phase := Migrated, progress := Progress(None, c.total, c.total)))
      else if c.phase.Failing? then Some(c.(phase := Exited))
      else None
    case Open(_) => if c.phase.Migrated? then Some(c.(phase := Up, ready := true)) else None
    case Hook(_, k) => if c.phase.Up? && k < c.total then Some(c) else None
    case Request(_, passed) => if !c.phase.Exited? && passed == c.ready then Some(c) else None
    case Crash(_) => if !c.phase.Exited? then Some(c.(phase := Exited)) else None
  }

  /** The lock: free when it is taken, given back when the holder leaves the loop or its connection goes. */
  function StepLock(lock: Option<nat>, e: Event): Option<Option<nat>> {
    match e
    case TakeLock(p) => if lock.None? then Some(Some(p)) else None
    case Leave(p) => Some(if lock == Some(p) then None else lock)
    case Crash(p) => Some(if lock == Some(p) then None else lock)
    case _ => Some(lock)
  }

  function Step(s: State, e: Event): Option<State> {
    if e.p !in s.procs then None else
      match (StepProc(s.procs[e.p], e), StepLock(s.lock, e))
      case (Some(c), Some(lock)) => Some(State(s.procs[e.p := c], lock))
      case _ => None
  }

  /** Where a list of events, any interleaving of the processes, leads. */
  function Run(s: State, es: seq<Event>): Option<State> {
    if es == [] then Some(s) else
      match Run(s, es[..|es| - 1])
      case Some(t) => Step(t, es[|es| - 1])
      case None => None
  }

  predicate IsRun(s: State, es: seq<Event>) {
    IsStart(s) && Run(s, es).Some?
  }

  lemma {:induction false} PrefixOfRun(s: State, es: seq<Event>, n: nat)
    requires IsRun(s, es) && n <= |es|
    ensures IsRun(s, es[..n])
    decreases |es| - n
  {
    if n == |es| {
      assert es[..n] == es;
    } else {
      PrefixOfRun(s, es, n + 1);
      assert es[..n + 1][..n] == es[..n];
    }
  }

  // ---------- what the events say ----------

  /** The services that `p` has finished bootstrapping, in order. */
  function Finished(es: seq<Event>, p: nat): seq<nat> {
    if es == [] then [] else
      var last := es[|es| - 1];
      Finished(es[..|es| - 1], p) + if last.Finish? && last.p == p then [last.service] else []
  }

  function UpTo(n: nat): seq<nat> {
    seq(n, k => k)
  }

  /** `p` has failed a bootstrap. */
  predicate HasFailed(es: seq<Event>, p: nat) {
    exists k :: 0 <= k < |es| && es[k].Fail? && es[k].p == p
  }

  // ---------- the invariant ----------

  predicate IsMigrating(c: Proc) {
    c.phase.Migrating? || c.phase.Bootstrapping? || c.phase.Failing?
  }

  ghost predicate ProcFits(c: Proc, p: nat, s0: State, es: seq<Event>) {
    && p in s0.procs && c.total == s0.procs[p].total
    && c.done == Finished(es, p) && c.done == UpTo(|c.done|) && |c.done| <= c.total
    && (c.ready ==> |c.done| == c.total && (c.phase.Up? || c.phase.Exited?) && Open(p) in es)
    && (c.phase.Up? ==> c.ready)
    && (c.phase.Bootstrapping? ==> |c.done| < c.total && c.progress == Progress(Some(|c.done|), |c.done|, c.total))
    && (c.phase.Migrated? || c.phase.Up? ==> |c.done| == c.total && c.progress == Progress(None, c.total, c.total))
    && (HasFailed(es, p) ==> !c.ready && (c.phase.Failing? || c.phase.Exited?))
    && (IsMigrating(c) ==> TakeLock(p) in es || GoWithout(p) in es)
    && (c.phase.Starting? ==> TakeLock(p) !in es && GoWithout(p) !in es)
  }

  ghost predicate LockFits(s: State, es: seq<Event>) {
    forall p :: p in s.procs && IsMigrating(s.procs[p]) && GoWithout(p) !in es ==> s.lock == Some(p)
  }

  ghost predicate Fits(s: State, s0: State, es: seq<Event>) {
    s.procs.Keys == s0.procs.Keys && (forall p :: p in s.procs ==> ProcFits(s.procs[p], p, s0, es)) && LockFits(s, es)
  }

  lemma OwnStepFits(c: Proc, d: Proc, s0: State, es: seq<Event>, e: Event)
    requires ProcFits(c, e.p, s0, es) && StepProc(c, e) == Some(d)
    ensures ProcFits(d, e.p, s0, es + [e])
  {
    var now := es + [e];
    assert now[..|now| - 1] == es && now[|now| - 1] == e;
    assert HasFailed(now, e.p) ==> HasFailed(es, e.p) || e.Fail?;
    if e.Finish? { assert d.done == UpTo(|c.done|) + [|c.done|]; }
  }

  lemma OtherStepFits(c: Proc, p: nat, s0: State, es: seq<Event>, e: Event)
    requires ProcFits(c, p, s0, es) && e.p != p
    ensures ProcFits(c, p, s0, es + [e])
  {
    var now := es + [e];
    assert now[..|now| - 1] == es && now[|now| - 1] == e;
    assert HasFailed(now, p) ==> HasFailed(es, p);
  }

  lemma StepFits(s: State, t: State, s0: State, es: seq<Event>, e: Event)
    requires Fits(s, s0, es) && Step(s, e) == Some(t)
    ensures Fits(t, s0, es + [e])
  {
    OwnStepFits(s.procs[e.p], t.procs[e.p], s0, es, e);
    forall p | p in t.procs ensures ProcFits(t.procs[p], p, s0, es + [e]) {
      if p != e.p { OtherStepFits(s.procs[p], p, s0, es, e); }
    }
    StepFitsLock(s, t, s0, es, e);
  }

  lemma StepFitsLock(s: State, t: State, s0: State, es: seq<Event>, e: Event)
    requires Fits(s, s0, es) && Step(s, e) == Some(t)
    ensures LockFits(t, es + [e])
  {
    assert e in es + [e];
    forall p | p in t.procs && IsMigrating(t.procs[p]) && GoWithout(p) !in es + [e] ensures t.lock == Some(p) {
      assert GoWithout(p) !in es;
      assert p != e.p ==> t.procs[p] == s.procs[p];
    }
  }

  lemma {:induction false} RunFits(s0: State, es: seq<Event>)
    requires IsRun(s0, es)
    ensures Fits(Run(s0, es).value, s0, es)
    decreases |es|
  {
    if es == [] {
      assert forall p :: p in s0.procs ==> s0.procs[p].done == [] == UpTo(0);
    } else {
      var before, e := es[..|es| - 1], es[|es| - 1];
      RunFits(s0, before);
      StepFits(Run(s0, before).value, Run(s0, es).value, s0, before, e);
      assert before + [e] == es;
    }
  }

  // ---------- what holds of every run ----------

  /**
   * A request passes the gate of a process only after each of its services has bootstrapped exactly once, in the order
   * of the list, and none has failed.
   */
  lemma GateOpensAfterMigrations(s0: State, es: seq<Event>, i: nat)
    requires IsRun(s0, es) && i < |es| && es[i].Request? && es[i].passed
    ensures es[i].p in s0.procs
    ensures Finished(es[..i], es[i].p) == UpTo(s0.procs[es[i].p].total)
    ensures !HasFailed(es[..i], es[i].p)
  {
    PrefixOfRun(s0, es, i + 1);
    assert es[..i + 1][..i] == es[..i];
    PrefixOfRun(s0, es, i);
    RunFits(s0, es[..i]);
  }

  /** So does a scheduler hook. */
  lemma HooksRunAfterMigrations(s0: State, es: seq<Event>, i: nat)
    requires IsRun(s0, es) && i < |es| && es[i].Hook?
    ensures es[i].p in s0.procs
    ensures Finished(es[..i], es[i].p) == UpTo(s0.procs[es[i].p].total)
  {
    PrefixOfRun(s0, es, i + 1);
    assert es[..i + 1][..i] == es[..i];
    PrefixOfRun(s0, es, i);
    RunFits(s0, es[..i]);
  }

  /** Once a process is ready it stays ready, and from then on it refuses no request. */
  lemma {:induction false} ReadyStaysReady(s0: State, es: seq<Event>, p: nat, i: nat)
    requires IsRun(s0, es) && i < |es| && es[i] == Open(p)
    ensures p in Run(s0, es).value.procs && Run(s0, es).value.procs[p].ready
    ensures Request(p, false) !in es[i..]
    decreases |es|
  {
    var before, e := es[..|es| - 1], es[|es| - 1];
    PrefixOfRun(s0, es, |es| - 1);
    if i < |before| {
      ReadyStaysReady(s0, before, p, i);
      assert es[i..] == before[i..] + [e];
    } else {
      assert es[i..] == [e];
    }
  }

  /** A process whose bootstrap has failed never becomes ready. */
  lemma FailedNeverOpens(s0: State, es: seq<Event>, p: nat, i: nat)
    requires IsRun(s0, es) && i < |es| && es[i].Fail? && es[i].p == p
    ensures Open(p) !in es
  {
    hide Step;
    RunFits(s0, es);
    assert HasFailed(es, p);
    forall j: nat | j < |es| ensures es[j] != Open(p) {
      if es[j] == Open(p) { ReadyStaysReady(s0, es, p, j); }
    }
  }

  /** So no request ever passes its gate, before the failure or after it. */
  lemma FailedNeverServes(s0: State, es: seq<Event>, p: nat, i: nat)
    requires IsRun(s0, es) && i < |es| && es[i].Fail? && es[i].p == p
    ensures Request(p, true) !in es
  {
    FailedNeverOpens(s0, es, p, i);
    forall j: nat | j < |es| ensures es[j] != Request(p, true) {
      if es[j] == Request(p, true) { PassedMeansOpened(s0, es, j); }
    }
  }

  lemma PassedMeansOpened(s0: State, es: seq<Event>, j: nat)
    requires IsRun(s0, es) && j < |es| && es[j].Request? && es[j].passed
    ensures Open(es[j].p) in es[..j]
  {
    PrefixOfRun(s0, es, j + 1);
    assert es[..j + 1][..j] == es[..j];
    PrefixOfRun(s0, es, j);
    RunFits(s0, es[..j]);
  }

  /** Two processes migrate at the same time only if one of them gave up on the lock. */
  lemma OverlapNeedsNoLock(s0: State, es: seq<Event>, p: nat, q: nat)
    requires IsRun(s0, es) && p != q
    requires var s := Run(s0, es).value;
             p in s.procs && q in s.procs && IsMigrating(s.procs[p]) && IsMigrating(s.procs[q])
    ensures GoWithout(p) in es || GoWithout(q) in es
  {
    RunFits(s0, es);
  }

  /** The lock is held by nobody, or by a process that took it and is still migrating; and nobody waits for it in vain. */
  lemma {:induction false} LockIsGivenBack(s0: State, es: seq<Event>, p: nat)
    requires IsRun(s0, es)
    ensures var s := Run(s0, es).value;
            && (s.lock == Some(p) ==> p in s.procs && IsMigrating(s.procs[p]) && TakeLock(p) in es)
            && (s.lock.None? && p in s.procs && s.procs[p].phase.Starting? ==> Step(s, TakeLock(p)).Some?)
    decreases |es|
  {
    if es != [] {
      var before, e := es[..|es| - 1], es[|es| - 1];
      LockIsGivenBack(s0, before, p);
      assert es == before + [e] && e in es;
    }
  }

  lemma RunStep(s0: State, es: seq<Event>, e: Event)
    ensures Run(s0, es + [e]) == match Run(s0, es) case Some(t) => Step(t, e) case None => None
  {
    assert (es + [e])[..|es|] == es;
  }

  /** And then they can: the gate's safety does not rest on the lock, but nothing else keeps two migrations apart. */
  lemma OverlapWithoutLock(s0: State, p: nat, q: nat)
    requires IsStart(s0) && p in s0.procs && q in s0.procs && p != q
    requires s0.procs[p].total > 0 && s0.procs[q].total > 0
    ensures var es := [] + [TakeLock(p)] + [Begin(p, 0)] + [GoWithout(q)] + [Begin(q, 0)];
            && IsRun(s0, es)
            && var s := Run(s0, es).value;
            && p in s.procs && s.procs[p].phase.Bootstrapping?
            && q in s.procs && s.procs[q].phase.Bootstrapping?
  {
    RunStep(s0, [], TakeLock(p));
    RunStep(s0, [] + [TakeLock(p)], Begin(p, 0));
    RunStep(s0, [] + [TakeLock(p)] + [Begin(p, 0)], GoWithout(q));
    RunStep(s0, [] + [TakeLock(p)] + [Begin(p, 0)] + [GoWithout(q)], Begin(q, 0));
  }

  /** The health endpoint tells the truth: the service being migrated, how many are through, and of how many. */
  lemma HealthTellsProgress(s0: State, es: seq<Event>, p: nat)
    requires IsRun(s0, es) && p in Run(s0, es).value.procs
    ensures var c := Run(s0, es).value.procs[p];
            && (c.phase.Bootstrapping? ==> c.progress == Progress(Some(|Finished(es, p)|), |Finished(es, p)|, c.total))
            && (c.phase.Migrated? || c.phase.Up? ==> c.progress == Progress(None, |Finished(es, p)|, c.total))
  {
    RunFits(s0, es);
  }
}
