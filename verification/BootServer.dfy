/** One process of the boot protocol: the variables that its start-up writes and its request handlers read. */
module BootServer {
  import opened Wrappers
  import opened Boot

  function Fresh(total: nat): Proc {
    Proc(total, Starting, [], false, Progress(None, 0, 0))
  }

  function RunProc(c: Proc, es: seq<Event>): Option<Proc> {
    if es == [] then Some(c) else
      match RunProc(c, es[..|es| - 1])
      case Some(d) => StepProc(d, es[|es| - 1])
      case None => None
  }

  /** The events of one process among those of all. */
  function Own(es: seq<Event>, p: nat): seq<Event> {
    if es == [] then [] else
      Own(es[..|es| - 1], p) + if es[|es| - 1].p == p then [es[|es| - 1]] else []
  }

  lemma RunProcStep(c: Proc, es: seq<Event>, e: Event)
    ensures RunProc(c, es + [e]) == match RunProc(c, es) case Some(d) => StepProc(d, e) case None => None
  {
    assert (es + [e])[..|es|] == es;
  }

  /** Whatever the others do, a process runs through its own events as though it were alone. */
  lemma {:induction false} EachRunsItsOwn(s0: State, es: seq<Event>, p: nat)
    requires IsRun(s0, es) && p in s0.procs
    ensures p in Run(s0, es).value.procs
    ensures RunProc(Fresh(s0.procs[p].total), Own(es, p)) == Some(Run(s0, es).value.procs[p])
    decreases |es|
  {
    if es != [] {
      var before, e := es[..|es| - 1], es[|es| - 1];
      EachRunsItsOwn(s0, before, p);
      if e.p == p {
        RunProcStep(Fresh(s0.procs[p].total), Own(before, p), e);
      } else {
        assert Own(es, p) == Own(before, p);
      }
    }
  }

  function Requests(p: nat, passed: bool, n: nat): seq<Event> {
    if n == 0 then [] else Requests(p, passed, n - 1) + [Request(p, passed)]
  }

  function Hooks(p: nat, hooks: seq<bool>, n: nat): seq<Event>
    requires n <= |hooks|
  {
    if n == 0 then [] else Hooks(p, hooks, n - 1) + if hooks[n - 1] then [Hook(p, n - 1)] else []
  }

  /** They are the hooks of just those services that have one, each once, in the order of the services. */
  lemma {:induction false} HooksInOrder(p: nat, hooks: seq<bool>, n: nat)
    requires n <= |hooks|
    ensures var es := Hooks(p, hooks, n);
            && (forall i :: 0 <= i < |es| ==> es[i].Hook? && es[i].p == p && es[i].service < n && hooks[es[i].service])
            && (forall i, j :: 0 <= i < j < |es| ==> es[i].service < es[j].service)
            && (forall k: nat :: k < n && hooks[k] ==> Hook(p, k) in es)
  {
    if n > 0 { HooksInOrder(p, hooks, n - 1); }
  }

  predicate NonePassed(es: seq<Event>) {
    forall k :: 0 <= k < |es| && es[k].Request? ==> !es[k].passed
  }

  lemma NonePassedFrom(es: seq<Event>, p: nat, n: nat)
    requires NonePassed(es)
    ensures NonePassed(es + Requests(p, false, n))
  {
    if n > 0 {
      NonePassedFrom(es, p, n - 1);
      assert es + Requests(p, false, n) == es + Requests(p, false, n - 1) + [Request(p, false)];
    }
  }

  lemma NonePassedInHooks(es: seq<Event>, p: nat, hooks: seq<bool>, n: nat)
    requires NonePassed(es) && n <= |hooks|
    ensures NonePassed(es + Hooks(p, hooks, n))
  {
    if n > 0 {
      NonePassedInHooks(es, p, hooks, n - 1);
      if hooks[n - 1] {
        assert es + Hooks(p, hooks, n) == es + Hooks(p, hooks, n - 1) + [Hook(p, n - 1)];
      } else {
        assert Hooks(p, hooks, n) == Hooks(p, hooks, n - 1);
      }
    }
  }

  class Server {
    const id: nat
    const total: nat
    var ready: bool
    var progress: Progress
    ghost var proc: Proc
    ghost var log: seq<Event>

    /** The log is a run of the protocol, and the variables are what the protocol has them at. */
    ghost predicate Valid()
      reads this
    {
      RunProc(Fresh(total), log) == Some(proc) && proc.total == total && ready == proc.ready && progress == proc.progress
    }

    constructor (id: nat, total: nat)
      ensures Valid() && this.id == id && this.total == total && proc == Fresh(total) && log == []
    {
      this.id, this.total := id, total;
      ready, progress := false, Progress(None, 0, 0);
      proc, log := Fresh(total), [];
    }

    ghost method Note(e: Event)
      requires RunProc(Fresh(total), log) == Some(proc) && StepProc(proc, e).Some?
      modifies this`proc, this`log
      ensures log == old(log) + [e] && Some(proc) == StepProc(old(proc), e)
      ensures RunProc(Fresh(total), log) == Some(proc)
    {
      RunProcStep(Fresh(total), log, e);
      proc, log := StepProc(proc, e).value, log + [e];
    }

    /** What every request meets first. */
    method Gate() returns (passed: bool)
      requires Valid() && !proc.phase.Exited?
      modifies this`proc, this`log
      ensures Valid() && proc == old(proc)
      ensures passed == ready && log == old(log) + [Request(id, passed)]
    {
      passed := ready;
      Note(Request(id, passed));
    }

    /** While the start-up awaits something, requests are handled. */
    method Await(arrivals: nat)
      requires Valid() && !proc.phase.Exited?
      modifies this`proc, this`log
      ensures Valid() && proc == old(proc)
      ensures log == old(log) + Requests(id, ready, arrivals)
    {
      for i := 0 to arrivals
        invariant Valid() && proc == old(proc)
        invariant log == old(log) + Requests(id, ready, i)
      {
        var _ := Gate();
      }
    }

    /** One round of the loop; `works`: whether the bootstrap returns; `arrivals`: the requests handled meanwhile. */
    method BootstrapService(k: nat, works: bool, arrivals: nat)
      requires Valid() && proc.phase.Migrating? && k == |proc.done| < total && !ready && NonePassed(log)
      modifies this
      ensures Valid() && !ready && NonePassed(log)
      ensures works ==> proc.phase.Migrating? && proc.done == old(proc.done) + [k]
      ensures !works ==> proc.phase.Exited? && proc.done == old(proc.done) && Fail(id, k) in log
      ensures log == old(log) + [Begin(id, k)] + Requests(id, false, arrivals)
                     + if works then [Finish(id, k)] else [Fail(id, k), Leave(id)]
    {
      hide RunProc;
      Note(Begin(id, k));
      progress := Progress(Some(k), k, total);
      NonePassedFrom(log, id, arrivals);
      Await(arrivals);
      if works {
        Note(Finish(id, k));
      } else {
        Note(Fail(id, k));
        ghost var failed := log;
        assert failed[|failed| - 1] == Fail(id, k);
        Note(Leave(id));
      }
    }

    /** Serial, under the lock or, failing that, without it; the first bootstrap to fail is the last to be tried. */
    method BootstrapServices(locked: bool, works: seq<bool>, arrivals: seq<nat>) returns (ok: bool)
      requires Valid() && proc == Fresh(total) && NonePassed(log) && |works| == |arrivals| == total
      modifies this
      ensures Valid() && !ready && NonePassed(log) && ok == (false !in works)
      ensures ok ==> proc.phase.Migrated? && proc.done == UpTo(total)
      ensures !ok ==> proc.phase.Exited? && var k := |proc.done|;
                      k < total && proc.done == UpTo(k) && false !in works[..k] && !works[k] && Fail(id, k) in log
      ensures (if locked then TakeLock(id) else GoWithout(id)) in log
    {
      hide RunProc;
      if locked { Note(TakeLock(id)); } else { Note(GoWithout(id)); }
      var done := 0;
      while done < total
        invariant Valid() && proc.phase.Migrating? && !ready && NonePassed(log)
        invariant done <= total && proc.done == UpTo(done) && false !in works[..done]
        invariant (if locked then TakeLock(id) else GoWithout(id)) in log
      {
        BootstrapService(done, works[done], arrivals[done]);
        if !works[done] { return false; }
        assert works[..done + 1] == works[..done] + [true];
        done := done + 1;
      }
      assert works[..total] == works;
      Note(Leave(id));
      progress := Progress(None, done, total);
      return true;
    }

    /** `hooks[k]`: whether service `k` has something to start once requests are served. */
    method RunReadyHooks(hooks: seq<bool>)
      requires Valid() && proc.phase.Up? && |hooks| == total
      modifies this`proc, this`log
      ensures Valid() && proc == old(proc)
      ensures log == old(log) + Hooks(id, hooks, total)
    {
      for k := 0 to total
        invariant Valid() && proc == old(proc) && log == old(log) + Hooks(id, hooks, k)
      {
        if hooks[k] { Note(Hook(id, k)); }
      }
    }

    /** The gate opens if and only if every bootstrap works; until then nothing has passed it. */
    method Start(locked: bool, works: seq<bool>, arrivals: seq<nat>, hooks: seq<bool>)
      requires Valid() && proc == Fresh(total) && NonePassed(log) && |works| == |arrivals| == |hooks| == total
      modifies this
      ensures Valid() && NonePassed(log) && ready == (false !in works)
      ensures if ready then proc.phase.Up? && proc.done == UpTo(total) else proc.phase.Exited?
      ensures ready ==> exists before: seq<Event> :: log == before + [Open(id)] + Hooks(id, hooks, total)
      ensures (if locked then TakeLock(id) else GoWithout(id)) in log
    {
      hide RunProc;
      var ok := BootstrapServices(locked, works, arrivals);
      if ok {
        ghost var before := log;
        ready := true;
        Note(Open(id));
        NonePassedInHooks(log, id, hooks, total);
        RunReadyHooks(hooks);
      }
    }
  }
}
