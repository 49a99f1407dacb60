/**
 * Each promise the soundness theorem assumes is needed: a program that breaks that one only, that the analyser passes in
 * silence, and that carries on poisoned.
 */
module TxLimits {
  import opened Wrappers
  import opened TxAst
  import opened TxAnalyser
  import opened TxSemantics
  import opened TxHandlers
  import opened TxSoundness

  /** `ast` keeps every promise but one and is passed in silence, yet `ch` is a run that carries on poisoned. */
  ghost predicate SlipsThrough(ast: Node, ch: seq<nat>, broken: Promise) {
    (forall pr :: pr != broken ==> Kept(pr, ast)) && Swallows(ast) == [] && CarriesOn(Run(ast, START, ch))
  }

  /** So the promise it does not keep is the one that is broken. */
  lemma BrokenIndeed(ast: Node, ch: seq<nat>, broken: Promise)
    requires SlipsThrough(ast, ch, broken)
    ensures !Kept(broken, ast)
  {
    if Kept(broken, ast) { Soundness(ast, ch); }
  }

  predicate CarriesOn(o: Outcome) {
    o.Done? && o.how != Thrown && o.st.tx == Poisoned
  }

  const POISONED := State(Poisoned, false)

  // ---------- one step at a time ----------

  lemma SilentAll(ns: seq<Node>)
    requires forall i :: 0 <= i < |ns| ==> Swallows(ns[i]) == []
    ensures SwallowsInAll(ns) == []
  {
    hide Swallows;
    if ns != [] { SilentAll(ns[1..]); }
  }

  lemma Silent(n: Node)
    requires FindingsAt(n) == [] && forall i :: 0 <= i < |Kids(n)| ==> Swallows(Kids(n)[i]) == []
    ensures Swallows(n) == []
  {
    hide SwallowsInAll, FindingsAt;
    SilentAll(Kids(n));
  }

  lemma AllKeep(pr: Promise, ns: seq<Node>)
    requires forall i :: 0 <= i < |ns| ==> Kept(pr, ns[i])
    ensures AllKept(pr, ns)
  {
    hide Kept;
    if ns != [] { AllKeep(pr, ns[1..]); }
  }

  lemma Keeps(pr: Promise, n: Node)
    requires KeptHere(pr, n) && forall i :: 0 <= i < |Kids(n)| ==> Kept(pr, Kids(n)[i])
    ensures Kept(pr, n)
  {
    hide AllKept, KeptHere;
    AllKeep(pr, Kids(n));
  }

  /** A node that is neither a try nor a `.catch` makes no promise of its own. */
  lemma KeepsThrough(pr: Promise, n: Node)
    requires !n.Try? && !IsCatchCall(n) && forall i :: 0 <= i < |Kids(n)| ==> Kept(pr, Kids(n)[i])
    ensures Kept(pr, n)
  {
    hide Kept, HandlerKeeps;
    Keeps(pr, n);
  }

  lemma NoCallsAll(ns: seq<Node>)
    requires forall i :: 0 <= i < |ns| ==> CallsIn(ns[i]) == []
    ensures CallsInAll(ns) == []
  {
    hide CallsIn;
    if ns != [] { NoCallsAll(ns[1..]); }
  }

  lemma RollsBackBelow(n: Node, i: nat)
    requires i < |Kids(n)| && RollsBack(Kids(n)[i])
    ensures RollsBack(n)
  {
    hide RollsBack;
    AnyRollsBackMember(Kids(n), i);
    RollsBackStep(n);
  }

  lemma RollsBackStep(n: Node)
    ensures AnyRollsBack(Kids(n)) ==> RollsBack(n)
  {
  }

  lemma AnyRollsBackMember(ns: seq<Node>, i: nat)
    requires i < |ns| && RollsBack(ns[i])
    ensures AnyRollsBack(ns)
  {
    hide RollsBack;
    if i > 0 { AnyRollsBackMember(ns[1..], i - 1); }
  }

  lemma RunPair(a: Node, b: Node, st: State, ch: seq<nat>)
    ensures RunAll([a], st, ch) == Run(a, st, ch)
    ensures RunAll([a, b], st, ch) ==
            var o := Run(a, st, ch); if o.Done? && o.how == Normal then Run(b, o.st, o.rest) else o
  {
    hide Run;
    assert [a, b][1..] == [b] && [b][1..] == [] && [a][1..] == [];
    var o := Run(a, st, ch);
    assert RunAll([a], st, ch) == o;
    if o.Done? { assert RunAll([b], o.st, o.rest) == Run(b, o.st, o.rest); }
  }

  lemma NameRuns(name: string, st: State, ch: seq<nat>)
    ensures Run(Ident(name), st, ch) == Done(Normal, st, ch)
    ensures Swallows(Ident(name)) == [] && CallsIn(Ident(name)) == []
  {
    assert OpenKids(Ident(name)) == [];
  }

  // ---------- a query that fails ----------

  /** The option `transaction`, in shorthand. */
  function TransactionOption(): Node {
    Property(false, Ident("transaction"), Ident("transaction"))
  }

  /** `query({ transaction })` */
  function Query(): Node {
    Call(Ident("query"), [Object([TransactionOption()])], 1)
  }

  lemma QueryPassesTransaction()
    ensures PassesTransaction(Query())
  {
    assert CarriesTransaction(TransactionOption()) && TransactionOption() in [TransactionOption()];
    assert HasTransactionOption(Object([TransactionOption()]));
    assert Object([TransactionOption()]) in Query().arguments;
  }

  lemma QueryIsSilent()
    ensures Swallows(Query()) == []
  {
    hide Swallows, FindingsAt, SwallowsInAll;
    NameRuns("transaction", START, []);
    NameRuns("query", START, []);
    CallHasNoHandler(Query());
    NoFindings(TransactionOption());
    Silent(TransactionOption());
    NoFindings(Object([TransactionOption()]));
    Silent(Object([TransactionOption()]));
    Silent(Query());
  }

  lemma QueryKeeps(pr: Promise)
    ensures Kept(pr, Query())
  {
    hide Kept;
    KeepsThrough(pr, Ident("transaction"));
    KeepsThrough(pr, Ident("query"));
    KeepsThrough(pr, TransactionOption());
    KeepsThrough(pr, Object([TransactionOption()]));
    KeepsThrough(pr, Query());
  }

  lemma NoFindings(n: Node)
    requires !n.Call? && !n.Try?
    ensures FindingsAt(n) == []
  {
  }

  lemma CallHasNoHandler(n: Node)
    requires n.Call? && !IsCatchCall(n)
    ensures FindingsAt(n) == []
  {
  }

  /** The query can fail and poison the transaction. */
  lemma QueryFails(rest: seq<nat>)
    ensures Run(Query(), START, [1] + rest) == Done(Thrown, POISONED, rest)
  {
    hide Run, RunAll, IsStatement, PassesTransaction;
    QueryPassesTransaction();
    StatementsAreFound(Query());
    var ch := [1] + rest;
    assert ch[1..] == rest;
    NameRuns("query", START, ch);
    OptionsRun(ch);
    assert Kids(Query()) == [Ident("query"), Object([TransactionOption()])];
    RunPair(Ident("query"), Object([TransactionOption()]), START, ch);
    assert !IsCallTo(Query(), "rollback");
    CallRuns(Query(), START, ch);
  }

  lemma OptionsRun(ch: seq<nat>)
    ensures Run(Object([TransactionOption()]), START, ch) == Done(Normal, START, ch)
  {
    var name := Ident("transaction");
    RunPair(name, name, START, ch);
    RunPair(TransactionOption(), name, START, ch);
  }

  lemma CallRuns(n: Node, st: State, ch: seq<nat>)
    requires n.Call? && !IsCatchCall(n)
    ensures Run(n, st, ch) == RunCall(n, st, ch)
  {
    hide RunCall;
  }

  // ---------- a guard around the failing query ----------

  /** `try { query } catch ... finally ...` */
  function Guard(handler: Option<Catch>, finalizer: Option<Node>): Node {
    Try(Block([Query()]), handler, finalizer)
  }

  /** When the query fails, the handler and the finalizer decide. */
  lemma GuardRuns(handler: Option<Catch>, finalizer: Option<Node>, rest: seq<nat>)
    ensures Run(Guard(handler, finalizer), START, [1] + rest) ==
            var o := if handler.Some? then Run(handler.value.body, POISONED, rest) else Done(Thrown, POISONED, rest);
            if !o.Done? || finalizer.None? then o
            else
              var f := Run(finalizer.value, o.st, o.rest);
              if f.Done? && f.how == Normal then f.(how := o.how) else f
  {
    hide Query, RunAll;
    QueryFails(rest);
    RunPair(Query(), Query(), START, [1] + rest);
    assert Run(Block([Query()]), START, [1] + rest) == Done(Thrown, POISONED, rest);
    var n := Guard(handler, finalizer);
    assert RunGuarded(n, START, [1] + rest) ==
           if handler.Some? then Run(handler.value.body, POISONED, rest) else Done(Thrown, POISONED, rest);
    assert Run(n, START, [1] + rest) == RunTry(n, START, [1] + rest);
  }

  /** The analyser says nothing about the guard when it takes the handler for safe. */
  lemma GuardIsSilent(handler: Option<Catch>, finalizer: Option<Node>)
    requires handler.Some? <==> finalizer.None?
    requires handler.Some? ==> !BodyMaySwallow(handler.value.body) && Swallows(handler.value.body) == []
    requires finalizer.Some? ==> Swallows(finalizer.value) == []
    ensures Swallows(Guard(handler, finalizer)) == []
  {
    hide CallsIn, RollsBack, Query, BodyMaySwallow, Swallows, SwallowsInAll;
    var n := Guard(handler, finalizer);
    QueryIsSilent();
    NoFindings(Block([Query()]));
    Silent(Block([Query()]));
    assert FindingsAt(n) == [];
    Silent(n);
  }

  lemma GuardKeeps(pr: Promise, handler: Option<Catch>, finalizer: Option<Node>)
    requires handler.Some? ==> HandlerKeeps(pr, Block([Query()]), handler.value.body) && Kept(pr, handler.value.body)
    requires finalizer.Some? ==> (pr.FinalizerStays? ==> CannotLeave(finalizer.value)) && Kept(pr, finalizer.value)
    ensures Kept(pr, Guard(handler, finalizer))
  {
    hide Kept, Query, HandlerKeeps, CannotLeave;
    QueryKeeps(pr);
    KeepsThrough(pr, Block([Query()]));
    Keeps(pr, Guard(handler, finalizer));
  }

  // ---------- a continue ----------

  function Skip(): Node {
    If(Ident("duplicate"), Continue, None)
  }

  function Rethrow(): Node {
    Throw(Ident("error"))
  }

  /** `if (duplicate) continue; throw error;` */
  function Skipping(): Node {
    Block([Skip(), Rethrow()])
  }

  /** `for (...) { try { query } catch (error) { if (duplicate) continue; throw error; } }` */
  function SkipsItsThrow(): Node {
    Loop(Ident("rows"), Guard(Some(Catch(Skipping(), 2)), None))
  }

  lemma SkippingIsSilent()
    ensures Swallows(Skipping()) == [] && AlwaysThrows(Skipping())
  {
    hide CallsIn, RollsBack, Swallows, SwallowsInAll;
    NameRuns("duplicate", START, []);
    NameRuns("error", START, []);
    Silent(Continue);
    Silent(Skip());
    Silent(Rethrow());
    Silent(Skipping());
    assert Kids(Skip())[1..] == [Continue];
    assert !AnyContainsReturn([Continue]);
    assert !ContainsReturn(Skip());
    assert Skipping().statements[..1] == [Skip()];
    assert !AnyContainsReturn([Skip()]);
  }

  lemma SkippingRuns()
    ensures Run(Skipping(), POISONED, [0, 0]) == Done(Continued, POISONED, [0])
  {
    hide RunAll;
    assert [0, 0][1..] == [0];
    assert RunIf(Skip(), POISONED, [0, 0]) == Done(Continued, POISONED, [0]);
    assert Run(Skip(), POISONED, [0, 0]) == Done(Continued, POISONED, [0]);
    RunPair(Skip(), Rethrow(), POISONED, [0, 0]);
  }

  lemma SkippingBodyKeeps(pr: Promise)
    ensures Kept(pr, Skipping())
  {
    hide Kept;
    KeepsThrough(pr, Ident("duplicate"));
    KeepsThrough(pr, Continue);
    KeepsThrough(pr, Skip());
    KeepsThrough(pr, Ident("error"));
    KeepsThrough(pr, Rethrow());
    hide Skip, Rethrow;
    KeepsThrough(pr, Skipping());
  }

  lemma ThrowingHandlerKeeps(pr: Promise, guarded: Node, body: Node)
    requires AlwaysThrows(body) && pr != ThrowIsReached
    ensures HandlerKeeps(pr, guarded, body)
  {
  }

  lemma SkippingKeeps(pr: Promise)
    requires pr != ThrowIsReached
    ensures Kept(pr, SkipsItsThrow())
  {
    hide Kept, Skipping, AlwaysThrows, HandlerKeeps, Guard;
    SkippingIsSilent();
    SkippingBodyKeeps(pr);
    ThrowingHandlerKeeps(pr, Block([Query()]), Skipping());
    GuardKeeps(pr, Some(Catch(Skipping(), 2)), None);
    KeepsThrough(pr, Ident("rows"));
    KeepsThrough(pr, SkipsItsThrow());
  }

  lemma JumpsMatter()
    ensures SlipsThrough(SkipsItsThrow(), [1, 1, 0, 0], ThrowIsReached)
  {
    hide Skipping, Guard, RollsBack, CallsIn, AlwaysThrows, Swallows, SwallowsInAll, Kept;
    forall pr | pr != ThrowIsReached ensures Kept(pr, SkipsItsThrow()) { SkippingKeeps(pr); }
    var handler := Some(Catch(Skipping(), 2));
    var guarded := Guard(handler, None);
    SkippingIsSilent();
    GuardIsSilent(handler, None);
    NameRuns("rows", START, []);
    Silent(SkipsItsThrow());
    SkippingRuns();
    GuardRuns(handler, None, [0, 0]);
    assert [1, 1, 0, 0][1..] == [1] + [0, 0];
    LoopRuns(Ident("rows"), guarded);
  }

  /** A loop whose only round fails and is continued past. */
  lemma LoopRuns(head: Node, body: Node)
    requires head.Ident?
    requires Run(body, START, [1] + [0, 0]) == Done(Continued, POISONED, [0])
    ensures Run(Loop(head, body), START, [1, 1, 0, 0]) == Done(Normal, POISONED, [])
  {
    assert [1, 1, 0, 0][1..] == [1] + [0, 0];
    assert RunLoop(head, body, POISONED, [0]) == Done(Normal, POISONED, []);
    assert RunLoop(head, body, START, [1, 1, 0, 0]) == Done(Normal, POISONED, []);
  }

  // ---------- an abrupt finalizer ----------

  lemma FinalizersMatter()
    ensures SlipsThrough(Guard(None, Some(Return(None))), [1], FinalizerStays)
  {
    hide Guard, RollsBack, CallsIn, Swallows, SwallowsInAll, Kept, HandlerKeeps;
    forall pr | pr != FinalizerStays ensures Kept(pr, Guard(None, Some(Return(None)))) {
      KeepsThrough(pr, Return(None));
      GuardKeeps(pr, None, Some(Return(None)));
    }
    Silent(Return(None));
    GuardIsSilent(None, Some(Return(None)));
    GuardRuns(None, Some(Return(None)), []);
    assert [1] == [1] + [];
    assert Run(Return(None), POISONED, []) == Done(Returned, POISONED, []);
  }

  // ---------- a rollback on some paths only ----------

  /** `transaction.rollback()` */
  function Rollback(): Node {
    Call(Member(false, Ident("transaction"), Ident("rollback"), 1), [], 1)
  }

  /** `if (mine) transaction.rollback();` */
  function RollsBackSometimes(): Node {
    If(Ident("mine"), Rollback(), None)
  }

  lemma RollbackFacts()
    ensures RollsBack(Rollback()) && Swallows(Rollback()) == []
  {
    hide Swallows, SwallowsInAll, AnyRollsBack;
    NameRuns("transaction", START, []);
    NameRuns("rollback", START, []);
    Silent(Rollback().callee);
    Silent(Rollback());
  }

  lemma NoCalls(n: Node)
    requires !PassesTransaction(n) && forall i :: 0 <= i < |OpenKids(n)| ==> CallsIn(OpenKids(n)[i]) == []
    ensures CallsIn(n) == []
  {
    hide CallsInAll, PassesTransaction, OpenKids;
    NoCallsAll(OpenKids(n));
  }

  lemma RollbackHasNoCalls()
    ensures CallsIn(Rollback()) == []
  {
    hide CallsIn, RollsBack;
    NameRuns("transaction", START, []);
    NameRuns("rollback", START, []);
    NoCalls(Rollback().callee);
    NoCalls(Rollback());
  }

  lemma RollbackKeeps(pr: Promise)
    ensures Kept(pr, Rollback())
  {
    hide Kept;
    KeepsThrough(pr, Ident("transaction"));
    KeepsThrough(pr, Ident("rollback"));
    KeepsThrough(pr, Rollback().callee);
    KeepsThrough(pr, Rollback());
  }

  lemma SometimesKeeps(pr: Promise)
    requires pr != RollbackIsReached
    ensures Kept(pr, Guard(Some(Catch(RollsBackSometimes(), 2)), None))
  {
    hide Kept, Rollback, RollsBack, RollsBackAtOnce, Leaks;
    var choice := RollsBackSometimes();
    RollbackFacts();
    assert Kids(choice)[1] == Rollback();
    RollsBackBelow(choice, 1);
    KeepsThrough(pr, Ident("mine"));
    RollbackKeeps(pr);
    KeepsThrough(pr, choice);
    GuardKeeps(pr, Some(Catch(choice, 2)), None);
  }

  lemma RollbackPathsMatter()
    ensures SlipsThrough(Guard(Some(Catch(RollsBackSometimes(), 2)), None), [1, 1], RollbackIsReached)
  {
    hide Guard, CallsIn, Rollback, RollsBack, Swallows, SwallowsInAll, Kept;
    forall pr | pr != RollbackIsReached ensures Kept(pr, Guard(Some(Catch(RollsBackSometimes(), 2)), None)) {
      SometimesKeeps(pr);
    }
    var choice := RollsBackSometimes();
    RollbackFacts();
    NameRuns("mine", START, []);
    assert Kids(choice)[1] == Rollback();
    RollsBackBelow(choice, 1);
    Silent(choice);
    GuardIsSilent(Some(Catch(choice, 2)), None);
    GuardRuns(Some(Catch(choice, 2)), None, [1]);
    assert [1, 1] == [1] + [1];
    assert RunIf(choice, POISONED, [1]) == Done(Normal, POISONED, []);
  }

  // ---------- a failure hidden from a swallowing handler ----------

  function Log(): Node {
    Call(Ident("log"), [], 3)
  }

  /** `log(); transaction.rollback();` */
  function LogThenRollback(): Node {
    Block([Log(), Rollback()])
  }

  /** `try { query } catch { log(); transaction.rollback(); }` */
  function LogsFirst(): Node {
    Guard(Some(Catch(LogThenRollback(), 2)), None)
  }

  lemma LogFacts()
    ensures Swallows(Log()) == [] && CallsIn(Log()) == []
  {
    hide Swallows, SwallowsInAll, CallsIn, RollsBack;
    NameRuns("log", START, []);
    Silent(Log());
    NoCalls(Log());
  }

  lemma LogRuns()
    ensures Run(Log(), POISONED, [0, 1]) == Done(Thrown, POISONED, [])
  {
    hide Run, RunAll;
    NameRuns("log", POISONED, [0, 1]);
    assert Kids(Log()) == [Ident("log")];
    RunPair(Ident("log"), Ident("log"), POISONED, [0, 1]);
    CallRuns(Log(), POISONED, [0, 1]);
    assert Callbacks(Kids(Log())) == [] by { assert !IsFunction(Ident("log")); }
    assert [0, 1][1..] == [1];
  }

  lemma LogThenRollbackFacts()
    ensures Swallows(LogThenRollback()) == [] && RollsBack(LogThenRollback()) && CallsIn(LogThenRollback()) == []
    ensures Run(LogThenRollback(), POISONED, [0, 1]) == Done(Thrown, POISONED, [])
  {
    hide Log, Rollback, RollsBack, Swallows, SwallowsInAll, CallsIn, RunAll;
    var body := LogThenRollback();
    RollbackFacts();
    RollbackHasNoCalls();
    LogFacts();
    LogRuns();
    assert Kids(body)[1] == Rollback();
    RollsBackBelow(body, 1);
    Silent(body);
    NoCalls(body);
    RunPair(Log(), Rollback(), POISONED, [0, 1]);
  }

  lemma LogsFirstFacts()
    ensures Swallows(LogsFirst()) == [] && CallsIn(LogsFirst()) == []
    ensures Run(LogsFirst(), START, [1, 0, 1]) == Done(Thrown, POISONED, [])
  {
    hide LogThenRollback, RollsBack, Swallows, CallsIn, Run;
    var handler := Some(Catch(LogThenRollback(), 2));
    LogThenRollbackFacts();
    GuardIsSilent(handler, None);
    assert OpenKids(LogsFirst()) == [LogThenRollback()];
    NoCalls(LogsFirst());
    assert [1, 0, 1] == [1] + [0, 1];
    GuardRuns(handler, None, [0, 1]);
  }

  /** `try { try { query } catch { log(); transaction.rollback(); } } catch { }` */
  function SwallowsTheRest(): Node {
    Try(LogsFirst(), Some(Catch(Block([]), 4)), None)
  }

  /** On every path it has rolled back or thrown. */
  lemma LogThenRollbackEnds()
    ensures EndsOrThrows(LogThenRollback())
  {
    var log, rollback := Log(), Rollback();
    assert IsPlainRollback(rollback);
    assert RollsBackFirst(rollback);
    assert EndsOrThrows(rollback);
    assert Kids(log) == [Ident("log")] && Kids(log)[1..] == [];
    assert !AnyJumpsOut([Ident("log")]) && !AnyContainsReturn([Ident("log")]);
    assert CannotLeave(log);
    assert LeavesEnded(log);
    var body := LogThenRollback();
    assert body.statements[1..] == [rollback];
    assert EndsOrThrowsAll([rollback]);
    assert EndsOrThrowsAll(body.statements);
  }

  lemma LogThenRollbackKeeps(pr: Promise)
    ensures Kept(pr, LogThenRollback())
  {
    hide Kept, Rollback;
    KeepsThrough(pr, Ident("log"));
    KeepsThrough(pr, Log());
    RollbackKeeps(pr);
    hide Log;
    KeepsThrough(pr, LogThenRollback());
  }

  lemma EndingHandlerKeeps(pr: Promise, guarded: Node, body: Node)
    requires EndsOrThrows(body) && RollsBack(body)
    ensures HandlerKeeps(pr, guarded, body)
  {
  }

  lemma LogsFirstKeeps(pr: Promise)
    ensures Kept(pr, LogsFirst())
  {
    hide Kept, RollsBack, EndsOrThrows, LogThenRollback, Guard, HandlerKeeps, CallsIn, Swallows, Run;
    LogThenRollbackFacts();
    LogThenRollbackEnds();
    LogThenRollbackKeeps(pr);
    EndingHandlerKeeps(pr, Block([Query()]), LogThenRollback());
    GuardKeeps(pr, Some(Catch(LogThenRollback(), 2)), None);
  }

  lemma SwallowsTheRestKeeps(pr: Promise)
    requires pr != RollbackComesFirst
    ensures Kept(pr, SwallowsTheRest())
  {
    hide Kept, LogsFirst, RollsBackAtOnce, Leaks, RollsBack;
    LogsFirstKeeps(pr);
    KeepsThrough(pr, Block([]));
    NothingRollsBack();
    Keeps(pr, SwallowsTheRest());
  }

  lemma NothingRollsBack()
    ensures !RollsBack(Block([])) && !AlwaysThrows(Block([]))
  {
  }

  lemma HiddenFailuresMatter()
    ensures SlipsThrough(SwallowsTheRest(), [1, 0, 1], RollbackComesFirst)
  {
    hide LogsFirst, Swallows, SwallowsInAll, CallsIn, Kept;
    forall pr | pr != RollbackComesFirst ensures Kept(pr, SwallowsTheRest()) { SwallowsTheRestKeeps(pr); }
    LogsFirstFacts();
    var n := SwallowsTheRest();
    Silent(Block([]));
    Silent(n);
    assert Run(Block([]), POISONED, []) == Done(Normal, POISONED, []);
    assert RunGuarded(n, START, [1, 0, 1]) == Done(Normal, POISONED, []);
  }
}
