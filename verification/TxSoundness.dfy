/** A tree the analyser reports nothing about never lets a poisoned transaction live on. */
module TxSoundness {
  import opened Wrappers
  import opened TxAst
  import opened TxAnalyser
  import opened TxSemantics
  import opened TxHandlers

  // ---------- what the analyser takes for granted ----------

  /** The children a failure can come out of as an exception, the transaction still poisoned. */
  function LeakyKids(n: Node): (ks: seq<Node>)
    ensures SizeAll(ks) < Size(n)
  {
    KidsAreSmaller(n);
    if n.Try? && n.handler.Some? && RollsBackFirst(n.handler.value.body) then
      SizeOfConcat([n.block], HandlerBody(n.handler) + Listed(n.finalizer));
      assert Kids(n) == [n.block] + (HandlerBody(n.handler) + Listed(n.finalizer));
      HandlerBody(n.handler) + Listed(n.finalizer)
    else if IsBoundary(n) then
      SizeOfConcat([n.callee], Keep(n.arguments, NotAFunction));
      SizeOfConcat([n.callee], n.arguments);
      [n.callee] + Keep(n.arguments, NotAFunction)
    else
      Kids(n)
  }

  /** A failed statement inside `n` may surface from `n` with the transaction poisoned. */
  predicate Leaks(n: Node)
    decreases Size(n)
  {
    IsStatement(n) || AnyLeaks(LeakyKids(n))
  }

  predicate AnyLeaks(ns: seq<Node>)
    decreases SizeAll(ns)
  {
    ns != [] && (Leaks(ns[0]) || AnyLeaks(ns[1..]))
  }

  predicate HasCalls(n: Node) {
    CallsIn(n) != []
  }

  /** Below `n` a handler that rolls back a failure of its block does so before anything that can throw. */
  predicate RollsBackAtOnce(n: Node)
    decreases Size(n)
  {
    KidsAreSmaller(n);
    RollsBackAtOnceHere(n) && AllRollBackAtOnce(Kids(n))
  }

  predicate AllRollBackAtOnce(ns: seq<Node>)
    decreases SizeAll(ns)
  {
    ns == [] || (RollsBackAtOnce(ns[0]) && AllRollBackAtOnce(ns[1..]))
  }

  predicate RollsBackAtOnceHere(n: Node) {
    OwnsItsFailures(n) && Leaks(n.block) ==> RollsBackFirst(n.handler.value.body)
  }

  /** No break or continue skips the final throw, or every path that does not throw has rolled back. */
  predicate KeepsItsWord(body: Node) {
    (AlwaysThrows(body) && !JumpsOut(body)) || EndsOrThrows(body)
  }

  /**
   * ThrowIsReached: no break or continue skips a handler's final throw, unless the transaction has ended by then.
   * RollbackIsReached: a handler that rolls back and need not throw does one of the two on every path.
   * FinalizerStays: no finalizer ends abruptly, except by throwing.
   * RollbackComesFirst: inside what a swallowing handler guards, handlers roll back before anything that can throw.
   */
  datatype Promise = ThrowIsReached | RollbackIsReached | FinalizerStays | RollbackComesFirst

  predicate HandlerKeeps(pr: Promise, guarded: Node, body: Node) {
    match pr
    case ThrowIsReached => Leaks(guarded) && AlwaysThrows(body) ==> KeepsItsWord(body)
    case RollbackIsReached => Leaks(guarded) && RollsBack(body) && !AlwaysThrows(body) ==> EndsOrThrows(body)
    case FinalizerStays => true
    case RollbackComesFirst => BodyMaySwallow(body) ==> RollsBackAtOnce(guarded)
  }

  predicate KeptHere(pr: Promise, n: Node) {
    && (n.Try? && n.handler.Some? ==> HandlerKeeps(pr, n.block, n.handler.value.body))
    && (n.Try? && n.finalizer.Some? && pr.FinalizerStays? ==> CannotLeave(n.finalizer.value))
    && (IsCatchCall(n) ==>
          if n.arguments != [] && n.arguments[0].Function?
          then HandlerKeeps(pr, n.callee.receiver, n.arguments[0].body)
          else pr.RollbackComesFirst? ==> RollsBackAtOnce(n.callee.receiver))
  }

  predicate Kept(pr: Promise, n: Node)
    decreases Size(n)
  {
    KidsAreSmaller(n);
    KeptHere(pr, n) && AllKept(pr, Kids(n))
  }

  predicate AllKept(pr: Promise, ns: seq<Node>)
    decreases SizeAll(ns)
  {
    ns == [] || (Kept(pr, ns[0]) && AllKept(pr, ns[1..]))
  }

  /** What the analyser takes for granted about every part of the tree. */
  predicate Disciplined(n: Node) {
    forall pr :: Kept(pr, n)
  }

  /** The analyser reports nothing, and what it takes for granted holds. */
  predicate Accepted(n: Node) {
    Swallows(n) == [] && Disciplined(n)
  }

  lemma AcceptedKid(n: Node, k: Node)
    requires Accepted(n) && k in Kids(n)
    ensures Accepted(k)
  {
    SilentMember(Kids(n), k);
    forall pr ensures Kept(pr, k) {
      assert Kept(pr, n);
      KeptMember(pr, Kids(n), k);
    }
  }

  lemma SilentMember(ns: seq<Node>, k: Node)
    requires SwallowsInAll(ns) == [] && k in ns
    ensures Swallows(k) == []
  {
    hide Swallows;
    if ns[0] != k { SilentMember(ns[1..], k); }
  }

  lemma KeptMember(pr: Promise, ns: seq<Node>, k: Node)
    requires AllKept(pr, ns) && k in ns
    ensures Kept(pr, k)
  {
    hide Kept;
    if ns[0] != k { KeptMember(pr, ns[1..], k); }
  }

  lemma NothingAt(n: Node)
    requires Accepted(n)
    ensures FindingsAt(n) == [] && forall pr :: KeptHere(pr, n)
  {
    forall pr ensures KeptHere(pr, n) { assert Kept(pr, n); }
  }

  // ---------- the search misses nothing ----------

  lemma FirstIsSome(n: Node)
    requires RollsBackFirst(n)
    ensures RollsBack(n)
    decreases Size(n)
  {
    KidsAreSmaller(n);
    if IsPlainRollback(n) {
    } else if n.If? && IsOpenTest(n.test) && RollsBackFirst(n.consequent) {
      KidIsSmaller(n, n.consequent);
      FirstIsSome(n.consequent);
      assert Kids(n)[1] == n.consequent;
      RollsBackMember(Kids(n), n.consequent);
    } else {
      KidIsSmaller(n, Kids(n)[0]);
      FirstIsSome(Kids(n)[0]);
    }
  }

  lemma RollsBackMember(ns: seq<Node>, k: Node)
    requires k in ns && RollsBack(k)
    ensures AnyRollsBack(ns)
  {
    if ns[0] != k { RollsBackMember(ns[1..], k); }
  }

  lemma AtOnceMember(ns: seq<Node>, k: Node)
    requires AllRollBackAtOnce(ns) && k in ns
    ensures RollsBackAtOnce(k)
  {
    if ns[0] != k { AtOnceMember(ns[1..], k); }
  }

  lemma SomeLeaks(ns: seq<Node>) returns (k: Node)
    requires AnyLeaks(ns)
    ensures k in ns && Leaks(k)
  {
    k := ns[0];
    if !Leaks(k) { k := SomeLeaks(ns[1..]); }
  }

  lemma CallsOfMember(ns: seq<Node>, k: Node)
    requires k in ns && HasCalls(k)
    ensures CallsInAll(ns) != []
  {
    if ns[0] != k { CallsOfMember(ns[1..], k); }
  }

  lemma SomeHasCalls(ns: seq<Node>) returns (k: Node)
    requires CallsInAll(ns) != []
    ensures k in ns && HasCalls(k)
  {
    k := ns[0];
    if !HasCalls(k) { k := SomeHasCalls(ns[1..]); }
  }

  lemma OpenKidsAreKids(n: Node, k: Node)
    requires k in OpenKids(n)
    ensures k in Kids(n) && k in LeakyKids(n)
  {
    hide RollsBack, RollsBackFirst, Size, SizeAll;
    if OwnsItsFailures(n) {
      if RollsBackFirst(n.handler.value.body) { assert LeakyKids(n) == OpenKids(n); }
      assert Kids(n) == [n.block] + (HandlerBody(n.handler) + Listed(n.finalizer));
    } else {
      if n.Try? && n.handler.Some? && RollsBackFirst(n.handler.value.body) { FirstIsSome(n.handler.value.body); }
      if IsBoundary(n) {
        KeepMembers(n.arguments, k);
        assert Kids(n) == [n.callee] + n.arguments;
      }
    }
  }

  lemma KeepMembers(ns: seq<Node>, k: Node)
    ensures k in Keep(ns, NotAFunction) ==> k in ns
  {
    KeepMember(ns, NotAFunction, k);
  }

  /** A child that leaks is one that the search goes into. */
  lemma LeakyKidsAreOpen(n: Node, k: Node)
    requires RollsBackAtOnceHere(n) && k in LeakyKids(n) && Leaks(k)
    ensures k in OpenKids(n)
  {
    hide RollsBack, RollsBackFirst, Size, SizeAll, Leaks;
    if OwnsItsFailures(n) {
      if !RollsBackFirst(n.handler.value.body) {
        assert Kids(n) == [n.block] + (HandlerBody(n.handler) + Listed(n.finalizer));
      }
    } else if n.Try? && n.handler.Some? && RollsBackFirst(n.handler.value.body) {
      FirstIsSome(n.handler.value.body);
      assert false;
    }
  }

  /** Where handlers roll back at once, the search finds a call if and only if a failed statement can leak. */
  lemma {:induction false} SearchMissesNothing(n: Node)
    requires RollsBackAtOnce(n)
    ensures Leaks(n) <==> HasCalls(n)
    decreases Size(n)
  {
    hide RollsBack, RollsBackFirst, OpenKids, LeakyKids, IsStatement, PassesTransaction;
    KidsAreSmaller(n);
    StatementsAreFound(n);
    if !IsStatement(n) {
      if Leaks(n) {
        var k := SomeLeaks(LeakyKids(n));
        LeakyKidsAreOpen(n, k);
        OpenKidsAreKids(n, k);
        AtOnceMember(Kids(n), k);
        KidIsSmaller(n, k);
        SearchMissesNothing(k);
        CallsOfMember(OpenKids(n), k);
      }
      if HasCalls(n) {
        var k := SomeHasCalls(OpenKids(n));
        OpenKidsAreKids(n, k);
        AtOnceMember(Kids(n), k);
        KidIsSmaller(n, k);
        SearchMissesNothing(k);
        AnyLeaksMember(LeakyKids(n), k);
      }
    }
  }

  // ---------- where poison can come from ----------

  lemma AnyLeaksMember(ns: seq<Node>, k: Node)
    requires k in ns && Leaks(k)
    ensures AnyLeaks(ns)
  {
    if ns[0] != k { AnyLeaksMember(ns[1..], k); }
  }

  lemma LeaksUp(n: Node, k: Node)
    requires k in LeakyKids(n)
    ensures Leaks(k) ==> Leaks(n)
  {
    if Leaks(k) { AnyLeaksMember(LeakyKids(n), k); }
  }

  /**
   * Nothing was lost, and poison that was not there before only comes with an exception and from a call that can
   * leak it.
   */
  predicate Contained(leaks: bool, st: State, o: Outcome) {
    o.Done? ==>
      && o.st.lost == st.lost
      && (st.tx != Poisoned && o.st.tx == Poisoned ==> o.how == Thrown && leaks)
  }

  lemma {:induction false} ContainedRun(n: Node, st: State, ch: seq<nat>)
    requires Accepted(n)
    ensures Contained(Leaks(n), st, Run(n, st, ch))
    decreases |ch|, Size(n), 4, 0
  {
    hide Accepted, Leaks, LeakyKids, RunIf, RunLoop, RunTry, RunCatchCall, RunCall;
    KidsAreSmaller(n);
    if !n.Call? && !n.Try? { OthersAreCovered(n); }
    match n
    case If(_, _, _) => ContainedIf(n, st, ch);
    case Loop(_, _) => ContainedLoop(n, st, ch);
    case Call(_, _, _) => if IsCatchCall(n) { ContainedCatchCall(n, st, ch); } else { ContainedCall(n, st, ch); }
    case Try(_, _, _) => ContainedTry(n, st, ch);
    case Function(_) =>
    case Throw(error) => ContainedKid(n, error, st, ch);
    case _ => ContainedKids(n, Kids(n), st, ch);
  }

  /** A child a failure can come out of, or one that does nothing when it is evaluated. */
  predicate Covered(n: Node, k: Node) {
    k in Kids(n) && (k in LeakyKids(n) || k.Function?)
  }

  lemma OthersAreCovered(n: Node)
    requires !n.Call? && !n.Try?
    ensures forall k :: k in Kids(n) ==> Covered(n, k)
  {
  }

  lemma StatementsLeak(n: Node)
    requires IsStatement(n)
    ensures Leaks(n)
  {
  }

  lemma {:induction false} ContainedKid(n: Node, k: Node, st: State, ch: seq<nat>)
    requires Accepted(n) && Covered(n, k)
    ensures Contained(Leaks(n), st, Run(k, st, ch))
    decreases |ch|, Size(n), 0, 0
  {
    hide Accepted, Leaks;
    if !k.Function? {
      AcceptedKid(n, k);
      KidIsSmaller(n, k);
      ContainedRun(k, st, ch);
      LeaksUp(n, k);
    }
  }

  lemma {:induction false} ContainedKids(n: Node, ns: seq<Node>, st: State, ch: seq<nat>)
    requires Accepted(n) && forall k :: k in ns ==> Covered(n, k)
    ensures Contained(Leaks(n), st, RunAll(ns, st, ch))
    decreases |ch|, Size(n), 1, |ns|
  {
    hide Accepted, Leaks;
    if ns != [] {
      ContainedKid(n, ns[0], st, ch);
      var o := Run(ns[0], st, ch);
      if o.Done? && o.how == Normal { ContainedKids(n, ns[1..], o.st, o.rest); }
    }
  }

  lemma {:induction false} ContainedIf(n: Node, st: State, ch: seq<nat>)
    requires n.If? && Accepted(n)
    ensures Contained(Leaks(n), st, RunIf(n, st, ch))
    decreases |ch|, Size(n), 3, 0
  {
    hide Accepted, Leaks;
    assert Kids(n)[0] == n.test;
    if IsOpenTest(n.test) {
      ContainedBranch(n, st.tx != Ended, st, ch);
    } else {
      ContainedKid(n, n.test, st, ch);
      var o := Run(n.test, st, ch);
      if o.Done? && o.how == Normal && o.rest != [] { ContainedBranch(n, o.rest[0] == 0, o.st, o.rest[1..]); }
    }
  }

  lemma {:induction false} ContainedBranch(n: Node, holds: bool, st: State, ch: seq<nat>)
    requires n.If? && Accepted(n)
    ensures Contained(Leaks(n), st, RunBranch(n, holds, st, ch))
    decreases |ch|, Size(n), 2, 0
  {
    hide Accepted, Leaks;
    if holds || n.alternate.Some? {
      var k := if holds then n.consequent else n.alternate.value;
      assert k in Kids(n) by { assert Kids(n)[1] == n.consequent; if !holds { assert Kids(n)[2] == k; } }
      ContainedKid(n, k, st, ch);
      RunAllOfOne(k, st, ch);
    }
  }

  lemma {:induction false} ContainedLoop(n: Node, st: State, ch: seq<nat>)
    requires n.Loop? && Accepted(n)
    ensures Contained(Leaks(n), st, RunLoop(n.head, n.body, st, ch))
    decreases |ch|, Size(n), 3, 0
  {
    hide Accepted, Leaks;
    assert Kids(n)[0] == n.head && Kids(n)[1] == n.body;
    ContainedKid(n, n.head, st, ch);
    var h := Run(n.head, st, ch);
    if h.Done? && h.how == Normal && h.rest != [] && h.rest[0] != 0 {
      ContainedKid(n, n.body, h.st, h.rest[1..]);
      var b := Run(n.body, h.st, h.rest[1..]);
      if b.Done? && (b.how == Normal || b.how == Continued) { ContainedLoop(n, b.st, b.rest); }
    }
  }

  lemma KeptWord(body: Node, st: State, ch: seq<nat>)
    requires KeepsItsWord(body)
    ensures var o := Run(body, st, ch); o.Done? ==> o.how == Thrown || o.st.tx == Ended
  {
    if EndsOrThrows(body) {
      EndsOrThrowsIsRight(body, st, ch);
    } else {
      AlwaysThrowsIsRight(body, st, ch);
      Explained(body, st, ch);
    }
  }

  lemma ReportOfSome(calls: seq<Node>, line: nat, kind: Kind)
    requires forall c :: c in calls ==> c.Call?
    ensures calls != [] ==> Report(calls, line, kind) != []
  {
  }

  /** A silent analyser and kept promises: a handler around something that leaks keeps its word. */
  lemma HandlerIsSafe(guarded: Node, body: Node, line: nat, kind: Kind)
    requires forall pr :: HandlerKeeps(pr, guarded, body)
    requires forall c :: c in CallsIn(guarded) ==> c.Call?
    requires BodyMaySwallow(body) ==> Report(CallsIn(guarded), line, kind) == []
    ensures Leaks(guarded) ==> !BodyMaySwallow(body) && KeepsItsWord(body)
  {
    hide Leaks, RollsBack, RollsBackAtOnce, AlwaysThrows, EndsOrThrows, JumpsOut;
    assert HandlerKeeps(ThrowIsReached, guarded, body) && HandlerKeeps(RollbackIsReached, guarded, body);
    if Leaks(guarded) && BodyMaySwallow(body) {
      assert HandlerKeeps(RollbackComesFirst, guarded, body);
      SearchMissesNothing(guarded);
      ReportOfSome(CallsIn(guarded), line, kind);
      assert false;
    }
  }

  lemma AcceptedTry(n: Node)
    requires n.Try? && n.handler.Some? && Accepted(n)
    ensures Leaks(n.block) ==> KeepsItsWord(n.handler.value.body)
  {
    hide Accepted, Leaks, KeepsItsWord, BodyMaySwallow, HandlerKeeps;
    NothingAt(n);
    FoundAreCalls(n.block);
    forall pr ensures HandlerKeeps(pr, n.block, n.handler.value.body) { assert KeptHere(pr, n); }
    HandlerIsSafe(n.block, n.handler.value.body, n.handler.value.line, TrySwallows);
  }

  lemma AcceptedCatchCall(n: Node)
    requires IsCatchCall(n) && Accepted(n)
    ensures Leaks(n.callee.receiver) ==> !ArgumentsMaySwallow(n.arguments) && KeepsItsWord(n.arguments[0].body)
  {
    hide Accepted, Leaks, KeepsItsWord, BodyMaySwallow, HandlerKeeps, RollsBackAtOnce;
    NothingAt(n);
    FoundAreCalls(n.callee.receiver);
    var promise := n.callee.receiver;
    if n.arguments != [] && n.arguments[0].Function? {
      forall pr ensures HandlerKeeps(pr, promise, n.arguments[0].body) { assert KeptHere(pr, n); }
      HandlerIsSafe(promise, n.arguments[0].body, n.callee.line, CatchSwallows);
    } else if Leaks(promise) {
      assert KeptHere(RollbackComesFirst, n);
      SearchMissesNothing(promise);
      ReportOfSome(CallsIn(promise), n.callee.line, CatchSwallows);
      assert false;
    }
  }

  lemma {:induction false} ContainedTry(n: Node, st: State, ch: seq<nat>)
    requires n.Try? && Accepted(n)
    ensures Contained(Leaks(n), st, RunTry(n, st, ch))
    decreases |ch|, Size(n), 3, 0
  {
    hide Accepted, Leaks;
    ContainedGuarded(n, st, ch);
    var o := RunGuarded(n, st, ch);
    if o.Done? && n.finalizer.Some? {
      var last := n.finalizer.value;
      assert Covered(n, last) by {
        assert Kids(n)[|Kids(n)| - 1] == last;
        assert LeakyKids(n)[|LeakyKids(n)| - 1] == last;
      }
      NothingAt(n);
      assert KeptHere(FinalizerStays, n);
      ContainedKid(n, last, o.st, o.rest);
      Explained(last, o.st, o.rest);
    }
  }

  lemma {:induction false} ContainedGuarded(n: Node, st: State, ch: seq<nat>)
    requires n.Try? && Accepted(n)
    ensures Contained(Leaks(n), st, RunGuarded(n, st, ch))
    decreases |ch|, Size(n), 2, 0
  {
    hide Accepted, Leaks;
    assert Kids(n)[0] == n.block;
    KidIsSmaller(n, n.block);
    AcceptedKid(n, n.block);
    ContainedRun(n.block, st, ch);
    if n.handler.None? || !RollsBackFirst(n.handler.value.body) { LeaksUp(n, n.block); }
    var b := Run(n.block, st, ch);
    if b.Done? && b.how == Thrown && n.handler.Some? {
      var body := n.handler.value.body;
      assert Covered(n, body) by {
        assert Kids(n)[1] == body;
        if RollsBackFirst(body) { assert LeakyKids(n)[0] == body; }
      }
      ContainedKid(n, body, b.st, b.rest);
      AcceptedTry(n);
      if KeepsItsWord(body) { KeptWord(body, b.st, b.rest); }
      if RollsBackFirst(body) { RollbackFirstEnds(body, b.st, b.rest); }
    }
  }

  lemma {:induction false} ContainedPromise(n: Node, st: State, ch: seq<nat>)
    requires IsCatchCall(n) && Accepted(n)
    ensures Contained(Leaks(n.callee.receiver), st, Run(n.callee.receiver, st, ch))
    ensures Leaks(n.callee.receiver) ==> Leaks(n)
    decreases |ch|, Size(n), 0, 0
  {
    hide Accepted, Leaks;
    var promise := n.callee.receiver;
    assert Kids(n)[0] == n.callee;
    KidIsSmaller(n, n.callee);
    KidIsSmaller(n.callee, promise);
    AcceptedKid(n, n.callee);
    AcceptedKid(n.callee, promise);
    ContainedRun(promise, st, ch);
    LeaksUp(n.callee, promise);
    LeaksUp(n, n.callee);
  }

  lemma {:induction false} ContainedCatchCall(n: Node, st: State, ch: seq<nat>)
    requires IsCatchCall(n) && Accepted(n)
    ensures Contained(Leaks(n), st, RunCatchCall(n, st, ch))
    decreases |ch|, Size(n), 3, 0
  {
    hide Accepted, Leaks;
    ContainedPromise(n, st, ch);
    var p := Run(n.callee.receiver, st, ch);
    if p.Done? && (p.how == Normal || p.how == Thrown) {
      assert Kids(n)[1..] == n.arguments;
      EvaluatedKidsAreCovered(n);
      ContainedKids(n, n.arguments, p.st, p.rest);
      var a := RunAll(n.arguments, p.st, p.rest);
      if a.Done? && a.how == Normal && p.how == Thrown { ContainedRejected(n, st, a.st, a.rest); }
    }
  }

  lemma {:induction false} ContainedRejected(n: Node, before: State, st: State, ch: seq<nat>)
    requires IsCatchCall(n) && Accepted(n)
    requires st.lost == before.lost
    requires before.tx != Poisoned && st.tx == Poisoned ==> Leaks(n.callee.receiver) && Leaks(n)
    ensures Contained(Leaks(n), before, RunRejected(n.arguments, st, ch))
    decreases |ch|, Size(n), 2, 0
  {
    hide Accepted, Leaks;
    AcceptedCatchCall(n);
    if n.arguments != [] && n.arguments[0].Function? {
      var f := n.arguments[0];
      assert Kids(n)[1] == f;
      ContainedBody(n, f, st, ch);
      if KeepsItsWord(f.body) { KeptWord(f.body, st, ch); }
    }
  }

  lemma {:induction false} ContainedBody(n: Node, f: Node, st: State, ch: seq<nat>)
    requires n.Call? && Accepted(n) && f in Kids(n) && f.Function?
    ensures Contained(IsBoundary(n) || Leaks(n), st, RunBody(f, st, ch))
    ensures Contained(IsBoundary(n) || Leaks(n), st, Run(f.body, st, ch))
    decreases |ch|, Size(n), 0, 0
  {
    hide Accepted, Leaks;
    AcceptedKid(n, f);
    assert Kids(f) == [f.body];
    AcceptedKid(f, f.body);
    KidIsSmaller(n, f);
    KidIsSmaller(f, f.body);
    ContainedRun(f.body, st, ch);
    LeaksUp(f, f.body);
    if !IsBoundary(n) { LeaksUp(n, f); }
  }

  lemma {:induction false} ContainedCall(n: Node, st: State, ch: seq<nat>)
    requires n.Call? && !IsCatchCall(n) && Accepted(n)
    ensures Contained(Leaks(n), st, RunCall(n, st, ch))
    decreases |ch|, Size(n), 3, 0
  {
    hide Accepted, Leaks;
    EvaluatedKidsAreCovered(n);
    ContainedKids(n, Kids(n), st, ch);
    var o := RunAll(Kids(n), st, ch);
    if o.Done? && o.how == Normal && !IsCallTo(n, "rollback") {
      var s := if IsStatement(n) then Statement(o.st, o.rest) else o;
      if IsStatement(n) { StatementsLeak(n); }
      if s.Done? && s.how == Normal {
        if IsBoundary(n) {
          ContainedBoundary(n, s.st, s.rest);
        } else {
          forall f | f in Callbacks(Kids(n)) ensures f in Kids(n) { KeepMember(Kids(n), IsFunction, f); }
          ContainedCallbacks(n, Callbacks(Kids(n)), s.st, s.rest);
        }
      }
    }
  }

  lemma EvaluatedKidsAreCovered(n: Node)
    requires n.Call?
    ensures forall k :: k in Kids(n) ==> Covered(n, k)
  {
    forall k | k in Kids(n) ensures Covered(n, k) {
      if IsBoundary(n) { KeepMember(n.arguments, NotAFunction, k); }
    }
  }

  /** Whatever happens inside a boundary, the transaction around it is no worse for it. */
  lemma {:induction false} ContainedBoundary(n: Node, st: State, ch: seq<nat>)
    requires n.Call? && Accepted(n) && IsBoundary(n)
    ensures Contained(false, st, RunTransaction(n, st, ch))
    ensures Contained(false, st, RunSavepoint(n, st, ch))
    decreases |ch|, Size(n), 2, 0
  {
    hide Accepted, Leaks;
    assert Kids(n)[1..] == n.arguments;
    forall f | f in Callbacks(n.arguments) ensures f in Kids(n) { KeepMember(n.arguments, IsFunction, f); }
    ContainedCallbacks(n, Callbacks(n.arguments), st, ch);
    ContainedCallbacks(n, Callbacks(n.arguments), st.(tx := Clean), ch);
  }

  lemma {:induction false} ContainedCallbacks(n: Node, fs: seq<Node>, st: State, ch: seq<nat>)
    requires n.Call? && Accepted(n) && forall f :: f in fs ==> f in Kids(n)
    ensures Contained(IsBoundary(n) || Leaks(n), st, RunCallbacks(fs, st, ch))
    decreases |ch|, Size(n), 1, 0
  {
    hide Accepted, Leaks;
    if ch != [] && ch[0] < |fs| {
      var f := fs[ch[0]];
      if f.Function? { ContainedBody(n, f, st, ch[1..]); }
      var o := RunBody(f, st, ch[1..]);
      if o.Done? && o.how == Normal { ContainedCallbacks(n, fs, o.st, o.rest); }
    }
  }

  // ---------- the theorem ----------

  /**
   * Analyser soundness: when nothing is reported, no run that starts on a clean transaction commits a poisoned one
   * anywhere, and a run that does not throw leaves the transaction unpoisoned.
   */
  lemma Soundness(ast: Node, ch: seq<nat>)
    requires Accepted(ast)
    ensures var o := Run(ast, START, ch);
            o.Done? ==> !o.st.lost && (o.how != Thrown ==> o.st.tx != Poisoned)
  {
    ContainedRun(ast, START, ch);
  }
}
