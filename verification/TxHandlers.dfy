/** How nodes complete, and what the handlers the analyser accepts really do. */
module TxHandlers {
  import opened Wrappers
  import opened TxAst
  import opened TxAnalyser
  import opened TxSemantics

  // ---------- what the analyser takes for granted ----------

  /** A break or continue that leaves `n`. */
  predicate JumpsOut(n: Node)
    decreases Size(n)
  {
    KidsAreSmaller(n);
    n.Break? || n.Continue?
    || (if n.Loop? then KidIsSmaller(n, n.head); JumpsOut(n.head) else !n.Function? && AnyJumpsOut(Kids(n)))
  }

  predicate AnyJumpsOut(ns: seq<Node>)
    decreases SizeAll(ns)
  {
    ns != [] && (JumpsOut(ns[0]) || AnyJumpsOut(ns[1..]))
  }

  /** `transaction.rollback()` on a plain variable. */
  predicate IsPlainRollback(n: Node) {
    IsCallTo(n, "rollback") && n.arguments == [] && (n.callee.Ident? || n.callee.receiver.Ident?)
  }

  /** The first thing `n` does is roll the transaction back, unless it is over already. */
  predicate RollsBackFirst(n: Node)
    decreases Size(n)
  {
    IsPlainRollback(n)
    || (n.If? && IsOpenTest(n.test) && (KidIsSmaller(n, n.consequent); RollsBackFirst(n.consequent)))
    || ((n.Composite? || n.Block? || n.Member? || n.Call? || n.Try?) && Kids(n) != []
        && (KidIsSmaller(n, Kids(n)[0]); RollsBackFirst(Kids(n)[0])))
  }

  predicate CannotLeave(n: Node) {
    !JumpsOut(n) && !ContainsReturn(n)
  }

  /** Every way through `n` throws or has rolled the transaction back. */
  predicate EndsOrThrows(n: Node)
    decreases Size(n), 0
  {
    KidsAreSmaller(n);
    RollsBackFirst(n) || n.Throw?
    || (n.Block? && EndsOrThrowsAll(n.statements))
    || (n.If? && CannotLeave(n.test) && n.alternate.Some?
        && EndsOrThrows(n.consequent) && EndsOrThrows(n.alternate.value))
  }

  predicate EndsOrThrowsAll(ns: seq<Node>)
    decreases SizeAll(ns), 0
  {
    ns != [] && (EndsOrThrows(ns[0]) || (LeavesEnded(ns[0]) && EndsOrThrowsAll(ns[1..])))
  }

  /** Every return, break or continue that leaves `n` has rolled the transaction back. */
  predicate LeavesEnded(n: Node)
    decreases Size(n), 1
  {
    KidsAreSmaller(n);
    CannotLeave(n) || EndsOrThrows(n)
    || (n.Block? && LeavesEndedAll(n.statements))
    || (n.If? && CannotLeave(n.test) && LeavesEnded(n.consequent)
        && (n.alternate.Some? ==> LeavesEnded(n.alternate.value)))
  }

  predicate LeavesEndedAll(ns: seq<Node>)
    decreases SizeAll(ns), 0
  {
    ns == [] || (LeavesEnded(ns[0]) && LeavesEndedAll(ns[1..]))
  }

  // ---------- which completions a node can have ----------

  /** A run can end this way only if `n` holds a statement that does. */
  predicate Explains(n: Node, how: Completion) {
    (how == Broke || how == Continued ==> JumpsOut(n)) && (how == Returned ==> ContainsReturn(n))
  }

  predicate AnyExplains(ns: seq<Node>, how: Completion) {
    (how == Broke || how == Continued ==> AnyJumpsOut(ns)) && (how == Returned ==> AnyContainsReturn(ns))
  }

  /** A transaction that has been rolled back is over for good. */
  predicate StaysEnded(before: State, after: State) {
    before.tx == Ended ==> after.tx == Ended
  }

  lemma AnyFromMember(ns: seq<Node>, k: Node, how: Completion)
    requires k in ns && Explains(k, how)
    ensures AnyExplains(ns, how)
  {
    if ns[0] != k { AnyFromMember(ns[1..], k, how); }
  }

  lemma FromKid(n: Node, k: Node, how: Completion)
    requires k in Kids(n) && !n.Loop? && !n.Function? && Explains(k, how)
    ensures Explains(n, how)
  {
    AnyFromMember(Kids(n), k, how);
  }

  lemma RunAllOfOne(n: Node, st: State, ch: seq<nat>)
    ensures RunAll([n], st, ch) == Run(n, st, ch)
  {
  }

  lemma {:induction false} Explained(n: Node, st: State, ch: seq<nat>)
    ensures var o := Run(n, st, ch); o.Done? ==> Explains(n, o.how) && StaysEnded(st, o.st)
    decreases |ch|, Size(n), 1
  {
    KidsAreSmaller(n);
    match n
    case Composite(parts) => ExplainedAll(parts, st, ch);
    case Object(properties) => ExplainedAll(properties, st, ch);
    case Property(_, _, _) => ExplainedAll(Kids(n), st, ch);
    case Member(_, _, _, _) => ExplainedAll(Kids(n), st, ch);
    case Not(_) => ExplainedAll(Kids(n), st, ch);
    case Block(statements) => ExplainedAll(statements, st, ch);
    case Return(argument) => ExplainedAll(Listed(argument), st, ch);
    case Throw(error) =>
      KidIsSmaller(n, error);
      Explained(error, st, ch);
    case If(_, _, _) => ExplainedIf(n, st, ch);
    case Loop(head, body) => ExplainedLoop(n, st, ch);
    case Call(_, _, _) => if IsCatchCall(n) { ExplainedCatchCall(n, st, ch); } else { ExplainedCall(n, st, ch); }
    case Try(_, _, _) => ExplainedTry(n, st, ch);
    case _ =>
  }

  lemma {:induction false} ExplainedAll(ns: seq<Node>, st: State, ch: seq<nat>)
    ensures var o := RunAll(ns, st, ch); o.Done? ==> AnyExplains(ns, o.how) && StaysEnded(st, o.st)
    decreases |ch|, SizeAll(ns), 0
  {
    if ns != [] {
      Explained(ns[0], st, ch);
      var o := Run(ns[0], st, ch);
      if o.Done? && o.how == Normal { ExplainedAll(ns[1..], o.st, o.rest); }
    }
  }

  lemma {:induction false} ExplainedIf(n: Node, st: State, ch: seq<nat>)
    requires n.If?
    ensures var o := RunIf(n, st, ch); o.Done? ==> Explains(n, o.how) && StaysEnded(st, o.st)
    decreases |ch|, Size(n), 0
  {
    assert Kids(n)[0] == n.test;
    KidIsSmaller(n, n.test);
    if IsOpenTest(n.test) {
      ExplainedBranch(n, st.tx != Ended, st, ch);
    } else {
      Explained(n.test, st, ch);
      var o := Run(n.test, st, ch);
      if o.Done? {
        FromKid(n, n.test, o.how);
        if o.how == Normal && o.rest != [] { ExplainedBranch(n, o.rest[0] == 0, o.st, o.rest[1..]); }
      }
    }
  }

  lemma {:induction false} ExplainedBranch(n: Node, holds: bool, st: State, ch: seq<nat>)
    requires n.If?
    ensures var o := RunBranch(n, holds, st, ch); o.Done? ==> Explains(n, o.how) && StaysEnded(st, o.st)
    decreases |ch|, Size(n) - 1, 1
  {
    var ks := Kids(n);
    KidsAreSmaller(n);
    if holds || n.alternate.Some? {
      var k := if holds then n.consequent else n.alternate.value;
      assert k in ks by { assert ks[1] == n.consequent; if !holds { assert ks[2] == k; } }
      Explained(k, st, ch);
      RunAllOfOne(k, st, ch);
      var o := Run(k, st, ch);
      if o.Done? { FromKid(n, k, o.how); }
    }
  }

  lemma {:induction false} ExplainedLoop(n: Node, st: State, ch: seq<nat>)
    requires n.Loop?
    ensures var o := RunLoop(n.head, n.body, st, ch); o.Done? ==> Explains(n, o.how) && StaysEnded(st, o.st)
    decreases |ch|, Size(n), 0
  {
    KidIsSmaller(n, n.head);
    Explained(n.head, st, ch);
    var h := Run(n.head, st, ch);
    if h.Done? {
      AnyFromMember(Kids(n), n.head, h.how);
      if h.how == Normal && h.rest != [] && h.rest[0] != 0 {
        Explained(n.body, h.st, h.rest[1..]);
        var b := Run(n.body, h.st, h.rest[1..]);
        if b.Done? {
          AnyFromMember(Kids(n), n.body, b.how);
          if b.how == Normal || b.how == Continued { ExplainedLoop(n, b.st, b.rest); }
        }
      }
    }
  }

  lemma {:induction false} ExplainedTry(n: Node, st: State, ch: seq<nat>)
    requires n.Try?
    ensures var o := RunTry(n, st, ch); o.Done? ==> Explains(n, o.how) && StaysEnded(st, o.st)
    decreases |ch|, Size(n), 0
  {
    hide JumpsOut, ContainsReturn;
    ExplainedGuarded(n, st, ch);
    var o := RunGuarded(n, st, ch);
    if o.Done? && n.finalizer.Some? {
      var last := n.finalizer.value;
      assert last in Kids(n) by { assert Kids(n)[|Kids(n)| - 1] == last; }
      KidIsSmaller(n, last);
      Explained(last, o.st, o.rest);
      var f := Run(last, o.st, o.rest);
      if f.Done? { FromKid(n, last, f.how); }
    }
  }

  lemma {:induction false} ExplainedGuarded(n: Node, st: State, ch: seq<nat>)
    requires n.Try?
    ensures var o := RunGuarded(n, st, ch); o.Done? ==> Explains(n, o.how) && StaysEnded(st, o.st)
    decreases |ch|, Size(n) - 1, 2
  {
    hide JumpsOut, ContainsReturn;
    var ks := Kids(n);
    assert ks[0] == n.block;
    KidIsSmaller(n, n.block);
    Explained(n.block, st, ch);
    var b := Run(n.block, st, ch);
    if b.Done? {
      FromKid(n, n.block, b.how);
      if b.how == Thrown && n.handler.Some? {
        var body := n.handler.value.body;
        assert ks[1] == body;
        KidIsSmaller(n, body);
        Explained(body, b.st, b.rest);
        var h := Run(body, b.st, b.rest);
        if h.Done? { FromKid(n, body, h.how); }
      }
    }
  }

  lemma {:induction false} ExplainedCatchCall(n: Node, st: State, ch: seq<nat>)
    requires IsCatchCall(n)
    ensures var o := RunCatchCall(n, st, ch); o.Done? ==> Explains(n, o.how) && StaysEnded(st, o.st)
    decreases |ch|, Size(n), 0
  {
    KidsAreSmaller(n);
    var promise := n.callee.receiver;
    KidIsSmaller(n, n.callee);
    KidIsSmaller(n.callee, promise);
    Explained(promise, st, ch);
    var p := Run(promise, st, ch);
    if p.Done? {
      FromKid(n.callee, promise, p.how);
      FromKid(n, n.callee, p.how);
      assert Kids(n)[1..] == n.arguments;
      ExplainedAll(n.arguments, p.st, p.rest);
      var a := RunAll(n.arguments, p.st, p.rest);
      if a.Done? { ExplainedRejected(n.arguments, a.st, a.rest); }
    }
  }

  lemma {:induction false} ExplainedRejected(arguments: seq<Node>, st: State, ch: seq<nat>)
    ensures var o := RunRejected(arguments, st, ch);
            o.Done? ==> (o.how == Normal || o.how == Thrown) && StaysEnded(st, o.st)
    decreases |ch|, SizeAll(arguments), 0
  {
    if arguments != [] && arguments[0].Function? {
      MemberIsSmaller(arguments, arguments[0]);
      Explained(arguments[0].body, st, ch);
    }
  }

  lemma {:induction false} ExplainedCall(n: Node, st: State, ch: seq<nat>)
    requires n.Call?
    ensures var o := RunCall(n, st, ch); o.Done? ==> Explains(n, o.how) && StaysEnded(st, o.st)
    decreases |ch|, Size(n), 0
  {
    KidsAreSmaller(n);
    ExplainedAll(Kids(n), st, ch);
    var o := RunAll(Kids(n), st, ch);
    if o.Done? && o.how == Normal && !IsCallTo(n, "rollback") {
      var s := if IsStatement(n) then Statement(o.st, o.rest) else o;
      if s.Done? && s.how == Normal {
        if IsBoundary(n) {
          assert SizeAll(n.arguments) < SizeAll(Kids(n)) by { assert Kids(n)[1..] == n.arguments; }
          ExplainedBoundary(n, s.st, s.rest);
        } else {
          CallbacksOnlyThrow(Callbacks(Kids(n)), s.st, s.rest);
        }
      }
    }
  }

  lemma {:induction false} ExplainedBoundary(n: Node, st: State, ch: seq<nat>)
    requires n.Call?
    ensures var o := RunTransaction(n, st, ch);
            o.Done? ==> (o.how == Normal || o.how == Thrown) && StaysEnded(st, o.st)
    ensures var o := RunSavepoint(n, st, ch);
            o.Done? ==> (o.how == Normal || o.how == Thrown) && StaysEnded(st, o.st)
    decreases |ch|, SizeAll(n.arguments) + 1, 0
  {
    CallbacksOnlyThrow(Callbacks(n.arguments), st, ch);
    CallbacksOnlyThrow(Callbacks(n.arguments), st.(tx := Clean), ch);
  }

  lemma CallbacksOnlyThrow(fs: seq<Node>, st: State, ch: seq<nat>)
    ensures var o := RunCallbacks(fs, st, ch); o.Done? ==> (o.how == Normal || o.how == Thrown) && StaysEnded(st, o.st)
    decreases |ch|, SizeAll(fs), 0
  {
    if ch != [] && ch[0] < |fs| {
      if fs[ch[0]].Function? { Explained(fs[ch[0]].body, st, ch[1..]); }
      var o := RunBody(fs[ch[0]], st, ch[1..]);
      if o.Done? && o.how == Normal { CallbacksOnlyThrow(fs, o.st, o.rest); }
    }
  }

  // ---------- what accepted handlers do ----------

  lemma RunAllOfConcat(a: seq<Node>, b: seq<Node>, st: State, ch: seq<nat>)
    ensures RunAll(a + b, st, ch) ==
            var o := RunAll(a, st, ch); if o.Done? && o.how == Normal then RunAll(b, o.st, o.rest) else o
    decreases |a|
  {
    if a == [] {
      assert a + b == b;
    } else {
      assert (a + b)[1..] == a[1..] + b;
      var o := Run(a[0], st, ch);
      if o.Done? && o.how == Normal { RunAllOfConcat(a[1..], b, o.st, o.rest); }
    }
  }

  /** Whatever nested ifs, tries and functions it holds, a body that always throws never completes or returns. */
  lemma AlwaysThrowsIsRight(body: Node, st: State, ch: seq<nat>)
    requires AlwaysThrows(body)
    ensures var o := Run(body, st, ch); o.Done? ==> o.how != Normal && o.how != Returned
  {
    if body.Block? {
      var before, last := body.statements[..|body.statements| - 1], body.statements[|body.statements| - 1];
      assert body.statements == before + [last];
      RunAllOfConcat(before, [last], st, ch);
      ExplainedAll(before, st, ch);
      var o := RunAll(before, st, ch);
      if o.Done? { RunAllOfOne(last, o.st, o.rest); }
    }
  }

  /** Nothing that fails after a leading rollback can bring the transaction back. */
  lemma {:induction false} RollbackFirstEnds(n: Node, st: State, ch: seq<nat>)
    requires RollsBackFirst(n)
    ensures var o := Run(n, st, ch); o.Done? ==> o.st.tx == Ended
    decreases Size(n)
  {
    KidsAreSmaller(n);
    if IsPlainRollback(n) {
      PlainRollbackEnds(n, st, ch);
    } else if n.If? {
      KidIsSmaller(n, n.consequent);
      RollbackFirstEnds(n.consequent, st, ch);
      Explained(n, st, ch);
      assert Run(n, st, ch) == RunIf(n, st, ch) == RunBranch(n, st.tx != Ended, st, ch);
    } else {
      var ks := Kids(n);
      var first := ks[0];
      KidIsSmaller(n, first);
      RollbackFirstEnds(first, st, ch);
      var o := Run(first, st, ch);
      if o.Done? { ExplainedAll(ks[1..], o.st, o.rest); }
      assert var a := RunAll(ks, st, ch); a.Done? ==> a.st.tx == Ended;
      if IsCatchCall(n) {
        RestOfCatchCall(n, st, ch);
      } else if n.Call? {
        RestOfCall(n, st, ch);
      } else if n.Try? {
        RestOfTry(n, st, ch);
      }
    }
  }

  lemma RestOfCatchCall(n: Node, st: State, ch: seq<nat>)
    requires IsCatchCall(n)
    requires var o := Run(n.callee, st, ch); o.Done? ==> o.st.tx == Ended
    ensures var o := RunCatchCall(n, st, ch); o.Done? ==> o.st.tx == Ended
  {
    var p := Run(n.callee.receiver, st, ch);
    assert Kids(n.callee)[1..] == [n.callee.property];
    if p.Done? {
      RunAllOfOne(n.callee.property, p.st, p.rest);
      ExplainedAll(n.arguments, p.st, p.rest);
      var a := RunAll(n.arguments, p.st, p.rest);
      if a.Done? { ExplainedRejected(n.arguments, a.st, a.rest); }
    }
  }

  lemma RestOfCall(n: Node, st: State, ch: seq<nat>)
    requires n.Call?
    requires var o := RunAll(Kids(n), st, ch); o.Done? ==> o.st.tx == Ended
    ensures var o := RunCall(n, st, ch); o.Done? ==> o.st.tx == Ended
  {
    var o := RunAll(Kids(n), st, ch);
    if o.Done? && o.how == Normal { CallbacksOnlyThrow(Callbacks(Kids(n)), o.st, o.rest); }
  }

  lemma RestOfTry(n: Node, st: State, ch: seq<nat>)
    requires n.Try?
    requires var o := Run(n.block, st, ch); o.Done? ==> o.st.tx == Ended
    ensures var o := RunTry(n, st, ch); o.Done? ==> o.st.tx == Ended
  {
    var b := Run(n.block, st, ch);
    if b.Done? && n.handler.Some? { Explained(n.handler.value.body, b.st, b.rest); }
    var o := RunGuarded(n, st, ch);
    if o.Done? && n.finalizer.Some? { Explained(n.finalizer.value, o.st, o.rest); }
  }

  /** Which branch of an if statement runs, and from where. */
  function Branching(n: Node, st: State, ch: seq<nat>): (bool, State, seq<nat>)
    requires n.If?
  {
    var o := Run(n.test, st, ch);
    if IsOpenTest(n.test) then (st.tx != Ended, st, ch)
    else if o.Done? && o.rest != [] then (o.rest[0] == 0, o.st, o.rest[1..])
    else (true, st, ch)
  }

  lemma {:induction false} EndsOrThrowsIsRight(n: Node, st: State, ch: seq<nat>)
    requires EndsOrThrows(n)
    ensures var o := Run(n, st, ch); o.Done? ==> o.how == Thrown || o.st.tx == Ended
    decreases Size(n), 0
  {
    KidsAreSmaller(n);
    if RollsBackFirst(n) {
      RollbackFirstEnds(n, st, ch);
    } else if n.Block? {
      EndsOrThrowsAllIsRight(n.statements, st, ch);
    } else if n.If? {
      Explained(n.test, st, ch);
      var (holds, at, rest) := Branching(n, st, ch);
      assert Run(n, st, ch) == RunIf(n, st, ch);
      var k := if holds then n.consequent else n.alternate.value;
      EndsOrThrowsIsRight(k, at, rest);
      RunAllOfOne(k, at, rest);
      assert RunBranch(n, holds, at, rest) == Run(k, at, rest);
    }
  }

  lemma {:induction false} EndsOrThrowsAllIsRight(ns: seq<Node>, st: State, ch: seq<nat>)
    requires EndsOrThrowsAll(ns)
    ensures var o := RunAll(ns, st, ch); o.Done? ==> o.how == Thrown || o.st.tx == Ended
    decreases SizeAll(ns), 0
  {
    var o := Run(ns[0], st, ch);
    if EndsOrThrows(ns[0]) {
      EndsOrThrowsIsRight(ns[0], st, ch);
      if o.Done? { ExplainedAll(ns[1..], o.st, o.rest); }
    } else {
      LeavesEndedIsRight(ns[0], st, ch);
      if o.Done? { EndsOrThrowsAllIsRight(ns[1..], o.st, o.rest); }
    }
  }

  lemma {:induction false} LeavesEndedIsRight(n: Node, st: State, ch: seq<nat>)
    requires LeavesEnded(n)
    ensures var o := Run(n, st, ch); o.Done? ==> o.how == Normal || o.how == Thrown || o.st.tx == Ended
    decreases Size(n), 1
  {
    KidsAreSmaller(n);
    if CannotLeave(n) {
      Explained(n, st, ch);
    } else if EndsOrThrows(n) {
      EndsOrThrowsIsRight(n, st, ch);
    } else if n.Block? {
      LeavesEndedAllIsRight(n.statements, st, ch);
    } else {
      Explained(n.test, st, ch);
      var (holds, at, rest) := Branching(n, st, ch);
      assert Run(n, st, ch) == RunIf(n, st, ch);
      if holds || n.alternate.Some? {
        var k := if holds then n.consequent else n.alternate.value;
        LeavesEndedIsRight(k, at, rest);
        RunAllOfOne(k, at, rest);
        assert RunBranch(n, holds, at, rest) == Run(k, at, rest);
      } else {
        assert RunBranch(n, holds, at, rest) == Done(Normal, at, rest);
      }
    }
  }

  lemma {:induction false} LeavesEndedAllIsRight(ns: seq<Node>, st: State, ch: seq<nat>)
    requires LeavesEndedAll(ns)
    ensures var o := RunAll(ns, st, ch); o.Done? ==> o.how == Normal || o.how == Thrown || o.st.tx == Ended
    decreases SizeAll(ns), 0
  {
    if ns != [] {
      LeavesEndedIsRight(ns[0], st, ch);
      var o := Run(ns[0], st, ch);
      if o.Done? { LeavesEndedAllIsRight(ns[1..], o.st, o.rest); }
    }
  }

  lemma PlainRollbackEnds(n: Node, st: State, ch: seq<nat>)
    requires IsPlainRollback(n)
    ensures var o := Run(n, st, ch); o.Done? ==> o.st.tx == Ended
  {
    assert Kids(n) == [n.callee];
    RunAllOfOne(n.callee, st, ch);
    if n.callee.Member? {
      assert Run(n.callee.receiver, st, ch) == Done(Normal, st, ch);
      assert Kids(n.callee)[1..] == [n.callee.property];
      RunAllOfOne(n.callee.property, st, ch);
      assert Run(n.callee, st, ch) == Done(Normal, st, ch);
    }
  }
}
