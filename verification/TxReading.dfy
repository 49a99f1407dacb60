/** What the analyser reports, read off the tree itself: paths, names and marks, none of its own predicates. */
module TxReading {
  import opened Wrappers
  import opened TxAst
  import opened TxAnalyser
  import opened TxSemantics
  import opened TxReach
  import opened TxReport

  // ---------- the tree ----------

  /** Every node that a node holds is one of its children, in the order in which it holds them. */
  lemma FieldsAreKids(n: Node)
    ensures n.Composite? ==> Kids(n) == n.parts
    ensures n.Object? ==> Kids(n) == n.properties
    ensures n.Property? ==> |Kids(n)| == 2 && Kids(n)[0] == n.key && Kids(n)[1] == n.value
    ensures n.Member? ==> |Kids(n)| == 2 && Kids(n)[0] == n.receiver && Kids(n)[1] == n.property
    ensures n.Call? ==> Kids(n) != [] && Kids(n)[0] == n.callee && Kids(n)[1..] == n.arguments
    ensures n.Not? ==> Kids(n) == [n.operand]
    ensures n.Function? ==> Kids(n) == [n.body]
    ensures n.Throw? ==> Kids(n) == [n.error]
    ensures n.Return? && n.argument.Some? ==> Kids(n) == [n.argument.value]
    ensures n.Block? ==> Kids(n) == n.statements
    ensures n.If? ==> |Kids(n)| >= 2 && Kids(n)[0] == n.test && Kids(n)[1] == n.consequent
    ensures n.If? && n.alternate.Some? ==> |Kids(n)| == 3 && Kids(n)[2] == n.alternate.value
    ensures n.Loop? ==> |Kids(n)| == 2 && Kids(n)[0] == n.head && Kids(n)[1] == n.body
    ensures n.Try? ==> Kids(n) != [] && Kids(n)[0] == n.block
    ensures n.Try? && n.handler.Some? ==> |Kids(n)| >= 2 && Kids(n)[1] == n.handler.value.body
    ensures n.Try? && n.finalizer.Some? ==> |Kids(n)| >= 2 && Kids(n)[|Kids(n)| - 1] == n.finalizer.value
  {
  }

  /** `name(...)` or `....name(...)` */
  predicate CallsNamed(n: Node, name: string) {
    n.Call? && (n.callee == Ident(name)
                || (n.callee.Member? && !n.callee.computed && n.callee.property == Ident(name)))
  }

  lemma NamesAreRead(n: Node, name: string)
    ensures IsCallTo(n, name) <==> CallsNamed(n, name)
  {
  }

  /** Somewhere in it `rollback` is called. */
  ghost predicate HasRollback(n: Node) {
    exists p :: IsPath(n, p) && CallsNamed(At(n, p), "rollback")
  }

  /** A return that is in no function of its own. */
  ghost predicate ReturnsAt(n: Node, p: Path) {
    IsPath(n, p) && At(n, p).Return? && forall k :: 0 <= k < |p| ==> IsPath(n, p[..k]) && !At(n, p[..k]).Function?
  }

  /** The last statement is a throw and no statement before it returns. */
  ghost predicate EndsInThrow(body: Node) {
    body.Throw?
    || (body.Block? && body.statements != [] && body.statements[|body.statements| - 1].Throw?
        && forall k, p :: 0 <= k < |body.statements| - 1 ==> !ReturnsAt(body.statements[k], p))
  }

  ghost predicate Tolerates(body: Node) {
    !EndsInThrow(body) && !HasRollback(body)
  }

  lemma PathBelow(n: Node, i: nat, p: Path)
    requires i < |Kids(n)| && IsPath(Kids(n)[i], p)
    ensures IsPath(n, [i] + p) && At(n, [i] + p) == At(Kids(n)[i], p)
  {
    assert ([i] + p)[1..] == p;
  }

  lemma SomeRollsBack(ns: seq<Node>) returns (i: nat)
    requires AnyRollsBack(ns)
    ensures i < |ns| && RollsBack(ns[i])
  {
    hide RollsBack;
    i := 0;
    if !RollsBack(ns[0]) {
      var j := SomeRollsBack(ns[1..]);
      i := j + 1;
    }
  }

  lemma OneRollsBack(ns: seq<Node>, i: nat)
    requires i < |ns| && RollsBack(ns[i])
    ensures AnyRollsBack(ns)
  {
    hide RollsBack;
    if i > 0 { OneRollsBack(ns[1..], i - 1); }
  }

  lemma {:induction false} RollbackPath(n: Node) returns (p: Path)
    requires RollsBack(n)
    ensures IsPath(n, p) && CallsNamed(At(n, p), "rollback")
    decreases Size(n)
  {
    hide CallsNamed;
    if IsCallTo(n, "rollback") {
      NamesAreRead(n, "rollback");
      p := [];
    } else {
      var i := SomeRollsBack(Kids(n));
      KidIsSmaller(n, Kids(n)[i]);
      var q := RollbackPath(Kids(n)[i]);
      PathBelow(n, i, q);
      p := [i] + q;
    }
  }

  lemma {:induction false} RollbackAtPath(n: Node, p: Path)
    requires IsPath(n, p) && CallsNamed(At(n, p), "rollback")
    ensures RollsBack(n)
    decreases |p|
  {
    if p == [] {
      NamesAreRead(n, "rollback");
    } else {
      RollbackAtPath(Kids(n)[p[0]], p[1..]);
      OneRollsBack(Kids(n), p[0]);
    }
  }

  /** `rollsBack` finds a call of rollback wherever in the node it is. */
  lemma RollbackIsFound(n: Node)
    ensures RollsBack(n) <==> HasRollback(n)
  {
    if RollsBack(n) {
      var p := RollbackPath(n);
    }
    if HasRollback(n) {
      var p :| IsPath(n, p) && CallsNamed(At(n, p), "rollback");
      RollbackAtPath(n, p);
    }
  }

  lemma SomeReturns(ns: seq<Node>) returns (i: nat)
    requires AnyContainsReturn(ns)
    ensures i < |ns| && ContainsReturn(ns[i])
  {
    hide ContainsReturn;
    i := 0;
    if !ContainsReturn(ns[0]) {
      var j := SomeReturns(ns[1..]);
      i := j + 1;
    }
  }

  lemma OneReturns(ns: seq<Node>, i: nat)
    requires i < |ns| && ContainsReturn(ns[i])
    ensures AnyContainsReturn(ns)
  {
    hide ContainsReturn;
    if i > 0 { OneReturns(ns[1..], i - 1); }
  }

  lemma ReturnsBelow(n: Node, i: nat, p: Path)
    requires i < |Kids(n)|
    ensures ReturnsAt(n, [i] + p) <==> !n.Function? && ReturnsAt(Kids(n)[i], p)
  {
    var q, k := [i] + p, Kids(n)[i];
    assert q[1..] == p;
    forall m | 0 <= m < |p| ensures q[..m + 1][1..] == p[..m] { }
    if ReturnsAt(n, q) {
      assert q[..0] == [];
      forall m | 0 <= m < |p| ensures IsPath(k, p[..m]) && !At(k, p[..m]).Function? {
        assert IsPath(n, q[..m + 1]) && !At(n, q[..m + 1]).Function?;
      }
    }
    if !n.Function? && ReturnsAt(k, p) {
      forall m | 0 <= m < |q| ensures IsPath(n, q[..m]) && !At(n, q[..m]).Function? {
        if m == 0 {
          assert q[..0] == [];
        } else {
          assert IsPath(k, p[..m - 1]) && !At(k, p[..m - 1]).Function?;
          assert q[..m][1..] == p[..m - 1];
        }
      }
    }
  }

  lemma {:induction false} ReturnPath(n: Node) returns (p: Path)
    requires ContainsReturn(n)
    ensures ReturnsAt(n, p)
    decreases Size(n)
  {
    hide ReturnsAt;
    if n.Return? {
      p := [];
      assert ReturnsAt(n, []) by { ReturnsHere(n); }
    } else {
      var i := SomeReturns(Kids(n));
      KidIsSmaller(n, Kids(n)[i]);
      var q := ReturnPath(Kids(n)[i]);
      ReturnsBelow(n, i, q);
      p := [i] + q;
    }
  }

  lemma ReturnsHere(n: Node)
    ensures ReturnsAt(n, []) <==> n.Return?
  {
  }

  lemma {:induction false} ReturnAtPath(n: Node, p: Path)
    requires ReturnsAt(n, p)
    ensures ContainsReturn(n)
    decreases |p|
  {
    if p == [] {
      ReturnsHere(n);
    } else {
      assert IsPath(n, p);
      assert p == [p[0]] + p[1..];
      hide ReturnsAt;
      ReturnsBelow(n, p[0], p[1..]);
      ReturnAtPath(Kids(n)[p[0]], p[1..]);
      OneReturns(Kids(n), p[0]);
    }
  }

  /** `alwaysThrows` means what it says of the statements. */
  lemma ThrowIsFound(body: Node)
    ensures AlwaysThrows(body) <==> EndsInThrow(body)
  {
    hide ReturnsAt, ContainsReturn;
    if body.Block? && body.statements != [] && body.statements[|body.statements| - 1].Throw? {
      var before := body.statements[..|body.statements| - 1];
      if AnyContainsReturn(before) {
        var i := SomeReturns(before);
        var p := ReturnPath(before[i]);
        assert ReturnsAt(body.statements[i], p);
      } else {
        forall k, p | 0 <= k < |before| ensures !ReturnsAt(body.statements[k], p) {
          if ReturnsAt(before[k], p) {
            ReturnAtPath(before[k], p);
            OneReturns(before, k);
          }
        }
      }
    }
  }

  // ---------- the way to a call ----------

  /** The step from `m` to its child `i` enters a boundary's callback or the block of a try whose handler rolls back. */
  ghost predicate IsWalled(m: Node, i: nat)
    requires i < |Kids(m)|
  {
    || ((CallsNamed(m, "withSavepoint") || CallsNamed(m, "transaction")) && i > 0 && Kids(m)[i].Function?)
    || (m.Try? && m.handler.Some? && HasRollback(m.handler.value.body) && i == 0)
  }

  /** No step of the way is walled off. */
  ghost predicate IsOpenWay(n: Node, p: Path) {
    IsPath(n, p) && forall k :: 0 <= k < |p| ==> IsOpenStep(n, p, k)
  }

  ghost predicate IsOpenStep(n: Node, p: Path, k: nat)
    requires k < |p|
  {
    IsPath(n, p[..k]) && p[k] < |Kids(At(n, p[..k]))| && !IsWalled(At(n, p[..k]), p[k])
  }

  lemma WallsAreCrossed(m: Node, i: nat)
    requires i < |Kids(m)|
    ensures Crosses(m, i) <==> IsWalled(m, i)
  {
    NamesAreRead(m, "withSavepoint");
    NamesAreRead(m, "transaction");
    if m.Try? && m.handler.Some? { RollbackIsFound(m.handler.value.body); }
  }

  lemma LaterStep(n: Node, p: Path, k: nat)
    requires 0 < k < |p| && p[0] < |Kids(n)|
    ensures IsOpenStep(n, p, k) <==> IsOpenStep(Kids(n)[p[0]], p[1..], k - 1)
  {
    hide IsWalled;
    assert p[..k][1..] == p[1..][..k - 1] && p[..k][0] == p[0];
  }

  lemma OpenWayStep(n: Node, p: Path)
    requires p != [] && p[0] < |Kids(n)|
    ensures IsOpenWay(n, p) <==> !IsWalled(n, p[0]) && IsOpenWay(Kids(n)[p[0]], p[1..])
  {
    hide IsWalled;
    var kid, rest := Kids(n)[p[0]], p[1..];
    assert IsOpenStep(n, p, 0) <==> !IsWalled(n, p[0]) by { assert p[..0] == []; }
    assert IsPath(n, p) <==> IsPath(kid, rest);
    forall k | 0 < k < |p| ensures IsOpenStep(n, p, k) <==> IsOpenStep(kid, rest, k - 1) { LaterStep(n, p, k); }
    hide IsOpenStep, IsPath;
    if IsOpenWay(n, p) {
      forall k | 0 <= k < |rest| ensures IsOpenStep(kid, rest, k) { assert IsOpenStep(n, p, k + 1); }
    }
  }

  lemma {:induction false} OpenIsOpenWay(n: Node, p: Path)
    requires IsPath(n, p)
    ensures IsOpen(n, p) <==> IsOpenWay(n, p)
    decreases |p|
  {
    hide IsWalled, Crosses;
    if p != [] {
      WallsAreCrossed(n, p[0]);
      OpenIsOpenWay(Kids(n)[p[0]], p[1..]);
      hide IsOpenWay;
      OpenWayStep(n, p);
    }
  }

  // ---------- what is due ----------

  /** `n` has a handler that tolerates failures of `guarded`: a `.catch`, or a try statement's catch clause. */
  ghost predicate Guards(n: Node, guarded: Node, line: nat, kind: Kind) {
    || (n.Call? && n.callee.Member? && !n.callee.computed && n.callee.property == Ident("catch")
        && guarded == n.callee.receiver && line == n.callee.line && kind == CatchSwallows
        && (n.arguments == [] || !n.arguments[0].Function? || Tolerates(n.arguments[0].body)))
    || (n.Try? && n.handler.Some? && guarded == n.block && line == n.handler.value.line && kind == TrySwallows
        && Tolerates(n.handler.value.body))
  }

  /** The finding is for this call. */
  predicate IsFor(f: Finding, c: Node) {
    && c.Call? && f.callLine == c.line
    && forall name :: name in NamesOf(f, c) ==> (f.call == Some(name) <==> CallsNamed(c, name))
  }

  /** The names that could be meant. */
  function NamesOf(f: Finding, c: Node): seq<string>
    requires c.Call?
  {
    (if f.call.Some? then [f.call.value] else [])
    + (if c.callee.Ident? then [c.callee.name]
       else if c.callee.Member? && c.callee.property.Ident? then [c.callee.property.name] else [])
  }

  /** At `p` a handler tolerates failures of something from which an open way `q` leads to a statement. */
  ghost predicate DueAt(ast: Node, p: Path, guarded: Node, q: Path, f: Finding) {
    && IsPath(ast, p) && Guards(At(ast, p), guarded, f.line, f.kind)
    && IsOpenWay(guarded, q) && IsStatement(At(guarded, q)) && IsFor(f, At(guarded, q))
  }

  ghost predicate IsDue(ast: Node, f: Finding) {
    exists p, guarded, q :: DueAt(ast, p, guarded, q, f)
  }

  lemma NameIsRead(c: Node, line: nat, kind: Kind, f: Finding)
    requires c.Call?
    ensures f.line == line && f.kind == kind && IsFor(f, c) <==> f == Finding(line, kind, CalleeName(c), c.line)
  {
    if IsFor(f, c) {
      assert f.call.Some? ==> f.call.value in NamesOf(f, c);
      assert c.callee.Ident? ==> c.callee.name in NamesOf(f, c);
      assert c.callee.Member? && c.callee.property.Ident? ==> c.callee.property.name in NamesOf(f, c);
    }
  }

  lemma {:induction false} ReportMembers(calls: seq<Node>, line: nat, kind: Kind, f: Finding)
    requires forall c :: c in calls ==> c.Call?
    ensures f in Report(calls, line, kind) <==> f.line == line && f.kind == kind && exists c :: c in calls && IsFor(f, c)
  {
    hide IsFor;
    if calls != [] {
      var c := calls[0];
      ReportMembers(calls[1..], line, kind, f);
      NameIsRead(c, line, kind, f);
      assert c in calls;
      assert forall d :: d in calls <==> d == c || d in calls[1..];
    }
  }

  lemma CallIsFound(g: Node, q: Path)
    requires IsOpenWay(g, q) && IsStatement(At(g, q))
    ensures At(g, q) in CallsIn(g)
  {
    OpenIsOpenWay(g, q);
    StatementsAreFound(At(g, q));
    assert Reaches(g, q);
    hide IsOpenWay, IsStatement, PassesTransaction, IsOpen, CallsIn, FoundPaths;
    ExactReachability(g);
    var ps := FoundPaths(g);
    var i :| 0 <= i < |ps| && ps[i] == q;
    assert NodesAt(g, ps)[i] == At(g, q);
  }

  lemma CallComesFrom(g: Node, c: Node) returns (q: Path)
    requires c in CallsIn(g)
    ensures IsOpenWay(g, q) && IsStatement(At(g, q)) && At(g, q) == c
  {
    hide IsStatement, PassesTransaction, IsOpen, CallsIn, FoundPaths;
    ExactReachability(g);
    var ps := FoundPaths(g);
    var i :| 0 <= i < |ps| && NodesAt(g, ps)[i] == c;
    q := ps[i];
    assert q in ps && Reaches(g, q);
    OpenIsOpenWay(g, q);
    StatementsAreFound(c);
  }

  lemma ToleratesIsFound(body: Node)
    ensures BodyMaySwallow(body) <==> Tolerates(body)
  {
    RollbackIsFound(body);
    ThrowIsFound(body);
  }

  lemma GuardReports(n: Node, guarded: Node, f: Finding)
    requires Guards(n, guarded, f.line, f.kind)
    ensures f in FindingsAt(n) <==> exists c :: c in CallsIn(guarded) && IsFor(f, c)
  {
    hide CallsIn, BodyMaySwallow, Tolerates, IsFor, Report;
    if n.Call? {
      if n.arguments != [] && n.arguments[0].Function? { ToleratesIsFound(n.arguments[0].body); }
    } else {
      ToleratesIsFound(n.handler.value.body);
    }
    FoundAreCalls(guarded);
    ReportMembers(CallsIn(guarded), f.line, f.kind, f);
  }

  lemma ReportsAreGuarded(n: Node, f: Finding) returns (guarded: Node)
    requires f in FindingsAt(n)
    ensures Guards(n, guarded, f.line, f.kind)
  {
    hide CallsIn, BodyMaySwallow, Tolerates, IsFor, Report;
    if IsCatchCall(n) && ArgumentsMaySwallow(n.arguments) {
      guarded := n.callee.receiver;
      if n.arguments != [] && n.arguments[0].Function? { ToleratesIsFound(n.arguments[0].body); }
      FoundAreCalls(guarded);
      ReportMembers(CallsIn(guarded), n.callee.line, CatchSwallows, f);
    } else {
      guarded := n.block;
      ToleratesIsFound(n.handler.value.body);
      FoundAreCalls(guarded);
      ReportMembers(CallsIn(guarded), n.handler.value.line, TrySwallows, f);
    }
  }

  lemma SomeSwallows(ns: seq<Node>, f: Finding) returns (i: nat)
    requires f in SwallowsInAll(ns)
    ensures i < |ns| && f in Swallows(ns[i])
  {
    hide Swallows;
    i := 0;
    if f !in Swallows(ns[0]) {
      var j := SomeSwallows(ns[1..], f);
      i := j + 1;
    }
  }

  lemma OneSwallows(ns: seq<Node>, i: nat, f: Finding)
    requires i < |ns| && f in Swallows(ns[i])
    ensures f in SwallowsInAll(ns)
  {
    hide Swallows;
    if i > 0 { OneSwallows(ns[1..], i - 1, f); }
  }

  lemma {:induction false} FindingPath(n: Node, f: Finding) returns (p: Path)
    requires f in Swallows(n)
    ensures IsPath(n, p) && f in FindingsAt(At(n, p))
    decreases Size(n)
  {
    hide FindingsAt;
    if f in FindingsAt(n) {
      p := [];
    } else {
      var i := SomeSwallows(Kids(n), f);
      KidIsSmaller(n, Kids(n)[i]);
      var q := FindingPath(Kids(n)[i], f);
      PathBelow(n, i, q);
      p := [i] + q;
    }
  }

  lemma {:induction false} FindingAtPath(n: Node, p: Path, f: Finding)
    requires IsPath(n, p) && f in FindingsAt(At(n, p))
    ensures f in Swallows(n)
    decreases |p|
  {
    hide FindingsAt;
    if p != [] {
      FindingAtPath(Kids(n)[p[0]], p[1..], f);
      OneSwallows(Kids(n), p[0], f);
    }
  }

  /**
   * What is found, marks and repeats aside: a finding for each tolerating handler anywhere in the tree and each statement
   * to which an open way leads from what the handler guards.
   */
  lemma FoundIfDue(ast: Node, f: Finding)
    ensures f in Swallows(ast) <==> IsDue(ast, f)
  {
    hide Swallows, FindingsAt, Guards, IsOpenWay, IsStatement, IsFor, CallsIn;
    if f in Swallows(ast) {
      var p := FindingPath(ast, f);
      var guarded := ReportsAreGuarded(At(ast, p), f);
      GuardReports(At(ast, p), guarded, f);
      var c :| c in CallsIn(guarded) && IsFor(f, c);
      var q := CallComesFrom(guarded, c);
      DueHere(ast, p, guarded, q, f);
    }
    if IsDue(ast, f) {
      var p, guarded, q :| DueAt(ast, p, guarded, q, f);
      FoundHere(ast, p, guarded, q, f);
    }
  }

  lemma DueHere(ast: Node, p: Path, guarded: Node, q: Path, f: Finding)
    requires IsPath(ast, p) && Guards(At(ast, p), guarded, f.line, f.kind)
    requires IsOpenWay(guarded, q) && IsStatement(At(guarded, q)) && IsFor(f, At(guarded, q))
    ensures IsDue(ast, f)
  {
    assert DueAt(ast, p, guarded, q, f);
  }

  lemma FoundHere(ast: Node, p: Path, guarded: Node, q: Path, f: Finding)
    requires DueAt(ast, p, guarded, q, f)
    ensures f in Swallows(ast)
  {
    assert IsPath(guarded, q);
    CallIsFound(guarded, q);
    hide Swallows, FindingsAt, Guards, IsOpenWay, IsStatement, IsFor, CallsIn;
    GuardReports(At(ast, p), guarded, f);
    FindingAtPath(ast, p, f);
  }

  // ---------- what is reported ----------

  /** A `tx-safe:` comment stands on the handler's line or on one of the two above it; `marked[0]` is line 1. */
  predicate IsMarked(marked: seq<bool>, line: nat) {
    (1 <= line <= |marked| && marked[line - 1])
    || (1 <= line - 1 <= |marked| && marked[line - 2])
    || (1 <= line - 2 <= |marked| && marked[line - 3])
  }

  lemma MarksAreRead(marked: seq<bool>, line: nat)
    ensures Acknowledged(marked, line) <==> IsMarked(marked, line)
  {
    if IsMarked(marked, line) {
      var k := if 1 <= line <= |marked| && marked[line - 1] then line - 1
               else if 1 <= line - 1 <= |marked| && marked[line - 2] then line - 2 else line - 3;
      assert marked[k] && line - 2 <= k + 1 <= line;
    }
  }

  lemma UnacknowledgedMembers(fs: seq<Finding>, marked: seq<bool>, f: Finding)
    ensures f in Unacknowledged(fs, marked) <==> f in fs && !Acknowledged(marked, f.line)
  {
    hide Acknowledged;
    if fs != [] { UnacknowledgedMembers(fs[1..], marked, f); }
  }

  lemma ListedIfDue(ast: Node, marked: seq<bool>, f: Finding)
    ensures f in Unacknowledged(Swallows(ast), marked) <==> IsDue(ast, f) && !IsMarked(marked, f.line)
  {
    hide IsDue, Swallows, IsMarked, Unacknowledged;
    UnacknowledgedMembers(Swallows(ast), marked, f);
    MarksAreRead(marked, f.line);
    FoundIfDue(ast, f);
  }

  lemma ReportedIsDue(ast: Node, marked: seq<bool>, f: Finding)
    requires f in Reported(ast, marked)
    ensures IsDue(ast, f) && !IsMarked(marked, f.line)
  {
    hide IsDue, Swallows, IsMarked, Unacknowledged, FirstPerKey;
    OnePerKey(Unacknowledged(Swallows(ast), marked), {});
    ListedIfDue(ast, marked, f);
  }

  lemma DueIsReported(ast: Node, marked: seq<bool>, f: Finding) returns (g: Finding)
    requires IsDue(ast, f) && !IsMarked(marked, f.line)
    ensures g in Reported(ast, marked) && g.line == f.line && g.callLine == f.callLine
  {
    hide IsDue, Swallows, IsMarked, Unacknowledged, FirstPerKey;
    ListedIfDue(ast, marked, f);
    var fs := Unacknowledged(Swallows(ast), marked);
    var k :| 0 <= k < |fs| && fs[k] == f;
    g := FirstOfKey(fs, k);
  }

  lemma ReportedOnce(ast: Node, marked: seq<bool>, i: nat, j: nat)
    requires i < j < |Reported(ast, marked)|
    ensures var r := Reported(ast, marked); r[i].line != r[j].line || r[i].callLine != r[j].callLine
  {
    hide Swallows, Unacknowledged, FirstPerKey;
    OnePerKey(Unacknowledged(Swallows(ast), marked), {});
    var r := Reported(ast, marked);
    assert KeyOf(r[i]) != KeyOf(r[j]);
  }

  /** A finding with the same handler line and call line is in the report. */
  predicate IsListed(r: seq<Finding>, f: Finding) {
    exists g :: g in r && g.line == f.line && g.callLine == f.callLine
  }

  lemma Lists(r: seq<Finding>, f: Finding, g: Finding)
    requires g in r && g.line == f.line && g.callLine == f.callLine
    ensures IsListed(r, f)
  {
  }

  /** Everything reported is due and unmarked, and whatever is due and unmarked is reported, by its two lines, once. */
  lemma ReportedIfDue(ast: Node, marked: seq<bool>)
    ensures var r := Reported(ast, marked);
            && (forall f :: f in r ==> IsDue(ast, f) && !IsMarked(marked, f.line))
            && (forall f :: IsDue(ast, f) && !IsMarked(marked, f.line) ==> IsListed(r, f))
            && (forall i, j :: 0 <= i < j < |r| ==> r[i].line != r[j].line || r[i].callLine != r[j].callLine)
  {
    hide IsDue, IsMarked, Reported, IsListed;
    var r := Reported(ast, marked);
    forall f | f in r ensures IsDue(ast, f) && !IsMarked(marked, f.line) { ReportedIsDue(ast, marked, f); }
    forall f | IsDue(ast, f) && !IsMarked(marked, f.line)
      ensures IsListed(r, f)
    {
      var g := DueIsReported(ast, marked, f);
      Lists(r, f, g);
    }
    forall i, j | 0 <= i < j < |r| ensures r[i].line != r[j].line || r[i].callLine != r[j].callLine {
      ReportedOnce(ast, marked, i, j);
    }
  }

  /** Two statements on different lines under one handler make two findings. */
  lemma TwoCallsTwoFindings(ast: Node, marked: seq<bool>, f: Finding, g: Finding) returns (i: nat, j: nat)
    requires IsDue(ast, f) && IsDue(ast, g) && f.line == g.line && f.callLine != g.callLine && !IsMarked(marked, f.line)
    ensures var r := Reported(ast, marked);
            && i < |r| && j < |r| && i != j
            && r[i].line == f.line && r[i].callLine == f.callLine && r[j].line == g.line && r[j].callLine == g.callLine
  {
    hide IsDue, IsMarked, Reported;
    var r := Reported(ast, marked);
    var a := DueIsReported(ast, marked, f);
    var b := DueIsReported(ast, marked, g);
    i :| 0 <= i < |r| && r[i] == a;
    j :| 0 <= j < |r| && r[j] == b;
  }

  lemma FirstOfKey(fs: seq<Finding>, k: nat) returns (g: Finding)
    requires k < |fs|
    ensures g in FirstPerKey(fs, {}) && g.line == fs[k].line && g.callLine == fs[k].callLine
  {
    var i := k;
    while exists j :: 0 <= j < i && KeyOf(fs[j]) == KeyOf(fs[i])
      invariant 0 <= i <= k && KeyOf(fs[i]) == KeyOf(fs[k])
      decreases i
    {
      var j :| 0 <= j < i && KeyOf(fs[j]) == KeyOf(fs[i]);
      i := j;
    }
    OnePerKey(fs, {});
    g := fs[i];
  }

  // ---------- their order ----------

  /** The findings of one node, wherever it is, stand together. */
  lemma {:induction false} FindingsTogether(n: Node, p: Path) returns (pre: seq<Finding>, post: seq<Finding>)
    requires IsPath(n, p)
    ensures Swallows(n) == pre + FindingsAt(At(n, p)) + post
    decreases |p|
  {
    hide FindingsAt;
    if p == [] {
      pre, post := [], SwallowsInAll(Kids(n));
      assert [] + FindingsAt(n) == FindingsAt(n);
    } else {
      var a, z := FindingsTogether(Kids(n)[p[0]], p[1..]);
      var before, after := KidTogether(Kids(n), p[0]);
      pre, post := FindingsAt(n) + (before + a), z + after;
      Regroup(FindingsAt(n), before, a, FindingsAt(At(n, p)), z, after);
    }
  }

  lemma Regroup<T>(h: seq<T>, before: seq<T>, a: seq<T>, x: seq<T>, z: seq<T>, after: seq<T>)
    ensures h + (before + (a + x + z) + after) == h + (before + a) + x + (z + after)
  {
  }

  lemma RegroupFirst<T>(x: seq<T>, before: seq<T>, a: seq<T>, y: seq<T>, z: seq<T>, after: seq<T>)
    ensures x + (before + (a + y + z) + after) == [] + x + (before + a) + y + (z + after)
  {
  }

  lemma RegroupBoth<T>(h: seq<T>, before: seq<T>, a: seq<T>, x: seq<T>, m: seq<T>, y: seq<T>, z: seq<T>, after: seq<T>)
    ensures h + (before + (a + x + m + y + z) + after) == h + (before + a) + x + m + y + (z + after)
  {
  }

  lemma RegroupApart<T>(h: seq<T>, before: seq<T>, a: seq<T>, x: seq<T>, z: seq<T>, between: seq<T>, b: seq<T>, y: seq<T>,
                        c: seq<T>, after: seq<T>)
    ensures h + (before + (a + x + z) + (between + (b + y + c) + after)) ==
            h + (before + a) + x + (z + (between + b)) + y + (c + after)
  {
  }

  lemma KidTogether(ns: seq<Node>, i: nat) returns (before: seq<Finding>, after: seq<Finding>)
    requires i < |ns|
    ensures before == SwallowsInAll(ns[..i])
    ensures SwallowsInAll(ns) == before + Swallows(ns[i]) + after && after == SwallowsInAll(ns[i + 1..])
  {
    hide Swallows;
    before, after := SwallowsInAll(ns[..i]), SwallowsInAll(ns[i + 1..]);
    SwallowsInAllOfConcat(ns[..i], ns[i..]);
    assert ns == ns[..i] + ns[i..] && ns[i..][0] == ns[i] && ns[i..][1..] == ns[i + 1..];
  }

  /** Handlers met earlier in a walk of the tree have their findings earlier. */
  lemma {:induction false} FindingsInWalkOrder(n: Node, p: Path, q: Path)
      returns (pre: seq<Finding>, mid: seq<Finding>, post: seq<Finding>)
    requires IsPath(n, p) && IsPath(n, q) && Before(p, q)
    ensures Swallows(n) == pre + FindingsAt(At(n, p)) + mid + FindingsAt(At(n, q)) + post
    decreases |p|
  {
    hide FindingsAt;
    var ks := Kids(n);
    var x, y := FindingsAt(At(n, p)), FindingsAt(At(n, q));
    if p == [] {
      var qa, qz := FindingsTogether(ks[q[0]], q[1..]);
      var before, after := KidTogether(ks, q[0]);
      pre, mid, post := [], before + qa, qz + after;
      RegroupFirst(x, before, qa, y, qz, after);
    } else if p[0] == q[0] {
      var a, m, z := FindingsInWalkOrder(ks[p[0]], p[1..], q[1..]);
      var before, after := KidTogether(ks, p[0]);
      pre, mid, post := FindingsAt(n) + (before + a), m, z + after;
      RegroupBoth(FindingsAt(n), before, a, x, m, y, z, after);
    } else {
      pre, mid, post := SiblingsInOrder(n, p, q);
    }
  }

  lemma SiblingsInOrder(n: Node, p: Path, q: Path) returns (pre: seq<Finding>, mid: seq<Finding>, post: seq<Finding>)
    requires IsPath(n, p) && IsPath(n, q) && p != [] && q != [] && p[0] < q[0]
    ensures Swallows(n) == pre + FindingsAt(At(n, p)) + mid + FindingsAt(At(n, q)) + post
  {
    var ks, here, x, y := Kids(n), FindingsAt(n), FindingsAt(At(n, p)), FindingsAt(At(n, q));
    assert Swallows(n) == here + SwallowsInAll(ks);
    hide FindingsAt, Swallows, SwallowsInAll;
    var kp, kq := ks[p[0]], ks[q[0]];
    assert IsPath(kp, p[1..]) && At(n, p) == At(kp, p[1..]) && IsPath(kq, q[1..]) && At(n, q) == At(kq, q[1..]);
    hide At, IsPath, Kids;
    var a, z := FindingsTogether(kp, p[1..]);
    var b, c := FindingsTogether(kq, q[1..]);
    var before, between, after := TwoKids(ks, p[0], q[0]);
    pre, mid, post := here + (before + a), z + (between + b), c + after;
    RegroupApart(here, before, a, x, z, between, b, y, c, after);
  }

  lemma TwoKids(ns: seq<Node>, i: nat, j: nat) returns (before: seq<Finding>, between: seq<Finding>, after: seq<Finding>)
    requires i < j < |ns|
    ensures SwallowsInAll(ns) == before + Swallows(ns[i]) + (between + Swallows(ns[j]) + after)
  {
    hide Swallows;
    var later, rest := ns[i + 1..], [];
    before, rest := KidTogether(ns, i);
    between, after := KidTogether(later, j - i - 1);
    assert later[j - i - 1] == ns[j];
  }

  // ---------- the plain case ----------

  /** `try { call } catch {}` */
  function PlainTry(call: Node, h: nat): Node {
    Try(Block([call]), Some(Catch(Block([]), h)), None)
  }

  /** Nothing in it is itself a call or a try statement. */
  ghost predicate IsPlain(call: Node) {
    && call.Call? && !CallsNamed(call, "catch")
    && forall p :: p != [] && IsPath(call, p) ==> !At(call, p).Call? && !At(call, p).Try?
  }

  /** Below a plain call in a block there is no other call, and no try statement. */
  lemma PlainBelow(call: Node, p: Path)
    requires IsPlain(call) && IsPath(Block([call]), p)
    ensures var n := At(Block([call]), p); n.Call? || n.Try? ==> p == [0] && n == call
  {
    if p != [] {
      assert p[0] == 0 && Kids(Block([call]))[0] == call;
      var rest := p[1..];
      assert IsPath(call, rest) && At(Block([call]), p) == At(call, rest);
      if rest == [] { assert p == [0]; }
    }
  }

  lemma PlainTryBelow(call: Node, h: nat, p: Path)
    requires IsPlain(call) && IsPath(PlainTry(call, h), p)
    ensures var n := At(PlainTry(call, h), p); n.Call? || n.Try? ==> p == [] || n == call
  {
    var ast := PlainTry(call, h);
    assert Kids(ast) == [Block([call]), Block([])];
    if p != [] {
      if p[0] == 0 {
        PlainBelow(call, p[1..]);
      } else {
        assert Kids(Block([])) == [] && p[1..] == [];
      }
    }
  }

  lemma DueInPlainTry(call: Node, h: nat, f: Finding)
    requires IsPlain(call) && IsDue(PlainTry(call, h), f)
    ensures f.line == h && f.callLine == call.line
  {
    hide IsOpenWay, Tolerates, IsStatement;
    var ast := PlainTry(call, h);
    var p, guarded, q :| DueAt(ast, p, guarded, q, f);
    PlainTryBelow(call, h, p);
    WayIsPath(guarded, q);
    StatementIsCall(At(guarded, q));
    PlainBelow(call, q);
  }

  lemma WayIsPath(g: Node, q: Path)
    requires IsOpenWay(g, q)
    ensures IsPath(g, q)
  {
  }

  lemma StatementIsCall(n: Node)
    requires IsStatement(n)
    ensures n.Call?
  {
  }

  lemma NothingIsTolerant()
    ensures Tolerates(Block([]))
  {
    assert Kids(Block([])) == [];
  }

  lemma PlainTryIsDue(call: Node, h: nat)
    requires IsPlain(call) && IsStatement(call)
    ensures exists f :: IsDue(PlainTry(call, h), f) && f.line == h && f.callLine == call.line
  {
    var ast, guarded := PlainTry(call, h), Block([call]);
    var f := Finding(h, TrySwallows, CalleeName(call), call.line);
    NothingIsTolerant();
    NameIsRead(call, h, TrySwallows, f);
    assert IsPath(ast, []) && At(ast, []) == ast;
    assert [0][1..] == [] && [0][..0] == [];
    assert IsPath(guarded, [0]) && At(guarded, [0]) == call;
    assert IsOpenStep(guarded, [0], 0);
    assert IsOpenWay(guarded, [0]);
    hide IsStatement, IsOpenWay, Tolerates;
    DueHere(ast, [], guarded, [0], f);
  }

  /**
   * `try { call } catch {}` around a plain statement, whatever its name and wherever its option stands, gives exactly the
   * one finding, unless the handler's line or one of the two above it is marked.
   */
  lemma PlainTryIsReported(call: Node, h: nat, marked: seq<bool>)
    requires IsPlain(call) && IsStatement(call)
    ensures var r := Reported(PlainTry(call, h), marked);
            if IsMarked(marked, h) then r == [] else |r| == 1 && r[0].line == h && r[0].callLine == call.line
  {
    assert call.Call?;
    hide IsDue, IsMarked, IsStatement, IsPlain, Reported;
    var ast := PlainTry(call, h);
    var r := Reported(ast, marked);
    forall g | g in r ensures g.line == h && g.callLine == call.line && !IsMarked(marked, h) {
      ReportedIsDue(ast, marked, g);
      DueInPlainTry(call, h, g);
    }
    if !IsMarked(marked, h) {
      PlainTryIsDue(call, h);
      var f :| IsDue(ast, f) && f.line == h && f.callLine == call.line;
      var g := DueIsReported(ast, marked, f);
    }
    if |r| > 1 {
      assert r[0] in r && r[1] in r;
      ReportedOnce(ast, marked, 0, 1);
      assert false;
    }
    assert r != [] ==> r[0] in r;
  }
}
