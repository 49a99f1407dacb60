/** The analyser as it runs: lists filled in place, then one finding kept for each (handler line, call line). */
module TxReport {
  import opened Wrappers
  import opened TxAst
  import opened TxAnalyser
  import opened TxReach
  import opened TxSemantics
  import opened TxSoundness

  /** A list that callers share and push onto. */
  class Sink<T> {
    var items: seq<T>

    constructor ()
      ensures items == []
    {
      items := [];
    }

    method Push(x: T)
      modifies this
      ensures items == old(items) + [x]
    {
      items := items + [x];
    }
  }

  lemma NextCalls(ns: seq<Node>, i: nat)
    requires i < |ns|
    ensures CallsInAll(ns[..i + 1]) == CallsInAll(ns[..i]) + CallsIn(ns[i])
  {
    assert ns[..i + 1] == ns[..i] + [ns[i]];
    CallsInAllOfConcat(ns[..i], [ns[i]]);
    assert CallsInAll([ns[i]]) == CallsIn(ns[i]) + CallsInAll([ns[i]][1..]);
  }

  lemma KeepOfConcat(a: seq<Node>, b: seq<Node>, f: Node -> bool)
    ensures Keep(a + b, f) == Keep(a, f) + Keep(b, f)
  {
    if a == [] {
      assert a + b == b;
    } else {
      assert (a + b)[1..] == a[1..] + b;
      KeepOfConcat(a[1..], b, f);
    }
  }

  lemma NextKeptCalls(ns: seq<Node>, i: nat)
    requires i < |ns|
    ensures CallsInAll(Keep(ns[..i + 1], NotAFunction)) ==
            CallsInAll(Keep(ns[..i], NotAFunction)) + (if ns[i].Function? then [] else CallsIn(ns[i]))
  {
    assert ns[..i + 1] == ns[..i] + [ns[i]];
    KeepOfConcat(ns[..i], [ns[i]], NotAFunction);
    CallsInAllOfConcat(Keep(ns[..i], NotAFunction), Keep([ns[i]], NotAFunction));
    assert Keep([ns[i]], NotAFunction) == if ns[i].Function? then [] else [ns[i]];
    assert CallsInAll([ns[i]]) == CallsIn(ns[i]) + CallsInAll([ns[i]][1..]);
  }

  method TransactionCallsIn(n: Node, found: Sink<Node>)
    modifies found
    ensures found.items == old(found.items) + CallsIn(n)
    decreases Size(n), 1
  {
    hide CallsIn, CallsInAll, OpenKids, OwnsItsFailures, PassesTransaction, IsBoundary;
    CallsHere(n);
    KidsAreSmaller(n);
    if OwnsItsFailures(n) {
      SearchHandlerAndFinalizer(n, found);
      return;
    }
    if PassesTransaction(n) { found.Push(n); }
    if IsBoundary(n) {
      SearchCalleeAndArguments(n, found);
      return;
    }
    SearchEach(Kids(n), found);
  }

  method SearchHandlerAndFinalizer(n: Node, found: Sink<Node>)
    requires OwnsItsFailures(n)
    modifies found
    ensures found.items == old(found.items) + CallsIn(n)
    decreases Size(n), 0
  {
    hide CallsIn, CallsInAll, RollsBack;
    OwnedCalls(n);
    KidsAreSmaller(n);
    assert Kids(n)[1] == n.handler.value.body;
    KidIsSmaller(n, n.handler.value.body);
    TransactionCallsIn(n.handler.value.body, found);
    if n.finalizer.Some? {
      assert Kids(n)[2] == n.finalizer.value;
      KidIsSmaller(n, n.finalizer.value);
      TransactionCallsIn(n.finalizer.value, found);
    }
  }

  /** The callee chain and the arguments that are not functions still belong to the surrounding scope. */
  method SearchCalleeAndArguments(n: Node, found: Sink<Node>)
    requires IsBoundary(n)
    modifies found
    ensures found.items == old(found.items) + CallsInAll(OpenKids(n))
    decreases Size(n), 0
  {
    hide CallsIn, CallsInAll;
    BoundaryCalls(n);
    KidsAreSmaller(n);
    assert Kids(n)[0] == n.callee && Kids(n)[1..] == n.arguments;
    KidIsSmaller(n, n.callee);
    TransactionCallsIn(n.callee, found);
    SearchNonFunctions(n.arguments, found);
  }

  method SearchNonFunctions(ns: seq<Node>, found: Sink<Node>)
    modifies found
    ensures found.items == old(found.items) + CallsInAll(Keep(ns, NotAFunction))
    decreases SizeAll(ns)
  {
    hide CallsIn, CallsInAll;
    NoCalls();
    for i := 0 to |ns|
      invariant found.items == old(found.items) + CallsInAll(Keep(ns[..i], NotAFunction))
    {
      NextKeptCalls(ns, i);
      if !ns[i].Function? {
        MemberIsSmaller(ns, ns[i]);
        TransactionCallsIn(ns[i], found);
      }
    }
    assert ns[..|ns|] == ns;
  }

  method SearchEach(ns: seq<Node>, found: Sink<Node>)
    modifies found
    ensures found.items == old(found.items) + CallsInAll(ns)
    decreases SizeAll(ns)
  {
    hide CallsIn, CallsInAll;
    NoCalls();
    for i := 0 to |ns|
      invariant found.items == old(found.items) + CallsInAll(ns[..i])
    {
      NextCalls(ns, i);
      MemberIsSmaller(ns, ns[i]);
      TransactionCallsIn(ns[i], found);
    }
    assert ns[..|ns|] == ns;
  }

  lemma CallsHere(n: Node)
    ensures CallsIn(n) == (if PassesTransaction(n) then [n] else []) + CallsInAll(OpenKids(n))
    ensures !OwnsItsFailures(n) && !IsBoundary(n) ==> OpenKids(n) == Kids(n)
    ensures OwnsItsFailures(n) ==> !PassesTransaction(n) && !IsBoundary(n)
  {
  }

  lemma NoCalls()
    ensures CallsInAll([]) == []
  {
  }

  lemma BoundaryCalls(n: Node)
    requires IsBoundary(n)
    ensures CallsInAll(OpenKids(n)) == CallsIn(n.callee) + CallsInAll(Keep(n.arguments, NotAFunction))
  {
    assert OpenKids(n)[1..] == Keep(n.arguments, NotAFunction);
  }

  lemma OwnedCalls(n: Node)
    requires OwnsItsFailures(n)
    ensures CallsIn(n) == CallsIn(n.handler.value.body)
                          + (if n.finalizer.Some? then CallsIn(n.finalizer.value) else [])
  {
    var body := n.handler.value.body;
    assert CallsInAll([body]) == CallsIn(body) + CallsInAll([body][1..]);
    CallsInAllOfConcat([body], Listed(n.finalizer));
    if n.finalizer.Some? {
      var last := n.finalizer.value;
      assert CallsInAll([last]) == CallsIn(last) + CallsInAll([last][1..]);
    }
  }

  lemma {:induction false} SwallowsInAllOfConcat(a: seq<Node>, b: seq<Node>)
    ensures SwallowsInAll(a + b) == SwallowsInAll(a) + SwallowsInAll(b)
  {
    hide Swallows;
    if a == [] {
      assert a + b == b;
    } else {
      assert (a + b)[1..] == a[1..] + b;
      SwallowsInAllOfConcat(a[1..], b);
    }
  }

  lemma NextSwallows(ns: seq<Node>, i: nat, marked: seq<bool>)
    requires i < |ns|
    ensures Unacknowledged(SwallowsInAll(ns[..i + 1]), marked) ==
            Unacknowledged(SwallowsInAll(ns[..i]), marked) + Unacknowledged(Swallows(ns[i]), marked)
  {
    assert ns[..i + 1] == ns[..i] + [ns[i]];
    SwallowsInAllOfConcat(ns[..i], [ns[i]]);
    assert SwallowsInAll([ns[i]]) == Swallows(ns[i]) + SwallowsInAll([ns[i]][1..]);
    assert SwallowsInAll([ns[i]]) == Swallows(ns[i]);
    UnacknowledgedOfConcat(SwallowsInAll(ns[..i]), Swallows(ns[i]), marked);
  }

  lemma NextReport(calls: seq<Node>, i: nat, line: nat, kind: Kind, marked: seq<bool>)
    requires i < |calls| && forall c :: c in calls ==> c.Call?
    ensures Unacknowledged(Report(calls[..i + 1], line, kind), marked) ==
            Unacknowledged(Report(calls[..i], line, kind), marked)
            + if Acknowledged(marked, line) then []
              else [Finding(line, kind, CalleeName(calls[i]), calls[i].line)]
  {
    assert calls[..i + 1] == calls[..i] + [calls[i]];
    ReportOfConcat(calls[..i], [calls[i]], line, kind);
    UnacknowledgedOfConcat(Report(calls[..i], line, kind), Report([calls[i]], line, kind), marked);
    assert [calls[i]][1..] == [];
  }

  /** Reports every call found, unless the handler's line is acknowledged. */
  method ReportCalls(calls: seq<Node>, line: nat, kind: Kind, marked: seq<bool>, findings: Sink<Finding>)
    requires forall c :: c in calls ==> c.Call?
    modifies findings
    ensures findings.items == old(findings.items) + Unacknowledged(Report(calls, line, kind), marked)
  {
    for i := 0 to |calls|
      invariant findings.items == old(findings.items) + Unacknowledged(Report(calls[..i], line, kind), marked)
    {
      NextReport(calls, i, line, kind, marked);
      if !Acknowledged(marked, line) { findings.Push(Finding(line, kind, CalleeName(calls[i]), calls[i].line)); }
    }
    assert calls[..|calls|] == calls;
  }

  lemma ReportOfConcat(a: seq<Node>, b: seq<Node>, line: nat, kind: Kind)
    requires forall c :: c in a + b ==> c.Call?
    ensures forall c :: c in a || c in b ==> c in a + b
    ensures Report(a + b, line, kind) == Report(a, line, kind) + Report(b, line, kind)
  {
    if a == [] {
      assert a + b == b;
    } else {
      assert (a + b)[1..] == a[1..] + b;
      ReportOfConcat(a[1..], b, line, kind);
    }
  }

  lemma NoSwallows(marked: seq<bool>)
    ensures Unacknowledged(SwallowsInAll([]), marked) == []
  {
  }

  lemma SwallowsHereAndBelow(n: Node, marked: seq<bool>)
    ensures Unacknowledged(Swallows(n), marked) ==
            Unacknowledged(FindingsAt(n), marked) + Unacknowledged(SwallowsInAll(Kids(n)), marked)
  {
    UnacknowledgedOfConcat(FindingsAt(n), SwallowsInAll(Kids(n)), marked);
  }

  method Visit(n: Node, marked: seq<bool>, findings: Sink<Finding>)
    modifies findings
    ensures findings.items == old(findings.items) + Unacknowledged(Swallows(n), marked)
    decreases Size(n)
  {
    hide Swallows, SwallowsInAll, Unacknowledged, FindingsAt;
    KidsAreSmaller(n);
    VisitHandler(n, marked, findings);
    VisitEach(Kids(n), marked, findings);
    SwallowsHereAndBelow(n, marked);
  }

  method VisitHandler(n: Node, marked: seq<bool>, findings: Sink<Finding>)
    modifies findings
    ensures findings.items == old(findings.items) + Unacknowledged(FindingsAt(n), marked)
  {
    hide CallsIn, CallsInAll;
    if IsCatchCall(n) && ArgumentsMaySwallow(n.arguments) {
      FoundAreCalls(n.callee.receiver);
      var found := new Sink<Node>();
      TransactionCallsIn(n.callee.receiver, found);
      assert found.items == CallsIn(n.callee.receiver);
      ReportCalls(found.items, n.callee.line, CatchSwallows, marked, findings);
      assert FindingsAt(n) == Report(CallsIn(n.callee.receiver), n.callee.line, CatchSwallows);
    } else if n.Try? && n.handler.Some? && BodyMaySwallow(n.handler.value.body) {
      FoundAreCalls(n.block);
      var found := new Sink<Node>();
      TransactionCallsIn(n.block, found);
      assert found.items == CallsIn(n.block);
      ReportCalls(found.items, n.handler.value.line, TrySwallows, marked, findings);
      assert FindingsAt(n) == Report(CallsIn(n.block), n.handler.value.line, TrySwallows);
    } else {
      assert FindingsAt(n) == [];
    }
  }

  method VisitEach(ns: seq<Node>, marked: seq<bool>, findings: Sink<Finding>)
    modifies findings
    ensures findings.items == old(findings.items) + Unacknowledged(SwallowsInAll(ns), marked)
    decreases SizeAll(ns)
  {
    hide Swallows, SwallowsInAll, Unacknowledged;
    NoSwallows(marked);
    for i := 0 to |ns|
      invariant findings.items == old(findings.items) + Unacknowledged(SwallowsInAll(ns[..i]), marked)
    {
      NextSwallows(ns, i, marked);
      MemberIsSmaller(ns, ns[i]);
      Visit(ns[i], marked, findings);
    }
    assert ns[..|ns|] == ns;
  }

  /** What one file reports. */
  function Reported(ast: Node, marked: seq<bool>): seq<Finding> {
    FirstPerKey(Unacknowledged(Swallows(ast), marked), {})
  }

  method FindingsFor(ast: Node, marked: seq<bool>) returns (reported: seq<Finding>)
    ensures reported == Reported(ast, marked)
  {
    var findings := new Sink<Finding>();
    Visit(ast, marked, findings);
    var all := findings.items;
    assert all == Unacknowledged(Swallows(ast), marked);
    var seen: set<Key> := {};
    reported := [];
    for i := 0 to |all|
      invariant reported + FirstPerKey(all[i..], seen) == FirstPerKey(all, {})
    {
      assert all[i..][1..] == all[i + 1..];
      if KeyOf(all[i]) !in seen {
        assert reported + ([all[i]] + FirstPerKey(all[i + 1..], seen + {KeyOf(all[i])})) ==
               reported + [all[i]] + FirstPerKey(all[i + 1..], seen + {KeyOf(all[i])});
        reported := reported + [all[i]];
        seen := seen + {KeyOf(all[i])};
      }
    }
  }

  /** Collapsing repeats loses no (handler, call) pair and keeps each one once, at its first finding. */
  lemma {:induction false} OnePerKey(fs: seq<Finding>, seen: set<Key>)
    ensures var r := FirstPerKey(fs, seen);
            && (forall i, j :: 0 <= i < j < |r| ==> KeyOf(r[i]) != KeyOf(r[j]))
            && (forall f :: f in r ==> f in fs && KeyOf(f) !in seen)
            && (forall k :: (0 <= k < |fs| && KeyOf(fs[k]) !in seen
                             && (forall j :: 0 <= j < k ==> KeyOf(fs[j]) != KeyOf(fs[k]))) ==> fs[k] in r)
  {
    if fs != [] {
      var tail := fs[1..];
      var taken := if KeyOf(fs[0]) in seen then seen else seen + {KeyOf(fs[0])};
      OnePerKey(tail, taken);
      var r := FirstPerKey(fs, seen);
      forall k | 0 <= k < |fs| && KeyOf(fs[k]) !in seen && (forall j :: 0 <= j < k ==> KeyOf(fs[j]) != KeyOf(fs[k]))
        ensures fs[k] in r
      {
        if k > 0 {
          assert KeyOf(fs[0]) != KeyOf(fs[k]);
          assert tail[k - 1] == fs[k];
          forall j | 0 <= j < k - 1 ensures KeyOf(tail[j]) != KeyOf(tail[k - 1]) { assert tail[j] == fs[j + 1]; }
        }
      }
    }
  }

  lemma NothingMarked(fs: seq<Finding>, marked: seq<bool>)
    requires true !in marked
    ensures Unacknowledged(fs, marked) == fs
  {
  }

  /** A silent report on a file without `tx-safe:` comments is the silence the soundness theorem needs. */
  lemma SilentReportIsSound(ast: Node, marked: seq<bool>, ch: seq<nat>)
    requires Reported(ast, marked) == [] && true !in marked && Disciplined(ast)
    ensures var o := Run(ast, START, ch);
            o.Done? ==> !o.st.lost && (o.how != Thrown ==> o.st.tx != Poisoned)
  {
    var fs := Swallows(ast);
    NothingMarked(fs, marked);
    OnePerKey(fs, {});
    Soundness(ast, ch);
  }

  /** The same for every function body or other part of the tree, run on its own. */
  lemma {:induction false} SilentReportIsSoundBelow(ast: Node, p: Path, ch: seq<nat>)
    requires Accepted(ast) && IsPath(ast, p)
    ensures Accepted(At(ast, p))
    ensures var o := Run(At(ast, p), START, ch);
            o.Done? ==> !o.st.lost && (o.how != Thrown ==> o.st.tx != Poisoned)
    decreases |p|
  {
    if p == [] {
      Soundness(ast, ch);
    } else {
      AcceptedKid(ast, Kids(ast)[p[0]]);
      SilentReportIsSoundBelow(Kids(ast)[p[0]], p[1..], ch);
    }
  }
}
