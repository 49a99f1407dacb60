/** The analyser itself: which catch handlers can swallow a failure inside an open transaction. */
module TxAnalyser {
  import opened Wrappers
  import opened TxAst

  function CalleeName(n: Node): Option<string>
    requires n.Call?
  {
    match n.callee
    case Ident(name) => Some(name)
    case Member(false, _, Ident(name), _) => Some(name)
    case _ => None
  }

  predicate IsCallTo(n: Node, name: string) {
    n.Call? && CalleeName(n) == Some(name)
  }

  predicate CarriesTransaction(p: Node) {
    p.Property? && !p.computed && (p.key == Ident("transaction") || p.key == Text("transaction")) && !p.value.Null?
  }

  predicate HasTransactionOption(arg: Node) {
    arg.Object? && exists p :: p in arg.properties && CarriesTransaction(p)
  }

  /** A call given an options object with a `transaction` other than a literal null. */
  predicate PassesTransaction(n: Node) {
    n.Call? && exists arg :: arg in n.arguments && HasTransactionOption(arg)
  }

  /** A call that puts a savepoint or a whole transaction around its callbacks. */
  predicate IsBoundary(n: Node) {
    IsCallTo(n, "withSavepoint") || IsCallTo(n, "transaction")
  }

  predicate RollsBack(n: Node)
    decreases Size(n)
  {
    KidsAreSmaller(n);
    IsCallTo(n, "rollback") || AnyRollsBack(Kids(n))
  }

  predicate AnyRollsBack(ns: seq<Node>)
    decreases SizeAll(ns)
  {
    ns != [] && (RollsBack(ns[0]) || AnyRollsBack(ns[1..]))
  }

  predicate ContainsReturn(n: Node)
    decreases Size(n)
  {
    KidsAreSmaller(n);
    n.Return? || (!n.Function? && AnyContainsReturn(Kids(n)))
  }

  predicate AnyContainsReturn(ns: seq<Node>)
    decreases SizeAll(ns)
  {
    ns != [] && (ContainsReturn(ns[0]) || AnyContainsReturn(ns[1..]))
  }

  /** A handler body whose last statement is a throw and that returns nowhere before it. */
  predicate AlwaysThrows(body: Node) {
    body.Throw?
    || (body.Block? && body.statements != [] && body.statements[|body.statements| - 1].Throw?
        && !AnyContainsReturn(body.statements[..|body.statements| - 1]))
  }

  /** A try statement whose handler rolls the transaction back owns the failures of its block. */
  predicate OwnsItsFailures(n: Node) {
    n.Try? && n.handler.Some? && RollsBack(n.handler.value.body)
  }

  predicate NotAFunction(n: Node) {
    !n.Function?
  }

  function Keep(ns: seq<Node>, f: Node -> bool): (r: seq<Node>)
    ensures SizeAll(r) <= SizeAll(ns)
  {
    if ns == [] then []
    else if f(ns[0]) then [ns[0]] + Keep(ns[1..], f)
    else Keep(ns[1..], f)
  }

  lemma KeepMember(ns: seq<Node>, f: Node -> bool, k: Node)
    ensures k in Keep(ns, f) <==> k in ns && f(k)
  {
    if ns != [] {
      KeepMember(ns[1..], f, k);
      assert k in ns <==> k == ns[0] || k in ns[1..];
    }
  }

  /** The children the search for transaction-bearing calls goes into. */
  function OpenKids(n: Node): (ks: seq<Node>)
    ensures SizeAll(ks) < Size(n)
  {
    KidsAreSmaller(n);
    if OwnsItsFailures(n) then
      SizeOfConcat([n.block], HandlerBody(n.handler) + Listed(n.finalizer));
      assert Kids(n) == [n.block] + (HandlerBody(n.handler) + Listed(n.finalizer));
      HandlerBody(n.handler) + Listed(n.finalizer)
    else if IsBoundary(n) then
      SizeOfConcat([n.callee], Keep(n.arguments, NotAFunction));
      SizeOfConcat([n.callee], n.arguments);
      [n.callee] + Keep(n.arguments, NotAFunction)
    else
      Kids(n)
  }

  /** Every transaction-bearing call the search finds below `n`, in the order it finds them. */
  function CallsIn(n: Node): seq<Node>
    decreases Size(n)
  {
    (if PassesTransaction(n) then [n] else []) + CallsInAll(OpenKids(n))
  }

  function CallsInAll(ns: seq<Node>): seq<Node>
    decreases SizeAll(ns)
  {
    if ns == [] then [] else CallsIn(ns[0]) + CallsInAll(ns[1..])
  }

  // ---------- findings ----------

  datatype Kind = CatchSwallows | TrySwallows

  datatype Finding = Finding(line: nat, kind: Kind, call: Option<string>, callLine: nat)

  /** `promise.catch(...)` */
  predicate IsCatchCall(n: Node) {
    n.Call? && n.callee.Member? && !n.callee.computed && n.callee.property == Ident("catch")
  }

  predicate BodyMaySwallow(body: Node) {
    !AlwaysThrows(body) && !RollsBack(body)
  }

  /** The argument of a `.catch` tolerates some failure, as far as the analyser can tell. */
  predicate ArgumentsMaySwallow(arguments: seq<Node>) {
    arguments == [] || !arguments[0].Function? || BodyMaySwallow(arguments[0].body)
  }

  function Report(calls: seq<Node>, line: nat, kind: Kind): seq<Finding>
    requires forall c :: c in calls ==> c.Call?
  {
    if calls == [] then [] else
      [Finding(line, kind, CalleeName(calls[0]), calls[0].line)] + Report(calls[1..], line, kind)
  }

  lemma FoundAreCalls(n: Node)
    ensures forall c :: c in CallsIn(n) ==> c.Call?
    decreases Size(n)
  {
    FoundAllAreCalls(OpenKids(n));
  }

  lemma FoundAllAreCalls(ns: seq<Node>)
    ensures forall c :: c in CallsInAll(ns) ==> c.Call?
    decreases SizeAll(ns)
  {
    if ns != [] {
      FoundAreCalls(ns[0]);
      FoundAllAreCalls(ns[1..]);
    }
  }

  /** What this one node makes the analyser report. */
  function FindingsAt(n: Node): seq<Finding> {
    if IsCatchCall(n) && ArgumentsMaySwallow(n.arguments) then
      FoundAreCalls(n.callee.receiver);
      Report(CallsIn(n.callee.receiver), n.callee.line, CatchSwallows)
    else if n.Try? && n.handler.Some? && BodyMaySwallow(n.handler.value.body) then
      FoundAreCalls(n.block);
      Report(CallsIn(n.block), n.handler.value.line, TrySwallows)
    else []
  }

  /** Every swallow in the tree, acknowledged or not, before repeats are collapsed. */
  function Swallows(n: Node): seq<Finding>
    decreases Size(n)
  {
    KidsAreSmaller(n);
    FindingsAt(n) + SwallowsInAll(Kids(n))
  }

  function SwallowsInAll(ns: seq<Node>): seq<Finding>
    decreases SizeAll(ns)
  {
    if ns == [] then [] else Swallows(ns[0]) + SwallowsInAll(ns[1..])
  }

  /** `marked[k]` says that source line k + 1 holds a `tx-safe:` comment; the two lines above count as well. */
  predicate Acknowledged(marked: seq<bool>, line: nat) {
    exists k :: 0 <= k < |marked| && marked[k] && line - 2 <= k + 1 <= line
  }

  function Unacknowledged(fs: seq<Finding>, marked: seq<bool>): seq<Finding> {
    if fs == [] then [] else
      (if Acknowledged(marked, fs[0].line) then [] else [fs[0]]) + Unacknowledged(fs[1..], marked)
  }

  lemma UnacknowledgedOfConcat(a: seq<Finding>, b: seq<Finding>, marked: seq<bool>)
    ensures Unacknowledged(a + b, marked) == Unacknowledged(a, marked) + Unacknowledged(b, marked)
  {
    if a == [] {
      assert a + b == b;
    } else {
      assert (a + b)[1..] == a[1..] + b;
      UnacknowledgedOfConcat(a[1..], b, marked);
    }
  }

  type Key = (nat, nat)

  function KeyOf(f: Finding): Key {
    (f.line, f.callLine)
  }

  /** The findings whose (handler line, call line) has not come before, given those already seen. */
  function FirstPerKey(fs: seq<Finding>, seen: set<Key>): seq<Finding> {
    if fs == [] then [] else
    if KeyOf(fs[0]) in seen then FirstPerKey(fs[1..], seen)
    else [fs[0]] + FirstPerKey(fs[1..], seen + {KeyOf(fs[0])})
  }
}
