/**
 * What the analysed code does to the open transaction on Postgres.
 *
 * A run is fixed by a finite list of choices: which calls fail, which branch is taken, how often a loop or a callback
 * goes round. Every finite run of a node is the run of some list, so a statement about all lists is about all runs.
 * Completions follow section 14.15 of ECMA-262.
 */
module TxSemantics {
  import opened Wrappers
  import opened TxAst
  import opened TxAnalyser

  datatype Completion = Normal | Returned | Thrown | Broke | Continued

  /** A failed statement poisons the transaction; rolling it back ends it. */
  datatype Tx = Clean | Poisoned | Ended

  /** `lost` records that some transaction boundary committed a poisoned transaction. */
  datatype State = State(tx: Tx, lost: bool)

  /** Stuck: the list of choices does not describe a whole run. */
  datatype Outcome = Stuck | Done(how: Completion, st: State, rest: seq<nat>)

  const START := State(Clean, false)

  /** A property `transaction` with a value other than a literal null. */
  predicate GivesTransaction(p: Node) {
    p.Property? && !p.computed && (p.key == Ident("transaction") || p.key == Text("transaction")) && p.value != Null
  }

  /** A statement sent on the transaction: some argument is an object, at some position of which the property stands. */
  predicate IsStatement(n: Node) {
    n.Call?
    && exists k :: 0 <= k < |n.arguments| && n.arguments[k].Object?
                   && exists m :: 0 <= m < |n.arguments[k].properties| && GivesTransaction(n.arguments[k].properties[m])
  }

  /** These are the calls that the analyser looks for. */
  lemma StatementsAreFound(n: Node)
    ensures PassesTransaction(n) <==> IsStatement(n)
  {
    if IsStatement(n) {
      var k :| 0 <= k < |n.arguments| && n.arguments[k].Object?
               && exists m :: 0 <= m < |n.arguments[k].properties| && GivesTransaction(n.arguments[k].properties[m]);
      var arg := n.arguments[k];
      var m :| 0 <= m < |arg.properties| && GivesTransaction(arg.properties[m]);
      assert arg.properties[m] in arg.properties && CarriesTransaction(arg.properties[m]);
      assert arg in n.arguments && HasTransactionOption(arg);
    }
    if PassesTransaction(n) {
      var arg :| arg in n.arguments && HasTransactionOption(arg);
      var p :| p in arg.properties && CarriesTransaction(p);
      var k :| 0 <= k < |n.arguments| && n.arguments[k] == arg;
      var m :| 0 <= m < |arg.properties| && arg.properties[m] == p;
      assert GivesTransaction(n.arguments[k].properties[m]);
    }
  }

  predicate IsFunction(n: Node) {
    n.Function?
  }

  function Callbacks(ns: seq<Node>): (fs: seq<Node>)
    ensures SizeAll(fs) <= SizeAll(ns)
  {
    Keep(ns, IsFunction)
  }

  /** Code the analyser does not see: it completes or throws. */
  function Settle(st: State, ch: seq<nat>): (o: Outcome)
    ensures o.Done? ==> |o.rest| < |ch|
  {
    if ch == [] then Stuck else Done(if ch[0] == 0 then Normal else Thrown, st, ch[1..])
  }

  /** A statement sent on the transaction: refused unless it is clean, and a failure poisons it. */
  function Statement(st: State, ch: seq<nat>): (o: Outcome)
    ensures o.Done? ==> |o.rest| <= |ch|
  {
    if st.tx != Clean then Done(Thrown, st, ch)
    else if ch == [] then Stuck
    else if ch[0] == 0 then Done(Normal, st, ch[1..])
    else if ch[0] == 1 then Done(Thrown, st.(tx := Poisoned), ch[1..])
    else Done(Thrown, st, ch[1..])
  }

  function Run(n: Node, st: State, ch: seq<nat>): (o: Outcome)
    ensures o.Done? ==> |o.rest| <= |ch|
    decreases |ch|, Size(n), 1
  {
    KidsAreSmaller(n);
    match n
    case Ident(_) => Done(Normal, st, ch)
    case Text(_) => Done(Normal, st, ch)
    case Null => Done(Normal, st, ch)
    case Function(_) => Done(Normal, st, ch)
    case Break => Done(Broke, st, ch)
    case Continue => Done(Continued, st, ch)
    case Composite(parts) =>
      var o := RunAll(parts, st, ch);
      if o.Done? && o.how == Normal then Settle(o.st, o.rest) else o
    case Object(properties) => RunAll(properties, st, ch)
    case Property(_, _, _) => RunAll(Kids(n), st, ch)
    case Member(_, _, _, _) => RunAll(Kids(n), st, ch)
    case Not(_) => RunAll(Kids(n), st, ch)
    case Block(statements) => RunAll(statements, st, ch)
    case Return(argument) =>
      var o := RunAll(Listed(argument), st, ch);
      if o.Done? && o.how == Normal then o.(how := Returned) else o
    case Throw(error) =>
      KidIsSmaller(n, error);
      var o := Run(error, st, ch);
      if o.Done? && (o.how == Normal || o.how == Thrown) then o.(how := Thrown) else Stuck
    case If(_, _, _) => RunIf(n, st, ch)
    case Loop(head, body) => RunLoop(head, body, st, ch)
    case Call(_, _, _) => if IsCatchCall(n) then RunCatchCall(n, st, ch) else RunCall(n, st, ch)
    case Try(_, _, _) => RunTry(n, st, ch)
  }

  /** Runs nodes in order until one of them does not complete normally. */
  function RunAll(ns: seq<Node>, st: State, ch: seq<nat>): (o: Outcome)
    ensures o.Done? ==> |o.rest| <= |ch|
    decreases |ch|, SizeAll(ns), 0
  {
    if ns == [] then Done(Normal, st, ch) else
      var o := Run(ns[0], st, ch);
      if o.Done? && o.how == Normal then RunAll(ns[1..], o.st, o.rest) else o
  }

  /** `!transaction.finished` */
  predicate IsOpenTest(n: Node) {
    n.Not? && n.operand.Member? && !n.operand.computed && n.operand.receiver.Ident?
    && n.operand.property == Ident("finished")
  }

  /** Either branch may run, unless the test asks whether the transaction is still open. */
  function RunIf(n: Node, st: State, ch: seq<nat>): (o: Outcome)
    requires n.If?
    ensures o.Done? ==> |o.rest| <= |ch|
    decreases |ch|, Size(n), 0
  {
    KidIsSmaller(n, n.test);
    if IsOpenTest(n.test) then RunBranch(n, st.tx != Ended, st, ch) else
      var o := Run(n.test, st, ch);
      if !o.Done? || o.how != Normal then o
      else if o.rest == [] then Stuck
      else RunBranch(n, o.rest[0] == 0, o.st, o.rest[1..])
  }

  function RunBranch(n: Node, holds: bool, st: State, ch: seq<nat>): (o: Outcome)
    requires n.If?
    ensures o.Done? ==> |o.rest| <= |ch|
    decreases |ch|, Size(n) - 1, 1
  {
    KidsAreSmaller(n);
    assert SizeAll(Listed(n.alternate)) < Size(n) - 1;
    if holds then Run(n.consequent, st, ch) else RunAll(Listed(n.alternate), st, ch)
  }

  function RunLoop(head: Node, body: Node, st: State, ch: seq<nat>): (o: Outcome)
    ensures o.Done? ==> |o.rest| <= |ch|
    decreases |ch|, Size(head) + 1, 0
  {
    var h := Run(head, st, ch);
    if !h.Done? || h.how != Normal then h
    else if h.rest == [] then Stuck
    else if h.rest[0] == 0 then Done(Normal, h.st, h.rest[1..])
    else
      var b := Run(body, h.st, h.rest[1..]);
      if !b.Done? || b.how == Returned || b.how == Thrown then b
      else if b.how == Broke then b.(how := Normal)
      else RunLoop(head, body, b.st, b.rest)
  }

  /** try, catch and finally: a finalizer that completes abruptly overrides what came before. */
  function RunTry(n: Node, st: State, ch: seq<nat>): (o: Outcome)
    requires n.Try?
    ensures o.Done? ==> |o.rest| <= |ch|
    decreases |ch|, Size(n), 0
  {
    var o := RunGuarded(n, st, ch);
    if !o.Done? || n.finalizer.None? then o
    else
      KidIsSmaller(n, n.finalizer.value);
      var f := Run(n.finalizer.value, o.st, o.rest);
      if f.Done? && f.how == Normal then f.(how := o.how) else f
  }

  /** The block of a try and, if the block throws, its handler. */
  function RunGuarded(n: Node, st: State, ch: seq<nat>): (o: Outcome)
    requires n.Try?
    ensures o.Done? ==> |o.rest| <= |ch|
    decreases |ch|, Size(n) - 1, 1
  {
    KidIsSmaller(n, n.block);
    assert Size(n.block) < Size(n) - 1;
    var b := Run(n.block, st, ch);
    if b.Done? && b.how == Thrown && n.handler.Some? then
      assert Size(n.handler.value.body) < Size(n) - 1;
      Run(n.handler.value.body, b.st, b.rest)
    else b
  }

  /** A function literal that somebody calls. Nothing can break or continue out of it. */
  function RunBody(f: Node, st: State, ch: seq<nat>): (o: Outcome)
    ensures o.Done? ==> |o.rest| <= |ch|
    decreases |ch|, Size(f), 0
  {
    if !f.Function? then Stuck else
      var o := Run(f.body, st, ch);
      if !o.Done? || o.how == Thrown then o
      else if o.how == Normal || o.how == Returned then o.(how := Normal)
      else Stuck
  }

  /** Calls some of the callbacks, any number of times; a callback that throws ends it. */
  function RunCallbacks(fs: seq<Node>, st: State, ch: seq<nat>): (o: Outcome)
    ensures o.Done? ==> |o.rest| <= |ch|
    decreases |ch|, SizeAll(fs), 0
  {
    if ch == [] then Stuck
    else if ch[0] >= |fs| then Done(Normal, st, ch[1..])
    else
      var o := RunBody(fs[ch[0]], st, ch[1..]);
      if o.Done? && o.how == Normal then RunCallbacks(fs, o.st, o.rest) else o
  }

  /** promise.catch(handler), awaited: a promise that is rejected goes to the handler. */
  function RunCatchCall(n: Node, st: State, ch: seq<nat>): (o: Outcome)
    requires IsCatchCall(n)
    ensures o.Done? ==> |o.rest| <= |ch|
    decreases |ch|, Size(n), 0
  {
    KidIsSmaller(n, n.callee);
    KidIsSmaller(n.callee, n.callee.receiver);
    var p := Run(n.callee.receiver, st, ch);
    if !p.Done? || (p.how != Normal && p.how != Thrown) then p
    else
      var a := RunAll(n.arguments, p.st, p.rest);
      if !a.Done? || a.how == Thrown || p.how == Normal then a
      else if a.how == Normal then RunRejected(n.arguments, a.st, a.rest)
      else Stuck
  }

  /** A rejected promise's handler; without one the rejection passes on, and an unseen one may do either. */
  function RunRejected(arguments: seq<Node>, st: State, ch: seq<nat>): (o: Outcome)
    ensures o.Done? ==> |o.rest| <= |ch|
    decreases |ch|, SizeAll(arguments), 0
  {
    if arguments == [] then Done(Thrown, st, ch)
    else if arguments[0].Function? then RunBody(arguments[0], st, ch)
    else Settle(st, ch)
  }

  /** Any other call: callee and arguments first, then what the call itself does. */
  function RunCall(n: Node, st: State, ch: seq<nat>): (o: Outcome)
    requires n.Call?
    ensures o.Done? ==> |o.rest| <= |ch|
    decreases |ch|, Size(n), 0
  {
    KidsAreSmaller(n);
    var o := RunAll(Kids(n), st, ch);
    if !o.Done? || o.how != Normal then o
    else if IsCallTo(n, "rollback") then Settle(o.st.(tx := Ended), o.rest)
    else
      var s := if IsStatement(n) then Statement(o.st, o.rest) else o;
      if !s.Done? || s.how != Normal then s
      else if !IsBoundary(n) then
        var c := RunCallbacks(Callbacks(Kids(n)), s.st, s.rest);
        if c.Done? && c.how == Normal then Settle(c.st, c.rest) else c
      else if IsCallTo(n, "transaction") && !IsStatement(n) then RunTransaction(n, s.st, s.rest)
      else RunSavepoint(n, s.st, s.rest)
  }

  /**
   * A whole transaction of its own around the callbacks: it starts clean, is rolled back when they throw and committed
   * when they do not, and the surrounding transaction is as it was.
   */
  function RunTransaction(n: Node, st: State, ch: seq<nat>): (o: Outcome)
    requires n.Call?
    ensures o.Done? ==> |o.rest| <= |ch|
    decreases |ch|, SizeAll(n.arguments) + 1, 0
  {
    var c := RunCallbacks(Callbacks(n.arguments), st.(tx := Clean), ch);
    if !c.Done? then c
    else if c.how != Normal then c.(st := c.st.(tx := st.tx))
    else Settle(State(st.tx, c.st.lost || c.st.tx == Poisoned), c.rest)
  }

  /**
   * A savepoint around the callbacks: refused unless the transaction is clean, restored when they throw. Releasing it
   * leaves the transaction as the callbacks left it, except that their own rollback only undoes the savepoint.
   */
  function RunSavepoint(n: Node, st: State, ch: seq<nat>): (o: Outcome)
    requires n.Call?
    ensures o.Done? ==> |o.rest| <= |ch|
    decreases |ch|, SizeAll(n.arguments) + 1, 0
  {
    if st.tx != Clean then Done(Thrown, st, ch) else
      var c := RunCallbacks(Callbacks(n.arguments), st, ch);
      if !c.Done? then c
      else if c.how != Normal then c.(st := c.st.(tx := Clean))
      else Settle(c.st.(tx := if c.st.tx == Poisoned then Poisoned else Clean), c.rest)
  }
}
