/** Soundness under a stricter discipline in plainer terms. */
module TxOrderly {
  import opened Wrappers
  import opened TxAst
  import opened TxAnalyser
  import opened TxSemantics
  import opened TxHandlers
  import opened TxSoundness

  /** No break or continue leaves the handler, and if it rolls back it does so before anything that can throw. */
  predicate OrderlyHandler(body: Node) {
    !JumpsOut(body) && (RollsBack(body) ==> RollsBackFirst(body))
  }

  predicate OrderlyHere(n: Node) {
    && (n.Try? && n.handler.Some? ==> OrderlyHandler(n.handler.value.body))
    && (n.Try? && n.finalizer.Some? ==> CannotLeave(n.finalizer.value))
    && (IsCatchCall(n) && n.arguments != [] && n.arguments[0].Function? ==> OrderlyHandler(n.arguments[0].body))
  }

  predicate Orderly(n: Node)
    decreases Size(n)
  {
    KidsAreSmaller(n);
    OrderlyHere(n) && AllOrderly(Kids(n))
  }

  predicate AllOrderly(ns: seq<Node>)
    decreases SizeAll(ns)
  {
    ns == [] || (Orderly(ns[0]) && AllOrderly(ns[1..]))
  }

  lemma OrderlyMember(ns: seq<Node>, k: Node)
    requires AllOrderly(ns) && k in ns
    ensures Orderly(k)
  {
    if ns[0] != k { OrderlyMember(ns[1..], k); }
  }

  lemma {:induction false} OrderlyRollsBackAtOnce(n: Node)
    requires Orderly(n)
    ensures RollsBackAtOnce(n)
    decreases Size(n), 1
  {
    hide RollsBack, RollsBackFirst, JumpsOut, Leaks;
    KidsAreSmaller(n);
    AllOrderlyRollBackAtOnce(Kids(n));
  }

  lemma {:induction false} AllOrderlyRollBackAtOnce(ns: seq<Node>)
    requires AllOrderly(ns)
    ensures AllRollBackAtOnce(ns)
    decreases SizeAll(ns), 0
  {
    hide RollsBackAtOnce, OrderlyHere;
    if ns != [] {
      OrderlyRollsBackAtOnce(ns[0]);
      AllOrderlyRollBackAtOnce(ns[1..]);
    }
  }

  lemma OrderlyKeepsHere(pr: Promise, n: Node)
    requires Orderly(n)
    ensures KeptHere(pr, n)
  {
    hide RollsBack, RollsBackFirst, JumpsOut, Leaks, RollsBackAtOnce, AlwaysThrows, Orderly, ContainsReturn;
    OrderlyIsHere(n);
    if n.Try? && n.handler.Some? {
      OrderlyMember(Kids(n), n.block) by { assert Kids(n)[0] == n.block; }
      OrderlyRollsBackAtOnce(n.block);
    }
    if IsCatchCall(n) {
      OrderlyMember(Kids(n), n.callee) by { assert Kids(n)[0] == n.callee; }
      OrderlyIsHere(n.callee);
      OrderlyMember(Kids(n.callee), n.callee.receiver) by { assert Kids(n.callee)[0] == n.callee.receiver; }
      OrderlyRollsBackAtOnce(n.callee.receiver);
    }
  }

  lemma OrderlyIsHere(n: Node)
    requires Orderly(n)
    ensures OrderlyHere(n) && AllOrderly(Kids(n))
  {
  }

  lemma {:induction false} OrderlyKeeps(pr: Promise, n: Node)
    requires Orderly(n)
    ensures Kept(pr, n)
    decreases Size(n), 1
  {
    hide KeptHere, OrderlyHere;
    KidsAreSmaller(n);
    OrderlyKeepsHere(pr, n);
    AllOrderlyKeep(pr, Kids(n));
  }

  lemma {:induction false} AllOrderlyKeep(pr: Promise, ns: seq<Node>)
    requires AllOrderly(ns)
    ensures AllKept(pr, ns)
    decreases SizeAll(ns), 0
  {
    hide Kept, OrderlyHere;
    if ns != [] {
      OrderlyKeeps(pr, ns[0]);
      AllOrderlyKeep(pr, ns[1..]);
    }
  }

  /** Soundness when no jump leaves a handler, no finalizer is abrupt, and a handler that rolls back does so first. */
  lemma SoundWhenOrderly(ast: Node, ch: seq<nat>)
    requires Swallows(ast) == [] && Orderly(ast)
    ensures var o := Run(ast, START, ch);
            o.Done? ==> !o.st.lost && (o.how != Thrown ==> o.st.tx != Poisoned)
  {
    forall pr ensures Kept(pr, ast) { OrderlyKeeps(pr, ast); }
    Soundness(ast, ch);
  }
}
