/** The search for transaction-bearing calls finds exactly the calls it should, each once and in source order. */
module TxReach {
  import opened TxAst
  import opened TxAnalyser

  /** A way down the tree: the index of a child at each step. */
  type Path = seq<nat>

  predicate IsPath(n: Node, p: Path)
    decreases |p|
  {
    p == [] || (p[0] < |Kids(n)| && IsPath(Kids(n)[p[0]], p[1..]))
  }

  function At(n: Node, p: Path): Node
    requires IsPath(n, p)
    decreases |p|
  {
    if p == [] then n else At(Kids(n)[p[0]], p[1..])
  }

  /** The step to child `i` enters a callback of a boundary call, or the block of a try whose handler rolls back. */
  predicate Crosses(n: Node, i: nat)
    requires i < |Kids(n)|
  {
    (IsBoundary(n) && i > 0 && Kids(n)[i].Function?) || (OwnsItsFailures(n) && i == 0)
  }

  predicate IsOpen(n: Node, p: Path)
    requires IsPath(n, p)
    decreases |p|
  {
    p == [] || (!Crosses(n, p[0]) && IsOpen(Kids(n)[p[0]], p[1..]))
  }

  /** An open path to a call given a transaction. */
  predicate Reaches(n: Node, p: Path) {
    IsPath(n, p) && IsOpen(n, p) && PassesTransaction(At(n, p))
  }

  /** The order in which a walk meets the nodes: parents first, then children from left to right. */
  predicate Before(p: Path, q: Path)
    decreases |p|
  {
    q != [] && (p == [] || p[0] < q[0] || (p[0] == q[0] && Before(p[1..], q[1..])))
  }

  predicate InWalkOrder(ps: seq<Path>) {
    forall i, j :: 0 <= i < j < |ps| ==> Before(ps[i], ps[j])
  }

  function Below(i: nat, ps: seq<Path>): seq<Path> {
    seq(|ps|, k requires 0 <= k < |ps| => [i] + ps[k])
  }

  /** The paths of the calls the search finds. */
  function FoundPaths(n: Node): seq<Path>
    decreases Size(n)
  {
    (if PassesTransaction(n) then [[]] else []) + FoundPathsFrom(n, 0)
  }

  function FoundPathsFrom(n: Node, i: nat): seq<Path>
    requires i <= |Kids(n)|
    decreases Size(n), 0, |Kids(n)| - i
  {
    if i == |Kids(n)| then [] else
      KidIsSmaller(n, Kids(n)[i]);
      (if Crosses(n, i) then [] else Below(i, FoundPaths(Kids(n)[i]))) + FoundPathsFrom(n, i + 1)
  }

  /** A path is found exactly when it reaches a transaction-bearing call without crossing anything. */
  lemma {:induction false} FoundIffReaches(n: Node, p: Path)
    ensures p in FoundPaths(n) <==> Reaches(n, p)
    decreases Size(n), 1
  {
    FoundFromIffReaches(n, 0, p);
  }

  lemma InBelow(i: nat, ps: seq<Path>, p: Path)
    ensures p in Below(i, ps) <==> p != [] && p[0] == i && p[1..] in ps
  {
    if p in Below(i, ps) {
      var m :| 0 <= m < |ps| && Below(i, ps)[m] == p;
      assert p[1..] == ps[m];
    }
    if p != [] && p[0] == i && p[1..] in ps {
      var m :| 0 <= m < |ps| && ps[m] == p[1..];
      assert Below(i, ps)[m] == p;
    }
  }

  lemma {:induction false} FoundFromIffReaches(n: Node, i: nat, p: Path)
    requires i <= |Kids(n)|
    ensures p in FoundPathsFrom(n, i) <==> p != [] && i <= p[0] && Reaches(n, p)
    decreases Size(n), 0, |Kids(n)| - i
  {
    if i < |Kids(n)| {
      var k := Kids(n)[i];
      KidIsSmaller(n, k);
      FoundFromIffReaches(n, i + 1, p);
      InBelow(i, FoundPaths(k), p);
      if p != [] && p[0] == i {
        FoundIffReaches(k, p[1..]);
        ReachesStep(n, p);
      }
    }
  }

  lemma ReachesStep(n: Node, p: Path)
    requires p != [] && p[0] < |Kids(n)|
    ensures Reaches(n, p) <==> !Crosses(n, p[0]) && Reaches(Kids(n)[p[0]], p[1..])
  {
  }

  lemma ConcatInOrder(ps: seq<Path>, qs: seq<Path>)
    requires InWalkOrder(ps) && InWalkOrder(qs)
    requires forall a, b :: 0 <= a < |ps| && 0 <= b < |qs| ==> Before(ps[a], qs[b])
    ensures InWalkOrder(ps + qs)
  {
    hide Before;
  }

  lemma BelowInOrder(i: nat, ps: seq<Path>)
    requires InWalkOrder(ps)
    ensures InWalkOrder(Below(i, ps))
  {
    var all := Below(i, ps);
    forall a, b | 0 <= a < b < |all| ensures Before(all[a], all[b]) {
      assert all[a][1..] == ps[a] && all[b][1..] == ps[b];
    }
  }

  lemma {:induction false} FoundInWalkOrder(n: Node)
    ensures InWalkOrder(FoundPaths(n))
    decreases Size(n), 1
  {
    hide Reaches, FoundPathsFrom;
    FoundFromInWalkOrder(n, 0);
    var later := FoundPathsFrom(n, 0);
    forall b | 0 <= b < |later| ensures Before([], later[b]) { FoundFromIffReaches(n, 0, later[b]); }
    if PassesTransaction(n) { ConcatInOrder([[]], later); } else { assert FoundPaths(n) == later; }
  }

  lemma {:induction false} FoundFromInWalkOrder(n: Node, i: nat)
    requires i <= |Kids(n)|
    ensures InWalkOrder(FoundPathsFrom(n, i))
    decreases Size(n), 0, |Kids(n)| - i
  {
    hide Reaches, FoundPaths;
    if i < |Kids(n)| {
      hide InWalkOrder;
      KidIsSmaller(n, Kids(n)[i]);
      FoundInWalkOrder(Kids(n)[i]);
      FoundFromInWalkOrder(n, i + 1);
      StepInOrder(n, i);
    }
  }

  lemma StepInOrder(n: Node, i: nat)
    requires i < |Kids(n)|
    ensures InWalkOrder(FoundPaths(Kids(n)[i])) && InWalkOrder(FoundPathsFrom(n, i + 1)) ==>
              InWalkOrder(FoundPathsFrom(n, i))
  {
    hide FoundPaths, Kids, Crosses, Reaches;
    var here, later := Below(i, FoundPaths(Kids(n)[i])), FoundPathsFrom(n, i + 1);
    if Crosses(n, i) {
      assert FoundPathsFrom(n, i) == later;
    } else if InWalkOrder(FoundPaths(Kids(n)[i])) && InWalkOrder(later) {
      BelowInOrder(i, FoundPaths(Kids(n)[i]));
      forall a, b | 0 <= a < |here| && 0 <= b < |later| ensures Before(here[a], later[b]) {
        FoundFromIffReaches(n, i + 1, later[b]);
      }
      ConcatInOrder(here, later);
    }
  }

  /** The nodes at the end of some paths. */
  function NodesAt(n: Node, ps: seq<Path>): seq<Node>
    requires forall p :: p in ps ==> IsPath(n, p)
  {
    seq(|ps|, k requires 0 <= k < |ps| => At(n, ps[k]))
  }

  function OpenKidsFrom(n: Node, i: nat): seq<Node>
    requires i <= |Kids(n)|
    decreases |Kids(n)| - i
  {
    if i == |Kids(n)| then [] else (if Crosses(n, i) then [] else [Kids(n)[i]]) + OpenKidsFrom(n, i + 1)
  }

  lemma KeptArguments(n: Node, i: nat)
    requires IsBoundary(n) && i <= |n.arguments|
    ensures OpenKidsFrom(n, i + 1) == Keep(n.arguments[i..], NotAFunction)
    decreases |n.arguments| - i
  {
    if i < |n.arguments| {
      KeptArguments(n, i + 1);
      assert n.arguments[i..][1..] == n.arguments[i + 1..];
    }
  }

  lemma NothingCrossed(n: Node, i: nat)
    requires i <= |Kids(n)| && !IsBoundary(n) && (!OwnsItsFailures(n) || i > 0)
    ensures OpenKidsFrom(n, i) == Kids(n)[i..]
    decreases |Kids(n)| - i
  {
    if i < |Kids(n)| { NothingCrossed(n, i + 1); }
  }

  lemma OpenKidsByIndex(n: Node)
    ensures OpenKids(n) == OpenKidsFrom(n, 0)
  {
    hide RollsBack, SizeAll, Size;
    if OwnsItsFailures(n) {
      NothingCrossed(n, 1);
    } else if IsBoundary(n) {
      KeptArguments(n, 0);
      assert n.arguments[0..] == n.arguments;
    } else {
      NothingCrossed(n, 0);
    }
  }

  lemma CallsInAllOfConcat(a: seq<Node>, b: seq<Node>)
    ensures CallsInAll(a + b) == CallsInAll(a) + CallsInAll(b)
  {
    if a == [] {
      assert a + b == b;
    } else {
      assert (a + b)[1..] == a[1..] + b;
      CallsInAllOfConcat(a[1..], b);
    }
  }

  lemma FoundArePaths(n: Node, i: nat)
    requires i <= |Kids(n)|
    ensures forall p :: p in FoundPathsFrom(n, i) ==> IsPath(n, p)
    ensures forall p :: p in FoundPaths(n) ==> IsPath(n, p)
  {
    hide FoundPaths, FoundPathsFrom;
    forall p | p in FoundPathsFrom(n, i) ensures IsPath(n, p) { FoundFromIffReaches(n, i, p); }
    forall p | p in FoundPaths(n) ensures IsPath(n, p) { FoundIffReaches(n, p); }
  }

  lemma {:induction false} FoundAtPaths(n: Node)
    ensures forall p :: p in FoundPaths(n) ==> IsPath(n, p)
    ensures CallsIn(n) == NodesAt(n, FoundPaths(n))
    decreases Size(n), 1
  {
    hide FoundPaths, FoundPathsFrom, IsPath, NodesAt;
    FoundArePaths(n, 0);
    OpenKidsByIndex(n);
    FoundAtPathsFrom(n, 0);
    FoundHereAndBelow(n);
  }

  lemma {:induction false} FoundAtPathsFrom(n: Node, i: nat)
    requires i <= |Kids(n)|
    ensures forall p :: p in FoundPathsFrom(n, i) ==> IsPath(n, p)
    ensures CallsInAll(OpenKidsFrom(n, i)) == NodesAt(n, FoundPathsFrom(n, i))
    decreases Size(n), 0, |Kids(n)| - i
  {
    hide IsPath, FoundPaths, CallsIn, At;
    FoundArePaths(n, i);
    if i < |Kids(n)| {
      KidIsSmaller(n, Kids(n)[i]);
      FoundAtPaths(Kids(n)[i]);
      FoundAtPathsFrom(n, i + 1);
      hide NodesAt, OpenKidsFrom, FoundPathsFrom, CallsInAll;
      FoundStep(n, i);
    }
  }

  lemma FoundStep(n: Node, i: nat)
    requires i < |Kids(n)|
    requires forall p :: p in FoundPathsFrom(n, i) ==> IsPath(n, p)
    requires forall p :: p in FoundPathsFrom(n, i + 1) ==> IsPath(n, p)
    requires forall p :: p in FoundPaths(Kids(n)[i]) ==> IsPath(Kids(n)[i], p)
    requires CallsIn(Kids(n)[i]) == NodesAt(Kids(n)[i], FoundPaths(Kids(n)[i]))
    requires CallsInAll(OpenKidsFrom(n, i + 1)) == NodesAt(n, FoundPathsFrom(n, i + 1))
    ensures CallsInAll(OpenKidsFrom(n, i)) == NodesAt(n, FoundPathsFrom(n, i))
  {
    hide Crosses, IsPath, CallsIn, FoundPaths, Size, SizeAll, Kids;
    var k, kids, later := Kids(n)[i], OpenKidsFrom(n, i + 1), FoundPathsFrom(n, i + 1);
    if Crosses(n, i) {
      assert OpenKidsFrom(n, i) == kids && FoundPathsFrom(n, i) == later;
    } else {
      var here := Below(i, FoundPaths(k));
      NodesBelow(n, i, FoundPaths(k));
      NodesAtConcat(n, here, later);
      CallsInAllOfConcat([k], kids);
      assert CallsInAll([k]) == CallsIn(k) by { assert [k][1..] == []; }
    }
  }

  lemma FoundHereAndBelow(n: Node)
    requires forall p :: p in FoundPaths(n) ==> IsPath(n, p)
    requires forall p :: p in FoundPathsFrom(n, 0) ==> IsPath(n, p)
    requires CallsInAll(OpenKids(n)) == NodesAt(n, FoundPathsFrom(n, 0))
    ensures CallsIn(n) == NodesAt(n, FoundPaths(n))
  {
    hide OpenKids, FoundPathsFrom, CallsInAll, IsPath, Kids;
    var later := FoundPathsFrom(n, 0);
    if PassesTransaction(n) {
      NodesAtConcat(n, [[]], later);
    } else {
      assert FoundPaths(n) == later;
    }
  }

  lemma NodesBelow(n: Node, i: nat, ps: seq<Path>)
    requires i < |Kids(n)| && forall p :: p in ps ==> IsPath(Kids(n)[i], p)
    ensures forall p :: p in Below(i, ps) ==> IsPath(n, p)
    ensures NodesAt(n, Below(i, ps)) == NodesAt(Kids(n)[i], ps)
  {
    forall p | p in Below(i, ps) ensures IsPath(n, p) { InBelow(i, ps, p); }
    forall m | 0 <= m < |ps| ensures At(n, Below(i, ps)[m]) == At(Kids(n)[i], ps[m]) {
      assert Below(i, ps)[m] in Below(i, ps);
      assert Below(i, ps)[m][1..] == ps[m];
    }
  }

  lemma NodesAtConcat(n: Node, ps: seq<Path>, qs: seq<Path>)
    requires forall p :: p in ps + qs ==> IsPath(n, p)
    requires forall p :: p in ps ==> IsPath(n, p)
    requires forall p :: p in qs ==> IsPath(n, p)
    ensures NodesAt(n, ps + qs) == NodesAt(n, ps) + NodesAt(n, qs)
  {
  }

  lemma BeforeIsStrict(p: Path)
    ensures !Before(p, p)
    decreases |p|
  {
    if p != [] { BeforeIsStrict(p[1..]); }
  }

  /**
   * Exact reachability: the calls found are those at the ends of exactly the open paths to transaction-bearing calls,
   * one for each path, in the order of the walk.
   */
  lemma ExactReachability(n: Node)
    ensures var ps := FoundPaths(n);
            && (forall p :: p in ps <==> Reaches(n, p))
            && (forall i, j :: 0 <= i < j < |ps| ==> Before(ps[i], ps[j]) && ps[i] != ps[j])
            && CallsIn(n) == NodesAt(n, ps)
  {
    var ps := FoundPaths(n);
    FoundAtPaths(n);
    FoundInWalkOrder(n);
    forall p ensures p in ps <==> Reaches(n, p) { FoundIffReaches(n, p); }
    forall i, j | 0 <= i < j < |ps| ensures Before(ps[i], ps[j]) && ps[i] != ps[j] { BeforeIsStrict(ps[i]); }
  }
}
