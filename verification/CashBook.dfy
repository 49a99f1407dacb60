/** Matching paid payouts against cash-book rows, and restoring the rows that are missing. */
module CashBook {
  import opened Wrappers

  /** A paid payout; money in minor units, times in milliseconds. */
  datatype Payout = Payout(
    id: nat, company: Option<int>, batch: Option<string>, realtor: Option<int>, net: int,
    paidAt: Option<int>, bankReference: Option<string>)

  /** A commission_payout row of the cash book, its amount in minor units. */
  datatype CashRow = CashRow(id: nat, company: Option<int>, user: Option<int>, amount: int, reference: Option<string>)

  /** Number(x): a missing value counts as zero. */
  function Number(o: Option<int>): int {
    if o.Some? then o.value else 0
  }

  /** The row's company against the payout's. */
  predicate SameCompany(a: Option<int>, b: Option<int>) {
    if a.None? then b.None? else a.value == Number(b)
  }

  function Digits(n: nat): string {
    if n < 10 then [n as char + '0'] else Digits(n / 10) + [(n % 10) as char + '0']
  }

  /** The reference a payout's own row carries. */
  function OwnReference(p: Payout): string {
    (if p.batch.Some? then p.batch.value else "null") + "-" + Digits(p.id)
  }

  datatype Rule = Own | OldShape

  predicate Names(o: Option<string>, reference: string) {
    o == Some(reference) && reference != ""
  }

  predicate Matches(rule: Rule, r: CashRow, p: Payout) {
    && SameCompany(r.company, p.company)
    && r.reference.Some?
    && match rule
       case Own => r.reference.value == OwnReference(p)
       case OldShape =>
         && (Names(p.batch, r.reference.value) || Names(p.bankReference, r.reference.value))
         && Number(r.user) == Number(p.realtor)
         && r.amount == p.net
  }

  /** Which row each recorded payout has claimed, by id. */
  type Claims = map<nat, nat>

  function First(rows: seq<CashRow>, claimed: set<nat>, rule: Rule, p: Payout): (o: Option<CashRow>)
    ensures o.Some? ==> o.value in rows && o.value.id !in claimed && Matches(rule, o.value, p)
    ensures o.None? ==> forall r :: r in rows && r.id !in claimed ==> !Matches(rule, r, p)
  {
    if rows == [] then None
    else if rows[0].id !in claimed && Matches(rule, rows[0], p) then Some(rows[0])
    else First(rows[1..], claimed, rule, p)
  }

  function Claim(m: Claims, rows: seq<CashRow>, rule: Rule, p: Payout): Claims {
    match First(rows, m.Values, rule, p)
    case Some(r) => m[p.id := r.id]
    case None => m
  }

  /** Each payout in turn claims the first unclaimed row that matches it. */
  function Pass(ps: seq<Payout>, rows: seq<CashRow>, rule: Rule, m: Claims): Claims {
    if ps == [] then m else Pass(ps[1..], rows, rule, Claim(m, rows, rule, ps[0]))
  }

  function Unrecorded(ps: seq<Payout>, m: Claims): seq<Payout> {
    if ps == [] then []
    else if ps[0].id in m then Unrecorded(ps[1..], m)
    else [ps[0]] + Unrecorded(ps[1..], m)
  }

  /** Own references first, then the old shape for the payouts that are left. */
  function Reconcile(ps: seq<Payout>, rows: seq<CashRow>): Claims {
    var m := Pass(ps, rows, Own, map[]);
    Pass(Unrecorded(ps, m), rows, OldShape, m)
  }

  function Missing(ps: seq<Payout>, rows: seq<CashRow>): seq<Payout> {
    Unrecorded(ps, Reconcile(ps, rows))
  }

  // ---------- ids ----------

  predicate DistinctPayouts(ps: seq<Payout>) {
    forall i, j :: 0 <= i < j < |ps| ==> ps[i].id != ps[j].id
  }

  predicate DistinctRows(rows: seq<CashRow>) {
    forall i, j :: 0 <= i < j < |rows| ==> rows[i].id != rows[j].id
  }

  lemma SamePayout(ps: seq<Payout>, p: Payout, q: Payout)
    requires DistinctPayouts(ps) && p in ps && q in ps && p.id == q.id
    ensures p == q
  {
  }

  lemma OtherPayout(ps: seq<Payout>, p: Payout, q: Payout)
    requires DistinctPayouts(ps) && p in ps && q in ps && p != q
    ensures p.id != q.id
  {
  }

  lemma SameRow(rows: seq<CashRow>, r: CashRow, s: CashRow)
    requires DistinctRows(rows) && r in rows && s in rows && r.id == s.id
    ensures r == s
  {
  }

  // ---------- a matching, and a maximal one ----------

  ghost predicate IsMatching(m: Claims, ps: seq<Payout>, rows: seq<CashRow>) {
    && (forall i, j :: i in m && j in m && i != j ==> m[i] != m[j])
    && forall i :: i in m ==> exists p, r :: p in ps && r in rows && p.id == i && r.id == m[i]
                                             && (Matches(Own, r, p) || Matches(OldShape, r, p))
  }

  lemma {:induction false} PassKeepsMatching(all: seq<Payout>, ps: seq<Payout>, rows: seq<CashRow>, rule: Rule, m: Claims)
    requires IsMatching(m, all, rows)
    requires forall p :: p in ps ==> p in all && p.id !in m
    requires DistinctPayouts(ps)
    ensures IsMatching(Pass(ps, rows, rule, m), all, rows)
    decreases |ps|
  {
    if ps != [] {
      var p := ps[0];
      var next := Claim(m, rows, rule, p);
      var o := First(rows, m.Values, rule, p);
      if o.Some? {
        forall i | i in next ensures exists q, r :: q in all && r in rows && q.id == i && r.id == next[i]
                                                     && (Matches(Own, r, q) || Matches(OldShape, r, q))
        {
          if i == p.id { assert p in all && o.value in rows; } else { assert i in m && next[i] == m[i]; }
        }
        forall i, j | i in next && j in next && i != j ensures next[i] != next[j] {
          if i != p.id { assert m[i] in m.Values; }
          if j != p.id { assert m[j] in m.Values; }
        }
      }
      PassKeepsMatching(all, ps[1..], rows, rule, next);
    }
  }

  /** Claims only grow, and a payout that is left out had no row to claim. */
  lemma {:induction false} PassGrows(ps: seq<Payout>, rows: seq<CashRow>, rule: Rule, m: Claims)
    requires DistinctPayouts(ps) && forall p :: p in ps ==> p.id !in m
    ensures var n := Pass(ps, rows, rule, m);
            && (forall i :: i in m ==> i in n && n[i] == m[i]) && m.Values <= n.Values
            && (forall i :: i in n && i !in m ==> exists p :: p in ps && p.id == i)
            && (forall p, r :: p in ps && p.id !in n && r in rows && r.id !in n.Values ==> !Matches(rule, r, p))
    decreases |ps|
  {
    if ps != [] {
      var p := ps[0];
      var next := Claim(m, rows, rule, p);
      assert m.Values <= next.Values by {
        forall v | v in m.Values ensures v in next.Values {
          var i :| i in m && m[i] == v;
          assert i in next && next[i] == v;
        }
      }
      PassGrows(ps[1..], rows, rule, next);
      var n := Pass(ps, rows, rule, m);
      forall i | i in n && i !in m ensures exists q :: q in ps && q.id == i {
        if i !in next {
          var q :| q in ps[1..] && q.id == i;
          assert q in ps;
        } else {
          assert i == p.id && p in ps;
        }
      }
      forall q, r | q in ps && q.id !in n && r in rows && r.id !in n.Values ensures !Matches(rule, r, q) {
        if q == p { assert First(rows, m.Values, rule, p).None?; } else { assert q in ps[1..]; }
      }
    }
  }

  lemma UnrecordedMembers(ps: seq<Payout>, m: Claims)
    requires DistinctPayouts(ps)
    ensures forall p :: p in Unrecorded(ps, m) <==> p in ps && p.id !in m
    ensures DistinctPayouts(Unrecorded(ps, m))
  {
    if ps != [] { UnrecordedMembers(ps[1..], m); }
  }

  /**
   * The claims are a one-to-one matching under the two rules, and no payout it leaves out still fits a row it leaves
   * out under either rule.
   */
  lemma ReconcileIsMaximal(ps: seq<Payout>, rows: seq<CashRow>)
    requires DistinctPayouts(ps)
    ensures var m := Reconcile(ps, rows);
            && IsMatching(m, ps, rows)
            && (forall p, r :: p in ps && p.id !in m && r in rows && r.id !in m.Values ==>
                  !Matches(Own, r, p) && !Matches(OldShape, r, p))
  {
    var first := Pass(ps, rows, Own, map[]);
    PassKeepsMatching(ps, ps, rows, Own, map[]);
    PassGrows(ps, rows, Own, map[]);
    var left := Unrecorded(ps, first);
    UnrecordedMembers(ps, first);
    PassKeepsMatching(ps, left, rows, OldShape, first);
    PassGrows(left, rows, OldShape, first);
  }

  lemma InjectionBound<A, B>(s: set<A>, t: set<B>, f: A -> B)
    requires forall a :: a in s ==> f(a) in t
    requires forall a, b :: a in s && b in s && a != b ==> f(a) != f(b)
    ensures |s| <= |t|
  {
    if s != {} {
      var a :| a in s;
      InjectionBound(s - {a}, t - {f(a)}, f);
    }
  }

  /** Any one-to-one assignment of rows to payouts under the two rules. */
  ghost predicate IsAssignment(other: map<Payout, CashRow>, ps: seq<Payout>, rows: seq<CashRow>) {
    && (forall p :: p in other ==> p in ps && other[p] in rows
                                   && (Matches(Own, other[p], p) || Matches(OldShape, other[p], p)))
    && forall p, q :: p in other && q in other && p != q ==> other[p] != other[q]
  }

  /** Greedy matching records at least half as many payouts as any other assignment could. */
  lemma GreedyIsAtLeastHalf(ps: seq<Payout>, rows: seq<CashRow>, other: map<Payout, CashRow>)
    requires DistinctPayouts(ps) && DistinctRows(rows) && IsAssignment(other, ps, rows)
    ensures |other| <= 2 * |Reconcile(ps, rows)|
  {
    hide Matches, Reconcile;
    var m := Reconcile(ps, rows);
    ReconcileIsMaximal(ps, rows);
    var both := set p | p in other.Keys && p.id in m;
    var rest := other.Keys - both;
    SharedPayouts(ps, m, both);
    SharedRows(rows, m, other, rest);
    assert other.Keys == both + rest;
  }

  lemma SharedPayouts(ps: seq<Payout>, m: Claims, both: set<Payout>)
    requires DistinctPayouts(ps) && forall p :: p in both ==> p in ps && p.id in m
    ensures |both| <= |m|
  {
    forall p, q | p in both && q in both && p != q ensures p.id != q.id {
      if p.id == q.id { SamePayout(ps, p, q); }
    }
    InjectionBound(both, m.Keys, (p: Payout) => p.id);
  }

  lemma SharedRows(rows: seq<CashRow>, m: Claims, other: map<Payout, CashRow>, rest: set<Payout>)
    requires DistinctRows(rows)
    requires forall p :: p in rest ==> p in other && other[p] in rows && other[p].id in m.Values
    requires forall p, q :: p in rest && q in rest && p != q ==> other[p] != other[q]
    ensures |rest| <= |m|
  {
    var idOf := (p: Payout) => if p in other then other[p].id else 0;
    forall p, q | p in rest && q in rest && p != q ensures idOf(p) != idOf(q) {
      if idOf(p) == idOf(q) { SameRow(rows, other[p], other[q]); }
    }
    InjectionBound(rest, m.Values, idOf);
    ValuesAreFew(m);
  }

  lemma ValuesAreFew(m: Claims)
    ensures |m.Values| <= |m|
  {
    if m != map[] {
      var i :| i in m;
      var less := m - {i};
      ValuesAreFew(less);
      assert m.Values <= less.Values + {m[i]} by {
        forall v | v in m.Values ensures v in less.Values + {m[i]} {
          var j :| j in m && m[j] == v;
          if j != i { assert j in less && less[j] == v; }
        }
      }
      Subset(m.Values, less.Values + {m[i]});
      assert m.Keys == less.Keys + {i};
    }
  }

  lemma Subset<A>(s: set<A>, t: set<A>)
    requires s <= t
    ensures |s| <= |t|
  {
    InjectionBound(s, t, a => a);
  }
}
