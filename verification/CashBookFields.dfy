/** Which payout gets which cash-book row, told by the fields of the two and their places in the lists. */
module CashBookFields {
  import opened Wrappers
  import opened CashBook
  import opened CashBookRepair
  import opened CashBookRun

  // ---------- what agrees with what ----------

  /** The decimal digits of `n`, the first of them not a zero unless it is the only one. */
  predicate IsDecimal(t: string, n: nat) {
    && t != "" && (forall k :: 0 <= k < |t| ==> '0' <= t[k] <= '9') && Value(t) == n
    && (t[0] == '0' ==> |t| == 1)
  }

  lemma NoLeadingZero(t: string)
    requires t != "" && t[0] != '0' && forall k :: 0 <= k < |t| ==> '0' <= t[k] <= '9'
    ensures Value(t) > 0
    decreases |t|
  {
    if |t| == 1 { assert t[..0] == []; } else { NoLeadingZero(t[..|t| - 1]); }
  }

  lemma {:induction false} DigitsAreDecimal(t: string, n: nat)
    ensures IsDecimal(t, n) <==> t == Digits(n)
    decreases n
  {
    DigitsAreDigits(n);
    if n >= 10 {
      DigitsAreDecimal(Digits(n / 10), n / 10);
      assert Digits(n)[0] == Digits(n / 10)[0];
    }
    if IsDecimal(t, n) { DecimalIsDigits(t, n); }
  }

  lemma {:induction false} DecimalIsDigits(t: string, n: nat)
    requires IsDecimal(t, n)
    ensures t == Digits(n)
    decreases |t|
  {
    var front := t[..|t| - 1];
    if |t| == 1 {
      assert front == [] && Value(front) == 0 && t == [t[0]];
      assert n == 10 * Value(front) + (t[|t| - 1] - '0') as nat;
    } else {
      assert front[0] == t[0];
      NoLeadingZero(front);
      assert n == 10 * Value(front) + (t[|t| - 1] - '0') as nat;
      assert n / 10 == Value(front) && n % 10 == (t[|t| - 1] - '0') as nat && n >= 10;
      DecimalIsDigits(front, n / 10);
      assert t == front + [t[|t| - 1]];
    }
  }

  /** The company is the same one or both have none, or the row has number zero where the payout has none. */
  predicate IsOfCompany(row: Option<int>, payout: Option<int>) {
    row == payout || (row == Some(0) && payout.None?)
  }

  /** The row's reference is the batch of the payout, a hyphen and the payout's id in decimal. */
  ghost predicate HasOwnReference(reference: string, p: Payout) {
    exists t :: IsDecimal(t, p.id) && reference == (match p.batch case Some(b) => b case None => "null") + "-" + t
  }

  lemma OwnReferenceSpelled(p: Payout, reference: string)
    ensures HasOwnReference(reference, p) <==> reference == OwnReference(p)
  {
    DigitsAreDecimal(Digits(p.id), p.id);
    if HasOwnReference(reference, p) {
      var t :| IsDecimal(t, p.id) && reference == (match p.batch case Some(b) => b case None => "null") + "-" + t;
      DigitsAreDecimal(t, p.id);
    }
  }

  /** The row names the payout. */
  ghost predicate IsOwn(r: CashRow, p: Payout) {
    IsOfCompany(r.company, p.company) && r.reference.Some? && HasOwnReference(r.reference.value, p)
  }

  /** The row is of the old shape: company, realtor and amount agree, and it refers to the batch or the bank's reference. */
  predicate IsOld(r: CashRow, p: Payout) {
    && IsOfCompany(r.company, p.company) && r.amount == p.net
    && (r.user == p.realtor || (r.user.None? && p.realtor == Some(0)) || (r.user == Some(0) && p.realtor.None?))
    && r.reference.Some? && r.reference.value != ""
    && (r.reference == p.batch || r.reference == p.bankReference)
  }

  lemma MatchesInFields(r: CashRow, p: Payout)
    ensures Matches(Own, r, p) <==> IsOwn(r, p)
    ensures Matches(OldShape, r, p) <==> IsOld(r, p)
  {
    if r.reference.Some? { OwnReferenceSpelled(p, r.reference.value); }
  }

  ghost predicate IsClaim(m: Claims, ps: seq<Payout>, rows: seq<CashRow>, i: nat) {
    i in m && exists p, r :: p in ps && r in rows && p.id == i && r.id == m[i] && (IsOwn(r, p) || IsOld(r, p))
  }

  /** Every claim is of a row that agrees with the payout, no row is claimed twice, and what is left over disagrees. */
  lemma LeftoversDisagree(ps: seq<Payout>, rows: seq<CashRow>)
    requires DistinctPayouts(ps)
    ensures var m := Reconcile(ps, rows);
            && (forall i :: i in m ==> IsClaim(m, ps, rows, i))
            && (forall i, j :: i in m && j in m && i != j ==> m[i] != m[j])
            && forall p, r :: p in Missing(ps, rows) && r in rows && r.id !in m.Values ==> !IsOwn(r, p) && !IsOld(r, p)
  {
    hide Reconcile, Matches, IsOwn, IsOld;
    var m := Reconcile(ps, rows);
    ReconcileIsMaximal(ps, rows);
    UnrecordedMembers(ps, m);
    forall i | i in m ensures IsClaim(m, ps, rows, i) {
      var p, r :| p in ps && r in rows && p.id == i && r.id == m[i] && (Matches(Own, r, p) || Matches(OldShape, r, p));
      MatchesInFields(r, p);
    }
    forall p, r | p in Missing(ps, rows) && r in rows && r.id !in m.Values ensures !IsOwn(r, p) && !IsOld(r, p) {
      MatchesInFields(r, p);
    }
  }

  // ---------- who is served, and with which row ----------

  ghost predicate HasOwnRow(rows: seq<CashRow>, p: Payout) {
    exists r :: r in rows && IsOwn(r, p)
  }

  /** The claim is made before payout `k` looks for a row of the old shape. */
  ghost predicate IsEarlier(ps: seq<Payout>, rows: seq<CashRow>, m: Claims, k: nat, i: nat) {
    i < |ps| && ps[i].id in m && (i < k || HasOwnRow(rows, ps[i]))
  }

  ghost predicate IsTaken(ps: seq<Payout>, rows: seq<CashRow>, m: Claims, k: nat, row: nat) {
    exists i: nat :: IsEarlier(ps, rows, m, k, i) && m[ps[i].id] == row
  }

  /** The first row that names the payout. */
  ghost predicate IsFirstOwn(rows: seq<CashRow>, p: Payout, j: nat) {
    j < |rows| && IsOwn(rows[j], p) && forall l :: 0 <= l < j ==> !IsOwn(rows[l], p)
  }

  /** The first row of the old shape that no payout before has. */
  ghost predicate IsFirstOld(ps: seq<Payout>, rows: seq<CashRow>, m: Claims, k: nat, j: nat)
    requires k < |ps|
  {
    && j < |rows| && IsOld(rows[j], ps[k]) && !IsTaken(ps, rows, m, k, rows[j].id)
    && forall l :: 0 <= l < j && IsOld(rows[l], ps[k]) ==> IsTaken(ps, rows, m, k, rows[l].id)
  }

  lemma FirstIsFirst(rows: seq<CashRow>, claimed: set<nat>, rule: Rule, p: Payout) returns (j: nat)
    ensures match First(rows, claimed, rule, p)
            case None => j == |rows|
            case Some(r) => j < |rows| && rows[j] == r && Matches(rule, r, p) && r.id !in claimed
    ensures forall l :: 0 <= l < j && Matches(rule, rows[l], p) ==> rows[l].id in claimed
  {
    hide Matches;
    j := 0;
    if rows != [] && !(rows[0].id !in claimed && Matches(rule, rows[0], p)) {
      j := FirstIsFirst(rows[1..], claimed, rule, p);
      j := j + 1;
    }
  }

  lemma {:induction false} PassInTwo(a: seq<Payout>, b: seq<Payout>, rows: seq<CashRow>, rule: Rule, m: Claims)
    ensures Pass(a + b, rows, rule, m) == Pass(b, rows, rule, Pass(a, rows, rule, m))
    decreases |a|
  {
    if a == [] {
      assert a + b == b;
    } else {
      assert (a + b)[0] == a[0] && (a + b)[1..] == a[1..] + b;
      PassInTwo(a[1..], b, rows, rule, Claim(m, rows, rule, a[0]));
    }
  }

  /** In its turn a payout claims what it then finds, and nothing later changes that. */
  lemma ClaimInTurn(a: seq<Payout>, p: Payout, b: seq<Payout>, rows: seq<CashRow>, rule: Rule, m: Claims)
    requires DistinctPayouts(a + [p] + b) && forall q :: q in a + [p] + b ==> q.id !in m
    ensures var mid, n := Pass(a, rows, rule, m), Pass(a + [p] + b, rows, rule, m);
            && mid.Keys <= n.Keys && (forall i :: i in mid ==> n[i] == mid[i])
            && (forall i :: i in n && i !in mid ==> exists q :: q in [p] + b && q.id == i)
            && match First(rows, mid.Values, rule, p)
               case Some(r) => p.id in n && n[p.id] == r.id
               case None => p.id !in n
  {
    hide First;
    var mid := Pass(a, rows, rule, m);
    assert a + [p] + b == a + ([p] + b);
    PassInTwo(a, [p] + b, rows, rule, m);
    var all := a + [p] + b;
    forall q | q in a ensures q in all { }
    DistinctParts(a, [p] + b);
    PassGrows(a, rows, rule, m);
    forall q | q in [p] + b ensures q.id !in mid {
      assert q in all;
      forall s | s in a ensures s.id != q.id { NotInBoth(a, [p] + b, s, q); }
    }
    PassGrows([p] + b, rows, rule, mid);
    var next := Claim(mid, rows, rule, p);
    assert ([p] + b)[1..] == b;
    DistinctParts([p], b);
    forall q | q in b ensures q.id !in next { NotInBoth([p], b, p, q); }
    PassGrows(b, rows, rule, next);
    forall q | q in b ensures q.id != p.id { NotInBoth([p], b, p, q); }
  }

  lemma DistinctParts(a: seq<Payout>, b: seq<Payout>)
    requires DistinctPayouts(a + b)
    ensures DistinctPayouts(a) && DistinctPayouts(b)
  {
    var all := a + b;
    assert forall k :: 0 <= k < |a| ==> a[k] == all[k];
    assert forall k :: 0 <= k < |b| ==> b[k] == all[|a| + k];
  }

  lemma NotInBoth(a: seq<Payout>, b: seq<Payout>, p: Payout, q: Payout)
    requires DistinctPayouts(a + b) && p in a && q in b
    ensures p.id != q.id
  {
    var i :| 0 <= i < |a| && a[i] == p;
    var j :| 0 <= j < |b| && b[j] == q;
    assert (a + b)[i] == p && (a + b)[|a| + j] == q;
  }

  lemma Halves(m: Claims, a: seq<Payout>, b: seq<Payout>)
    ensures Unrecorded(a + b, m) == Unrecorded(a, m) + Unrecorded(b, m)
  {
    if a == [] {
      assert a + b == b;
    } else {
      assert (a + b)[0] == a[0] && (a + b)[1..] == a[1..] + b;
      Halves(m, a[1..], b);
    }
  }

  lemma AroundPlace(ps: seq<Payout>, k: nat)
    requires k < |ps|
    ensures ps == ps[..k] + [ps[k]] + ps[k + 1..]
  {
  }

  /** Pass 1: whoever is named by a row claims the first such row, and nobody else claims any. */
  lemma OwnPassInFields(ps: seq<Payout>, rows: seq<CashRow>, k: nat)
    requires DistinctPayouts(ps) && DistinctRows(rows) && k < |ps|
    ensures var first, p := Pass(ps, rows, Own, map[]), ps[k];
            && (p.id in first <==> HasOwnRow(rows, p))
            && (p.id in first ==> exists j: nat :: IsFirstOwn(rows, p, j) && first[p.id] == rows[j].id)
  {
    hide Matches, IsOwn, First, Pass;
    var p, mid, first := ps[k], Pass(ps[..k], rows, Own, map[]), Pass(ps, rows, Own, map[]);
    AroundPlace(ps, k);
    ClaimInTurn(ps[..k], p, ps[k + 1..], rows, Own, map[]);
    var j := FirstIsFirst(rows, mid.Values, Own, p);
    forall l: nat | l < |rows| ensures Matches(Own, rows[l], p) <==> IsOwn(rows[l], p) { MatchesInFields(rows[l], p); }
    forall l | 0 <= l < |rows| && Matches(Own, rows[l], p) ensures rows[l].id !in mid.Values {
      NotForAnother(ps, rows, k, rows[l]);
    }
    assert j < |rows| ==> IsFirstOwn(rows, p, j);
  }

  /** No payout before `k` claims a row that names payout `k`. */
  lemma NotForAnother(ps: seq<Payout>, rows: seq<CashRow>, k: nat, r: CashRow)
    requires DistinctPayouts(ps) && DistinctRows(rows) && k < |ps| && r in rows && Matches(Own, r, ps[k])
    ensures r.id !in Pass(ps[..k], rows, Own, map[]).Values
  {
    var mid := Pass(ps[..k], rows, Own, map[]);
    hide Pass;
    assert DistinctPayouts(ps[..k]);
    OwnClaims(ps[..k], rows);
    if r.id in mid.Values {
      var i :| i in mid && mid[i] == r.id;
      var q, s :| q in ps[..k] && s in rows && q.id == i && s.id == mid[i] && Matches(Own, s, q);
      SameRow(rows, r, s);
      OwnReferencesDiffer(ps[k], q);
    }
  }

  ghost predicate IsOwnClaim(m: Claims, ps: seq<Payout>, rows: seq<CashRow>, i: nat) {
    i in m && exists q, s :: q in ps && s in rows && q.id == i && s.id == m[i] && Matches(Own, s, q)
  }

  lemma {:induction false} OwnClaims(ps: seq<Payout>, rows: seq<CashRow>)
    requires DistinctPayouts(ps)
    ensures forall i :: i in Pass(ps, rows, Own, map[]) ==> IsOwnClaim(Pass(ps, rows, Own, map[]), ps, rows, i)
  {
    hide Matches, First, Pass;
    var m := Pass(ps, rows, Own, map[]);
    PassGrows(ps, rows, Own, map[]);
    forall i | i in m ensures IsOwnClaim(m, ps, rows, i) {
      var q :| q in ps && q.id == i;
      var k :| 0 <= k < |ps| && ps[k] == q;
      AroundPlace(ps, k);
      ClaimInTurn(ps[..k], q, ps[k + 1..], rows, Own, map[]);
      var j := FirstIsFirst(rows, Pass(ps[..k], rows, Own, map[]).Values, Own, q);
    }
  }

  /** The rows claimed when payout `k` looks for one of the old shape are those of the claims before. */
  lemma TakenByThen(ps: seq<Payout>, rows: seq<CashRow>, k: nat, row: nat)
    requires DistinctPayouts(ps) && DistinctRows(rows) && k < |ps| && !HasOwnRow(rows, ps[k])
    ensures var first := Pass(ps, rows, Own, map[]);
            row in Pass(Unrecorded(ps[..k], first), rows, OldShape, first).Values <==>
            IsTaken(ps, rows, Reconcile(ps, rows), k, row)
  {
    hide IsOwn, HasOwnRow, First, Pass, Reconcile;
    var first, m := Pass(ps, rows, Own, map[]), Reconcile(ps, rows);
    var before := Unrecorded(ps[..k], first);
    var mid := Pass(before, rows, OldShape, first);
    forall l: nat | l < |ps| ensures ps[l].id in first <==> HasOwnRow(rows, ps[l]) { OwnPassInFields(ps, rows, l); }
    SecondTurn(ps, rows, k);
    if row in mid.Values {
      var i :| i in mid && mid[i] == row;
      var l := PlaceInMid(ps, rows, k, i);
      assert IsEarlier(ps, rows, m, k, l);
    }
    if IsTaken(ps, rows, m, k, row) {
      var l: nat :| IsEarlier(ps, rows, m, k, l) && m[ps[l].id] == row;
      if l < k { EarlierInMid(ps, rows, k, l); }
      assert ps[l].id in mid;
    }
  }

  lemma LeftInThree(ps: seq<Payout>, m: Claims, k: nat)
    requires k < |ps| && ps[k].id !in m
    ensures Unrecorded(ps, m) == Unrecorded(ps[..k], m) + [ps[k]] + Unrecorded(ps[k + 1..], m)
  {
    AroundPlace(ps, k);
    Halves(m, ps[..k] + [ps[k]], ps[k + 1..]);
    Halves(m, ps[..k], [ps[k]]);
    assert Unrecorded([ps[k]], m) == [ps[k]];
  }

  /** Payout `k`, when pass 1 leaves it, has its turn in pass 2 after those before it that pass 1 leaves. */
  lemma SecondTurn(ps: seq<Payout>, rows: seq<CashRow>, k: nat)
    requires DistinctPayouts(ps) && k < |ps| && ps[k].id !in Pass(ps, rows, Own, map[])
    ensures var first, m, p := Pass(ps, rows, Own, map[]), Reconcile(ps, rows), ps[k];
            var mid := Pass(Unrecorded(ps[..k], first), rows, OldShape, first);
            && first.Keys <= mid.Keys <= m.Keys && (forall i :: i in mid ==> m[i] == mid[i])
            && (forall i :: i in first ==> mid[i] == first[i])
            && (forall i :: i in mid && i !in first ==> exists q :: q in Unrecorded(ps[..k], first) && q.id == i)
            && (forall i :: i in m && i !in mid ==> exists q :: q in [p] + Unrecorded(ps[k + 1..], first) && q.id == i)
            && match First(rows, mid.Values, OldShape, p)
               case Some(r) => p.id in m && m[p.id] == r.id
               case None => p.id !in m
  {
    hide First, Pass;
    var first := Pass(ps, rows, Own, map[]);
    var a, b := Unrecorded(ps[..k], first), Unrecorded(ps[k + 1..], first);
    LeftInThree(ps, first, k);
    UnrecordedMembers(ps, first);
    hide Unrecorded;
    ClaimInTurn(a, ps[k], b, rows, OldShape, first);
    DistinctParts(a, [ps[k]] + b) by { assert a + [ps[k]] + b == a + ([ps[k]] + b); }
    forall q | q in a ensures q.id !in first { assert q in a + [ps[k]] + b; }
    PassGrows(a, rows, OldShape, first);
  }

  lemma PlaceInMid(ps: seq<Payout>, rows: seq<CashRow>, k: nat, i: nat) returns (l: nat)
    requires DistinctPayouts(ps) && k < |ps|
    requires var first := Pass(ps, rows, Own, map[]);
             ps[k].id !in first && i in Pass(Unrecorded(ps[..k], first), rows, OldShape, first)
    ensures l < |ps| && ps[l].id == i && (l < k || i in Pass(ps, rows, Own, map[]))
  {
    hide Pass, Reconcile;
    var first := Pass(ps, rows, Own, map[]);
    SecondTurn(ps, rows, k);
    if i in first {
      PassGrows(ps, rows, Own, map[]);
      var q :| q in ps && q.id == i;
      l :| 0 <= l < |ps| && ps[l] == q;
    } else {
      UnrecordedMembers(ps[..k], first);
      var q :| q in Unrecorded(ps[..k], first) && q.id == i;
      l :| 0 <= l < k && ps[..k][l] == q;
    }
  }

  lemma EarlierInMid(ps: seq<Payout>, rows: seq<CashRow>, k: nat, l: nat)
    requires DistinctPayouts(ps) && l < k < |ps| && ps[k].id !in Pass(ps, rows, Own, map[])
    requires ps[l].id in Reconcile(ps, rows)
    ensures var first := Pass(ps, rows, Own, map[]);
            ps[l].id in Pass(Unrecorded(ps[..k], first), rows, OldShape, first)
  {
    hide Pass, Reconcile;
    var first := Pass(ps, rows, Own, map[]);
    SecondTurn(ps, rows, k);
    UnrecordedMembers(ps[k + 1..], first);
    forall q | q in [ps[k]] + Unrecorded(ps[k + 1..], first) ensures q.id != ps[l].id {
      if q != ps[k] {
        var j :| 0 <= j < |ps[k + 1..]| && ps[k + 1..][j] == q;
      }
    }
  }

  /**
   * Who is served: a payout named by a row gets the first such row. Any other gets, of the rows of the old shape, the
   * first that no payout named by a row and no payout before it has; and nothing if there is none.
   */
  lemma ServedInOrder(ps: seq<Payout>, rows: seq<CashRow>, k: nat)
    requires DistinctPayouts(ps) && DistinctRows(rows) && k < |ps|
    ensures var m, p := Reconcile(ps, rows), ps[k];
            if HasOwnRow(rows, p) then p.id in m && exists j: nat :: IsFirstOwn(rows, p, j) && m[p.id] == rows[j].id
            else if p.id in m then exists j: nat :: IsFirstOld(ps, rows, m, k, j) && m[p.id] == rows[j].id
            else forall r :: r in rows && IsOld(r, p) ==> IsTaken(ps, rows, m, k, r.id)
  {
    hide First, Pass, Reconcile, Matches, IsOwn, IsOld;
    var first, m, p := Pass(ps, rows, Own, map[]), Reconcile(ps, rows), ps[k];
    OwnPassInFields(ps, rows, k);
    if HasOwnRow(rows, p) {
      OwnClaimsStay(ps, rows, p.id);
    } else {
      SecondTurn(ps, rows, k);
      var mid := Pass(Unrecorded(ps[..k], first), rows, OldShape, first);
      var j := FirstIsFirst(rows, mid.Values, OldShape, p);
      forall l: nat | l < |rows|
        ensures Matches(OldShape, rows[l], p) <==> IsOld(rows[l], p)
        ensures rows[l].id in mid.Values <==> IsTaken(ps, rows, m, k, rows[l].id)
      {
        MatchesInFields(rows[l], p);
        TakenByThen(ps, rows, k, rows[l].id);
      }
      hide IsTaken;
      assert j < |rows| ==> IsFirstOld(ps, rows, m, k, j);
    }
  }

  lemma OwnClaimsStay(ps: seq<Payout>, rows: seq<CashRow>, i: nat)
    requires DistinctPayouts(ps) && i in Pass(ps, rows, Own, map[])
    ensures i in Reconcile(ps, rows) && Reconcile(ps, rows)[i] == Pass(ps, rows, Own, map[])[i]
  {
    var first := Pass(ps, rows, Own, map[]);
    UnrecordedMembers(ps, first);
    PassGrows(Unrecorded(ps, first), rows, OldShape, first);
  }

  // ---------- oldest first ----------

  /** Paid earlier, an unknown time being 1970, or at the same time with a smaller id. */
  predicate IsOlder(p: Payout, q: Payout) {
    var s, t := match p.paidAt { case Some(s) => s case None => 0 }, match q.paidAt { case Some(t) => t case None => 0 };
    s < t || (s == t && p.id < q.id)
  }

  /** Two payouts that differ in nothing but their ids and times. */
  predicate AreAlike(p: Payout, q: Payout) {
    && p.company == q.company && p.batch == q.batch && p.realtor == q.realtor && p.net == q.net
    && p.bankReference == q.bankReference
  }

  /** Of payouts alike, oldest first, the older is served before the younger, unless a row names the younger. */
  lemma OlderIsServedFirst(ps: seq<Payout>, rows: seq<CashRow>, p: Payout, q: Payout)
    requires DistinctPayouts(ps) && DistinctRows(rows) && IsOldestFirst(ps) && p in ps && q in ps
    requires AreAlike(p, q) && IsOlder(p, q) && !HasOwnRow(rows, q)
    ensures p in Missing(ps, rows) ==> q in Missing(ps, rows)
  {
    hide Reconcile, HasOwnRow;
    var m := Reconcile(ps, rows);
    UnrecordedMembers(ps, m);
    var i :| 0 <= i < |ps| && ps[i] == p;
    var j :| 0 <= j < |ps| && ps[j] == q;
    assert i < j;
    ServedInOrder(ps, rows, i);
    ServedInOrder(ps, rows, j);
    forall row: nat | IsTaken(ps, rows, m, i, row) ensures IsTaken(ps, rows, m, j, row) {
      TakenLater(ps, rows, m, i, j, row);
    }
    assert forall l: nat :: IsFirstOld(ps, rows, m, j, l) ==> rows[l] in rows && IsOld(rows[l], p);
  }

  lemma TakenLater(ps: seq<Payout>, rows: seq<CashRow>, m: Claims, i: nat, j: nat, row: nat)
    requires i <= j && IsTaken(ps, rows, m, i, row)
    ensures IsTaken(ps, rows, m, j, row)
  {
    hide HasOwnRow;
    var l: nat :| IsEarlier(ps, rows, m, i, l) && m[ps[l].id] == row;
    assert IsEarlier(ps, rows, m, j, l);
  }
}
