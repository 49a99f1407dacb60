/** One run of the script: sorting, the two passes over shared sets, the report, the restore loop. */
module CashBookRun {
  import opened Wrappers
  import opened CashBook
  import opened CashBookRepair

  // ---------- oldest first ----------

  function PaidOrEpoch(p: Payout): int {
    if p.paidAt.Some? then p.paidAt.value else 0
  }

  /** Paid earlier, or at the same time with the smaller id. */
  predicate NotAfter(p: Payout, q: Payout) {
    PaidOrEpoch(p) < PaidOrEpoch(q) || (PaidOrEpoch(p) == PaidOrEpoch(q) && p.id <= q.id)
  }

  predicate IsOldestFirst(ps: seq<Payout>) {
    forall i, j :: 0 <= i < j < |ps| ==> NotAfter(ps[i], ps[j])
  }

  /** Payouts with distinct ids can be put oldest first in one way only, whatever sorts them. */
  lemma {:induction false} OldestFirstIsUnique(ps: seq<Payout>, qs: seq<Payout>)
    requires DistinctPayouts(ps) && DistinctPayouts(qs) && forall p :: p in ps <==> p in qs
    requires IsOldestFirst(ps) && IsOldestFirst(qs)
    ensures ps == qs
  {
    if ps == [] || qs == [] {
      HasMembers(ps);
      HasMembers(qs);
    } else {
      FirstIsOldest(ps, qs[0]);
      FirstIsOldest(qs, ps[0]);
      SamePayout(ps, ps[0], qs[0]);
      forall p ensures p in ps[1..] <==> p in qs[1..] {
        AllButFirst(ps, p);
        AllButFirst(qs, p);
      }
      OldestFirstIsUnique(ps[1..], qs[1..]);
      assert ps == [ps[0]] + ps[1..] && qs == [qs[0]] + qs[1..];
    }
  }

  lemma HasMembers(ps: seq<Payout>)
    ensures ps == [] <==> forall p :: p !in ps
  {
    if ps != [] { assert ps[0] in ps; }
  }

  lemma FirstIsOldest(ps: seq<Payout>, q: Payout)
    requires IsOldestFirst(ps) && q in ps
    ensures NotAfter(ps[0], q)
  {
  }

  lemma AllButFirst(ps: seq<Payout>, p: Payout)
    requires ps != [] && DistinctPayouts(ps)
    ensures p in ps[1..] <==> p in ps && p != ps[0]
  {
    assert p in ps <==> p == ps[0] || p in ps[1..];
  }

  // ---------- the passes ----------

  class Reconciliation {
    const cashRows: seq<CashRow>
    var claimed: set<nat>
    var recorded: set<nat>
    ghost var claims: Claims

    ghost predicate Consistent()
      reads this
    {
      claimed == claims.Values && recorded == claims.Keys
    }

    constructor (cashRows: seq<CashRow>)
      ensures this.cashRows == cashRows && Consistent() && claims == map[]
    {
      this.cashRows := cashRows;
      claimed, recorded, claims := {}, {}, map[];
    }

    /** The first unclaimed row that matches, now claimed. */
    method ClaimFor(rule: Rule, payout: Payout) returns (row: Option<CashRow>)
      modifies this`claimed
      ensures row == First(cashRows, old(claimed), rule, payout)
      ensures claimed == old(claimed) + if row.Some? then {row.value.id} else {}
    {
      assert cashRows[0..] == cashRows;
      for i := 0 to |cashRows|
        invariant claimed == old(claimed)
        invariant First(cashRows[i..], claimed, rule, payout) == First(cashRows, claimed, rule, payout)
      {
        assert cashRows[i..][1..] == cashRows[i + 1..];
        if cashRows[i].id !in claimed && Matches(rule, cashRows[i], payout) {
          claimed := claimed + {cashRows[i].id};
          return Some(cashRows[i]);
        }
      }
      return None;
    }

    method RunPass(rule: Rule, payouts: seq<Payout>)
      requires Consistent() && DistinctPayouts(payouts)
      requires forall p :: p in payouts ==> p.id !in claims
      modifies this
      ensures Consistent() && claims == Pass(payouts, cashRows, rule, old(claims))
    {
      assert payouts[0..] == payouts;
      for i := 0 to |payouts|
        invariant Consistent()
        invariant Pass(payouts[i..], cashRows, rule, claims) == Pass(payouts, cashRows, rule, old(claims))
        invariant forall k :: i <= k < |payouts| ==> payouts[k].id !in claims
      {
        var payout := payouts[i];
        assert payouts[i..][1..] == payouts[i + 1..];
        var row := ClaimFor(rule, payout);
        if row.Some? {
          AddedValue(claims, payout.id, row.value.id);
          recorded := recorded + {payout.id};
          claims := claims[payout.id := row.value.id];
        }
      }
    }

    /** The payouts that the two passes leave without a row. */
    method FindMissing(payouts: seq<Payout>) returns (missing: seq<Payout>)
      requires Consistent() && claims == map[] && DistinctPayouts(payouts)
      modifies this
      ensures Consistent() && claims == Reconcile(payouts, cashRows) && missing == Missing(payouts, cashRows)
    {
      RunPass(Own, payouts);
      UnrecordedMembers(payouts, claims);
      var left := NotRecorded(payouts);
      RunPass(OldShape, left);
      missing := NotRecorded(payouts);
    }

    method NotRecorded(payouts: seq<Payout>) returns (left: seq<Payout>)
      requires Consistent()
      ensures left == Unrecorded(payouts, claims)
    {
      left := [];
      assert payouts[0..] == payouts;
      for i := 0 to |payouts|
        invariant left + Unrecorded(payouts[i..], claims) == Unrecorded(payouts, claims)
      {
        assert payouts[i..][1..] == payouts[i + 1..];
        if payouts[i].id !in recorded { left := left + [payouts[i]]; }
      }
    }
  }

  lemma AddedValue(m: Claims, i: nat, v: nat)
    requires i !in m
    ensures m[i := v].Values == m.Values + {v}
  {
    var n := m[i := v];
    forall x | x in m.Values + {v} ensures x in n.Values {
      if x == v {
        assert n[i] == x;
      } else {
        var j :| j in m && m[j] == x;
        assert n[j] == x;
      }
    }
  }

  // ---------- the restore loop ----------

  /** 2026-09-20T00:00:00Z, since when payouts have written cash-book rows. */
  const CASH_BOOK_SINCE: int := 1789862400000

  predicate IsLegacy(p: Payout) {
    p.paidAt.Some? && p.paidAt.value < CASH_BOOK_SINCE
  }

  function Recent(ps: seq<Payout>): seq<Payout> {
    if ps == [] then [] else if IsLegacy(ps[0]) then Recent(ps[1..]) else [ps[0]] + Recent(ps[1..])
  }

  lemma RecentMembers(ps: seq<Payout>)
    requires DistinctPayouts(ps)
    ensures DistinctPayouts(Recent(ps)) && forall p :: p in Recent(ps) <==> p in ps && !IsLegacy(p)
  {
    if ps != [] {
      var rest := Recent(ps[1..]);
      RecentMembers(ps[1..]);
      forall p ensures p in ps[1..] <==> p in ps && p != ps[0] { AllButFirst(ps, p); }
      forall k | 0 <= k < |rest| ensures rest[k].id != ps[0].id { OtherPayout(ps, rest[k], ps[0]); }
    }
  }

  class Transactions {
    var rows: seq<CashRow>
    var nextId: nat
    var taken: set<(int, string)>

    function AsBook(): Book
      reads this
    {
      Book(rows, nextId, taken)
    }

    /** Fails, changing nothing, when the company has used the reference already. */
    method InsertRow(p: Payout) returns (duplicate: bool)
      modifies this
      ensures duplicate == IsDuplicate(old(AsBook()), p)
      ensures AsBook() == if duplicate then old(AsBook()) else Insert(old(AsBook()), p)
    {
      var reference := OwnReference(p);
      duplicate := p.company.Some? && (p.company.value, reference) in taken;
      if duplicate { return; }
      rows := rows + [RestoredRow(p, nextId)];
      nextId := nextId + 1;
      if p.company.Some? { taken := taken + {(p.company.value, reference)}; }
    }

    /** Restores one row for each payout, passing over duplicates, and counts them. */
    method RestoreRows(todo: seq<Payout>) returns (restored: nat)
      modifies this
      ensures AsBook() == Restore(todo, old(AsBook()))
      ensures restored == |rows| - old(|rows|)
    {
      restored := 0;
      assert todo[0..] == todo;
      for i := 0 to |todo|
        invariant Restore(todo[i..], AsBook()) == Restore(todo, old(AsBook()))
        invariant restored == |rows| - old(|rows|)
      {
        assert todo[i..][1..] == todo[i + 1..];
        var duplicate := InsertRow(todo[i]);
        if !duplicate { restored := restored + 1; }
      }
    }
  }

  /** `--apply --skip-legacy`: a rerun still misses the legacy payouts and those whose reference was taken, no others. */
  lemma SkippingLegacy(ps: seq<Payout>, b: Book)
    requires DistinctPayouts(ps) && IsBook(b)
    ensures var missing := Missing(ps, b.rows);
            var after := Restore(Recent(missing), b);
            && Reconcile(ps, after.rows) == Reconcile(ps, b.rows) + Restored(Recent(missing), b)
            && forall p :: p in Missing(ps, after.rows) <==> p in missing && (IsLegacy(p) || IsDuplicate(b, p))
  {
    var missing := Missing(ps, b.rows);
    var todo := Recent(missing);
    UnrecordedMembers(ps, Reconcile(ps, b.rows));
    RecentMembers(missing);
    RestoreIsRestored(ps, todo, b);
    RestoredIds(todo, b);
    forall i | i in Restored(todo, b) ensures exists p :: p in missing && p.id == i {
      var p :| p in todo && p.id == i;
    }
    RerunAfterRestore(ps, b.rows, Restore(todo, b).rows, Restored(todo, b));
    UnrecordedMembers(missing, Restored(todo, b));
    forall p | p in missing ensures p.id in Restored(todo, b) <==> !IsLegacy(p) && !IsDuplicate(b, p) {
      if p in todo {
        RestoredUnlessTaken(todo, b, p);
      } else if p.id in Restored(todo, b) {
        var q :| q in todo && q.id == p.id;
        SamePayout(missing, p, q);
      }
    }
  }

  // ---------- how many are missing in each class ----------

  datatype Class = Class(company: Option<int>, batch: string, realtor: int, amount: int)

  predicate PayoutIn(p: Payout, k: Class) {
    p.company == k.company && p.batch == Some(k.batch) && Number(p.realtor) == k.realtor && p.net == k.amount
  }

  predicate RowIn(r: CashRow, k: Class) {
    r.company == k.company && r.reference == Some(k.batch) && Number(r.user) == k.realtor && r.amount == k.amount
  }

  function PayoutsIn(ps: seq<Payout>, k: Class): seq<Payout> {
    if ps == [] then []
    else if PayoutIn(ps[0], k) then [ps[0]] + PayoutsIn(ps[1..], k)
    else PayoutsIn(ps[1..], k)
  }

  /** How many rows of the class nobody has claimed. */
  function FreeRows(rows: seq<CashRow>, claimed: set<nat>, k: Class): nat {
    if rows == [] then 0
    else (if RowIn(rows[0], k) && rows[0].id !in claimed then 1 else 0) + FreeRows(rows[1..], claimed, k)
  }

  /** A payout without a company and a row of a company numbered zero, alike in all that the class goes by otherwise. */
  predicate Contests(p: Payout, r: CashRow, k: Class) {
    && p.company.None? && r.company == Some(0) && (k.company.None? || k.company == Some(0))
    && PayoutIn(p, k.(company := None)) && RowIn(r, k.(company := Some(0)))
  }

  /** No payout has a bank reference, and a class without a company does not contend with one numbered zero. */
  predicate IsPlain(ps: seq<Payout>, rows: seq<CashRow>, k: Class) {
    && (forall p :: p in ps ==> p.bankReference.None? || p.bankReference.value == "")
    && (forall p, r :: p in ps && r in rows ==> !Contests(p, r, k))
  }

  lemma MatchesByClass(ps: seq<Payout>, rows: seq<CashRow>, k: Class, p: Payout, r: CashRow)
    requires IsPlain(ps, rows, k) && p in ps && r in rows && k.batch != ""
    ensures PayoutIn(p, k) ==> (Matches(OldShape, r, p) <==> RowIn(r, k))
    ensures !PayoutIn(p, k) && Matches(OldShape, r, p) ==> !RowIn(r, k)
  {
    assert !Contests(p, r, k);
  }

  lemma {:induction false} NoFreeRow(rows: seq<CashRow>, claimed: set<nat>, k: Class)
    ensures FreeRows(rows, claimed, k) == 0 <==> forall r :: r in rows && RowIn(r, k) ==> r.id in claimed
  {
    if rows != [] {
      NoFreeRow(rows[1..], claimed, k);
      assert rows[0] in rows;
      assert forall r :: r in rows ==> r == rows[0] || r in rows[1..];
    }
  }

  lemma {:induction false} FreeAfterClaim(rows: seq<CashRow>, claimed: set<nat>, k: Class, r: CashRow)
    requires DistinctRows(rows) && r in rows && r.id !in claimed
    ensures FreeRows(rows, claimed + {r.id}, k) == FreeRows(rows, claimed, k) - if RowIn(r, k) then 1 else 0
  {
    if rows[0] == r {
      forall s | s in rows[1..] ensures s.id != r.id { }
      FreeUnaffected(rows[1..], claimed, k, r.id);
    } else {
      assert rows[0].id != r.id by { if rows[0].id == r.id { SameRow(rows, rows[0], r); } }
      FreeAfterClaim(rows[1..], claimed, k, r);
    }
  }

  lemma FreeUnaffected(rows: seq<CashRow>, claimed: set<nat>, k: Class, id: nat)
    requires forall s :: s in rows ==> s.id != id
    ensures FreeRows(rows, claimed + {id}, k) == FreeRows(rows, claimed, k)
  {
    if rows != [] {
      assert rows[0] in rows;
      FreeUnaffected(rows[1..], claimed, k, id);
    }
  }

  function Drop(ps: seq<Payout>, n: nat): seq<Payout> {
    if n <= |ps| then ps[n..] else []
  }

  /** Pass 2 serves the payouts of a class in order for as long as the class has rows. */
  lemma {:induction false} OldPassByClass(all: seq<Payout>, ps: seq<Payout>, rows: seq<CashRow>, m: Claims, k: Class)
    requires IsPlain(all, rows, k) && DistinctRows(rows) && k.batch != ""
    requires DistinctPayouts(ps) && forall p :: p in ps ==> p in all && p.id !in m
    ensures PayoutsIn(Unrecorded(ps, Pass(ps, rows, OldShape, m)), k) ==
            Drop(PayoutsIn(ps, k), FreeRows(rows, m.Values, k))
    decreases |ps|
  {
    if ps != [] {
      var p := ps[0];
      var o, next := First(rows, m.Values, OldShape, p), Claim(m, rows, OldShape, p);
      PassGrows(ps[1..], rows, OldShape, next);
      OldPassByClass(all, ps[1..], rows, next, k);
      var end := Pass(ps, rows, OldShape, m);
      if o.Some? {
        AddedValue(m, p.id, o.value.id);
        FreeAfterClaim(rows, m.Values, k, o.value);
        MatchesByClass(all, rows, k, p, o.value);
        if PayoutIn(p, k) { NoFreeRow(rows, m.Values, k); }
      } else {
        assert p.id !in end;
        if PayoutIn(p, k) {
          forall r | r in rows && RowIn(r, k) ensures r.id in m.Values { MatchesByClass(all, rows, k, p, r); }
          NoFreeRow(rows, m.Values, k);
        }
      }
    }
  }

  lemma UnrecordedInTwoSteps(ps: seq<Payout>, m: Claims, n: Claims)
    requires m.Keys <= n.Keys
    ensures Unrecorded(ps, n) == Unrecorded(Unrecorded(ps, m), n)
  {
    if ps != [] { UnrecordedInTwoSteps(ps[1..], m, n); }
  }

  /**
   * In each class the payouts that pass 1 leaves are served oldest first: as many as the class has unclaimed rows are
   * recorded and exactly the later ones are missing.
   */
  lemma ExactCountPerClass(ps: seq<Payout>, rows: seq<CashRow>, k: Class)
    requires IsPlain(ps, rows, k) && DistinctPayouts(ps) && DistinctRows(rows) && k.batch != ""
    ensures var first := Pass(ps, rows, Own, map[]);
            var waiting := PayoutsIn(Unrecorded(ps, first), k);
            PayoutsIn(Missing(ps, rows), k) == Drop(waiting, FreeRows(rows, first.Values, k))
  {
    var first := Pass(ps, rows, Own, map[]);
    var left := Unrecorded(ps, first);
    UnrecordedMembers(ps, first);
    OldPassByClass(ps, left, rows, first, k);
    PassIsMonotone(left, rows, OldShape, first);
    UnrecordedInTwoSteps(ps, first, Reconcile(ps, rows));
  }

  /**
   * Where the two do contend the count can fail: alone together, the row of company 0 records the payout without a
   * company, although the payout's class has no row.
   */
  lemma CompanyZeroContends(p: Payout, r: CashRow, k: Class)
    requires Contests(p, r, k) && k.company.None? && k.batch != "" && r.reference != Some(OwnReference(p))
    ensures PayoutsIn(Missing([p], [r]), k) == []
    ensures PayoutsIn(Unrecorded([p], Pass([p], [r], Own, map[])), k) == [p] && FreeRows([r], {}, k) == 0
  {
    assert First([r], {}, Own, p) == None by { assert [r][1..] == []; }
    assert Pass([p], [r], Own, map[]) == map[] by { assert [p][1..] == []; }
    assert Unrecorded([p], map[]) == [p] by { assert [p][1..] == [] && [p] + [] == [p]; }
    assert Matches(OldShape, r, p);
    assert First([r], {}, OldShape, p) == Some(r);
    assert p.id in Pass([p], [r], OldShape, map[]) by { assert [p][1..] == []; }
    var m := Reconcile([p], [r]);
    assert p.id in m;
    assert Unrecorded([p], m) == [] by { assert [p][1..] == []; }
  }
}
