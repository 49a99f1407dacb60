/** What a repair writes into the cash book, field by field, and what that comes to. */
module CashBookWritten {
  import opened Wrappers
  import opened CashBook
  import opened CashBookRepair
  import opened CashBookRun
  import opened CashBookFields

  /** The payout's company has used the payout's reference already. */
  ghost predicate IsRefused(b: Book, p: Payout) {
    p.company.Some? && exists reference :: HasOwnReference(reference, p) && (p.company.value, reference) in b.taken
  }

  lemma RefusedIsDuplicate(b: Book, p: Payout)
    ensures IsRefused(b, p) <==> IsDuplicate(b, p)
  {
    var own := OwnReference(p);
    OwnReferenceSpelled(p, own);
    forall reference | HasOwnReference(reference, p) ensures reference == own { OwnReferenceSpelled(p, reference); }
  }

  /** The payouts that get a row. */
  ghost function ToWrite(ps: seq<Payout>, b: Book): seq<Payout> {
    if ps == [] then [] else (if IsRefused(b, ps[0]) then [] else [ps[0]]) + ToWrite(ps[1..], b)
  }

  ghost predicate IsRowOf(r: CashRow, id: nat, p: Payout) {
    && r.id == id && r.company == p.company && r.user == p.realtor && r.amount == p.net
    && r.reference.Some? && HasOwnReference(r.reference.value, p)
  }

  /** Behind the rows of the book, one for each of the payouts, in their order and with the next ids. */
  ghost predicate IsBookWith(b: Book, after: Book, ps: seq<Payout>) {
    && |after.rows| == |b.rows| + |ps| && after.nextId == b.nextId + |ps|
    && after.rows[..|b.rows|] == b.rows
    && forall m: nat :: m < |ps| ==> IsRowAt(b, after, ps, m)
  }

  ghost predicate IsRowAt(b: Book, after: Book, ps: seq<Payout>, m: nat) {
    m < |ps| && |b.rows| + m < |after.rows| && IsRowOf(after.rows[|b.rows| + m], b.nextId + m, ps[m])
  }

  lemma {:induction false} SameToWrite(ps: seq<Payout>, b: Book, c: Book)
    requires forall p :: p in ps ==> (IsRefused(b, p) <==> IsRefused(c, p))
    ensures ToWrite(ps, b) == ToWrite(ps, c)
  {
    if ps != [] {
      assert ps[0] in ps;
      SameToWrite(ps[1..], b, c);
    }
  }

  /** Writing the row of the first payout refuses none of the others theirs. */
  lemma OthersAsBefore(ps: seq<Payout>, b: Book)
    requires ps != [] && DistinctPayouts(ps)
    ensures ToWrite(ps[1..], Insert(b, ps[0])) == ToWrite(ps[1..], b)
  {
    var next := Insert(b, ps[0]);
    forall p | p in ps[1..] ensures IsRefused(b, p) <==> IsRefused(next, p) {
      OwnReferencesDiffer(p, ps[0]);
      RefusedIsDuplicate(b, p);
      RefusedIsDuplicate(next, p);
    }
    SameToWrite(ps[1..], b, next);
  }

  lemma InsertedFirst(b: Book, after: Book, p: Payout, more: seq<Payout>)
    requires IsBookWith(Insert(b, p), after, more)
    ensures IsBookWith(b, after, [p] + more)
  {
    var next, all, n := Insert(b, p), [p] + more, |b.rows|;
    assert after.rows[..n] == next.rows[..n] == b.rows;
    assert after.rows[n] == next.rows[n] == RestoredRow(p, b.nextId);
    OwnReferenceSpelled(p, OwnReference(p));
    forall m: nat | m < |all| ensures IsRowAt(b, after, all, m) {
      if m > 0 {
        var i: nat := m - 1;
        assert IsRowAt(next, after, more, i);
      }
    }
  }

  /** All that a repair does to the rows: for each payout whose reference is free, one row with its fields. */
  lemma {:induction false} RowsInFull(ps: seq<Payout>, b: Book)
    requires DistinctPayouts(ps)
    ensures IsBookWith(b, Restore(ps, b), ToWrite(ps, b))
    decreases |ps|
  {
    hide IsBookWith, IsRefused, Insert;
    if ps == [] {
      NothingWritten(b);
    } else {
      RefusedIsDuplicate(b, ps[0]);
      OthersAsBefore(ps, b);
      RowsInFull(ps[1..], if IsDuplicate(b, ps[0]) then b else Insert(b, ps[0]));
      if IsDuplicate(b, ps[0]) {
        assert ToWrite(ps, b) == ToWrite(ps[1..], b);
      } else {
        InsertedFirst(b, Restore(ps, b), ps[0], ToWrite(ps[1..], b));
      }
    }
  }

  lemma NothingWritten(b: Book)
    ensures IsBookWith(b, b, [])
  {
  }

  /** Each payout whose reference is free ends with a row of its company, realtor, net amount and reference. */
  lemma EachGetsItsRow(ps: seq<Payout>, b: Book, p: Payout)
    requires DistinctPayouts(ps) && p in ps && !IsRefused(b, p)
    ensures exists r, id: nat :: r in Restore(ps, b).rows && IsRowOf(r, id, p) && id >= b.nextId
  {
    hide IsRefused, IsRowOf;
    RowsInFull(ps, b);
    IsToWrite(ps, b, p);
    var all, after := ToWrite(ps, b), Restore(ps, b);
    var m :| 0 <= m < |all| && all[m] == p;
    assert IsRowAt(b, after, all, m);
    assert after.rows[|b.rows| + m] in after.rows;
  }

  lemma {:induction false} IsToWrite(ps: seq<Payout>, b: Book, p: Payout)
    requires p in ps
    ensures p in ToWrite(ps, b) <==> !IsRefused(b, p)
  {
    hide IsRefused;
    var rest := ps[1..];
    if p in rest {
      IsToWrite(rest, b, p);
    } else {
      NotToWrite(rest, b, p);
    }
  }

  lemma NotToWrite(ps: seq<Payout>, b: Book, p: Payout)
    requires p !in ps
    ensures p !in ToWrite(ps, b)
  {
    hide IsRefused;
    if ps != [] { NotToWrite(ps[1..], b, p); }
  }

  /** Afterwards the references taken are those that were and the payouts' own, in their companies. */
  lemma {:induction false} TakenInFull(ps: seq<Payout>, b: Book, company: int, reference: string)
    ensures (company, reference) in Restore(ps, b).taken <==>
            (company, reference) in b.taken
            || exists p :: p in ps && p.company == Some(company) && HasOwnReference(reference, p)
    decreases |ps|
  {
    if ps != [] {
      var first := ps[0];
      TakenInFull(ps[1..], if IsDuplicate(b, first) then b else Insert(b, first), company, reference);
      OwnReferenceSpelled(first, reference);
      hide HasOwnReference, Restore;
      assert forall p :: p in ps <==> p == first || p in ps[1..];
    }
  }

  // ---------- what it comes to ----------

  function Amounts(rows: seq<CashRow>): int {
    if rows == [] then 0 else Amounts(rows[..|rows| - 1]) + rows[|rows| - 1].amount
  }

  function Nets(ps: seq<Payout>): int {
    if ps == [] then 0 else Nets(ps[..|ps| - 1]) + ps[|ps| - 1].net
  }

  lemma {:induction false} AmountsOfRows(b: Book, after: Book, ps: seq<Payout>, m: nat)
    requires IsBookWith(b, after, ps) && m <= |ps|
    ensures Amounts(after.rows[..|b.rows| + m]) == Amounts(b.rows) + Nets(ps[..m])
  {
    if m > 0 {
      var last: nat := m - 1;
      AmountsOfRows(b, after, ps, last);
      assert IsRowAt(b, after, ps, last);
      var rows, some := after.rows[..|b.rows| + m], ps[..m];
      assert rows[..|rows| - 1] == after.rows[..|b.rows| + last] && some[..|some| - 1] == ps[..last];
    }
  }

  /** The book grows by exactly the net amounts of the payouts whose reference is free. */
  lemma BookGrowsByNets(ps: seq<Payout>, b: Book)
    requires DistinctPayouts(ps)
    ensures Amounts(Restore(ps, b).rows) == Amounts(b.rows) + Nets(ToWrite(ps, b))
  {
    RowsInFull(ps, b);
    var after, all := Restore(ps, b), ToWrite(ps, b);
    AmountsOfRows(b, after, all, |all|);
    assert after.rows[..|b.rows| + |all|] == after.rows && all[..|all|] == all;
  }

  lemma {:induction false} AllToWrite(ps: seq<Payout>, b: Book)
    requires forall p :: p in ps ==> !IsRefused(b, p)
    ensures ToWrite(ps, b) == ps
  {
    if ps != [] {
      assert ps[0] in ps;
      AllToWrite(ps[1..], b);
    }
  }

  /** With no reference taken a repair brings the book up by the total that the report prints. */
  lemma RepairClosesTheGap(ps: seq<Payout>, b: Book)
    requires DistinctPayouts(ps)
    requires forall p :: p in Missing(ps, b.rows) ==> !IsRefused(b, p)
    ensures var missing := Missing(ps, b.rows);
            Amounts(Restore(missing, b).rows) == Amounts(b.rows) + Nets(missing)
  {
    UnrecordedMembers(ps, Reconcile(ps, b.rows));
    AllToWrite(Missing(ps, b.rows), b);
    BookGrowsByNets(Missing(ps, b.rows), b);
  }

  // ---------- the legacy boundary ----------

  predicate IsLeapYear(y: nat) {
    y % 4 == 0 && (y % 100 != 0 || y % 400 == 0)
  }

  /** Days from the beginning of 1970 to that of year `y`. */
  function DaysToYear(y: nat): nat {
    if y <= 1970 then 0 else DaysToYear(y - 1) + (if IsLeapYear(y - 1) then 366 else 365)
  }

  /** Milliseconds from the beginning of 1970 to that of September 20th of year `y`. */
  function September20(y: nat): nat {
    var february := if IsLeapYear(y) then 29 else 28;
    (DaysToYear(y) + 31 + february + 31 + 30 + 31 + 30 + 31 + 31 + 19) * 24 * 60 * 60 * 1000
  }

  lemma {:induction false} DaysToTwelfth(k: nat)
    requires k <= 14
    ensures DaysToYear(1970 + 4 * k) == 1461 * k
  {
    if k > 0 {
      DaysToTwelfth(k - 1);
      var y := 1970 + 4 * k;
      assert DaysToYear(y) == DaysToYear(y - 1) + 365 && DaysToYear(y - 1) == DaysToYear(y - 2) + 366;
      assert DaysToYear(y - 2) == DaysToYear(y - 3) + 365 && DaysToYear(y - 3) == DaysToYear(y - 4) + 365;
    }
  }

  /** With `--skip-legacy` a rerun misses what was missing and paid before September 20th, 2026, or was refused. */
  lemma SkippedByDate(ps: seq<Payout>, b: Book, p: Payout)
    requires DistinctPayouts(ps) && IsBook(b)
    ensures p in Missing(ps, Restore(Recent(Missing(ps, b.rows)), b).rows) <==>
            p in Missing(ps, b.rows) && ((p.paidAt.Some? && p.paidAt.value < September20(2026)) || IsRefused(b, p))
  {
    DaysToTwelfth(14);
    SkippingLegacy(ps, b);
    RefusedIsDuplicate(b, p);
  }
}
