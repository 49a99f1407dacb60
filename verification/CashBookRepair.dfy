/** Restoring missing cash-book rows, and what the next run then finds. */
module CashBookRepair {
  import opened Wrappers
  import opened CashBook

  // ---------- own references tell payouts apart ----------

  function Value(s: string): nat
    requires forall k :: 0 <= k < |s| ==> '0' <= s[k] <= '9'
  {
    if s == [] then 0 else 10 * Value(s[..|s| - 1]) + (s[|s| - 1] - '0') as nat
  }

  lemma DigitsAreDigits(n: nat)
    ensures Digits(n) != [] && forall k :: 0 <= k < |Digits(n)| ==> '0' <= Digits(n)[k] <= '9'
    ensures Value(Digits(n)) == n
  {
    if n >= 10 {
      DigitsAreDigits(n / 10);
      var s := Digits(n);
      assert s[..|s| - 1] == Digits(n / 10);
    }
  }

  lemma SameEnding(a: string, c: string, b: string, d: string)
    requires a + "-" + b == c + "-" + d
    requires '-' !in b && '-' !in d
    ensures a == c && b == d
  {
    var s := a + "-" + b;
    assert s[|a|] == '-' && s[|c|] == '-';
    assert forall k :: |a| < k < |s| ==> s[k] == b[k - |a| - 1];
    assert forall k :: |c| < k < |s| ==> s[k] == d[k - |c| - 1];
    assert s[..|a|] == a && s[..|c|] == c && s[|a| + 1..] == b && s[|c| + 1..] == d;
  }

  /** No two payouts share an own reference. */
  lemma OwnReferencesDiffer(p: Payout, q: Payout)
    ensures OwnReference(p) == OwnReference(q) ==> p.id == q.id
  {
    DigitsAreDigits(p.id);
    DigitsAreDigits(q.id);
    var a := if p.batch.Some? then p.batch.value else "null";
    var c := if q.batch.Some? then q.batch.value else "null";
    if OwnReference(p) == OwnReference(q) { SameEnding(a, c, Digits(p.id), Digits(q.id)); }
  }

  // ---------- the book before and after ----------

  function RestoredRow(p: Payout, id: nat): CashRow {
    CashRow(id, p.company, p.realtor, p.net, Some(OwnReference(p)))
  }

  function Ids(rows: seq<CashRow>): set<nat> {
    set r | r in rows :: r.id
  }

  function Filter(rows: seq<CashRow>, keep: set<nat>): seq<CashRow> {
    if rows == [] then []
    else if rows[0].id in keep then [rows[0]] + Filter(rows[1..], keep)
    else Filter(rows[1..], keep)
  }

  ghost predicate IsRestoredRow(r: CashRow, ps: seq<Payout>, restored: Claims) {
    exists p :: p in ps && p.id in restored && r == RestoredRow(p, restored[p.id])
  }

  /**
   * `after` is `rows`, in the same relative order, with one restored row for each payout of `restored`, wherever the
   * database returns it.
   */
  ghost predicate IsRestored(ps: seq<Payout>, rows: seq<CashRow>, after: seq<CashRow>, restored: Claims) {
    && Filter(after, Ids(rows)) == rows
    && restored.Values !! Ids(rows)
    && (forall i, j :: i in restored && j in restored && i != j ==> restored[i] != restored[j])
    && (forall r :: r in after && r.id !in Ids(rows) ==> IsRestoredRow(r, ps, restored))
    && (forall p :: p in ps && p.id in restored ==> RestoredRow(p, restored[p.id]) in after)
  }

  function Without(ps: seq<Payout>, restored: Claims): seq<Payout> {
    Unrecorded(ps, restored)
  }

  /** Rows outside `keep` cannot be claimed, and inside it both runs have claimed the same ones. */
  lemma {:induction false} FirstAmongKept(after: seq<CashRow>, keep: set<nat>, claimed2: set<nat>, claimed: set<nat>,
                                          rule: Rule, p: Payout)
    requires forall r :: r in after && r.id !in keep && r.id !in claimed2 ==> !Matches(rule, r, p)
    requires forall r :: r in after && r.id in keep ==> (r.id in claimed2 <==> r.id in claimed)
    ensures First(after, claimed2, rule, p) == First(Filter(after, keep), claimed, rule, p)
  {
    hide Matches;
    if after != [] {
      FirstAmongKept(after[1..], keep, claimed2, claimed, rule, p);
      assert after[0] in after;
      var f := Filter(after, keep);
      if after[0].id in keep { assert f[0] == after[0] && f[1..] == Filter(after[1..], keep); }
    }
  }

  /** The second run has made the first run's claims, and the payouts of `done` have claimed their restored rows. */
  ghost predicate Follows(m2: Claims, m: Claims, restored: Claims, done: set<nat>, rows: seq<CashRow>) {
    && m2.Keys == m.Keys + done && done <= restored.Keys && m.Keys !! restored.Keys
    && (forall i :: i in m ==> m2[i] == m[i])
    && (forall i :: i in done ==> m2[i] == restored[i])
    && m.Values <= Ids(rows)
  }

  lemma ClaimedAlike(m2: Claims, m: Claims, restored: Claims, done: set<nat>, rows: seq<CashRow>, id: nat)
    requires Follows(m2, m, restored, done, rows) && restored.Values !! Ids(rows)
    ensures id in Ids(rows) ==> (id in m2.Values <==> id in m.Values)
    ensures id !in Ids(rows) ==> (id in m2.Values <==> exists i :: i in done && restored[i] == id)
  {
    if id in m2.Values {
      var i :| i in m2 && m2[i] == id;
      if i in m { assert m[i] in m.Values; } else { assert restored[i] in restored.Values; }
    }
    if id in m.Values {
      var i :| i in m && m[i] == id;
      assert m2[i] == id;
    }
    if i :| i in done && restored[i] == id { assert m2[i] == id; }
  }

  /** A payout whose row was not restored finds in the new book what it found in the old one. */
  lemma SameClaim(ps: seq<Payout>, rows: seq<CashRow>, after: seq<CashRow>, restored: Claims,
                  m: Claims, m2: Claims, done: set<nat>, rule: Rule, p: Payout)
    requires DistinctPayouts(ps) && IsRestored(ps, rows, after, restored) && p in ps && p.id !in restored
    requires Follows(m2, m, restored, done, rows)
    requires rule.Own? || done == restored.Keys
    ensures First(after, m2.Values, rule, p) == First(rows, m.Values, rule, p)
    ensures Follows(Claim(m2, after, rule, p), Claim(m, rows, rule, p), restored, done, rows)
  {
    forall r | r in after && r.id !in Ids(rows) && r.id !in m2.Values ensures !Matches(rule, r, p) {
      var q :| q in ps && q.id in restored && r == RestoredRow(q, restored[q.id]);
      ClaimedAlike(m2, m, restored, done, rows, r.id);
      OwnReferencesDiffer(p, q);
    }
    forall r | r in after && r.id in Ids(rows) ensures r.id in m2.Values <==> r.id in m.Values {
      ClaimedAlike(m2, m, restored, done, rows, r.id);
    }
    FirstAmongKept(after, Ids(rows), m2.Values, m.Values, rule, p);
    var o := First(rows, m.Values, rule, p);
    if o.Some? {
      var next := Claim(m, rows, rule, p);
      assert next.Values <= Ids(rows) by {
        forall v | v in next.Values ensures v in Ids(rows) {
          var i :| i in next && next[i] == v;
          if i in m && m[i] == v { assert v in m.Values; } else { assert v == o.value.id; }
        }
      }
    }
  }

  /** A payout whose row was restored claims that row by its reference. */
  lemma RestoredClaim(ps: seq<Payout>, rows: seq<CashRow>, after: seq<CashRow>, restored: Claims,
                      m: Claims, m2: Claims, done: set<nat>, p: Payout)
    requires DistinctPayouts(ps) && IsRestored(ps, rows, after, restored) && p in ps && p.id in restored
    requires Follows(m2, m, restored, done, rows) && p.id !in done
    requires First(rows, m.Values, Own, p).None?
    ensures Follows(Claim(m2, after, Own, p), m, restored, done + {p.id}, rows)
  {
    var mine := RestoredRow(p, restored[p.id]);
    assert restored[p.id] in restored.Values;
    ClaimedAlike(m2, m, restored, done, rows, mine.id);
    assert Matches(Own, mine, p);
    var o := First(after, m2.Values, Own, p);
    assert o.Some?;
    var r := o.value;
    if r.id in Ids(rows) {
      ClaimedAlike(m2, m, restored, done, rows, r.id);
      KeptIsOld(after, Ids(rows), r);
      assert false;
    } else {
      var q :| q in ps && q.id in restored && r == RestoredRow(q, restored[q.id]);
      OwnReferencesDiffer(p, q);
      SamePayout(ps, p, q);
    }
  }

  lemma KeptIsOld(after: seq<CashRow>, keep: set<nat>, r: CashRow)
    requires r in after && r.id in keep
    ensures r in Filter(after, keep)
  {
    if after[0] != r { KeptIsOld(after[1..], keep, r); }
  }

  lemma PassIsMonotone(ps: seq<Payout>, rows: seq<CashRow>, rule: Rule, m: Claims)
    ensures m.Keys <= Pass(ps, rows, rule, m).Keys
  {
    if ps != [] { PassIsMonotone(ps[1..], rows, rule, Claim(m, rows, rule, ps[0])); }
  }

  function PayoutIds(ps: seq<Payout>): set<nat> {
    set p | p in ps :: p.id
  }

  /** Pass 1 of the second run, next to pass 1 of the first. */
  lemma {:induction false} OwnPassFollows(all: seq<Payout>, ps: seq<Payout>, rows: seq<CashRow>, after: seq<CashRow>,
                                          restored: Claims, m: Claims, m2: Claims, done: set<nat>)
    requires DistinctPayouts(all) && IsRestored(all, rows, after, restored)
    requires DistinctPayouts(ps) && (forall p :: p in ps ==> p in all && p.id !in done)
    requires Follows(m2, m, restored, done, rows)
    requires forall p :: p in ps && p.id in restored ==> p.id !in Pass(ps, rows, Own, m)
    ensures Follows(Pass(ps, after, Own, m2), Pass(ps, rows, Own, m), restored,
                    done + (restored.Keys * PayoutIds(ps)), rows)
    decreases |ps|
  {
    hide IsRestored, Follows, Matches;
    if ps == [] {
      assert done + (restored.Keys * PayoutIds(ps)) == done;
    } else {
      var p, next := ps[0], Claim(m, rows, Own, ps[0]);
      PassIsMonotone(ps[1..], rows, Own, next);
      assert PayoutIds(ps) == {p.id} + PayoutIds(ps[1..]);
      var now := if p.id in restored then done + {p.id} else done;
      if p.id in restored {
        assert First(rows, m.Values, Own, p).None?;
        RestoredClaim(all, rows, after, restored, m, m2, done, p);
      } else {
        SameClaim(all, rows, after, restored, m, m2, done, Own, p);
      }
      OwnPassFollows(all, ps[1..], rows, after, restored, next, Claim(m2, after, Own, p), now);
      assert now + (restored.Keys * PayoutIds(ps[1..])) == done + (restored.Keys * PayoutIds(ps));
    }
  }

  /** Pass 2 of the second run, over the payouts whose rows were not restored. */
  lemma {:induction false} OldPassFollows(all: seq<Payout>, ps: seq<Payout>, rows: seq<CashRow>, after: seq<CashRow>,
                                          restored: Claims, m: Claims, m2: Claims)
    requires DistinctPayouts(all) && IsRestored(all, rows, after, restored)
    requires forall p :: p in ps ==> p in all
    requires Follows(m2, m, restored, restored.Keys, rows)
    requires forall p :: p in ps && p.id in restored ==> p.id !in Pass(ps, rows, OldShape, m)
    ensures Follows(Pass(Without(ps, restored), after, OldShape, m2), Pass(ps, rows, OldShape, m), restored,
                    restored.Keys, rows)
    decreases |ps|
  {
    hide IsRestored, Follows, Matches;
    if ps != [] {
      var p, next := ps[0], Claim(m, rows, OldShape, ps[0]);
      PassIsMonotone(ps[1..], rows, OldShape, next);
      if p.id in restored {
        assert First(rows, m.Values, OldShape, p).None?;
        OldPassFollows(all, ps[1..], rows, after, restored, m, m2);
      } else {
        SameClaim(all, rows, after, restored, m, m2, restored.Keys, OldShape, p);
        OldPassFollows(all, ps[1..], rows, after, restored, next, Claim(m2, after, OldShape, p));
        assert Without(ps, restored)[1..] == Without(ps[1..], restored);
      }
    }
  }

  lemma WithoutBoth(ps: seq<Payout>, m2: Claims, m: Claims, restored: Claims)
    requires m2.Keys == m.Keys + restored.Keys
    ensures Unrecorded(ps, m2) == Without(Unrecorded(ps, m), restored)
  {
    if ps != [] {
      WithoutBoth(ps[1..], m2, m, restored);
      if ps[0].id !in m { assert Unrecorded(ps, m)[1..] == Unrecorded(ps[1..], m); }
    }
  }

  /**
   * After rows were restored for some of the missing payouts, the next run leaves every earlier claim as it was, finds
   * each restored row for its payout, and reports exactly the payouts whose rows were not restored.
   */
  lemma RerunAfterRestore(ps: seq<Payout>, rows: seq<CashRow>, after: seq<CashRow>, restored: Claims)
    requires DistinctPayouts(ps) && IsRestored(ps, rows, after, restored)
    requires forall i :: i in restored ==> exists p :: p in Missing(ps, rows) && p.id == i
    ensures Reconcile(ps, after) == Reconcile(ps, rows) + restored
    ensures Missing(ps, after) == Without(Missing(ps, rows), restored)
  {
    hide Pass, IsRestored, DistinctPayouts;
    var first, first2 := Pass(ps, rows, Own, map[]), Pass(ps, after, Own, map[]);
    RestoredAreMissing(ps, rows, restored);
    AllOwnPass(ps, rows, after, restored);
    UnrecordedMembers(ps, first);
    OldPassFollows(ps, Unrecorded(ps, first), rows, after, restored, first, first2);
    WithoutBoth(ps, first2, first, restored);
    FollowsToTheEnd(Reconcile(ps, after), Reconcile(ps, rows), restored, rows);
    WithoutBoth(ps, Reconcile(ps, after), Reconcile(ps, rows), restored);
  }

  lemma FollowsToTheEnd(m2: Claims, m: Claims, restored: Claims, rows: seq<CashRow>)
    requires Follows(m2, m, restored, restored.Keys, rows)
    ensures m2 == m + restored
  {
  }

  lemma RestoredAreMissing(ps: seq<Payout>, rows: seq<CashRow>, restored: Claims)
    requires DistinctPayouts(ps)
    requires forall i :: i in restored ==> exists p :: p in Missing(ps, rows) && p.id == i
    ensures restored.Keys <= PayoutIds(ps)
    ensures restored.Keys !! Reconcile(ps, rows).Keys && restored.Keys !! Pass(ps, rows, Own, map[]).Keys
  {
    hide Pass;
    var first, m := Pass(ps, rows, Own, map[]), Reconcile(ps, rows);
    UnrecordedMembers(ps, m);
    PassIsMonotone(Unrecorded(ps, first), rows, OldShape, first);
    forall i | i in restored ensures i in PayoutIds(ps) && i !in m && i !in first {
      var p :| p in Missing(ps, rows) && p.id == i;
    }
  }

  lemma AllOwnPass(ps: seq<Payout>, rows: seq<CashRow>, after: seq<CashRow>, restored: Claims)
    requires DistinctPayouts(ps) && IsRestored(ps, rows, after, restored) && restored.Keys <= PayoutIds(ps)
    requires restored.Keys !! Pass(ps, rows, Own, map[]).Keys
    ensures Follows(Pass(ps, after, Own, map[]), Pass(ps, rows, Own, map[]), restored, restored.Keys, rows)
  {
    hide Pass;
    OwnPassFollows(ps, ps, rows, after, restored, map[], map[], {});
    assert {} + (restored.Keys * PayoutIds(ps)) == restored.Keys;
  }

  // ---------- the restore loop ----------

  /** The transactions table: the cash-book rows, the next id, and the references each company has used already. */
  datatype Book = Book(rows: seq<CashRow>, nextId: nat, taken: set<(int, string)>)

  predicate IsBook(b: Book) {
    forall r :: r in b.rows ==> r.id < b.nextId
  }

  /** The insert would be a duplicate; a missing company never makes one. */
  predicate IsDuplicate(b: Book, p: Payout) {
    p.company.Some? && (p.company.value, OwnReference(p)) in b.taken
  }

  function Insert(b: Book, p: Payout): Book {
    Book(b.rows + [RestoredRow(p, b.nextId)], b.nextId + 1,
         b.taken + if p.company.Some? then {(p.company.value, OwnReference(p))} else {})
  }

  function Restore(ps: seq<Payout>, b: Book): Book {
    if ps == [] then b else Restore(ps[1..], if IsDuplicate(b, ps[0]) then b else Insert(b, ps[0]))
  }

  /** The rows that restoring writes, by payout. */
  function Restored(ps: seq<Payout>, b: Book): Claims {
    if ps == [] then map[]
    else if IsDuplicate(b, ps[0]) then Restored(ps[1..], b)
    else Restored(ps[1..], Insert(b, ps[0]))[ps[0].id := b.nextId]
  }

  /** The rows that restoring writes, in order. */
  function Written(ps: seq<Payout>, b: Book): seq<CashRow> {
    if ps == [] then []
    else if IsDuplicate(b, ps[0]) then Written(ps[1..], b)
    else [RestoredRow(ps[0], b.nextId)] + Written(ps[1..], Insert(b, ps[0]))
  }

  lemma {:induction false} RestoreAppends(ps: seq<Payout>, b: Book)
    ensures Restore(ps, b).rows == b.rows + Written(ps, b)
    decreases |ps|
  {
    if ps != [] { RestoreAppends(ps[1..], if IsDuplicate(b, ps[0]) then b else Insert(b, ps[0])); }
  }

  lemma {:induction false} RestoredIds(ps: seq<Payout>, b: Book)
    ensures var restored := Restored(ps, b);
            && restored.Keys <= PayoutIds(ps)
            && (forall i :: i in restored ==> restored[i] >= b.nextId)
            && (forall i, j :: i in restored && j in restored && i != j ==> restored[i] != restored[j])
    decreases |ps|
  {
    if ps != [] {
      assert PayoutIds(ps) == {ps[0].id} + PayoutIds(ps[1..]);
      RestoredIds(ps[1..], if IsDuplicate(b, ps[0]) then b else Insert(b, ps[0]));
    }
  }

  lemma {:induction false} WrittenAreRestored(ps: seq<Payout>, b: Book)
    requires DistinctPayouts(ps)
    ensures forall r :: r in Written(ps, b) ==> r.id >= b.nextId && IsRestoredRow(r, ps, Restored(ps, b))
    decreases |ps|
  {
    if ps != [] {
      var first := ps[0];
      var next := if IsDuplicate(b, first) then b else Insert(b, first);
      var restored, later := Restored(ps, b), Restored(ps[1..], next);
      WrittenAreRestored(ps[1..], next);
      RestoredIds(ps[1..], next);
      NotLater(ps, later);
      forall r | r in Written(ps, b) ensures r.id >= b.nextId && IsRestoredRow(r, ps, restored) {
        if r in Written(ps[1..], next) {
          var p :| p in ps[1..] && p.id in later && r == RestoredRow(p, later[p.id]);
          assert p in ps && restored[p.id] == later[p.id];
        } else {
          assert first in ps && r == RestoredRow(first, restored[first.id]);
        }
      }
    }
  }

  lemma {:induction false} RestoredAreWritten(ps: seq<Payout>, b: Book, p: Payout)
    requires DistinctPayouts(ps) && p in ps && p.id in Restored(ps, b)
    ensures RestoredRow(p, Restored(ps, b)[p.id]) in Written(ps, b)
    decreases |ps|
  {
    var first := ps[0];
    var next := if IsDuplicate(b, first) then b else Insert(b, first);
    if p == first {
      RestoredIds(ps[1..], next);
      NotLater(ps, Restored(ps[1..], next));
    } else {
      OtherPayout(ps, p, first);
      RestoredAreWritten(ps[1..], next, p);
    }
  }

  lemma NotLater(ps: seq<Payout>, later: Claims)
    requires ps != [] && DistinctPayouts(ps) && later.Keys <= PayoutIds(ps[1..])
    ensures ps[0].id !in later
  {
  }

  lemma FilterOld(rows: seq<CashRow>, keep: set<nat>)
    requires forall r :: r in rows ==> r.id in keep
    ensures Filter(rows, keep) == rows
  {
  }

  lemma FilterNew(rows: seq<CashRow>, keep: set<nat>)
    requires forall r :: r in rows ==> r.id !in keep
    ensures Filter(rows, keep) == []
  {
  }

  lemma FilterOfConcat(a: seq<CashRow>, b: seq<CashRow>, keep: set<nat>)
    ensures Filter(a + b, keep) == Filter(a, keep) + Filter(b, keep)
  {
    if a == [] {
      assert a + b == b;
    } else {
      assert (a + b)[1..] == a[1..] + b;
      FilterOfConcat(a[1..], b, keep);
    }
  }

  lemma FilterAppended(rows: seq<CashRow>, written: seq<CashRow>)
    requires forall r :: r in written ==> r.id !in Ids(rows)
    ensures Filter(rows + written, Ids(rows)) == rows
  {
    FilterOfConcat(rows, written, Ids(rows));
    FilterOld(rows, Ids(rows));
    FilterNew(written, Ids(rows));
  }

  lemma RestoreIsRestored(all: seq<Payout>, ps: seq<Payout>, b: Book)
    requires DistinctPayouts(all) && DistinctPayouts(ps) && IsBook(b) && forall p :: p in ps ==> p in all
    ensures IsRestored(all, b.rows, Restore(ps, b).rows, Restored(ps, b))
  {
    hide Restore, Restored, Written, Filter;
    var written, restored := Written(ps, b), Restored(ps, b);
    RestoreAppends(ps, b);
    RestoredIds(ps, b);
    WrittenAreRestored(ps, b);
    FilterAppended(b.rows, written);
    forall r | r in b.rows + written && r.id !in Ids(b.rows) ensures IsRestoredRow(r, all, restored) {
      assert r in written;
      var p :| p in ps && p.id in restored && r == RestoredRow(p, restored[p.id]);
    }
    forall p | p in all && p.id in restored ensures RestoredRow(p, restored[p.id]) in b.rows + written {
      var q :| q in ps && q.id == p.id;
      SamePayout(all, p, q);
      RestoredAreWritten(ps, b, p);
    }
  }

  /** Inserting one payout's row makes no other payout's row a duplicate, so only what was there before matters. */
  lemma {:induction false} RestoredUnlessTaken(ps: seq<Payout>, b: Book, p: Payout)
    requires DistinctPayouts(ps) && p in ps
    ensures p.id in Restored(ps, b) <==> !IsDuplicate(b, p)
    decreases |ps|
  {
    var first := ps[0];
    var next := if IsDuplicate(b, first) then b else Insert(b, first);
    if p == first {
      RestoredIds(ps[1..], next);
      NotLater(ps, Restored(ps[1..], next));
    } else {
      OtherPayout(ps, p, first);
      OwnReferencesDiffer(p, first);
      RestoredUnlessTaken(ps[1..], next, p);
    }
  }

  function Duplicates(ps: seq<Payout>, b: Book): seq<Payout> {
    if ps == [] then []
    else if IsDuplicate(b, ps[0]) then [ps[0]] + Duplicates(ps[1..], b)
    else Duplicates(ps[1..], b)
  }

  lemma {:induction false} WithoutRestored(all: seq<Payout>, ps: seq<Payout>, b: Book)
    requires DistinctPayouts(all) && forall p :: p in ps ==> p in all
    ensures Without(ps, Restored(all, b)) == Duplicates(ps, b)
    decreases |ps|
  {
    if ps != [] {
      RestoredUnlessTaken(all, b, ps[0]);
      WithoutRestored(all, ps[1..], b);
    }
  }

  /**
   * A full repair followed by another run: exactly the payouts whose reference somebody had taken are still missing,
   * every earlier claim stands, and the second run's own repair writes nothing for the others.
   */
  lemma RepairThenRerun(ps: seq<Payout>, b: Book)
    requires DistinctPayouts(ps) && IsBook(b)
    ensures var missing := Missing(ps, b.rows);
            var after := Restore(missing, b);
            && Missing(ps, after.rows) == Duplicates(missing, b)
            && Reconcile(ps, after.rows) == Reconcile(ps, b.rows) + Restored(missing, b)
            && Restore(Missing(ps, after.rows), after) == after
  {
    var missing := Missing(ps, b.rows);
    UnrecordedMembers(ps, Reconcile(ps, b.rows));
    RestoreIsRestored(ps, missing, b);
    RestoredIds(missing, b);
    RerunAfterRestore(ps, b.rows, Restore(missing, b).rows, Restored(missing, b));
    WithoutRestored(missing, missing, b);
    TakenStaysTaken(missing, b);
    DuplicatesAreTaken(missing, b);
    AllDuplicates(Duplicates(missing, b), Restore(missing, b));
  }

  lemma TakenStaysTaken(ps: seq<Payout>, b: Book)
    ensures b.taken <= Restore(ps, b).taken
  {
  }

  lemma DuplicatesAreTaken(ps: seq<Payout>, b: Book)
    ensures forall p :: p in Duplicates(ps, b) ==> IsDuplicate(b, p)
  {
  }

  lemma AllDuplicates(ps: seq<Payout>, b: Book)
    requires forall p :: p in ps ==> IsDuplicate(b, p)
    ensures Restore(ps, b) == b
  {
  }

  /** Re-running after a repair finds nothing missing if and only if no missing payout's reference had been taken. */
  lemma RepairIsComplete(ps: seq<Payout>, b: Book)
    requires DistinctPayouts(ps) && IsBook(b)
    ensures Missing(ps, Restore(Missing(ps, b.rows), b).rows) == [] <==>
            forall p :: p in Missing(ps, b.rows) ==> !IsDuplicate(b, p)
  {
    RepairThenRerun(ps, b);
    NoDuplicates(Missing(ps, b.rows), b);
  }

  lemma NoDuplicates(ps: seq<Payout>, b: Book)
    ensures Duplicates(ps, b) == [] <==> forall p :: p in ps ==> !IsDuplicate(b, p)
  {
    if ps != [] {
      NoDuplicates(ps[1..], b);
      assert ps[0] in ps;
      assert forall p :: p in ps ==> p == ps[0] || p in ps[1..];
    }
  }
}
