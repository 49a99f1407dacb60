/** What a run of the trigger change writes, row by row and in full, with nothing said of how it goes about it. */
module PlanWritten {
  import opened Wrappers
  import opened PlanVersions
  import opened PlanRuns

  predicate IsTrigger(t: string) {
    || t == "ON_DEAL_CONFIRMATION" || t == "ON_INITIAL_DEPOSIT" || t == "ON_THRESHOLD" || t == "PRO_RATA"
    || t == "ON_FULL_PAYMENT" || t == "MILESTONE" || t == "SCHEDULED"
  }

  /** The version's trigger is another one, and the plan validates with the new one. */
  predicate IsDue(row: Version, trigger: string, valid: Config -> bool) {
    row.config.trigger != Some(trigger) && valid(Config(Some(trigger), row.config.rest))
  }

  lemma DueIsChanged(row: Version, trigger: string, valid: Config -> bool)
    requires IsTrigger(trigger)
    ensures Changes(row, trigger, valid) <==> IsDue(row, trigger, valid)
  {
    assert row.config.(trigger := Some(trigger)) == Config(Some(trigger), row.config.rest);
  }

  /** A row due to be handed over, and when it is. */
  datatype Change = Change(row: Version, now: int)

  function Due(rows: seq<Version>, clock: seq<int>, trigger: string, valid: Config -> bool): (due: seq<Change>)
    requires |rows| <= |clock|
  {
    if rows == [] then [] else
      var rest := Due(rows[1..], clock[1..], trigger, valid);
      if IsDue(rows[0], trigger, valid) then [Change(rows[0], clock[0])] + rest else rest
  }

  /** `at` are, in order, the places of the changes among the rows. */
  predicate ArePlaces(at: seq<nat>, rows: seq<Version>, clock: seq<int>, due: seq<Change>)
    requires |rows| <= |clock|
  {
    && |at| == |due|
    && (forall m :: 0 <= m < |at| ==> at[m] < |rows| && due[m] == Change(rows[at[m]], clock[at[m]]))
    && forall l, m :: 0 <= l < m < |at| ==> at[l] < at[m]
  }

  /** They are the places of the rows that are due. */
  predicate AreDue(at: seq<nat>, rows: seq<Version>, trigger: string, valid: Config -> bool) {
    && (forall i :: 0 <= i < |rows| && IsDue(rows[i], trigger, valid) ==> i in at)
    && forall i :: 0 <= i < |rows| && !IsDue(rows[i], trigger, valid) ==> i !in at
  }

  function Moved(at: seq<nat>): (moved: seq<nat>)
    ensures |moved| == |at| && forall m :: 0 <= m < |at| ==> moved[m] == at[m] + 1
  {
    seq(|at|, m requires 0 <= m < |at| => at[m] + 1)
  }

  lemma MovedMember(at: seq<nat>, i: nat)
    ensures i in Moved(at) <==> i > 0 && i - 1 in at
  {
    var moved := Moved(at);
    if i > 0 && i - 1 in at {
      var m :| 0 <= m < |at| && at[m] == i - 1;
      assert moved[m] == i;
    }
  }

  lemma DueMore(at: seq<nat>, rows: seq<Version>, trigger: string, valid: Config -> bool)
    requires rows != [] && AreDue(at, rows[1..], trigger, valid)
    ensures AreDue((if IsDue(rows[0], trigger, valid) then [0] else []) + Moved(at), rows, trigger, valid)
  {
    hide IsDue;
    var more := (if IsDue(rows[0], trigger, valid) then [0] else []) + Moved(at);
    forall i: nat | i < |rows| ensures i in more <==> IsDue(rows[i], trigger, valid) {
      MovedMember(at, i);
      assert i > 0 ==> rows[1..][i - 1] == rows[i];
    }
  }

  lemma PlacesMore(at: seq<nat>, rows: seq<Version>, clock: seq<int>, due: seq<Change>)
    requires 0 < |rows| <= |clock| && ArePlaces(at, rows[1..], clock[1..], due)
    ensures ArePlaces(Moved(at), rows, clock, due)
    ensures ArePlaces([0] + Moved(at), rows, clock, [Change(rows[0], clock[0])] + due)
  {
    forall m | 0 <= m < |at| ensures due[m] == Change(rows[at[m] + 1], clock[at[m] + 1]) {
      assert rows[1..][at[m]] == rows[at[m] + 1];
    }
  }

  /** The changes are those of the rows that are due, in the order of the rows. */
  lemma {:induction false} DueInOrder(rows: seq<Version>, clock: seq<int>, trigger: string, valid: Config -> bool)
    returns (at: seq<nat>)
    requires |rows| <= |clock|
    ensures ArePlaces(at, rows, clock, Due(rows, clock, trigger, valid)) && AreDue(at, rows, trigger, valid)
  {
    if rows == [] {
      at := [];
    } else {
      at := DueInOrder(rows[1..], clock[1..], trigger, valid);
      DueMore(at, rows, trigger, valid);
      PlacesMore(at, rows, clock, Due(rows[1..], clock[1..], trigger, valid));
      hide IsDue, AreDue, ArePlaces;
      at := (if IsDue(rows[0], trigger, valid) then [0] else []) + Moved(at);
    }
  }

  // ---------- the tables afterwards ----------

  /** One more than the highest version number of the plan. */
  ghost predicate IsNextNumber(vs: seq<Version>, plan: nat, n: nat) {
    && (forall v :: v in vs && v.plan == plan ==> v.version < n)
    && exists v :: v in vs && v.plan == plan && v.version + 1 == n
  }

  /** `v` has become `w`: ended at the change that concerns it, or the same. */
  ghost predicate IsEnded(v: Version, w: Version, due: seq<Change>) {
    && (forall c :: c in due && c.row.id == v.id ==> w == v.(to := Some(c.now)))
    && ((forall c :: c in due ==> c.row.id != v.id) ==> w == v)
  }

  ghost predicate IsSuccessor(vs: seq<Version>, c: Change, trigger: string, id: nat, w: Version) {
    && IsNextNumber(vs, c.row.plan, w.version)
    && w == Version(id, c.row.plan, c.row.company, w.version, c.now, None, true, Config(Some(trigger), c.row.config.rest))
  }

  ghost predicate IsEndedAt(db: Db, after: Db, due: seq<Change>, k: nat) {
    k < |db.versions| && k < |after.versions| && IsEnded(db.versions[k], after.versions[k], due)
  }

  ghost predicate IsSuccessorAt(db: Db, after: Db, due: seq<Change>, trigger: string, m: nat) {
    && m < |due| && |db.versions| + m < |after.versions|
    && IsSuccessor(db.versions, due[m], trigger, db.nextId + m, after.versions[|db.versions| + m])
  }

  /** Each old version ended or the same, and behind them the successors, in the order of the changes. */
  ghost predicate VersionsWritten(db: Db, after: Db, due: seq<Change>, trigger: string) {
    && |after.versions| == |db.versions| + |due| && after.nextId == db.nextId + |due|
    && (forall k: nat :: k < |db.versions| ==> IsEndedAt(db, after, due, k))
    && forall m: nat :: m < |due| ==> IsSuccessorAt(db, after, due, trigger, m)
  }

  predicate Leaves(due: seq<Change>, plan: nat) {
    forall c :: c in due ==> c.row.plan != plan
  }

  /** Each plan that is changed is active and points at its successor; the others are as they were. */
  ghost predicate PlansWritten(db: Db, after: Db, due: seq<Change>) {
    && after.plans.Keys == db.plans.Keys
    && (forall m :: 0 <= m < |due| ==> due[m].row.plan in after.plans)
    && (forall m :: 0 <= m < |due| ==> after.plans[due[m].row.plan] == Plan(true, Some(db.nextId + m)))
    && forall p :: p in db.plans && Leaves(due, p) ==> after.plans[p] == db.plans[p]
  }

  ghost predicate IsWritten(db: Db, after: Db, due: seq<Change>, trigger: string) {
    VersionsWritten(db, after, due, trigger) && PlansWritten(db, after, due)
  }

  lemma {:induction false} MaxIsTaken(vs: seq<Version>, plan: nat)
    requires exists v :: v in vs && v.plan == plan
    ensures exists v :: v in vs && v.plan == plan && v.version == MaxVersion(vs, plan)
  {
    var v :| v in vs && v.plan == plan;
    var rest := vs[1..];
    if exists u :: u in rest && u.plan == plan {
      MaxIsTaken(rest, plan);
      var u :| u in rest && u.plan == plan && u.version == MaxVersion(rest, plan);
      assert u in vs && vs[0] in vs;
    } else {
      assert v == vs[0];
      NoneIsZero(rest, plan);
    }
  }

  lemma NoneIsZero(vs: seq<Version>, plan: nat)
    requires !exists v :: v in vs && v.plan == plan
    ensures MaxVersion(vs, plan) == 0
  {
    if vs != [] {
      assert vs[0] in vs;
      assert forall v :: v in vs[1..] ==> v in vs;
      NoneIsZero(vs[1..], plan);
    }
  }

  lemma NewestIsNew(db: Db, row: Version, trigger: string, now: int)
    requires IsNumbered(db) && row in db.versions
    ensures MaxId(HandOver(db, row, trigger, now).versions, row.plan) == db.nextId
  {
    HandOverIds(db, row, trigger, now);
    VersionsKept(db, row, trigger, now);
  }

  lemma NewIsSuccessor(db: Db, row: Version, trigger: string, now: int)
    requires row in db.versions
    ensures IsSuccessor(db.versions, Change(row, now), trigger, db.nextId, NewVersion(db, row, trigger, now))
  {
    MaxIsTaken(db.versions, row.plan);
  }

  lemma HandOverFields(db: Db, row: Version, trigger: string, now: int)
    requires IsNumbered(db) && row in db.versions
    ensures var after, new_ := HandOver(db, row, trigger, now), NewVersion(db, row, trigger, now);
            && after.versions == CloseAll(db.versions + [new_], row.id, now) && after.nextId == db.nextId + 1
            && after.plans == db.plans[row.plan := Plan(true, Some(db.nextId))]
            && Close(new_, row.id, now) == new_
  {
    NewestIsNew(db, row, trigger, now);
  }

  lemma FirstVersions(db: Db, row: Version, trigger: string, now: int)
    requires IsNumbered(db) && row in db.versions
    ensures VersionsWritten(db, HandOver(db, row, trigger, now), [Change(row, now)], trigger)
  {
    hide HandOver, IsNumbered, NewVersion, IsSuccessor, IsEnded, Close;
    var after, new_, due := HandOver(db, row, trigger, now), NewVersion(db, row, trigger, now), [Change(row, now)];
    HandOverFields(db, row, trigger, now);
    NewIsSuccessor(db, row, trigger, now);
    assert IsSuccessorAt(db, after, due, trigger, 0);
    forall k: nat | k < |db.versions| ensures IsEndedAt(db, after, due, k) {
      EndedOnce(db.versions[k], row, now);
    }
  }

  lemma FirstPlans(db: Db, row: Version, trigger: string, now: int)
    requires IsNumbered(db) && row in db.versions && row.plan in db.plans
    ensures PlansWritten(db, HandOver(db, row, trigger, now), [Change(row, now)])
  {
    hide HandOver, IsNumbered, NewVersion, CloseAll;
    var after, due := HandOver(db, row, trigger, now), [Change(row, now)];
    HandOverFields(db, row, trigger, now);
    forall p | p in db.plans && Leaves(due, p) ensures after.plans[p] == db.plans[p] {
      assert due[0] in due;
    }
  }

  lemma EndedOnce(v: Version, row: Version, now: int)
    ensures IsEnded(v, Close(v, row.id, now), [Change(row, now)])
  {
    assert Change(row, now) in [Change(row, now)];
  }

  lemma EndKeeps(v: Version, w: Version, c: Change)
    requires IsEnded(v, w, [c])
    ensures w.id == v.id && w.plan == v.plan && w.version == v.version
  {
    assert c in [c];
  }

  lemma SuccessorFields(db: Db, after: Db, due: seq<Change>, trigger: string, m: nat)
    requires VersionsWritten(db, after, due, trigger) && m < |due|
    ensures after.versions[|db.versions| + m].plan == due[m].row.plan
    ensures after.versions[|db.versions| + m].id == db.nextId + m
  {
    hide IsEnded, IsNextNumber;
    assert IsSuccessorAt(db, after, due, trigger, m);
  }

  lemma SameNumbers(db: Db, mid: Db, c: Change, trigger: string, k: nat)
    requires VersionsWritten(db, mid, [c], trigger) && k < |mid.versions|
    ensures if k < |db.versions|
            then mid.versions[k].plan == db.versions[k].plan && mid.versions[k].version == db.versions[k].version
            else mid.versions[k].plan == c.row.plan
  {
    SuccessorFields(db, mid, [c], trigger, 0);
    hide IsSuccessor;
    if k < |db.versions| {
      assert IsEndedAt(db, mid, [c], k);
      hide IsEnded;
      EndKeeps(db.versions[k], mid.versions[k], c);
    }
  }

  lemma NextNumberLater(db: Db, mid: Db, c: Change, trigger: string, plan: nat, n: nat)
    requires VersionsWritten(db, mid, [c], trigger) && plan != c.row.plan && IsNextNumber(mid.versions, plan, n)
    ensures IsNextNumber(db.versions, plan, n)
  {
    assert |mid.versions| == |db.versions| + 1;
    var w :| w in mid.versions && w.plan == plan && w.version + 1 == n;
    var i :| 0 <= i < |mid.versions| && mid.versions[i] == w;
    SameNumbers(db, mid, c, trigger, i);
    assert db.versions[i] in db.versions;
    forall v | v in db.versions && v.plan == plan ensures v.version < n {
      var k :| 0 <= k < |db.versions| && db.versions[k] == v;
      SameNumbers(db, mid, c, trigger, k);
      assert mid.versions[k] in mid.versions;
      hide VersionsWritten;
    }
  }

  lemma EndedLater(v: Version, u: Version, w: Version, c: Change, due: seq<Change>)
    requires IsEnded(v, u, [c]) && IsEnded(u, w, due) && forall d :: d in due ==> d.row.id != c.row.id
    ensures IsEnded(v, w, [c] + due)
  {
    assert c in [c];
    if v.id == c.row.id {
      assert u == v.(to := Some(c.now)) && w == u;
    }
  }

  lemma VersionsThen(db: Db, mid: Db, after: Db, c: Change, due: seq<Change>, trigger: string)
    requires VersionsWritten(db, mid, [c], trigger) && VersionsWritten(mid, after, due, trigger)
    requires forall d :: d in due ==> d.row.plan != c.row.plan && d.row.id != c.row.id && d.row.id < db.nextId
    ensures VersionsWritten(db, after, [c] + due, trigger)
  {
    var n, all := |db.versions|, [c] + due;
    hide IsNextNumber, IsEnded;
    assert IsSuccessorAt(db, mid, [c], trigger, 0) && IsEndedAt(mid, after, due, n);
    NewIsNotEnded(mid.versions[n], after.versions[n], due);
    forall k: nat | k < n ensures IsEndedAt(db, after, all, k) {
      assert IsEndedAt(db, mid, [c], k) && IsEndedAt(mid, after, due, k);
      EndedLater(db.versions[k], mid.versions[k], after.versions[k], c, due);
    }
    forall m: nat | m < |all| ensures IsSuccessorAt(db, after, all, trigger, m) {
      if m > 0 {
        var i: nat := m - 1;
        assert IsSuccessorAt(mid, after, due, trigger, i);
        NextNumberLater(db, mid, c, trigger, due[i].row.plan, after.versions[n + m].version);
      }
    }
  }

  lemma NewIsNotEnded(v: Version, w: Version, due: seq<Change>)
    requires IsEnded(v, w, due) && forall d :: d in due ==> d.row.id != v.id
    ensures w == v
  {
  }

  lemma PlansThen(db: Db, mid: Db, after: Db, c: Change, due: seq<Change>)
    requires PlansWritten(db, mid, [c]) && PlansWritten(mid, after, due) && mid.nextId == db.nextId + 1
    requires Leaves(due, c.row.plan)
    ensures PlansWritten(db, after, [c] + due)
  {
    var all := [c] + due;
    assert [c][0] == c && forall m :: 1 <= m < |all| ==> all[m] == due[m - 1];
    forall p | p in db.plans && Leaves(all, p) ensures after.plans[p] == db.plans[p] {
      assert c in all && (forall d :: d in due ==> d in all);
      assert Leaves(due, p) && Leaves([c], p);
    }
  }

  lemma DueAreRows(rows: seq<Version>, clock: seq<int>, trigger: string, valid: Config -> bool)
    requires |rows| <= |clock|
    ensures forall c :: c in Due(rows, clock, trigger, valid) ==> c.row in rows && IsDue(c.row, trigger, valid)
  {
  }

  lemma {:induction false} RowsWritten(db: Db, rows: seq<Version>, trigger: string, valid: Config -> bool, clock: seq<int>)
    requires IsNumbered(db) && ArePending(db, rows) && |rows| <= |clock| && IsTrigger(trigger)
    ensures IsWritten(db, RunRows(db, rows, trigger, valid, clock), Due(rows, clock, trigger, valid), trigger)
    decreases |rows|
  {
    if rows != [] {
      var row, now := rows[0], clock[0];
      var next, later := Step(db, row, trigger, valid, now), Due(rows[1..], clock[1..], trigger, valid);
      StillPending(db, rows, trigger, valid, now);
      DueIsChanged(row, trigger, valid);
      if Changes(row, trigger, valid) { HandOverKeepsNumbers(db, row, trigger, now); }
      RowsWritten(next, rows[1..], trigger, valid, clock[1..]);
      if IsDue(row, trigger, valid) {
        FirstVersions(db, row, trigger, now);
        FirstPlans(db, row, trigger, now);
        DueAreRows(rows[1..], clock[1..], trigger, valid);
        forall d | d in later ensures d.row.plan != row.plan && d.row.id != row.id && d.row.id < db.nextId {
          var j :| 1 <= j < |rows| && rows[j] == d.row;
          assert rows[0].plan != rows[j].plan;
          if d.row.id == row.id { SameId(db, d.row, row); }
        }
        var after := RunRows(next, rows[1..], trigger, valid, clock[1..]);
        VersionsThen(db, next, after, Change(row, now), later, trigger);
        PlansThen(db, next, after, Change(row, now), later);
      }
    }
  }

  /**
   * The whole of what a run writes over open versions of different plans: for each whose trigger differs and whose
   * configuration validates with the new one, an end to it and a successor to which its plan points; for an unknown
   * trigger or a dry run, nothing.
   */
  lemma RunInFull(db: Db, input: Input, valid: Config -> bool)
    requires IsNumbered(db) && ArePending(db, input.live) && |input.live| <= |input.clock|
    ensures var after := Run(db, input, valid);
            if input.apply && IsTrigger(input.trigger)
            then IsWritten(db, after, Due(input.live, input.clock, input.trigger, valid), input.trigger)
            else after == db
  {
    if input.apply && IsTrigger(input.trigger) {
      RowsWritten(db, input.live, input.trigger, valid, input.clock);
    }
  }

  // ---------- a plan that cannot be calculated never starts paying ----------

  ghost predicate AreAccepted(db: Db, since: nat, valid: Config -> bool) {
    forall v :: v in db.versions && v.id >= since ==> valid(v.config)
  }

  lemma HandOverIsAccepted(db: Db, row: Version, trigger: string, valid: Config -> bool, now: int, since: nat)
    requires AreAccepted(db, since, valid) && valid(Config(Some(trigger), row.config.rest))
    ensures AreAccepted(HandOver(db, row, trigger, now), since, valid)
  {
    var after, new_ := HandOver(db, row, trigger, now), NewVersion(db, row, trigger, now);
    assert new_.config == Config(Some(trigger), row.config.rest);
    hide MaxId, NewVersion;
    var vs := db.versions + [new_];
    forall w | w in after.versions && w.id >= since ensures valid(w.config) {
      var k :| 0 <= k < |after.versions| && after.versions[k] == w;
      assert w == Close(vs[k], row.id, now);
      assert k < |db.versions| ==> db.versions[k] in db.versions;
    }
  }

  lemma {:induction false} RowsAreAccepted(db: Db, rows: seq<Version>, trigger: string, valid: Config -> bool,
                                           clock: seq<int>, since: nat)
    requires |rows| <= |clock| && IsTrigger(trigger) && AreAccepted(db, since, valid)
    ensures AreAccepted(RunRows(db, rows, trigger, valid, clock), since, valid)
    decreases |rows|
  {
    if rows != [] {
      DueIsChanged(rows[0], trigger, valid);
      if IsDue(rows[0], trigger, valid) { HandOverIsAccepted(db, rows[0], trigger, valid, clock[0], since); }
      hide HandOver, AreAccepted, IsDue, Changes;
      RowsAreAccepted(Step(db, rows[0], trigger, valid, clock[0]), rows[1..], trigger, valid, clock[1..], since);
    }
  }

  /** Whatever the tables and the rows are, a run inserts only versions whose configuration validates. */
  lemma InsertedAreAccepted(db: Db, input: Input, valid: Config -> bool)
    requires (forall v :: v in db.versions ==> v.id < db.nextId) && |input.live| <= |input.clock|
    ensures forall w :: w in Run(db, input, valid).versions && w.id >= db.nextId ==> valid(w.config)
  {
    if input.trigger in TRIGGERS && input.apply {
      RowsAreAccepted(db, input.live, input.trigger, valid, input.clock, db.nextId);
    }
  }

  lemma OtherPlanStays(db: Db, v: Version, w: Version, due: seq<Change>, plan: nat)
    requires IsNumbered(db) && v in db.versions && IsEnded(v, w, due) && (v.plan == plan || w.plan == plan)
    requires forall c :: c in due ==> c.row in db.versions && c.row.plan != plan
    ensures w == v
  {
    forall c | c in due && c.row.id == v.id ensures c.row == v && w.plan == v.plan { SameId(db, c.row, v); }
  }

  lemma NewIsOfChange(db: Db, after: Db, due: seq<Change>, trigger: string, k: nat)
    requires VersionsWritten(db, after, due, trigger) && |db.versions| <= k < |after.versions|
    ensures !Leaves(due, after.versions[k].plan)
  {
    var m := k - |db.versions|;
    assert due[m] in due;
    SuccessorFields(db, after, due, trigger, m);
  }

  /** No change is of the plan: what is there of it stays. */
  lemma LeftPlanStays(db: Db, after: Db, due: seq<Change>, trigger: string, plan: nat)
    requires IsNumbered(db) && IsWritten(db, after, due, trigger) && Leaves(due, plan) && plan in db.plans
    requires forall c :: c in due ==> c.row in db.versions
    ensures plan in after.plans && after.plans[plan] == db.plans[plan]
    ensures forall v: Version :: v.plan == plan ==> (v in after.versions <==> v in db.versions)
  {
    hide IsNumbered, IsEnded;
    forall v: Version | v.plan == plan && v in db.versions ensures v in after.versions {
      var k :| 0 <= k < |db.versions| && db.versions[k] == v;
      assert IsEndedAt(db, after, due, k);
      OtherPlanStays(db, v, after.versions[k], due, plan);
      assert after.versions[k] in after.versions;
    }
    forall v | v in after.versions && v.plan == plan ensures v in db.versions {
      var k :| 0 <= k < |after.versions| && after.versions[k] == v;
      if k < |db.versions| {
        assert IsEndedAt(db, after, due, k);
        OtherPlanStays(db, db.versions[k], v, due, plan);
      } else {
        NewIsOfChange(db, after, due, trigger, k);
      }
    }
  }

  lemma DueLeaves(rows: seq<Version>, clock: seq<int>, trigger: string, valid: Config -> bool, row: Version)
    requires |rows| <= |clock| && row in rows && !IsDue(row, trigger, valid)
    requires forall i, j :: 0 <= i < j < |rows| ==> rows[i].plan != rows[j].plan
    ensures Leaves(Due(rows, clock, trigger, valid), row.plan)
  {
    DueAreRows(rows, clock, trigger, valid);
    hide Due, IsDue;
  }

  /** A live version refused with the new trigger: its plan and all versions of that stay as they were. */
  lemma RefusedStays(db: Db, input: Input, valid: Config -> bool, row: Version)
    requires IsNumbered(db) && ArePending(db, input.live) && |input.live| <= |input.clock| && row in input.live
    requires !valid(Config(Some(input.trigger), row.config.rest))
    ensures var after := Run(db, input, valid);
            && row.plan in after.plans && after.plans[row.plan] == db.plans[row.plan]
            && forall v: Version :: v.plan == row.plan ==> (v in after.versions <==> v in db.versions)
  {
    RunInFull(db, input, valid);
    DueAreRows(input.live, input.clock, input.trigger, valid);
    DueLeaves(input.live, input.clock, input.trigger, valid, row);
    hide Due, IsNumbered, IsWritten, Run;
    if input.apply && IsTrigger(input.trigger) {
      LeftPlanStays(db, Run(db, input, valid), Due(input.live, input.clock, input.trigger, valid), input.trigger, row.plan);
    }
  }
}
