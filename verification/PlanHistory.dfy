/** Which versions apply when, before and after the trigger change, and the script that makes it. */
module PlanHistory {
  import opened Wrappers
  import opened PlanVersions
  import opened PlanRuns

  /** What a deal sees of a version: all but its end. */
  datatype Face = Face(id: nat, from: int, config: Config)

  function FaceOf(v: Version): Face {
    Face(v.id, v.from, v.config)
  }

  /** A version of the plan with this face is in force at `t`. */
  ghost predicate Applies(db: Db, plan: nat, t: int, f: Face) {
    exists v :: v in db.versions && v.plan == plan && FaceOf(v) == f && InForce(v, t)
  }

  // ---------- one hand-over ----------

  lemma CloseElsewhere(db: Db, row: Version, v: Version, now: int)
    requires IsNumbered(db) && row in db.versions && v in db.versions && v.plan != row.plan
    ensures Close(v, row.id, now) == v
  {
    if v.id == row.id { SameId(db, v, row); }
  }

  /** Other plans see nothing of a hand-over. */
  lemma OtherPlansApply(db: Db, row: Version, trigger: string, now: int, plan: nat, t: int, f: Face)
    requires IsNumbered(db) && row in db.versions && plan != row.plan
    ensures Applies(HandOver(db, row, trigger, now), plan, t, f) <==> Applies(db, plan, t, f)
  {
    var after := HandOver(db, row, trigger, now);
    hide HandOver, IsNumbered, InForce;
    if Applies(db, plan, t, f) {
      var v :| v in db.versions && v.plan == plan && FaceOf(v) == f && InForce(v, t);
      CloseElsewhere(db, row, v, now);
      VersionsKept(db, row, trigger, now);
    }
    if Applies(after, plan, t, f) {
      var w :| w in after.versions && w.plan == plan && FaceOf(w) == f && InForce(w, t);
      VersionsOrigin(db, row, trigger, now);
      var v :| v in db.versions && w == Close(v, row.id, now);
      CloseElsewhere(db, row, v, now);
    }
  }

  lemma CloseInThePast(db: Db, row: Version, v: Version, now: int, t: int)
    requires IsNumbered(db) && row in db.versions && IsOpen(row) && v in db.versions && t < now
    ensures InForce(Close(v, row.id, now), t) <==> InForce(v, t)
  {
    if v.id == row.id { SameId(db, v, row); }
  }

  lemma NewIsNotYet(db: Db, row: Version, trigger: string, now: int, t: int)
    ensures InForce(NewVersion(db, row, trigger, now), t) <==> now <= t
  {
  }

  /** Before the hand-over the plan's versions apply as they did. */
  lemma PastApplies(db: Db, row: Version, trigger: string, now: int, t: int, f: Face)
    requires IsNumbered(db) && row in db.versions && IsOpen(row) && t < now
    ensures Applies(HandOver(db, row, trigger, now), row.plan, t, f) <==> Applies(db, row.plan, t, f)
  {
    var after := HandOver(db, row, trigger, now);
    hide HandOver, IsNumbered, InForce;
    if Applies(db, row.plan, t, f) {
      var v :| v in db.versions && v.plan == row.plan && FaceOf(v) == f && InForce(v, t);
      CloseInThePast(db, row, v, now, t);
      VersionsKept(db, row, trigger, now);
    }
    if Applies(after, row.plan, t, f) {
      var w :| w in after.versions && w.plan == row.plan && FaceOf(w) == f && InForce(w, t);
      NewIsNotYet(db, row, trigger, now, t);
      VersionsOrigin(db, row, trigger, now);
      var v :| v in db.versions && w == Close(v, row.id, now);
      CloseInThePast(db, row, v, now, t);
    }
  }

  /** Closing takes the outgoing version, and no other, out of force from then on, even if it has not started. */
  lemma CloseInTheFuture(db: Db, row: Version, v: Version, now: int, t: int)
    requires IsNumbered(db) && row in db.versions && v in db.versions && now <= t
    ensures v.id == row.id ==> !InForce(Close(v, row.id, now), t)
    ensures v.id != row.id ==> Close(v, row.id, now) == v
  {
  }

  function NewFace(row: Version, trigger: string, now: int, id: nat): Face {
    Face(id, now, Next(row.config, trigger))
  }

  /** From the hand-over on the new version applies, and whatever else of the plan did but the outgoing one. */
  lemma FutureApplies(db: Db, row: Version, trigger: string, now: int, t: int, f: Face)
    requires IsNumbered(db) && row in db.versions && now <= t
    ensures Applies(HandOver(db, row, trigger, now), row.plan, t, f) <==>
            f == NewFace(row, trigger, now, db.nextId) || (f.id != row.id && Applies(db, row.plan, t, f))
  {
    var after, new_ := HandOver(db, row, trigger, now), NewVersion(db, row, trigger, now);
    NewIsNotYet(db, row, trigger, now, t);
    assert FaceOf(new_) == NewFace(row, trigger, now, db.nextId) && new_.plan == row.plan;
    hide HandOver, IsNumbered, InForce, NewVersion;
    if f == FaceOf(new_) { VersionsKept(db, row, trigger, now); }
    if f.id != row.id && Applies(db, row.plan, t, f) {
      var v :| v in db.versions && v.plan == row.plan && FaceOf(v) == f && InForce(v, t);
      CloseInTheFuture(db, row, v, now, t);
      VersionsKept(db, row, trigger, now);
    }
    if Applies(after, row.plan, t, f) {
      var w :| w in after.versions && w.plan == row.plan && FaceOf(w) == f && InForce(w, t);
      VersionsOrigin(db, row, trigger, now);
      if w != new_ {
        var v :| v in db.versions && w == Close(v, row.id, now);
        CloseInTheFuture(db, row, v, now, t);
      }
    }
  }

  // ---------- a whole run ----------

  /** Nothing of the plan is different, at any time. */
  ghost predicate IsUntouched(db: Db, after: Db, plan: nat) {
    && (plan in after.plans <==> plan in db.plans)
    && (plan in db.plans ==> (after.plans[plan].active <==> db.plans[plan].active))
    && forall t, f :: Applies(after, plan, t, f) <==> Applies(db, plan, t, f)
  }

  /** What applies of the plan of `row` at `t`, once it has been handed over at `now` to version `newId`. */
  ghost predicate AppliesAfter(db: Db, row: Version, now: int, newId: nat, trigger: string, t: int, f: Face) {
    if t < now then Applies(db, row.plan, t, f)
    else f == NewFace(row, trigger, now, newId) || (f.id != row.id && Applies(db, row.plan, t, f))
  }

  /** The plan of `row` has been handed over at `now` to version `newId` and is active. */
  ghost predicate IsHandedOver(db: Db, after: Db, row: Version, now: int, newId: nat, trigger: string) {
    && row.plan in db.plans && row.plan in after.plans && after.plans[row.plan].active
    && forall t, f :: Applies(after, row.plan, t, f) <==> AppliesAfter(db, row, now, newId, trigger, t, f)
  }

  /** A plan none of the rows belongs to. */
  lemma {:induction false} UntouchedPlan(db: Db, rows: seq<Version>, trigger: string, valid: Config -> bool,
                                         clock: seq<int>, plan: nat, t: int, f: Face)
    requires IsNumbered(db) && ArePending(db, rows) && |rows| <= |clock|
    requires forall r :: r in rows ==> r.plan != plan
    ensures var after := RunRows(db, rows, trigger, valid, clock);
            && (Applies(after, plan, t, f) <==> Applies(db, plan, t, f))
            && (plan in db.plans <==> plan in after.plans) && (plan in db.plans ==> after.plans[plan] == db.plans[plan])
    decreases |rows|
  {
    if rows != [] {
      var row, now := rows[0], clock[0];
      StillPending(db, rows, trigger, valid, now);
      if Changes(row, trigger, valid) {
        HandOverKeepsNumbers(db, row, trigger, now);
        OtherPlansApply(db, row, trigger, now, plan, t, f);
      }
      UntouchedPlan(Step(db, row, trigger, valid, now), rows[1..], trigger, valid, clock[1..], plan, t, f);
    }
  }

  /** How many of the rows are changed. */
  function ChangedRows(rows: seq<Version>, trigger: string, valid: Config -> bool): nat {
    if rows == [] then 0 else (if Changes(rows[0], trigger, valid) then 1 else 0) + ChangedRows(rows[1..], trigger, valid)
  }

  /** The id of the version that row `i` is handed over to. */
  function NewId(db: Db, rows: seq<Version>, i: nat, trigger: string, valid: Config -> bool): nat
    requires i < |rows|
  {
    db.nextId + ChangedRows(rows[..i], trigger, valid)
  }

  lemma NewIdStep(db: Db, rows: seq<Version>, i: nat, trigger: string, valid: Config -> bool, now: int)
    requires 0 < i < |rows|
    ensures NewId(Step(db, rows[0], trigger, valid, now), rows[1..], i - 1, trigger, valid) ==
            NewId(db, rows, i, trigger, valid)
  {
    assert rows[..i][1..] == rows[1..][..i - 1];
  }

  lemma OneHandOver(db: Db, row: Version, trigger: string, now: int, t: int, f: Face)
    requires IsNumbered(db) && row in db.versions && IsOpen(row)
    ensures Applies(HandOver(db, row, trigger, now), row.plan, t, f) <==>
            AppliesAfter(db, row, now, db.nextId, trigger, t, f)
  {
    hide Applies, HandOver, IsNumbered;
    if t < now { PastApplies(db, row, trigger, now, t, f); } else { FutureApplies(db, row, trigger, now, t, f); }
  }

  /** Row `i` of a run: what applies of its plan afterwards, whatever the run does to the others. */
  lemma {:induction false} RunTimeline(db: Db, rows: seq<Version>, trigger: string, valid: Config -> bool,
                                       clock: seq<int>, i: nat, t: int, f: Face)
    requires IsNumbered(db) && ArePending(db, rows) && |rows| <= |clock| && i < |rows|
    ensures var after, row := RunRows(db, rows, trigger, valid, clock), rows[i];
            && row.plan in db.plans && row.plan in after.plans
            && (after.plans[row.plan].active <==> db.plans[row.plan].active || Changes(row, trigger, valid))
            && (Applies(after, row.plan, t, f) <==>
                  if Changes(row, trigger, valid)
                  then AppliesAfter(db, row, clock[i], NewId(db, rows, i, trigger, valid), trigger, t, f)
                  else Applies(db, row.plan, t, f))
    decreases |rows|
  {
    var first, now, plan := rows[0], clock[0], rows[i].plan;
    var next := Step(db, first, trigger, valid, now);
    StillPending(db, rows, trigger, valid, now);
    if Changes(first, trigger, valid) { HandOverKeepsNumbers(db, first, trigger, now); }
    hide Applies, IsNumbered;
    if i == 0 {
      assert rows[..0] == [];
      UntouchedPlan(next, rows[1..], trigger, valid, clock[1..], plan, t, f);
      if Changes(first, trigger, valid) { OneHandOver(db, first, trigger, now, t, f); }
    } else {
      NewIdStep(db, rows, i, trigger, valid, now);
      if Changes(first, trigger, valid) { OtherPlansApply(db, first, trigger, now, plan, t, f); }
      RunTimeline(next, rows[1..], trigger, valid, clock[1..], i - 1, t, f);
    }
  }

  /** A row that a run changes is handed over by the run. */
  lemma RunHandsOver(db: Db, rows: seq<Version>, trigger: string, valid: Config -> bool, clock: seq<int>, i: nat)
    requires IsNumbered(db) && ArePending(db, rows) && |rows| <= |clock|
    requires i < |rows| && Changes(rows[i], trigger, valid)
    ensures IsHandedOver(db, RunRows(db, rows, trigger, valid, clock), rows[i], clock[i],
                         NewId(db, rows, i, trigger, valid), trigger)
  {
    hide Applies, AppliesAfter, RunRows, NewId, Changes, IsNumbered, ArePending;
    RunTimeline(db, rows, trigger, valid, clock, i, 0, FaceOf(rows[i]));
    var after, row := RunRows(db, rows, trigger, valid, clock), rows[i];
    forall t, f
      ensures Applies(after, row.plan, t, f) <==>
              AppliesAfter(db, row, clock[i], NewId(db, rows, i, trigger, valid), trigger, t, f)
    {
      RunTimeline(db, rows, trigger, valid, clock, i, t, f);
    }
  }

  /** A plan that it does not change is as it was at every time, whether or not it has a live version. */
  lemma RunLeavesOthers(db: Db, rows: seq<Version>, trigger: string, valid: Config -> bool, clock: seq<int>, plan: nat)
    requires IsNumbered(db) && ArePending(db, rows) && |rows| <= |clock|
    requires forall r :: r in rows && r.plan == plan ==> !Changes(r, trigger, valid)
    ensures IsUntouched(db, RunRows(db, rows, trigger, valid, clock), plan)
  {
    var after, any := RunRows(db, rows, trigger, valid, clock), Face(0, 0, Config(None, ""));
    hide Applies, AppliesAfter, RunRows, Changes, IsNumbered, ArePending;
    if exists i :: 0 <= i < |rows| && rows[i].plan == plan {
      var i :| 0 <= i < |rows| && rows[i].plan == plan;
      RunTimeline(db, rows, trigger, valid, clock, i, 0, any);
      forall t, f ensures Applies(after, plan, t, f) <==> Applies(db, plan, t, f) {
        RunTimeline(db, rows, trigger, valid, clock, i, t, f);
      }
    } else {
      UntouchedPlan(db, rows, trigger, valid, clock, plan, 0, any);
      forall t, f ensures Applies(after, plan, t, f) <==> Applies(db, plan, t, f) {
        UntouchedPlan(db, rows, trigger, valid, clock, plan, t, f);
      }
    }
  }

  lemma {:induction false} RowsKeepNumbers(db: Db, rows: seq<Version>, trigger: string, valid: Config -> bool,
                                           clock: seq<int>)
    requires IsNumbered(db) && ArePending(db, rows) && |rows| <= |clock|
    ensures IsNumbered(RunRows(db, rows, trigger, valid, clock))
    decreases |rows|
  {
    hide IsNumbered;
    if rows != [] {
      StillPending(db, rows, trigger, valid, clock[0]);
      if Changes(rows[0], trigger, valid) { HandOverKeepsNumbers(db, rows[0], trigger, clock[0]); }
      RowsKeepNumbers(Step(db, rows[0], trigger, valid, clock[0]), rows[1..], trigger, valid, clock[1..]);
    }
  }

  // ---------- the script ----------

  class PlanTables {
    var versions: seq<Version>
    var plans: map<nat, Plan>
    var nextId: nat

    function Contents(): Db
      reads this
    {
      Db(versions, plans, nextId)
    }

    method InsertVersion(plan: nat, company: Option<int>, version: nat, from: int, config: Config)
      modifies this`versions, this`nextId
      ensures versions == old(versions) + [Version(old(nextId), plan, company, version, from, None, true, config)]
      ensures nextId == old(nextId) + 1
    {
      versions := versions + [Version(nextId, plan, company, version, from, None, true, config)];
      nextId := nextId + 1;
    }

    /** UPDATE ... SET effective_to = :from WHERE id = :oldId */
    method EndVersion(oldId: nat, from: int)
      modifies this`versions
      ensures versions == CloseAll(old(versions), oldId, from)
    {
      var rows := versions;
      for i := 0 to |rows|
        invariant |versions| == |rows|
        invariant forall k :: 0 <= k < i ==> versions[k] == Close(rows[k], oldId, from)
        invariant forall k :: i <= k < |rows| ==> versions[k] == rows[k]
      {
        if versions[i].id == oldId { versions := versions[i := versions[i].(to := Some(from))]; }
      }
    }

    method HandOverTo(row: Version, trigger: string, from: int)
      modifies this
      ensures Contents() == HandOver(old(Contents()), row, trigger, from)
    {
      var nextVersion := MaxVersion(versions, row.plan) + 1;
      InsertVersion(row.plan, row.company, nextVersion, from, Next(row.config, trigger));
      EndVersion(row.id, from);
      var newId := MaxId(versions, row.plan);
      plans := plans[row.plan := Plan(true, Some(newId))];
    }

    /** Goes through the live versions, reading the clock for each that it changes. */
    method SetReleaseTrigger(live: seq<Version>, trigger: string, valid: Config -> bool, apply: bool, clock: seq<int>)
      requires |live| <= |clock|
      modifies this
      ensures Contents() == Run(old(Contents()), Input(live, trigger, apply, clock), valid)
    {
      hide HandOver;
      if trigger !in TRIGGERS { return; }
      assert live[0..] == live && clock[0..] == clock;
      for i := 0 to |live|
        invariant !apply ==> Contents() == old(Contents())
        invariant apply ==> RunRows(Contents(), live[i..], trigger, valid, clock[i..]) ==
                            RunRows(old(Contents()), live, trigger, valid, clock)
      {
        assert live[i..][1..] == live[i + 1..] && clock[i..][1..] == clock[i + 1..];
        var row := live[i];
        if Before(row.config) == Some(trigger) { continue; }
        if !valid(Next(row.config, trigger)) { continue; }
        if !apply { continue; }
        HandOverTo(row, trigger, clock[i]);
      }
    }
  }
}
