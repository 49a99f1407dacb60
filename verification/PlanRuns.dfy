/** Whole runs of the trigger change, one after another, and what they do to the past and the future. */
module PlanRuns {
  import opened PlanVersions

  // ---------- runs ----------

  /** The rows that the SELECT of live versions returns. */
  ghost predicate IsLive(db: Db, live: seq<Version>) {
    && (forall r :: r in live ==> r in db.versions && IsOpen(r) && r.plan in db.plans)
    && (forall v :: v in db.versions && IsOpen(v) && v.plan in db.plans ==> v in live)
    && (forall i, j :: 0 <= i < j < |live| ==> live[i].plan <= live[j].plan && live[i].id != live[j].id)
  }

  /** Readings of the clock, none earlier than `start` or than one before it. */
  predicate IsClock(clock: seq<int>, start: int) {
    && (forall i :: 0 <= i < |clock| ==> start <= clock[i])
    && forall i, j :: 0 <= i < j < |clock| ==> clock[i] <= clock[j]
  }

  function RunRows(db: Db, live: seq<Version>, trigger: string, valid: Config -> bool, clock: seq<int>): Db
    requires |live| <= |clock|
    decreases |live|
  {
    if live == [] then db
    else RunRows(Step(db, live[0], trigger, valid, clock[0]), live[1..], trigger, valid, clock[1..])
  }

  datatype Input = Input(live: seq<Version>, trigger: string, apply: bool, clock: seq<int>)

  /** One run: an unknown trigger is refused, and without `--apply` nothing is written. */
  function Run(db: Db, input: Input, valid: Config -> bool): Db
    requires |input.live| <= |input.clock|
  {
    if input.trigger !in TRIGGERS || !input.apply then db
    else RunRows(db, input.live, input.trigger, valid, input.clock)
  }

  /** Rows of different plans, all still open in the tables. */
  ghost predicate ArePending(db: Db, rows: seq<Version>) {
    && (forall r :: r in rows ==> r in db.versions && IsOpen(r) && r.plan in db.plans)
    && forall i, j :: 0 <= i < j < |rows| ==> rows[i].plan != rows[j].plan
  }

  lemma LiveArePending(db: Db, live: seq<Version>)
    requires IsChain(db) && IsLive(db, live)
    ensures ArePending(db, live)
  {
    forall i, j | 0 <= i < j < |live| ensures live[i].plan != live[j].plan {
      if live[i].plan == live[j].plan { OneOpenVersion(db, live[i], live[j]); }
    }
  }

  /** The rows still to come are not touched by the step for the first. */
  lemma StillPending(db: Db, rows: seq<Version>, trigger: string, valid: Config -> bool, now: int)
    requires IsNumbered(db) && rows != [] && ArePending(db, rows)
    ensures ArePending(Step(db, rows[0], trigger, valid, now), rows[1..])
  {
    var row := rows[0];
    if Changes(row, trigger, valid) {
      VersionsKept(db, row, trigger, now);
      forall r | r in rows[1..] ensures r in HandOver(db, row, trigger, now).versions {
        var j :| 1 <= j < |rows| && rows[j] == r;
        assert rows[0].plan != rows[j].plan;
        if r.id == row.id { SameId(db, r, row); }
        assert Close(r, row.id, now) == r;
      }
    }
  }

  lemma StepKeepsChain(db: Db, row: Version, trigger: string, valid: Config -> bool, now: int)
    requires IsChain(db) && Started(db, now) && row in db.versions && IsOpen(row)
    ensures var after := Step(db, row, trigger, valid, now); IsChain(after) && Started(after, now)
  {
    if Changes(row, trigger, valid) { HandOverKeepsChain(db, row, trigger, now); }
  }

  lemma StepPoints(db: Db, row: Version, trigger: string, valid: Config -> bool, now: int, plan: nat)
    requires IsNumbered(db) && row in db.versions && row.plan in db.plans
    requires CurrentIsOpen(db, plan) || (plan == row.plan && Changes(row, trigger, valid))
    ensures CurrentIsOpen(Step(db, row, trigger, valid, now), plan)
  {
    if Changes(row, trigger, valid) { HandOverPoints(db, row, trigger, now, plan); }
  }

  lemma {:induction false} RowsKeepChain(db: Db, rows: seq<Version>, trigger: string, valid: Config -> bool,
                                         clock: seq<int>, start: int, end: int)
    requires IsChain(db) && Started(db, start) && ArePending(db, rows)
    requires |rows| <= |clock| && IsClock(clock, start) && start <= end
    requires forall i :: 0 <= i < |clock| ==> clock[i] <= end
    ensures var after := RunRows(db, rows, trigger, valid, clock); IsChain(after) && Started(after, end)
    decreases |rows|
  {
    if rows != [] {
      var now := clock[0];
      assert Started(db, now);
      StepKeepsChain(db, rows[0], trigger, valid, now);
      StillPending(db, rows, trigger, valid, now);
      RowsKeepChain(Step(db, rows[0], trigger, valid, now), rows[1..], trigger, valid, clock[1..], now, end);
    }
  }

  /** A plan's current version stays open, and becomes so when the run changes the plan. */
  lemma {:induction false} RowsPoint(db: Db, rows: seq<Version>, trigger: string, valid: Config -> bool,
                                     clock: seq<int>, plan: nat)
    requires IsNumbered(db) && ArePending(db, rows) && |rows| <= |clock|
    requires CurrentIsOpen(db, plan) || exists r :: r in rows && r.plan == plan && Changes(r, trigger, valid)
    ensures CurrentIsOpen(RunRows(db, rows, trigger, valid, clock), plan)
    decreases |rows|
  {
    if rows != [] {
      var row, now := rows[0], clock[0];
      StillPending(db, rows, trigger, valid, now);
      if Changes(row, trigger, valid) { HandOverKeepsNumbers(db, row, trigger, now); }
      if CurrentIsOpen(db, plan) || (row.plan == plan && Changes(row, trigger, valid)) {
        StepPoints(db, row, trigger, valid, now, plan);
      } else {
        var r :| r in rows && r.plan == plan && Changes(r, trigger, valid);
        assert r in rows[1..];
      }
      RowsPoint(Step(db, row, trigger, valid, now), rows[1..], trigger, valid, clock[1..], plan);
    }
  }

  // ---------- any number of runs ----------

  /** Runs that do not overlap, each reading the live versions as they then are, on a clock that never goes back. */
  ghost predicate IsHistory(db: Db, inputs: seq<Input>, valid: Config -> bool, start: int, end: int)
    decreases |inputs|
  {
    if inputs == [] then start <= end
    else
      var input := inputs[0];
      && IsLive(db, input.live) && |input.live| <= |input.clock| && IsClock(input.clock, start)
      && var next := if input.clock == [] then start else input.clock[|input.clock| - 1];
         IsHistory(Run(db, input, valid), inputs[1..], valid, next, end)
  }

  function RunAll(db: Db, inputs: seq<Input>, valid: Config -> bool): Db
    requires forall k :: 0 <= k < |inputs| ==> |inputs[k].live| <= |inputs[k].clock|
    decreases |inputs|
  {
    if inputs == [] then db else RunAll(Run(db, inputs[0], valid), inputs[1..], valid)
  }

  lemma {:induction false} HistoryHasClocks(db: Db, inputs: seq<Input>, valid: Config -> bool, start: int, end: int)
    requires IsHistory(db, inputs, valid, start, end)
    ensures start <= end && forall k :: 0 <= k < |inputs| ==> |inputs[k].live| <= |inputs[k].clock|
    decreases |inputs|
  {
    if inputs != [] {
      var clock := inputs[0].clock;
      HistoryHasClocks(Run(db, inputs[0], valid), inputs[1..], valid,
                       if clock == [] then start else clock[|clock| - 1], end);
      assert forall k :: 1 <= k < |inputs| ==> inputs[k] == inputs[1..][k - 1];
    }
  }

  /** The run hands the plan over to a new version. */
  ghost predicate ChangedBy(input: Input, plan: nat, valid: Config -> bool) {
    input.apply && input.trigger in TRIGGERS
    && exists r :: r in input.live && r.plan == plan && Changes(r, input.trigger, valid)
  }

  /**
   * Over any sequence of runs each plan's versions keep growing numbers and are never in force together, so at most one
   * is open; and a plan points at its open version in the end if it did at the start or any of the runs changed it.
   */
  lemma {:induction false} ChainForever(db: Db, inputs: seq<Input>, valid: Config -> bool, start: int, end: int)
    requires IsChain(db) && Started(db, start) && IsHistory(db, inputs, valid, start, end)
    ensures forall k :: 0 <= k < |inputs| ==> |inputs[k].live| <= |inputs[k].clock|
    ensures var after := RunAll(db, inputs, valid);
            && IsChain(after) && Started(after, end)
            && (forall p :: CurrentIsOpen(db, p) ==> CurrentIsOpen(after, p))
            && (forall p, k :: 0 <= k < |inputs| && ChangedBy(inputs[k], p, valid) ==> CurrentIsOpen(after, p))
    decreases |inputs|
  {
    HistoryHasClocks(db, inputs, valid, start, end);
    if inputs != [] {
      var input, clock := inputs[0], inputs[0].clock;
      var next := if clock == [] then start else clock[|clock| - 1];
      LiveArePending(db, input.live);
      RowsKeepChain(db, input.live, input.trigger, valid, clock, start, next);
      var after := Run(db, input, valid);
      forall p | CurrentIsOpen(db, p) || ChangedBy(input, p, valid) ensures CurrentIsOpen(after, p) {
        RowsPoint(db, input.live, input.trigger, valid, clock, p);
      }
      hide CurrentIsOpen, ChangedBy, IsChain, IsLive, Run;
      ChainForever(after, inputs[1..], valid, next, end);
      var last := RunAll(db, inputs, valid);
      forall p, k | 0 <= k < |inputs| && ChangedBy(inputs[k], p, valid) ensures CurrentIsOpen(last, p) {
        assert k > 0 ==> inputs[k] == inputs[1..][k - 1];
      }
    }
  }

  // ---------- a second run ----------

  /** Nothing open and live is left to change. */
  ghost predicate IsSettled(db: Db, rows: seq<Version>, trigger: string, valid: Config -> bool) {
    forall v :: v in db.versions && IsOpen(v) && v.plan in db.plans && v !in rows ==> !Changes(v, trigger, valid)
  }

  lemma {:induction false} RowsSettle(db: Db, rows: seq<Version>, trigger: string, valid: Config -> bool, clock: seq<int>)
    requires IsNumbered(db) && ArePending(db, rows) && IsSettled(db, rows, trigger, valid)
    requires |rows| <= |clock| && trigger != ""
    ensures IsSettled(RunRows(db, rows, trigger, valid, clock), [], trigger, valid)
    decreases |rows|
  {
    if rows != [] {
      var row, now := rows[0], clock[0];
      StillPending(db, rows, trigger, valid, now);
      var next := Step(db, row, trigger, valid, now);
      if Changes(row, trigger, valid) {
        HandOverKeepsNumbers(db, row, trigger, now);
        HandOverSettles(db, rows, trigger, valid, now);
      }
      RowsSettle(next, rows[1..], trigger, valid, clock[1..]);
    }
  }

  lemma HandOverSettles(db: Db, rows: seq<Version>, trigger: string, valid: Config -> bool, now: int)
    requires IsNumbered(db) && rows != [] && ArePending(db, rows) && IsSettled(db, rows, trigger, valid) && trigger != ""
    ensures IsSettled(HandOver(db, rows[0], trigger, now), rows[1..], trigger, valid)
  {
    var row, after := rows[0], HandOver(db, rows[0], trigger, now);
    VersionsOrigin(db, row, trigger, now);
    forall w | w in after.versions && IsOpen(w) && w.plan in after.plans && w !in rows[1..]
      ensures !Changes(w, trigger, valid)
    {
      if w != NewVersion(db, row, trigger, now) {
        var v :| v in db.versions && w == Close(v, row.id, now);
        assert w == v && v.id != row.id;
        assert v !in rows;
      }
    }
  }

  lemma {:induction false} NothingToDo(db: Db, rows: seq<Version>, trigger: string, valid: Config -> bool, clock: seq<int>)
    requires |rows| <= |clock| && forall r :: r in rows ==> !Changes(r, trigger, valid)
    ensures RunRows(db, rows, trigger, valid, clock) == db
    decreases |rows|
  {
    if rows != [] { NothingToDo(db, rows[1..], trigger, valid, clock[1..]); }
  }

  /** A second run with the same trigger writes nothing, whenever it happens. */
  lemma SecondRunWritesNothing(db: Db, first: Input, second: Input, valid: Config -> bool)
    requires IsChain(db) && IsLive(db, first.live) && |first.live| <= |first.clock| && first.apply
    requires IsLive(Run(db, first, valid), second.live) && |second.live| <= |second.clock|
    requires second.trigger == first.trigger
    ensures Run(Run(db, first, valid), second, valid) == Run(db, first, valid)
  {
    if first.trigger in TRIGGERS {
      LiveArePending(db, first.live);
      RowsSettle(db, first.live, first.trigger, valid, first.clock);
      NothingToDo(Run(db, first, valid), second.live, first.trigger, valid, second.clock);
    }
  }
}
