/** What a whole run of the trigger change restates: for every deal, at every time, and on inputs where it does. */
module PlanRestated {
  import opened Wrappers
  import opened PlanVersions
  import opened PlanRuns
  import opened PlanHistory
  import opened PlanResolution
  import opened PlanPromise

  predicate IsApplied(input: Input) {
    input.apply && input.trigger in TRIGGERS && |input.live| <= |input.clock|
  }

  predicate ChangesRow(input: Input, valid: Config -> bool, i: nat)
    requires i < |input.live|
  {
    Changes(input.live[i], input.trigger, valid)
  }

  /** The run as one hand-over for each row that it changes. */
  lemma ChangedPlan(db: Db, input: Input, valid: Config -> bool, i: nat)
    requires IsNumbered(db) && ArePending(db, input.live) && IsApplied(input)
    requires i < |input.live| && ChangesRow(input, valid, i)
    ensures IsHandedOver(db, Run(db, input, valid), input.live[i], input.clock[i],
                         NewId(db, input.live, i, input.trigger, valid), input.trigger)
    ensures NewId(db, input.live, i, input.trigger, valid) >= db.nextId
  {
    hide IsHandedOver, IsNumbered, ArePending, RunRows;
    RunHandsOver(db, input.live, input.trigger, valid, input.clock, i);
  }

  lemma OtherPlan(db: Db, input: Input, valid: Config -> bool, p: nat)
    requires IsNumbered(db) && ArePending(db, input.live) && IsApplied(input)
    requires forall i :: 0 <= i < |input.live| && input.live[i].plan == p ==> !ChangesRow(input, valid, i)
    ensures IsUntouched(db, Run(db, input, valid), p)
  {
    hide IsUntouched, IsNumbered, ArePending, RunRows;
    forall r | r in input.live && r.plan == p ensures !Changes(r, input.trigger, valid) {
      var i :| 0 <= i < |input.live| && input.live[i] == r;
      assert !ChangesRow(input, valid, i);
    }
    RunLeavesOthers(db, input.live, input.trigger, valid, input.clock, p);
  }

  // ---------- the past ----------

  /** Every plan that the run changes was active, or had nothing in force before `start`. */
  ghost predicate PastIsSafe(db: Db, input: Input, valid: Config -> bool, start: int)
    requires ArePending(db, input.live)
  {
    forall i :: 0 <= i < |input.live| && ChangesRow(input, valid, i) ==>
      db.plans[input.live[i].plan].active || NoPast(db, input.live[i].plan, start)
  }

  lemma PlanKeepsPast(db: Db, input: Input, valid: Config -> bool, start: int, p: nat, t: int)
    requires IsNumbered(db) && ArePending(db, input.live) && IsApplied(input) && IsClock(input.clock, start)
    requires PastIsSafe(db, input, valid, start) && t < start
    ensures GivesTheSame(db, Run(db, input, valid), p, t)
  {
    hide Applies, Run, NewId, Changes, IsNumbered, IsHandedOver, GivesTheSame;
    if i :| 0 <= i < |input.live| && input.live[i].plan == p && ChangesRow(input, valid, i) {
      ChangedPlan(db, input, valid, i);
      HandedOverPast(db, Run(db, input, valid), input.live[i], input.clock[i],
                     NewId(db, input.live, i, input.trigger, valid), input.trigger, t);
    } else {
      OtherPlan(db, input, valid, p);
      UntouchedGivesTheSame(db, Run(db, input, valid), p, t);
    }
  }

  /**
   * What deals before the run resolve to is unchanged, for every deal, if and only if every plan that the run changes
   * was active already or had nothing in force.
   */
  lemma RunKeepsPastExactly(db: Db, input: Input, valid: Config -> bool, start: int)
    requires IsNumbered(db) && ArePending(db, input.live) && IsApplied(input) && IsClock(input.clock, start)
    ensures (forall deal, t :: t < start ==> SameChoice(db, Run(db, input, valid), deal, t)) <==>
            PastIsSafe(db, input, valid, start)
  {
    var after := Run(db, input, valid);
    if PastIsSafe(db, input, valid, start) {
      forall deal, t | t < start ensures SameChoice(db, after, deal, t) {
        forall p | p in deal ensures GivesTheSame(db, after, p, t) {
          PlanKeepsPast(db, input, valid, start, p, t);
        }
        hide *;
        SameCandidates(db, after, deal, t);
      }
    } else {
      var i :| 0 <= i < |input.live| && ChangesRow(input, valid, i)
               && !db.plans[input.live[i].plan].active && !NoPast(db, input.live[i].plan, start);
      RestatesPast(db, input, valid, start, i);
    }
  }

  lemma RestatesPast(db: Db, input: Input, valid: Config -> bool, start: int, i: nat)
    requires IsNumbered(db) && ArePending(db, input.live) && IsApplied(input) && IsClock(input.clock, start)
    requires i < |input.live| && ChangesRow(input, valid, i)
    requires !db.plans[input.live[i].plan].active && !NoPast(db, input.live[i].plan, start)
    ensures exists deal, t :: t < start && !SameChoice(db, Run(db, input, valid), deal, t)
  {
    hide Applies, NewId, Changes, IsNumbered, IsHandedOver, SameChoice, RunRows;
    var row, after := input.live[i], Run(db, input, valid);
    var t, f :| t < start && Applies(db, row.plan, t, f);
    ChangedPlan(db, input, valid, i);
    RowsKeepNumbers(db, input.live, input.trigger, valid, input.clock);
    RevivedPast(db, after, row, input.clock[i], NewId(db, input.live, i, input.trigger, valid), input.trigger, t, f);
    assert !SameChoice(db, after, Only(row.plan), t);
  }

  // ---------- all times, plans of different precedence ----------

  /** While the outgoing version has not started, another one applies that starts after `now` or has its terms. */
  ghost predicate ScheduleFits(db: Db, row: Version, now: int) {
    forall t :: now <= t < row.from ==> FitsAt(db, row, now, t)
  }

  /** What every plan that the run changes gives deals at `t` is kept, up to the trigger. */
  ghost predicate AllKeptAt(db: Db, input: Input, valid: Config -> bool, t: int)
    requires ArePending(db, input.live) && IsApplied(input)
  {
    forall i :: 0 <= i < |input.live| && ChangesRow(input, valid, i) ==> IsKeptAt(db, input.live[i], input.clock[i], t)
  }

  lemma ChangedPlanKept(db: Db, input: Input, valid: Config -> bool, i: nat, t: int)
    requires IsChain(db) && ArePending(db, input.live) && IsApplied(input)
    requires i < |input.live| && ChangesRow(input, valid, i)
    ensures AlikeChoice(db, Run(db, input, valid), Only(input.live[i].plan), t) <==>
            IsKeptAt(db, input.live[i], input.clock[i], t)
  {
    ChainIsNumbered(db);
    ChangedPlan(db, input, valid, i);
    RowsKeepNumbers(db, input.live, input.trigger, valid, input.clock);
    hide IsHandedOver, IsChain, IsNumbered, RunRows, NewId, AlikeChoice, IsKeptAt, Changes;
    PlanIsKeptExactly(db, Run(db, input, valid), input.live[i], input.clock[i],
                      NewId(db, input.live, i, input.trigger, valid), input.trigger, t);
  }

  lemma OtherPlanKept(db: Db, input: Input, valid: Config -> bool, p: nat, t: int)
    requires IsNumbered(db) && ArePending(db, input.live) && IsApplied(input)
    requires forall i :: 0 <= i < |input.live| && input.live[i].plan == p ==> !ChangesRow(input, valid, i)
    ensures AlikeChoice(db, Run(db, input, valid), Only(p), t)
  {
    OtherPlan(db, input, valid, p);
    hide IsUntouched, Run, AlikeChoice, GivesTheSame, SameChoice;
    UntouchedGivesTheSame(db, Run(db, input, valid), p, t);
    SameCandidates(db, Run(db, input, valid), Only(p), t);
    SameIsAlike(db, Run(db, input, valid), Only(p), t);
  }

  /** At any time: all deals are kept, up to the trigger, if and only if the changed plans are. */
  lemma RunKeepsAt(db: Db, input: Input, valid: Config -> bool, t: int)
    requires IsChain(db) && ArePending(db, input.live) && IsApplied(input)
    ensures (forall deal :: IsUntied(deal) ==> AlikeChoice(db, Run(db, input, valid), deal, t)) <==>
            AllKeptAt(db, input, valid, t)
  {
    var after := Run(db, input, valid);
    ChainIsNumbered(db);
    RowsKeepNumbers(db, input.live, input.trigger, valid, input.clock);
    hide IsChain, IsNumbered, RunRows, AlikeChoice, IsKeptAt, Changes, IsUntied;
    PlansStandForDeals(db, after, t);
    if AllKeptAt(db, input, valid, t) {
      forall p ensures AlikeChoice(db, after, Only(p), t) {
        if i :| 0 <= i < |input.live| && input.live[i].plan == p && ChangesRow(input, valid, i) {
          ChangedPlanKept(db, input, valid, i, t);
        } else {
          OtherPlanKept(db, input, valid, p, t);
        }
      }
    }
    if forall p :: AlikeChoice(db, after, Only(p), t) {
      forall i | 0 <= i < |input.live| && ChangesRow(input, valid, i)
        ensures IsKeptAt(db, input.live[i], input.clock[i], t)
      {
        ChangedPlanKept(db, input, valid, i, t);
      }
    }
  }

  /** Every plan that the run changes was active, and its schedule fits. */
  ghost predicate IsSafe(db: Db, input: Input, valid: Config -> bool)
    requires ArePending(db, input.live) && IsApplied(input)
  {
    forall i :: 0 <= i < |input.live| && ChangesRow(input, valid, i) ==>
      db.plans[input.live[i].plan].active && ScheduleFits(db, input.live[i], input.clock[i])
  }

  /**
   * History over a whole run: every deal whose plans have different precedences resolves, at every time, to the
   * configuration it resolved to, up to the trigger, if and only if every plan that the run changes was active and,
   * until its outgoing version's start, has another in force that starts after the hand-over or has the same terms.
   */
  lemma RunRestatesExactly(db: Db, input: Input, valid: Config -> bool)
    requires IsChain(db) && IsLive(db, input.live) && IsApplied(input)
    ensures ArePending(db, input.live)
    ensures (forall deal, t :: IsUntied(deal) ==> AlikeChoice(db, Run(db, input, valid), deal, t)) <==>
            IsSafe(db, input, valid)
  {
    var after := Run(db, input, valid);
    LiveArePending(db, input.live);
    forall t ensures (forall deal :: IsUntied(deal) ==> AlikeChoice(db, after, deal, t)) <==>
                     AllKeptAt(db, input, valid, t)
    {
      RunKeepsAt(db, input, valid, t);
    }
    SafeIsAlwaysKept(db, input, valid);
    hide IsChain, IsLive, Run, AlikeChoice, AllKeptAt, IsSafe, IsUntied, ArePending;
    if forall t :: AllKeptAt(db, input, valid, t) {
      forall deal, t | IsUntied(deal) ensures AlikeChoice(db, after, deal, t) {
        assert AllKeptAt(db, input, valid, t);
      }
    }
    if forall deal, t :: IsUntied(deal) ==> AlikeChoice(db, after, deal, t) {
      forall t ensures AllKeptAt(db, input, valid, t) {
        assert forall deal :: IsUntied(deal) ==> AlikeChoice(db, after, deal, t);
      }
    }
  }

  lemma SafeIsAlwaysKept(db: Db, input: Input, valid: Config -> bool)
    requires ArePending(db, input.live) && IsApplied(input)
    ensures IsSafe(db, input, valid) <==> forall t :: AllKeptAt(db, input, valid, t)
  {
    hide Changes, FitsAt, Applies;
    if IsSafe(db, input, valid) {
      forall t ensures AllKeptAt(db, input, valid, t) { }
    }
    if forall t :: AllKeptAt(db, input, valid, t) {
      forall i | 0 <= i < |input.live| && ChangesRow(input, valid, i)
        ensures db.plans[input.live[i].plan].active && ScheduleFits(db, input.live[i], input.clock[i])
      {
        var row, now := input.live[i], input.clock[i];
        assert AllKeptAt(db, input, valid, now);
        forall t | now <= t < row.from ensures FitsAt(db, row, now, t) {
          assert AllKeptAt(db, input, valid, t);
        }
      }
    }
  }

  /** When every open version has started, that comes down to the plans being active. */
  lemma StartedIsSafe(db: Db, input: Input, valid: Config -> bool, start: int)
    requires ArePending(db, input.live) && IsApplied(input) && Started(db, start) && IsClock(input.clock, start)
    ensures IsSafe(db, input, valid) <==>
            forall i :: 0 <= i < |input.live| && ChangesRow(input, valid, i) ==> db.plans[input.live[i].plan].active
  {
    hide Changes, FitsAt;
    forall i | 0 <= i < |input.live| ensures ScheduleFits(db, input.live[i], input.clock[i]) {
      assert input.live[i] in input.live;
      assert input.live[i].from <= start <= input.clock[i];
    }
  }

  // ---------- plans of one precedence ----------

  predicate IsNewer(f: Face, g: Face) {
    f.from > g.from || (f.from == g.from && f.id > g.id)
  }

  /** Of two plans of one precedence the one whose version is newer wins. */
  lemma NewerWins(db: Db, p: nat, f: Face, q: nat, g: Face, t: int)
    requires p != q && IsNewer(f, g)
    requires Resolves(db, Only(p), t, p, f) && Resolves(db, Only(q), t, q, g)
    ensures Resolves(db, Both(p, q), t, p, f)
  {
    hide Applies;
    forall r, h | Candidate(db, Both(p, q), t, r, h) ensures (r == p && h == f) || Beats(Both(p, q), p, f, r, h) {
      assert Candidate(db, Only(r), t, r, h);
    }
  }

  lemma BothCommute(p: nat, q: nat)
    ensures Both(p, q) == Both(q, p)
  {
  }

  lemma PairWinner(db: Db, p: nat, f: Face, q: nat, g: Face, t: int)
    requires p != q && f.id != g.id
    requires Resolves(db, Only(p), t, p, f) && Resolves(db, Only(q), t, q, g)
    ensures Resolves(db, Both(p, q), t, if IsNewer(f, g) then p else q, if IsNewer(f, g) then f else g)
  {
    hide Resolves;
    BothCommute(p, q);
    if IsNewer(f, g) { NewerWins(db, p, f, q, g, t); } else { NewerWins(db, q, g, p, f, t); }
  }

  lemma AlikeIsRest(db: Db, after: Db, deal: Deal, t: int, p: nat, f: Face, q: nat, g: Face)
    requires Resolves(db, deal, t, p, f) && Resolves(after, deal, t, q, g)
    ensures AlikeChoice(db, after, deal, t) <==> g.config.rest == f.config.rest
  {
    hide Resolves;
    if g.config.rest == f.config.rest { hide IsMatched; OneEach(db, after, deal, t, p, f, q, g); }
    if AlikeChoice(db, after, deal, t) {
      hide IsMatched;
      var r, h := Match(db, after, deal, t, p, f);
      OneChoice(after, deal, t, r, h, q, g);
    }
  }

  /** Two plans of one precedence, each kept by itself, are kept together unless the one overtakes the other's terms. */
  lemma PairExactly(db: Db, after: Db, p: nat, f: Face, f': Face, q: nat, g: Face, g': Face, t: int)
    requires p != q && f.id != g.id && f'.id != g'.id
    requires Resolves(db, Only(p), t, p, f) && Resolves(db, Only(q), t, q, g)
    requires Resolves(after, Only(p), t, p, f') && Resolves(after, Only(q), t, q, g')
    requires f'.config.rest == f.config.rest && g'.config.rest == g.config.rest
    ensures AlikeChoice(db, after, Both(p, q), t) <==>
            (IsNewer(f, g) <==> IsNewer(f', g')) || f.config.rest == g.config.rest
  {
    hide Resolves, IsNewer, AlikeChoice;
    PairWinner(db, p, f, q, g, t);
    PairWinner(after, p, f', q, g', t);
    AlikeIsRest(db, after, Both(p, q), t, if IsNewer(f, g) then p else q, if IsNewer(f, g) then f else g,
                if IsNewer(f', g') then p else q, if IsNewer(f', g') then f' else g');
  }

  /** A changed row of an active plan, started by then: what its plan gives from then on, before the run and after it. */
  lemma StartedRowGives(db: Db, input: Input, valid: Config -> bool, i: nat, t: int)
    requires IsChain(db) && ArePending(db, input.live) && IsApplied(input)
    requires i < |input.live| && ChangesRow(input, valid, i)
    requires var row := input.live[i]; row.from <= input.clock[i] <= t && db.plans[row.plan].active
    ensures var row, now := input.live[i], input.clock[i];
            && Resolves(db, Only(row.plan), t, row.plan, FaceOf(row))
            && Resolves(Run(db, input, valid), Only(row.plan), t, row.plan,
                        NewFace(row, input.trigger, now, NewId(db, input.live, i, input.trigger, valid)))
  {
    var row, now, newId := input.live[i], input.clock[i], NewId(db, input.live, i, input.trigger, valid);
    ChainIsNumbered(db);
    ChangedPlan(db, input, valid, i);
    assert row in db.versions && IsOpen(row);
    hide IsChain, IsHandedOver, Applies, RunRows, NewId, Changes, Resolves, IsNumbered;
    BeforeIts(db, row, now, t);
    GivesBefore(db, row.plan, t, row.plan, FaceOf(row));
    GivesAfter(db, Run(db, input, valid), row, now, newId, input.trigger, t, row.plan,
               NewFace(row, input.trigger, now, newId));
  }

  lemma LaterRowsGetLaterIds(db: Db, rows: seq<Version>, i: nat, j: nat, trigger: string, valid: Config -> bool)
    requires i < j < |rows| && Changes(rows[i], trigger, valid)
    ensures NewId(db, rows, i, trigger, valid) < NewId(db, rows, j, trigger, valid)
  {
    hide Changes;
    ChangedGrows(rows[..j], i, trigger, valid);
    assert rows[..j][..i] == rows[..i] && rows[..j][i] == rows[i];
  }

  lemma {:induction false} ChangedGrows(rows: seq<Version>, i: nat, trigger: string, valid: Config -> bool)
    requires i < |rows| && Changes(rows[i], trigger, valid)
    ensures ChangedRows(rows[..i], trigger, valid) < ChangedRows(rows, trigger, valid)
  {
    hide Changes;
    if i > 0 {
      ChangedGrows(rows[1..], i - 1, trigger, valid);
      assert rows[..i][1..] == rows[1..][..i - 1];
    }
  }

  /**
   * Two plans that share a scope and that the run changes, both active and started: the run leaves the later one of its
   * list the newer, so deals keep their terms if and only if that was so before or the two have the same.
   */
  lemma TiedRowsExactly(db: Db, input: Input, valid: Config -> bool, start: int, i: nat, j: nat, t: int)
    requires IsChain(db) && ArePending(db, input.live) && IsApplied(input)
    requires Started(db, start) && IsClock(input.clock, start)
    requires i < j < |input.live| && ChangesRow(input, valid, i) && ChangesRow(input, valid, j)
    requires db.plans[input.live[i].plan].active && db.plans[input.live[j].plan].active && t >= input.clock[j]
    ensures var p, q := input.live[i], input.live[j];
            AlikeChoice(db, Run(db, input, valid), Both(p.plan, q.plan), t) <==>
            IsNewer(FaceOf(q), FaceOf(p)) || p.config.rest == q.config.rest
  {
    var p, q, rows, trigger := input.live[i], input.live[j], input.live, input.trigger;
    assert p in db.versions && q in db.versions && p.plan != q.plan && p.from <= start && q.from <= start;
    assert start <= input.clock[i] <= input.clock[j];
    ChainIsNumbered(db);
    assert p.id != q.id by { if p.id == q.id { SameId(db, p, q); } }
    StartedRowGives(db, input, valid, i, t);
    StartedRowGives(db, input, valid, j, t);
    LaterRowsGetLaterIds(db, rows, i, j, trigger, valid);
    hide IsChain, IsNumbered, Resolves, AlikeChoice, Run, NewId, ArePending, Started, IsClock, Changes;
    var p', q' := NewFace(p, trigger, input.clock[i], NewId(db, rows, i, trigger, valid)),
                  NewFace(q, trigger, input.clock[j], NewId(db, rows, j, trigger, valid));
    PairExactly(db, Run(db, input, valid), p.plan, FaceOf(p), p', q.plan, FaceOf(q), q', t);
  }

  /**
   * Two plans that share a scope of which the run changes one, active and started: its new version overtakes what the
   * other gives unless that starts after the hand-over, so deals keep their terms if and only if it was the newer
   * already, or the other does start later, or the two have the same terms.
   */
  lemma TiedWithOtherExactly(db: Db, input: Input, valid: Config -> bool, i: nat, q: nat, g: Face, t: int)
    requires IsChain(db) && ArePending(db, input.live) && IsApplied(input)
    requires i < |input.live| && ChangesRow(input, valid, i) && q != input.live[i].plan
    requires forall k :: 0 <= k < |input.live| && input.live[k].plan == q ==> !ChangesRow(input, valid, k)
    requires var row := input.live[i]; row.from <= input.clock[i] <= t && db.plans[row.plan].active
    requires Resolves(db, Only(q), t, q, g)
    ensures var row, now := input.live[i], input.clock[i];
            AlikeChoice(db, Run(db, input, valid), Both(row.plan, q), t) <==>
            IsNewer(FaceOf(row), g) || g.from > now || row.config.rest == g.config.rest
  {
    var row, after := input.live[i], Run(db, input, valid);
    ChainIsNumbered(db);
    assert row in db.versions;
    OtherGives(db, input, valid, q, g, t);
    StartedRowGives(db, input, valid, i, t);
    OtherIds(db, row, q, g, t);
    ChangedPlan(db, input, valid, i);
    hide IsChain, IsNumbered, Resolves, AlikeChoice, Run, NewId, ArePending, Changes, IsHandedOver;
    var new_ := NewFace(row, input.trigger, input.clock[i], NewId(db, input.live, i, input.trigger, valid));
    PairExactly(db, after, row.plan, FaceOf(row), new_, q, g, g, t);
  }

  lemma OtherGives(db: Db, input: Input, valid: Config -> bool, q: nat, g: Face, t: int)
    requires IsNumbered(db) && ArePending(db, input.live) && IsApplied(input)
    requires forall k :: 0 <= k < |input.live| && input.live[k].plan == q ==> !ChangesRow(input, valid, k)
    requires Resolves(db, Only(q), t, q, g)
    ensures Resolves(Run(db, input, valid), Only(q), t, q, g)
  {
    hide IsNumbered, ArePending, Run, Resolves, GivesTheSame, IsUntouched;
    OtherPlan(db, input, valid, q);
    UntouchedGivesTheSame(db, Run(db, input, valid), q, t);
    SameCandidates(db, Run(db, input, valid), Only(q), t);
  }

  lemma OtherIds(db: Db, row: Version, q: nat, g: Face, t: int)
    requires IsNumbered(db) && row in db.versions && q != row.plan && Resolves(db, Only(q), t, q, g)
    ensures g.id != row.id && g.id < db.nextId
  {
    BelongsTo(db, Only(q), t, q, g);
    var v :| v in db.versions && v.plan == q && FaceOf(v) == g && InForce(v, t);
    if v.id == row.id { SameId(db, v, row); }
  }

  // ---------- inputs on which history is restated ----------

  predicate AnyConfig(c: Config) {
    true
  }

  /** A run of the default trigger over these live versions at 10. */
  function RunAtTen(live: seq<Version>): Input {
    Input(live, "PRO_RATA", true, seq(|live|, _ => 10))
  }

  /** Plan 7 is archived with its version, live since 0, still open. */
  function ArchivedPlan(): Db {
    Db([Version(1, 7, None, 1, 0, None, true, Config(None, ""))], map[7 := Plan(false, Some(1))], 2)
  }

  lemma ArchivedIsLive()
    ensures IsChain(ArchivedPlan()) && Started(ArchivedPlan(), 10) && IsLive(ArchivedPlan(), ArchivedPlan().versions)
  {
    var db := ArchivedPlan();
    assert db.versions[0] in db.versions && forall v :: v in db.versions ==> v == db.versions[0];
  }

  /** The run makes earlier deals resolve to its version and later ones to the new one: it restates both. */
  lemma ArchivedPlanRevives()
    ensures var db := ArchivedPlan();
            && IsChain(db) && Started(db, 10) && IsLive(db, db.versions)
            && var after := Run(db, RunAtTen(db.versions), AnyConfig);
            !AlikeChoice(db, after, Only(7), 5) && !AlikeChoice(db, after, Only(7), 15)
  {
    var db := ArchivedPlan();
    var row, input := db.versions[0], RunAtTen(db.versions);
    ArchivedIsLive();
    LiveArePending(db, db.versions);
    assert ChangesRow(input, AnyConfig, 0);
    assert InForce(row, 5);
    assert Applies(db, 7, 5, FaceOf(row));
    hide IsChain, IsLive, ArePending, Run, Started, AlikeChoice, Applies, Changes;
    ChangedPlanKept(db, input, AnyConfig, 0, 5);
    ChangedPlanKept(db, input, AnyConfig, 0, 15);
  }

  /** Plan 7 pays 5% until 20 and, by a version activated ahead of time, 10% from then on. */
  function ScheduledAhead(): Db {
    Db([Version(1, 7, None, 1, 0, Some(20), true, Config(None, "5%")),
        Version(2, 7, None, 2, 20, None, true, Config(None, "10%"))],
       map[7 := Plan(true, Some(2))], 3)
  }

  lemma ScheduledIsChain()
    ensures IsChain(ScheduledAhead())
  {
    var db := ScheduledAhead();
    var first, row := db.versions[0], db.versions[1];
    assert forall v :: v in db.versions ==> v == first || v == row;
  }

  lemma ScheduledIsLive()
    ensures IsLive(ScheduledAhead(), [ScheduledAhead().versions[1]])
  {
    var db := ScheduledAhead();
    var first, row := db.versions[0], db.versions[1];
    assert row in db.versions && row in [row];
    assert forall v :: v in db.versions ==> v == first || v == row;
  }

  lemma ScheduledApplies(f: Face)
    requires Applies(ScheduledAhead(), 7, 15, f)
    ensures f == FaceOf(ScheduledAhead().versions[0])
  {
    var db := ScheduledAhead();
    var first, row := db.versions[0], db.versions[1];
    assert forall v :: v in db.versions ==> v == first || v == row;
  }

  /** The run, at 10, moves a deal at 15 from 5% to 10%, although the plan is active. */
  lemma ScheduledAheadMovesForward()
    ensures var db := ScheduledAhead();
            var live := [db.versions[1]];
            && IsChain(db) && IsLive(db, live) && db.plans[7].active
            && !AlikeChoice(db, Run(db, RunAtTen(live), AnyConfig), Only(7), 15)
  {
    var db := ScheduledAhead();
    var row := db.versions[1];
    var input := RunAtTen([row]);
    ScheduledIsChain();
    ScheduledIsLive();
    LiveArePending(db, [row]);
    assert ChangesRow(input, AnyConfig, 0);
    assert !FitsAt(db, row, 10, 15) by {
      forall f | Applies(db, 7, 15, f) ensures f.from <= 10 && f.config.rest != row.config.rest { ScheduledApplies(f); }
    }
    hide IsChain, IsLive, ArePending, Run, AlikeChoice, FitsAt, Changes;
    ChangedPlanKept(db, input, AnyConfig, 0, 15);
  }

  /** And it puts the new version in force beside the one that ends at 20. */
  lemma ScheduledAheadOverlaps()
    ensures var db := ScheduledAhead();
            && IsChain(db) && IsLive(db, [db.versions[1]])
            && !Exclusive(HandOver(db, db.versions[1], "PRO_RATA", 10))
  {
    hide IsChain, IsLive, HandOver;
    var db := ScheduledAhead();
    var first, row := db.versions[0], db.versions[1];
    ScheduledIsChain();
    ScheduledIsLive();
    assert first in db.versions && row in db.versions;
    HandOverExclusive(db, row, "PRO_RATA", 10);
    assert InForce(first, 10);
  }

  /** Plans 1 and 2 are assigned to one property; the newer, 2, has the trigger already. */
  function SharedScope(): Db {
    Db([Version(1, 1, None, 1, 0, None, true, Config(None, "5%")),
        Version(2, 2, None, 1, 5, None, true, Config(Some("PRO_RATA"), "10%"))],
       map[1 := Plan(true, Some(1)), 2 := Plan(true, Some(2))], 3)
  }

  lemma SharedIsLive()
    ensures var db := SharedScope();
            IsChain(db) && Started(db, 10) && IsLive(db, db.versions)
    ensures var db := SharedScope();
            Applies(db, 2, 15, FaceOf(db.versions[1]))
  {
    var db := SharedScope();
    var first, second := db.versions[0], db.versions[1];
    assert first in db.versions && second in db.versions;
    assert forall v :: v in db.versions ==> v == first || v == second;
    assert InForce(second, 15);
  }

  /** The run hands over plan 1 only, whose new version is the newer from then on: a deal at 15 moves from 10% to 5%. */
  lemma SharedScopeFlips()
    ensures var db := SharedScope();
            && IsChain(db) && Started(db, 10) && IsLive(db, db.versions)
            && !AlikeChoice(db, Run(db, RunAtTen(db.versions), AnyConfig), Both(1, 2), 15)
  {
    var db := SharedScope();
    var input, g := RunAtTen(db.versions), FaceOf(db.versions[1]);
    SharedIsLive();
    LiveArePending(db, db.versions);
    assert ChangesRow(input, AnyConfig, 0) && !ChangesRow(input, AnyConfig, 1);
    hide IsChain, IsLive, ArePending, Run, AlikeChoice, Applies, Changes, Resolves, Started;
    GivesBefore(db, 2, 15, 2, g);
    TiedWithOtherExactly(db, input, AnyConfig, 0, 2, g, 15);
  }
}
