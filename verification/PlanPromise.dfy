/**
 * History is never restated: what deals resolve to before a run stays as it is, and after it differs in the release
 * trigger alone. Exactly when that holds, for one plan, for all deals, and for plans that share a scope.
 */
module PlanPromise {
  import opened Wrappers
  import opened PlanVersions
  import opened PlanRuns
  import opened PlanHistory
  import opened PlanResolution

  // ---------- the same candidates, the same choice ----------

  /** The plan gives deals at `t` what it gave. */
  ghost predicate GivesTheSame(db: Db, after: Db, p: nat, t: int) {
    forall f :: Candidate(db, Only(p), t, p, f) <==> Candidate(after, Only(p), t, p, f)
  }

  lemma SameCandidates(db: Db, after: Db, deal: Deal, t: int)
    requires forall p :: p in deal ==> GivesTheSame(db, after, p, t)
    ensures SameChoice(db, after, deal, t)
  {
    forall p, f ensures Candidate(db, deal, t, p, f) <==> Candidate(after, deal, t, p, f) {
      if p in deal {
        assert GivesTheSame(db, after, p, t);
        assert Candidate(db, Only(p), t, p, f) <==> Candidate(after, Only(p), t, p, f);
      }
    }
    hide Candidate, Beats;
  }

  lemma SameIsMatched(db: Db, other: Db, deal: Deal, t: int)
    requires SameChoice(db, other, deal, t)
    ensures IsMatched(db, other, deal, t)
  {
    hide Resolves;
  }

  lemma SameIsAlike(db: Db, after: Db, deal: Deal, t: int)
    requires SameChoice(db, after, deal, t)
    ensures AlikeChoice(db, after, deal, t)
  {
    hide Resolves, IsMatched;
    SameIsMatched(db, after, deal, t);
    assert SameChoice(after, db, deal, t);
    SameIsMatched(after, db, deal, t);
  }

  lemma UntouchedGivesTheSame(db: Db, after: Db, p: nat, t: int)
    requires IsUntouched(db, after, p)
    ensures GivesTheSame(db, after, p, t)
  {
    hide Applies;
  }

  // ---------- the past ----------

  /** Nothing of the plan was in force before `now`. */
  ghost predicate NoPast(db: Db, plan: nat, now: int) {
    forall t, f :: t < now ==> !Applies(db, plan, t, f)
  }

  lemma HandedOverPast(db: Db, after: Db, row: Version, now: int, newId: nat, trigger: string, t: int)
    requires IsHandedOver(db, after, row, now, newId, trigger) && t < now
    requires db.plans[row.plan].active || forall f :: !Applies(db, row.plan, t, f)
    ensures GivesTheSame(db, after, row.plan, t)
  {
    hide Applies;
    forall f ensures Candidate(db, Only(row.plan), t, row.plan, f) <==> Candidate(after, Only(row.plan), t, row.plan, f) {
      assert Applies(after, row.plan, t, f) <==> AppliesAfter(db, row, now, newId, trigger, t, f);
    }
  }

  /** A plan that was not active gave nothing, and the hand-over has made it give what it had in force. */
  lemma RevivedPast(db: Db, after: Db, row: Version, now: int, newId: nat, trigger: string, t: int, f: Face)
    requires IsHandedOver(db, after, row, now, newId, trigger) && t < now && IsNumbered(after)
    requires !db.plans[row.plan].active && Applies(db, row.plan, t, f)
    ensures !AlikeChoice(db, after, Only(row.plan), t) && !SameChoice(db, after, Only(row.plan), t)
  {
    var plan := row.plan;
    assert Applies(after, plan, t, f) <==> AppliesAfter(db, row, now, newId, trigger, t, f);
    hide Applies, IsNumbered;
    var q, g := SomeChoice(after, Only(plan), t, plan, f);
    forall p, h ensures !Resolves(db, Only(plan), t, p, h) { }
    hide Resolves;
    if AlikeChoice(db, after, Only(plan), t) {
      var p, h := Match(after, db, Only(plan), t, q, g);
    }
    assert SameChoice(db, after, Only(plan), t) ==> Resolves(db, Only(plan), t, q, g);
  }

  /**
   * Handing over also makes the plan active, so what the plan gives earlier deals is left alone if and only if it was
   * active already or had nothing in force before.
   */
  lemma PastIsKeptExactly(db: Db, after: Db, row: Version, now: int, newId: nat, trigger: string)
    requires IsHandedOver(db, after, row, now, newId, trigger) && IsNumbered(after)
    ensures (forall t :: t < now ==> SameChoice(db, after, Only(row.plan), t)) <==>
            db.plans[row.plan].active || NoPast(db, row.plan, now)
  {
    var plan := row.plan;
    assert plan in db.plans;
    hide Applies, IsNumbered, IsHandedOver, SameChoice;
    if db.plans[plan].active || NoPast(db, plan, now) {
      forall t | t < now ensures SameChoice(db, after, Only(plan), t) {
        HandedOverPast(db, after, row, now, newId, trigger, t);
        SameCandidates(db, after, Only(plan), t);
      }
    }
    if !db.plans[plan].active && !NoPast(db, plan, now) {
      var t, f :| t < now && Applies(db, plan, t, f);
      RevivedPast(db, after, row, now, newId, trigger, t, f);
    }
  }

  // ---------- the future ----------

  lemma OneApplies(db: Db, plan: nat, t: int, f: Face, g: Face)
    requires IsChain(db) && Applies(db, plan, t, f) && Applies(db, plan, t, g)
    ensures f == g
  {
    var v :| v in db.versions && v.plan == plan && FaceOf(v) == f && InForce(v, t);
    var w :| w in db.versions && w.plan == plan && FaceOf(w) == g && InForce(w, t);
    if v.id == w.id { SameId(db, v, w); }
  }

  lemma RowApplies(db: Db, row: Version, t: int, f: Face)
    requires IsNumbered(db) && row in db.versions && IsOpen(row)
    ensures f.id == row.id ==> (Applies(db, row.plan, t, f) <==> f == FaceOf(row) && row.from <= t)
  {
    if row.from <= t && f == FaceOf(row) { assert InForce(row, t); }
    if f.id == row.id && Applies(db, row.plan, t, f) {
      var v :| v in db.versions && v.plan == row.plan && FaceOf(v) == f && InForce(v, t);
      SameId(db, v, row);
    }
  }

  lemma OldIds(db: Db, plan: nat, t: int, f: Face)
    requires IsNumbered(db) && Applies(db, plan, t, f)
    ensures f.id < db.nextId
  {
  }

  /** Before, a plan by itself gives the one version that applies, if it is active. */
  lemma GivesBefore(db: Db, plan: nat, t: int, q: nat, f: Face)
    requires IsChain(db)
    ensures Resolves(db, Only(plan), t, q, f) <==>
            q == plan && plan in db.plans && db.plans[plan].active && Applies(db, plan, t, f)
  {
    hide Applies, IsChain;
    if Candidate(db, Only(plan), t, q, f) {
      forall r, g | Candidate(db, Only(plan), t, r, g) ensures r == q && g == f { OneApplies(db, plan, t, f, g); }
    }
  }

  /** Another version of the plan that starts after the hand-over and applies at `t`. */
  ghost predicate IsLater(db: Db, row: Version, now: int, t: int, f: Face) {
    f.id != row.id && Applies(db, row.plan, t, f) && f.from > now
  }

  /** Afterwards it gives the new version, unless one of its others starts later. */
  lemma GivesAfter(db: Db, after: Db, row: Version, now: int, newId: nat, trigger: string, t: int, q: nat, g: Face)
    requires IsHandedOver(db, after, row, now, newId, trigger) && IsChain(db) && newId >= db.nextId && t >= now
    ensures Resolves(after, Only(row.plan), t, q, g) <==>
            q == row.plan && (IsLater(db, row, now, t, g) ||
                              (g == NewFace(row, trigger, now, newId) && forall f :: !IsLater(db, row, now, t, f)))
  {
    var plan, new_ := row.plan, NewFace(row, trigger, now, newId);
    hide Applies, IsChain;
    forall f ensures Candidate(after, Only(plan), t, plan, f) <==>
                     f == new_ || (f.id != row.id && Applies(db, plan, t, f))
    {
      assert Applies(after, plan, t, f) <==> AppliesAfter(db, row, now, newId, trigger, t, f);
    }
    forall f, h | Applies(db, plan, t, f) && Applies(db, plan, t, h) ensures f == h { OneApplies(db, plan, t, f, h); }
    forall f | Applies(db, plan, t, f) ensures f.id < newId {
      ChainIsNumbered(db);
      OldIds(db, plan, t, f);
    }
    GreatestOfTwo(db, after, row, now, new_, t, q, g);
  }

  lemma ChainIsNumbered(db: Db)
    requires IsChain(db)
    ensures IsNumbered(db)
  {
  }

  lemma GreatestOfTwo(db: Db, after: Db, row: Version, now: int, new_: Face, t: int, q: nat, g: Face)
    requires forall f :: Candidate(after, Only(row.plan), t, row.plan, f) <==>
                           f == new_ || (f.id != row.id && Applies(db, row.plan, t, f))
    requires forall f, h :: Applies(db, row.plan, t, f) && Applies(db, row.plan, t, h) ==> f == h
    requires (forall f :: Applies(db, row.plan, t, f) ==> f.id < new_.id) && new_.from == now
    ensures Resolves(after, Only(row.plan), t, q, g) <==>
            q == row.plan && (IsLater(db, row, now, t, g) || (g == new_ && forall f :: !IsLater(db, row, now, t, f)))
  {
    var plan := row.plan;
    assert forall p, f :: Candidate(after, Only(plan), t, p, f) ==> p == plan;
    hide Applies, Candidate;
    assert Candidate(after, Only(plan), t, plan, new_);
    if q == plan && IsLater(db, row, now, t, g) {
      forall p, f | Candidate(after, Only(plan), t, p, f) ensures (p == q && f == g) || Beats(Only(plan), q, g, p, f) { }
    }
    if q == plan && g == new_ && forall f :: !IsLater(db, row, now, t, f) {
      forall p, f | Candidate(after, Only(plan), t, p, f) ensures (p == q && f == g) || Beats(Only(plan), q, g, p, f) {
        assert !IsLater(db, row, now, t, f);
      }
    }
    if Resolves(after, Only(plan), t, q, g) {
      assert g == new_ || Beats(Only(plan), q, g, plan, new_);
      forall f | IsLater(db, row, now, t, f) ensures f == g {
        assert Candidate(after, Only(plan), t, plan, f);
      }
    }
  }

  /** At `t` the plan gives something already, and either it starts after `now` or its terms are those of `row`. */
  ghost predicate FitsAt(db: Db, row: Version, now: int, t: int) {
    exists f :: Applies(db, row.plan, t, f) && (f.from > now || f.config.rest == row.config.rest)
  }

  /** When a plan that has been handed over at `now` gives deals at `t` the configuration it gave, up to the trigger. */
  ghost predicate IsKeptAt(db: Db, row: Version, now: int, t: int)
    requires row.plan in db.plans
  {
    if t < now then db.plans[row.plan].active || forall f :: !Applies(db, row.plan, t, f)
    else db.plans[row.plan].active && (t < row.from ==> FitsAt(db, row, now, t))
  }

  lemma KeptBefore(db: Db, after: Db, row: Version, now: int, newId: nat, trigger: string, t: int)
    requires IsHandedOver(db, after, row, now, newId, trigger) && IsNumbered(after) && t < now
    ensures AlikeChoice(db, after, Only(row.plan), t) <==> IsKeptAt(db, row, now, t)
  {
    assert row.plan in db.plans;
    hide IsHandedOver, Applies, IsNumbered, AlikeChoice;
    if IsKeptAt(db, row, now, t) {
      HandedOverPast(db, after, row, now, newId, trigger, t);
      SameCandidates(db, after, Only(row.plan), t);
      SameIsAlike(db, after, Only(row.plan), t);
    } else {
      var f :| Applies(db, row.plan, t, f);
      RevivedPast(db, after, row, now, newId, trigger, t, f);
    }
  }

  /** What applies of the plan from the hand-over on: the outgoing version from its start, at most one other before. */
  lemma BeforeIts(db: Db, row: Version, now: int, t: int)
    requires IsChain(db) && row in db.versions && IsOpen(row) && t >= now
    ensures row.from <= t ==> Applies(db, row.plan, t, FaceOf(row)) && forall f :: !IsLater(db, row, now, t, f)
    ensures t < row.from ==> forall f :: Applies(db, row.plan, t, f) ==> f.id != row.id
  {
    RowApplies(db, row, t, FaceOf(row));
    hide Applies, IsChain;
    if row.from <= t {
      forall f ensures !IsLater(db, row, now, t, f) {
        if Applies(db, row.plan, t, f) { OneApplies(db, row.plan, t, f, FaceOf(row)); }
      }
    } else {
      ChainIsNumbered(db);
      forall f | Applies(db, row.plan, t, f) ensures f.id != row.id { RowApplies(db, row, t, f); }
    }
  }

  /** The version that the plan gives afterwards. */
  ghost predicate IsGiven(db: Db, row: Version, now: int, newId: nat, trigger: string, t: int, g: Face) {
    IsLater(db, row, now, t, g) ||
    (g == NewFace(row, trigger, now, newId) && forall f :: !IsLater(db, row, now, t, f))
  }

  lemma SomethingGiven(db: Db, row: Version, now: int, newId: nat, trigger: string, t: int) returns (g: Face)
    ensures IsGiven(db, row, now, newId, trigger, t, g)
  {
    hide IsLater;
    if f :| IsLater(db, row, now, t, f) { g := f; } else { g := NewFace(row, trigger, now, newId); }
  }

  lemma KeptAfter(db: Db, after: Db, row: Version, now: int, newId: nat, trigger: string, t: int)
    requires IsHandedOver(db, after, row, now, newId, trigger) && IsChain(db) && newId >= db.nextId
    requires row in db.versions && IsOpen(row) && t >= now
    ensures AlikeChoice(db, after, Only(row.plan), t) <==> IsKeptAt(db, row, now, t)
  {
    var plan := row.plan;
    assert plan in db.plans;
    BeforeIts(db, row, now, t);
    forall q, f ensures Resolves(db, Only(plan), t, q, f) <==>
                        q == plan && db.plans[plan].active && Applies(db, plan, t, f)
    {
      GivesBefore(db, plan, t, q, f);
    }
    forall q, g ensures Resolves(after, Only(plan), t, q, g) <==>
                        q == plan && IsGiven(db, row, now, newId, trigger, t, g)
    {
      GivesAfter(db, after, row, now, newId, trigger, t, q, g);
    }
    forall f, h | Applies(db, plan, t, f) && Applies(db, plan, t, h) ensures f == h { OneApplies(db, plan, t, f, h); }
    hide Resolves, Applies, IsChain, IsHandedOver;
    KeptByCases(db, after, row, now, newId, trigger, t);
  }

  /** The same from what is given before and after. */
  lemma KeptByCases(db: Db, after: Db, row: Version, now: int, newId: nat, trigger: string, t: int)
    requires row.plan in db.plans && t >= now
    requires forall q, f :: Resolves(db, Only(row.plan), t, q, f) <==>
                              q == row.plan && db.plans[row.plan].active && Applies(db, row.plan, t, f)
    requires forall q, g :: Resolves(after, Only(row.plan), t, q, g) <==>
                              q == row.plan && IsGiven(db, row, now, newId, trigger, t, g)
    requires forall f, h :: Applies(db, row.plan, t, f) && Applies(db, row.plan, t, h) ==> f == h
    requires row.from <= t ==> Applies(db, row.plan, t, FaceOf(row)) && forall f :: !IsLater(db, row, now, t, f)
    requires t < row.from ==> forall f :: Applies(db, row.plan, t, f) ==> f.id != row.id
    ensures AlikeChoice(db, after, Only(row.plan), t) <==> IsKeptAt(db, row, now, t)
  {
    hide Resolves, Applies;
    var plan := row.plan;
    var g := SomethingGiven(db, row, now, newId, trigger, t);
    if AlikeChoice(db, after, Only(plan), t) {
      hide IsMatched;
      var p, f := Match(after, db, Only(plan), t, plan, g);
      assert Applies(db, plan, t, f) && db.plans[plan].active;
      if t < row.from { assert f.from > now ==> IsLater(db, row, now, t, f); }
    }
    if IsKeptAt(db, row, now, t) {
      var f := FaceOf(row);
      if t < row.from { f :| Applies(db, plan, t, f) && (f.from > now || f.config.rest == row.config.rest); }
      assert Resolves(db, Only(plan), t, plan, f) && Resolves(after, Only(plan), t, plan, g);
      assert f.from > now && t < row.from ==> IsLater(db, row, now, t, f);
      OneEach(db, after, Only(plan), t, plan, f, plan, g);
    }
  }

  lemma OneEach(db: Db, after: Db, deal: Deal, t: int, p: nat, f: Face, q: nat, g: Face)
    requires Resolves(db, deal, t, p, f) && Resolves(after, deal, t, q, g) && g.config.rest == f.config.rest
    ensures AlikeChoice(db, after, deal, t)
  {
    hide Candidate;
    forall r, h | Resolves(db, deal, t, r, h) ensures r == p && h == f { OneChoice(db, deal, t, r, h, p, f); }
    forall r, h | Resolves(after, deal, t, r, h) ensures r == q && h == g { OneChoice(after, deal, t, r, h, q, g); }
    hide Resolves;
  }

  /**
   * One plan, at every time: a plan that has been handed over gives deals at `t` what it gave, up to the trigger, if and
   * only if, for an earlier `t`, it was active or had nothing in force, and, for a later one, it was active and, while
   * the outgoing version has not started, another applies that starts after `now` or has its terms.
   */
  lemma PlanIsKeptExactly(db: Db, after: Db, row: Version, now: int, newId: nat, trigger: string, t: int)
    requires IsHandedOver(db, after, row, now, newId, trigger) && IsChain(db) && newId >= db.nextId
    requires row in db.versions && IsOpen(row) && IsNumbered(after)
    ensures AlikeChoice(db, after, Only(row.plan), t) <==> IsKeptAt(db, row, now, t)
  {
    if t < now {
      KeptBefore(db, after, row, now, newId, trigger, t);
    } else {
      KeptAfter(db, after, row, now, newId, trigger, t);
    }
  }
}
