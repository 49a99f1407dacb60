/** What deals resolve to before and after a run: the promise that history is not restated, and exactly when it holds. */
module PlanResolution {
  import opened Wrappers
  import opened PlanVersions
  import opened PlanRuns
  import opened PlanHistory

  // ---------- the choice among plans and versions ----------

  /** The plans whose scope matches the deal, each with its precedence: campaign, unit, property, project, default. */
  type Deal = map<nat, nat>

  /** An active plan that matches the deal has this version in force at `t`. */
  ghost predicate Candidate(db: Db, deal: Deal, t: int, p: nat, f: Face) {
    p in deal && p in db.plans && db.plans[p].active && Applies(db, p, t, f)
  }

  /** ORDER BY precedence, effective_from DESC, id DESC */
  predicate Beats(deal: Deal, p: nat, f: Face, q: nat, g: Face)
    requires p in deal && q in deal
  {
    deal[p] < deal[q] || (deal[p] == deal[q] && (f.from > g.from || (f.from == g.from && f.id > g.id)))
  }

  /** The deal at `t` resolves to this version of this plan. */
  ghost predicate Resolves(db: Db, deal: Deal, t: int, p: nat, f: Face) {
    && Candidate(db, deal, t, p, f)
    && forall q, g :: Candidate(db, deal, t, q, g) ==> (q == p && g == f) || Beats(deal, p, f, q, g)
  }

  /** An active plan that the deal matches has this active version, which has started by `t` and not ended. */
  ghost predicate IsOffer(db: Db, deal: Deal, t: int, v: Version) {
    && v in db.versions && v.plan in deal && v.plan in db.plans && db.plans[v.plan].active
    && v.active && v.from <= t && match v.to case None => true case Some(end) => t < end
  }

  /** Of two offers, the one of the more specific plan, then the later one, then the one with the higher id. */
  predicate IsBefore(deal: Deal, v: Version, w: Version)
    requires v.plan in deal && w.plan in deal
  {
    var a, b := deal[v.plan], deal[w.plan];
    a < b || (a == b && v.from > w.from) || (a == b && v.from == w.from && v.id > w.id)
  }

  /** The offer that comes before all others. */
  ghost predicate IsBestOffer(db: Db, deal: Deal, t: int, v: Version) {
    IsOffer(db, deal, t, v) && forall w :: IsOffer(db, deal, t, w) && w.id != v.id ==> IsBefore(deal, v, w)
  }

  /** A deal resolves to the best offer. */
  lemma ResolvesToBestOffer(db: Db, deal: Deal, t: int, v: Version)
    requires IsNumbered(db) && v in db.versions
    ensures Resolves(db, deal, t, v.plan, FaceOf(v)) <==> IsBestOffer(db, deal, t, v)
  {
    var p, f := v.plan, FaceOf(v);
    CandidateIsOffer(db, deal, t, v);
    if Resolves(db, deal, t, p, f) {
      forall w | IsOffer(db, deal, t, w) && w.id != v.id ensures IsBefore(deal, v, w) {
        CandidateIsOffer(db, deal, t, w);
      }
    }
    if IsBestOffer(db, deal, t, v) {
      forall q, g | Candidate(db, deal, t, q, g) ensures (q == p && g == f) || Beats(deal, p, f, q, g) {
        var w :| w in db.versions && w.plan == q && FaceOf(w) == g && InForce(w, t);
        CandidateIsOffer(db, deal, t, w);
        if w.id == v.id { SameId(db, v, w); }
      }
    }
  }

  lemma CandidateIsOffer(db: Db, deal: Deal, t: int, v: Version)
    requires IsNumbered(db) && v in db.versions
    ensures Candidate(db, deal, t, v.plan, FaceOf(v)) <==> IsOffer(db, deal, t, v)
  {
    if Applies(db, v.plan, t, FaceOf(v)) {
      var w :| w in db.versions && w.plan == v.plan && FaceOf(w) == FaceOf(v) && InForce(w, t);
      SameId(db, v, w);
    }
  }

  lemma OneChoice(db: Db, deal: Deal, t: int, p: nat, f: Face, q: nat, g: Face)
    requires Resolves(db, deal, t, p, f) && Resolves(db, deal, t, q, g)
    ensures p == q && f == g
  {
    hide Candidate;
  }

  ghost predicate IsCandidate(db: Db, deal: Deal, t: int, v: Version) {
    v.plan in deal && v.plan in db.plans && db.plans[v.plan].active && InForce(v, t)
  }

  /** `v` is a candidate and comes first among those of the first `n` versions. */
  ghost predicate IsFirst(db: Db, deal: Deal, t: int, n: nat, v: Version)
    requires n <= |db.versions|
  {
    && v in db.versions && IsCandidate(db, deal, t, v)
    && forall k :: 0 <= k < n && IsCandidate(db, deal, t, db.versions[k]) ==>
         var w := db.versions[k]; w == v || Beats(deal, v.plan, FaceOf(v), w.plan, FaceOf(w))
  }

  lemma {:induction false} FirstAmong(db: Db, deal: Deal, t: int, n: nat, any: Version) returns (v: Version)
    requires IsNumbered(db) && n <= |db.versions| && any in db.versions && IsCandidate(db, deal, t, any)
    ensures IsFirst(db, deal, t, n, v)
  {
    hide IsCandidate, IsNumbered;
    if n == 0 {
      v := any;
    } else {
      v := FirstAmong(db, deal, t, n - 1, any);
      var w := db.versions[n - 1];
      if IsCandidate(db, deal, t, w) && w != v {
        DifferentIds(db, v, w);
        KnownPlans(db, deal, t, v);
        KnownPlans(db, deal, t, w);
        if !Beats(deal, v.plan, FaceOf(v), w.plan, FaceOf(w)) { v := w; }
      }
    }
  }

  lemma DifferentIds(db: Db, v: Version, w: Version)
    requires IsNumbered(db) && v in db.versions && w in db.versions && v != w
    ensures v.id != w.id
  {
    if v.id == w.id { SameId(db, v, w); }
  }

  lemma KnownPlans(db: Db, deal: Deal, t: int, v: Version)
    requires IsCandidate(db, deal, t, v)
    ensures v.plan in deal
  {
  }

  /** A deal that matches anything in force resolves to something. */
  lemma SomeChoice(db: Db, deal: Deal, t: int, p: nat, f: Face) returns (q: nat, g: Face)
    requires IsNumbered(db) && Candidate(db, deal, t, p, f)
    ensures Resolves(db, deal, t, q, g)
  {
    var any :| any in db.versions && any.plan == p && FaceOf(any) == f && InForce(any, t);
    var v := FirstAmong(db, deal, t, |db.versions|, any);
    q, g := v.plan, FaceOf(v);
    hide InForce, IsNumbered;
    assert Applies(db, q, t, g);
    forall r, h | Candidate(db, deal, t, r, h) ensures (r == q && h == g) || Beats(deal, q, g, r, h) {
      var w :| w in db.versions && w.plan == r && FaceOf(w) == h && InForce(w, t);
      var k :| 0 <= k < |db.versions| && db.versions[k] == w;
      assert IsCandidate(db, deal, t, db.versions[k]);
    }
  }

  // ---------- what it means to restate ----------

  /** The deal resolves to the same version. */
  ghost predicate SameChoice(db: Db, after: Db, deal: Deal, t: int) {
    forall p, f :: Resolves(db, deal, t, p, f) <==> Resolves(after, deal, t, p, f)
  }

  /** What the deal resolves to in `db` it resolves to in `other` up to the trigger. */
  ghost predicate IsMatched(db: Db, other: Db, deal: Deal, t: int) {
    forall p, f :: Resolves(db, deal, t, p, f) ==>
      exists q, g :: Resolves(other, deal, t, q, g) && g.config.rest == f.config.rest
  }

  /** The deal resolves to a configuration that differs in the trigger at most; to nothing if it was nothing. */
  ghost predicate AlikeChoice(db: Db, after: Db, deal: Deal, t: int) {
    IsMatched(db, after, deal, t) && IsMatched(after, db, deal, t)
  }

  /** A deal that only this plan matches. */
  function Only(p: nat): Deal {
    map[p := 0]
  }

  /** A deal that these two plans match with equal precedence, as when both are assigned to one property. */
  function Both(p: nat, q: nat): Deal {
    map[p := 0, q := 0]
  }

  /** No two plans match with equal precedence. */
  predicate IsUntied(deal: Deal) {
    forall p, q :: p in deal && q in deal && p != q ==> deal[p] != deal[q]
  }

  // ---------- one plan, or two, stand for all deals ----------

  /** What wins a deal wins any part of it that it matches. */
  lemma WinsTheSmaller(db: Db, deal: Deal, small: Deal, t: int, p: nat, f: Face)
    requires Resolves(db, deal, t, p, f) && p in small
    requires forall q :: q in small ==> q in deal && deal[q] == deal[p]
    requires forall q :: q in small ==> small[q] == small[p]
    ensures Resolves(db, small, t, p, f)
  {
    hide Applies;
    forall q, g | Candidate(db, small, t, q, g) ensures (q == p && g == f) || Beats(small, p, f, q, g) {
      assert Candidate(db, deal, t, q, g);
    }
  }

  lemma Match(db: Db, other: Db, deal: Deal, t: int, p: nat, f: Face) returns (q: nat, g: Face)
    requires IsMatched(db, other, deal, t) && Resolves(db, deal, t, p, f)
    ensures Resolves(other, deal, t, q, g) && q in deal && g.config.rest == f.config.rest
  {
    q, g :| Resolves(other, deal, t, q, g) && g.config.rest == f.config.rest;
  }

  /** Each plan by itself keeps what it gives, and so does each two of one precedence that both give something. */
  lemma WinnersAlike(db: Db, after: Db, deal: Deal, t: int, p: nat, f: Face, q: nat, g: Face)
    requires Resolves(db, deal, t, p, f) && Resolves(after, deal, t, q, g)
    requires AlikeChoice(db, after, Only(p), t) && AlikeChoice(db, after, Only(q), t)
    requires p != q && deal[p] == deal[q] ==> AlikeChoice(db, after, Both(p, q), t)
    ensures g.config.rest == f.config.rest
  {
    hide Resolves, IsMatched;
    BelongsTo(db, deal, t, p, f);
    BelongsTo(after, deal, t, q, g);
    WinsTheSmaller(db, deal, Only(p), t, p, f);
    WinsTheSmaller(after, deal, Only(q), t, q, g);
    if p == q {
      var r, h := Match(db, after, Only(p), t, p, f);
      OneChoice(after, Only(p), t, r, h, q, g);
    } else {
      SameRank(db, after, deal, t, p, f, q, g);
      WinsTheSmaller(db, deal, Both(p, q), t, p, f);
      WinsTheSmaller(after, deal, Both(p, q), t, q, g);
      var r, h := Match(db, after, Both(p, q), t, p, f);
      OneChoice(after, Both(p, q), t, r, h, q, g);
    }
  }

  lemma BelongsTo(db: Db, deal: Deal, t: int, p: nat, f: Face)
    requires Resolves(db, deal, t, p, f)
    ensures p in deal && Candidate(db, deal, t, p, f)
  {
  }

  lemma InLargerDeal(db: Db, small: Deal, deal: Deal, t: int, p: nat, f: Face)
    requires Resolves(db, small, t, p, f) && p in deal
    ensures Candidate(db, deal, t, p, f)
  {
  }

  /** Plans that win the deal at different times have one precedence, since both give something each time. */
  lemma SameRank(db: Db, after: Db, deal: Deal, t: int, p: nat, f: Face, q: nat, g: Face)
    requires Resolves(db, deal, t, p, f) && Resolves(after, deal, t, q, g) && p != q
    requires AlikeChoice(db, after, Only(p), t) && AlikeChoice(db, after, Only(q), t)
    ensures p in deal && q in deal && deal[p] == deal[q]
  {
    hide IsMatched, Candidate;
    BelongsTo(db, deal, t, p, f);
    BelongsTo(after, deal, t, q, g);
    assert deal[p] <= deal[q] by {
      hide Resolves;
      WinsTheSmaller(after, deal, Only(q), t, q, g);
      var s, k := Match(after, db, Only(q), t, q, g);
      InLargerDeal(db, Only(q), deal, t, q, k);
      NoBetter(db, deal, t, p, f, q, k);
    }
    assert deal[q] <= deal[p] by {
      hide Resolves;
      WinsTheSmaller(db, deal, Only(p), t, p, f);
      var r, h := Match(db, after, Only(p), t, p, f);
      InLargerDeal(after, Only(p), deal, t, p, h);
      NoBetter(after, deal, t, q, g, p, h);
    }
  }

  lemma NoBetter(db: Db, deal: Deal, t: int, p: nat, f: Face, q: nat, g: Face)
    requires Resolves(db, deal, t, p, f) && Candidate(db, deal, t, q, g)
    ensures p in deal && q in deal && deal[p] <= deal[q]
  {
    hide Applies;
  }

  /** Where each plan by itself gives something before if and only if after, so does every deal. */
  lemma SomethingAfter(db: Db, after: Db, deal: Deal, t: int, p: nat, f: Face) returns (q: nat, g: Face)
    requires IsNumbered(after) && Resolves(db, deal, t, p, f) && AlikeChoice(db, after, Only(p), t)
    ensures Resolves(after, deal, t, q, g)
  {
    hide IsMatched, Resolves, IsNumbered;
    BelongsTo(db, deal, t, p, f);
    WinsTheSmaller(db, deal, Only(p), t, p, f);
    var r, h := Match(db, after, Only(p), t, p, f);
    InLargerDeal(after, Only(p), deal, t, p, h);
    q, g := SomeChoice(after, deal, t, p, h);
  }

  lemma DealMatched(db: Db, after: Db, deal: Deal, t: int)
    requires IsNumbered(after)
    requires forall p :: AlikeChoice(db, after, Only(p), t)
    requires IsUntied(deal) || forall p, q :: AlikeChoice(db, after, Both(p, q), t)
    ensures IsMatched(db, after, deal, t)
  {
    hide Resolves, AlikeChoice, IsNumbered, IsUntied;
    forall p, f | Resolves(db, deal, t, p, f)
      ensures exists q, g :: Resolves(after, deal, t, q, g) && g.config.rest == f.config.rest
    {
      var q, g := SomethingAfter(db, after, deal, t, p, f);
      TiedOrNot(db, after, deal, t, p, f, q, g);
      WinnersAlike(db, after, deal, t, p, f, q, g);
    }
  }

  lemma AlikeBackwards(db: Db, after: Db, deal: Deal, t: int)
    requires AlikeChoice(db, after, deal, t)
    ensures AlikeChoice(after, db, deal, t)
  {
    hide IsMatched;
  }

  lemma DealAlike(db: Db, after: Db, deal: Deal, t: int)
    requires IsNumbered(db) && IsNumbered(after)
    requires forall p :: AlikeChoice(db, after, Only(p), t)
    requires IsUntied(deal) || forall p, q :: AlikeChoice(db, after, Both(p, q), t)
    ensures AlikeChoice(db, after, deal, t)
  {
    DealMatched(db, after, deal, t);
    hide IsMatched, IsNumbered;
    forall p ensures AlikeChoice(after, db, Only(p), t) { AlikeBackwards(db, after, Only(p), t); }
    if !IsUntied(deal) {
      forall p, q ensures AlikeChoice(after, db, Both(p, q), t) { AlikeBackwards(db, after, Both(p, q), t); }
    }
    DealMatched(after, db, deal, t);
  }

  lemma TiedOrNot(db: Db, after: Db, deal: Deal, t: int, p: nat, f: Face, q: nat, g: Face)
    requires Resolves(db, deal, t, p, f) && Resolves(after, deal, t, q, g)
    requires IsUntied(deal) || AlikeChoice(db, after, Both(p, q), t)
    ensures p in deal && q in deal
    ensures p != q && deal[p] == deal[q] ==> AlikeChoice(db, after, Both(p, q), t)
  {
    hide AlikeChoice, Applies;
  }

  /** Every deal whose plans have different precedences keeps its configuration if each plan by itself does. */
  lemma PlansStandForDeals(db: Db, after: Db, t: int)
    requires IsNumbered(db) && IsNumbered(after)
    ensures (forall deal :: IsUntied(deal) ==> AlikeChoice(db, after, deal, t)) <==>
            forall p :: AlikeChoice(db, after, Only(p), t)
  {
    hide AlikeChoice, IsNumbered;
    if forall p :: AlikeChoice(db, after, Only(p), t) {
      forall deal | IsUntied(deal) ensures AlikeChoice(db, after, deal, t) { DealAlike(db, after, deal, t); }
    }
    if forall deal :: IsUntied(deal) ==> AlikeChoice(db, after, deal, t) {
      forall p ensures AlikeChoice(db, after, Only(p), t) { assert IsUntied(Only(p)); }
    }
  }

  /** And every deal at all does if each two plans do. */
  lemma PairsStandForDeals(db: Db, after: Db, t: int)
    requires IsNumbered(db) && IsNumbered(after)
    ensures (forall deal :: AlikeChoice(db, after, deal, t)) <==>
            forall p, q :: AlikeChoice(db, after, Both(p, q), t)
  {
    hide AlikeChoice, IsNumbered;
    if forall p, q :: AlikeChoice(db, after, Both(p, q), t) {
      forall p ensures AlikeChoice(db, after, Only(p), t) { assert Both(p, p) == Only(p); }
      forall deal ensures AlikeChoice(db, after, deal, t) { DealAlike(db, after, deal, t); }
    }
  }
}
