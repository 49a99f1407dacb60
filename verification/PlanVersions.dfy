/** Changing the release trigger of every live commission plan by handing over to a new version. */
module PlanVersions {
  import opened Wrappers

  /** A plan's configuration: the release trigger, and everything else. */
  datatype Config = Config(trigger: Option<string>, rest: string)

  datatype Version = Version(
    id: nat, plan: nat, company: Option<int>, version: nat,
    from: int, to: Option<int>, active: bool, config: Config)

  datatype Plan = Plan(active: bool, current: Option<nat>)

  /** The two tables, and the id the next version gets. */
  datatype Db = Db(versions: seq<Version>, plans: map<nat, Plan>, nextId: nat)

  const TRIGGERS: set<string> := {
    "ON_DEAL_CONFIRMATION", "ON_INITIAL_DEPOSIT", "ON_THRESHOLD", "PRO_RATA", "ON_FULL_PAYMENT", "MILESTONE", "SCHEDULED"
  }

  predicate IsOpen(v: Version) {
    v.active && v.to.None?
  }

  /** A version that has started at `t` and has not ended by then. */
  predicate InForce(v: Version, t: int) {
    v.active && v.from <= t && !(v.to.Some? && v.to.value <= t)
  }

  // ---------- one plan ----------

  /** The trigger in the configuration; an empty one is the company default. */
  function Before(c: Config): Option<string> {
    if c.trigger == Some("") then None else c.trigger
  }

  function Next(c: Config, trigger: string): Config {
    c.(trigger := Some(trigger))
  }

  function MaxVersion(vs: seq<Version>, plan: nat): (m: nat)
    ensures forall v :: v in vs && v.plan == plan ==> v.version <= m
  {
    if vs == [] then 0 else
      var m := MaxVersion(vs[1..], plan);
      if vs[0].plan == plan && vs[0].version > m then vs[0].version else m
  }

  function MaxId(vs: seq<Version>, plan: nat): (m: nat)
    ensures forall v :: v in vs && v.plan == plan ==> v.id <= m
    ensures m > 0 ==> exists v :: v in vs && v.plan == plan && v.id == m
  {
    if vs == [] then 0 else
      var m := MaxId(vs[1..], plan);
      if vs[0].plan == plan && vs[0].id >= m then vs[0].id else m
  }

  function Close(v: Version, id: nat, now: int): Version {
    if v.id == id then v.(to := Some(now)) else v
  }

  function CloseAll(vs: seq<Version>, id: nat, now: int): seq<Version> {
    seq(|vs|, k requires 0 <= k < |vs| => Close(vs[k], id, now))
  }

  function NewVersion(db: Db, row: Version, trigger: string, now: int): Version {
    Version(db.nextId, row.plan, row.company, MaxVersion(db.versions, row.plan) + 1, now, None, true,
            Next(row.config, trigger))
  }

  /** Insert the new version, close the old one, point the plan at the newest. */
  function HandOver(db: Db, row: Version, trigger: string, now: int): Db {
    var versions := CloseAll(db.versions + [NewVersion(db, row, trigger, now)], row.id, now);
    Db(versions, db.plans[row.plan := Plan(true, Some(MaxId(versions, row.plan)))], db.nextId + 1)
  }

  predicate Changes(row: Version, trigger: string, valid: Config -> bool) {
    Before(row.config) != Some(trigger) && valid(Next(row.config, trigger))
  }

  function Step(db: Db, row: Version, trigger: string, valid: Config -> bool, now: int): Db {
    if Changes(row, trigger, valid) then HandOver(db, row, trigger, now) else db
  }

  // ---------- what holds of the tables ----------

  ghost predicate Exclusive(db: Db) {
    forall a, b, t :: (a in db.versions && b in db.versions && a.id != b.id && a.plan == b.plan && InForce(a, t)) ==>
                        !InForce(b, t)
  }

  ghost predicate IsNumbered(db: Db) {
    && (forall i, j :: 0 <= i < j < |db.versions| ==> db.versions[i].id != db.versions[j].id)
    && (forall v :: v in db.versions ==> v.id < db.nextId)
    && forall a, b :: a in db.versions && b in db.versions && a.plan == b.plan && a.id < b.id ==> a.version < b.version
  }

  /** Version numbers grow, and no two versions of a plan are ever in force together. */
  ghost predicate IsChain(db: Db) {
    IsNumbered(db) && Exclusive(db)
  }

  /** Every open version has started. */
  ghost predicate Started(db: Db, now: int) {
    forall v :: v in db.versions && IsOpen(v) ==> v.from <= now
  }

  /** The plan points at a version that is open. */
  ghost predicate CurrentIsOpen(db: Db, plan: nat) {
    plan in db.plans && exists v :: v in db.versions && v.plan == plan && IsOpen(v) && db.plans[plan].current == Some(v.id)
  }

  lemma SameId(db: Db, a: Version, b: Version)
    requires IsNumbered(db) && a in db.versions && b in db.versions && a.id == b.id
    ensures a == b
  {
  }

  /** At most one open version a plan. */
  lemma OneOpenVersion(db: Db, a: Version, b: Version)
    requires IsChain(db) && a in db.versions && b in db.versions && a.plan == b.plan && IsOpen(a) && IsOpen(b)
    ensures a == b
  {
    var t := if a.from < b.from then b.from else a.from;
    assert InForce(a, t) && InForce(b, t);
    if a.id == b.id { SameId(db, a, b); }
  }

  // ---------- what a hand-over does to the versions ----------

  /** Among the versions afterwards are the new one and each old one, with nothing changed but the outgoing one's end. */
  lemma VersionsKept(db: Db, row: Version, trigger: string, now: int)
    requires IsNumbered(db) && row in db.versions
    ensures var after := HandOver(db, row, trigger, now);
            && NewVersion(db, row, trigger, now) in after.versions
            && (forall v :: v in db.versions ==> Close(v, row.id, now) in after.versions)
  {
    var after, new_ := HandOver(db, row, trigger, now), NewVersion(db, row, trigger, now);
    var vs, n := db.versions + [new_], |db.versions|;
    assert after.versions[n] == Close(new_, row.id, now) == new_;
    forall v | v in db.versions ensures Close(v, row.id, now) in after.versions {
      var k :| 0 <= k < n && db.versions[k] == v;
      assert after.versions[k] == Close(vs[k], row.id, now);
    }
  }

  ghost predicate IsClosedOld(db: Db, row: Version, now: int, w: Version) {
    exists v :: v in db.versions && w == Close(v, row.id, now)
  }

  /** And there are no others. */
  lemma VersionsOrigin(db: Db, row: Version, trigger: string, now: int)
    requires IsNumbered(db) && row in db.versions
    ensures forall w :: w in HandOver(db, row, trigger, now).versions ==>
              w == NewVersion(db, row, trigger, now) || IsClosedOld(db, row, now, w)
  {
    var after, new_ := HandOver(db, row, trigger, now), NewVersion(db, row, trigger, now);
    var vs, n := db.versions + [new_], |db.versions|;
    forall w | w in after.versions ensures w == new_ || IsClosedOld(db, row, now, w) {
      var k :| 0 <= k < |after.versions| && after.versions[k] == w;
      assert w == Close(vs[k], row.id, now);
      if k < n { assert vs[k] in db.versions; }
    }
  }

  lemma HandOverKeepsNumbers(db: Db, row: Version, trigger: string, now: int)
    requires IsNumbered(db) && row in db.versions
    ensures IsNumbered(HandOver(db, row, trigger, now))
  {
    hide HandOver, Close;
    var after, new_ := HandOver(db, row, trigger, now), NewVersion(db, row, trigger, now);
    HandOverIds(db, row, trigger, now);
    VersionsOrigin(db, row, trigger, now);
    forall a, b | a in after.versions && b in after.versions && a.plan == b.plan && a.id < b.id
      ensures a.version < b.version
    {
      GrowingNumbers(db, row, new_, now, a, b);
    }
  }

  lemma HandOverIds(db: Db, row: Version, trigger: string, now: int)
    requires IsNumbered(db)
    ensures var after := HandOver(db, row, trigger, now);
            && (forall i, j :: 0 <= i < j < |after.versions| ==> after.versions[i].id != after.versions[j].id)
            && (forall v :: v in after.versions ==> v.id < after.nextId)
            && after.nextId == db.nextId + 1
  {
    var after, vs := HandOver(db, row, trigger, now), db.versions + [NewVersion(db, row, trigger, now)];
    forall k | 0 <= k < |vs| ensures after.versions[k].id == vs[k].id && vs[k].id < after.nextId {
      if k < |db.versions| { assert vs[k] in db.versions; }
    }
    forall i, j | 0 <= i < j < |vs| ensures vs[i].id != vs[j].id {
      assert db.versions[i] in db.versions;
    }
  }

  lemma GrowingNumbers(db: Db, row: Version, new_: Version, now: int, a: Version, b: Version)
    requires IsNumbered(db) && row in db.versions
    requires new_.id == db.nextId && new_.plan == row.plan && new_.version == MaxVersion(db.versions, row.plan) + 1
    requires a == new_ || IsClosedOld(db, row, now, a)
    requires b == new_ || IsClosedOld(db, row, now, b)
    requires a.plan == b.plan && a.id < b.id
    ensures a.version < b.version
  {
    var u :| u in db.versions && a == Close(u, row.id, now);
    if b != new_ { var v :| v in db.versions && b == Close(v, row.id, now); }
  }

  /** The plan's other versions are all over by `now`. */
  ghost predicate OthersOver(db: Db, row: Version, now: int) {
    forall v, t :: v in db.versions && v.plan == row.plan && v.id != row.id && t >= now ==> !InForce(v, t)
  }

  /**
   * A hand-over keeps the in-force times of a plan's versions apart if and only if the plan's other versions are all
   * over when it happens.
   */
  lemma HandOverExclusive(db: Db, row: Version, trigger: string, now: int)
    requires IsChain(db) && row in db.versions && IsOpen(row)
    ensures Exclusive(HandOver(db, row, trigger, now)) <==> OthersOver(db, row, now)
  {
    var after, new_ := HandOver(db, row, trigger, now), NewVersion(db, row, trigger, now);
    if OthersOver(db, row, now) {
      VersionsOrigin(db, row, trigger, now);
      forall a, b, t | a in after.versions && b in after.versions && a.id != b.id && a.plan == b.plan && InForce(a, t)
        ensures !InForce(b, t)
      {
        NotTogether(db, row, new_, now, a, b, t);
      }
    }
    if Exclusive(after) {
      VersionsKept(db, row, trigger, now);
      forall v, t | v in db.versions && v.plan == row.plan && v.id != row.id && t >= now ensures !InForce(v, t) {
        assert Close(v, row.id, now) == v && v in after.versions;
        assert InForce(new_, t);
      }
    }
  }

  lemma NotTogether(db: Db, row: Version, new_: Version, now: int, a: Version, b: Version, t: int)
    requires IsChain(db) && row in db.versions && IsOpen(row) && OthersOver(db, row, now)
    requires new_.plan == row.plan && new_.id == db.nextId && new_.from == now && IsOpen(new_)
    requires a == new_ || IsClosedOld(db, row, now, a)
    requires b == new_ || IsClosedOld(db, row, now, b)
    requires a.id != b.id && a.plan == b.plan && InForce(a, t)
    ensures !InForce(b, t)
  {
    if a == new_ {
      var v :| v in db.versions && b == Close(v, row.id, now);
    } else if b == new_ {
      var u :| u in db.versions && a == Close(u, row.id, now);
    } else {
      var u :| u in db.versions && a == Close(u, row.id, now);
      var v :| v in db.versions && b == Close(v, row.id, now);
      if u.id == row.id { SameId(db, u, row); }
      if v.id == row.id { SameId(db, v, row); }
      ClosingShortens(u, row.id, now, t, row);
      ClosingShortens(v, row.id, now, t, row);
      hide Close, InForce;
      assert u.id != v.id && u.plan == v.plan;
    }
  }

  /** The end of an open version is moved to an earlier time, and that of no other version is moved at all. */
  lemma ClosingShortens(v: Version, id: nat, now: int, t: int, row: Version)
    requires row.id == id && IsOpen(row) && (v.id == id ==> v == row)
    ensures InForce(Close(v, id, now), t) ==> InForce(v, t)
    ensures Close(v, id, now).id == v.id && Close(v, id, now).plan == v.plan
  {
  }

  /** A version that has started leaves no other of its plan in force from now on. */
  lemma StartedMeansOthersOver(db: Db, row: Version, now: int)
    requires IsChain(db) && row in db.versions && IsOpen(row) && row.from <= now
    ensures OthersOver(db, row, now)
  {
    forall v, t | v in db.versions && v.plan == row.plan && v.id != row.id && t >= now ensures !InForce(v, t) {
      assert InForce(row, t);
    }
  }

  lemma HandOverKeepsChain(db: Db, row: Version, trigger: string, now: int)
    requires IsChain(db) && Started(db, now) && row in db.versions && IsOpen(row)
    ensures var after := HandOver(db, row, trigger, now); IsChain(after) && Started(after, now)
  {
    StartedMeansOthersOver(db, row, now);
    HandOverExclusive(db, row, trigger, now);
    HandOverKeepsNumbers(db, row, trigger, now);
    VersionsOrigin(db, row, trigger, now);
  }

  /** The changed plan points at its new version, and every other plan points where it did. */
  lemma HandOverPoints(db: Db, row: Version, trigger: string, now: int, plan: nat)
    requires IsNumbered(db) && row in db.versions && row.plan in db.plans
    requires plan == row.plan || CurrentIsOpen(db, plan)
    ensures CurrentIsOpen(HandOver(db, row, trigger, now), plan)
  {
    if plan == row.plan {
      NewIsCurrent(db, row, trigger, now);
    } else {
      var v :| v in db.versions && v.plan == plan && IsOpen(v) && db.plans[plan].current == Some(v.id);
      VersionsKept(db, row, trigger, now);
      if v.id == row.id { SameId(db, v, row); }
      assert Close(v, row.id, now) == v;
    }
  }

  lemma NewIsCurrent(db: Db, row: Version, trigger: string, now: int)
    requires IsNumbered(db) && row in db.versions
    ensures CurrentIsOpen(HandOver(db, row, trigger, now), row.plan)
  {
    var after, new_ := HandOver(db, row, trigger, now), NewVersion(db, row, trigger, now);
    VersionsKept(db, row, trigger, now);
    VersionsOrigin(db, row, trigger, now);
    forall w | w in after.versions ensures w.id <= new_.id {
      if w != new_ { var v :| v in db.versions && w == Close(v, row.id, now); }
    }
    assert MaxId(after.versions, row.plan) == new_.id;
  }
}
