/** One-key filling or emptying of an area: `edit_area_status` of app/services/storage.py. */
module AreaStatus {
  import opened StorageService
  import opened Tables
  import opened TaskOps
  import opened Wrappers

  // ---------- The template's sites in order ----------

  function Insert(s: TempSite, sites: seq<TempSite>): (r: seq<TempSite>)
    ensures multiset(r) == multiset(sites) + multiset{s}
    ensures Ordered(sites) ==> Ordered(r)
  {
    if sites == [] || s.orderIndex <= sites[0].orderIndex then
      assert [s] + sites == [s] + sites[..];
      [s] + sites
    else
      assert sites == [sites[0]] + sites[1..];
      var r := Insert(s, sites[1..]);
      TailOrdered(sites);
      InsertOrdered(s, sites, r);
      [sites[0]] + r
  }

  ghost predicate Ordered(sites: seq<TempSite>) {
    forall i, j | 0 <= i < j < |sites| :: sites[i].orderIndex <= sites[j].orderIndex
  }

  lemma TailOrdered(sites: seq<TempSite>)
    requires sites != []
    ensures Ordered(sites) ==> Ordered(sites[1..])
  {
  }

  lemma InsertOrdered(s: TempSite, sites: seq<TempSite>, r: seq<TempSite>)
    requires sites != [] && s.orderIndex > sites[0].orderIndex
    requires multiset(r) == multiset(sites[1..]) + multiset{s}
    ensures Ordered(sites) && Ordered(r) ==> Ordered([sites[0]] + r)
  {
    if Ordered(sites) && Ordered(r) {
      forall j | 0 <= j < |r|
        ensures sites[0].orderIndex <= r[j].orderIndex
      {
        assert r[j] in multiset(r);
        assert r[j] == s || r[j] in multiset(sites[1..]);
        if r[j] != s {
          assert r[j] in sites[1..];
        }
      }
    }
  }

  /** `select_by_template_type_ordered` */
  function SitesOf(sites: seq<TempSite>, templateId: nat, role: Role): (r: seq<TempSite>)
    ensures Ordered(r)
    ensures forall s :: s in multiset(r) <==> s in sites && s.templateId == templateId && s.role == role
  {
    if sites == [] then []
    else
      var r := SitesOf(sites[1..], templateId, role);
      assert sites == [sites[0]] + sites[1..];
      if sites[0].templateId == templateId && sites[0].role == role then Insert(sites[0], r) else r
  }

  // ---------- The batch ----------

  predicate Skips(db: Rows, code: nat) {
    !Enabled(db, code) || db.storages[code].siteStatus in {Outgoing, Incoming}
  }

  /** The tables, whether a call raised, and the pairs reserved, in order. `autoIds[i]` serves the i-th site. */
  datatype Batch = Batch(rows: Rows, raised: bool, made: seq<Pairing>)

  /** One site of the loop; after an exception nothing more happens. Device "0" may be busy with another request. */
  function AreaStep(b: Batch, busy: bool, code: nat, act: CodeAct, autoId: nat): Batch {
    if b.raised || Skips(b.rows, code) then b
    else
      var (d, r) := Create(b.rows, busy, code, act, autoId);
      match r
      case Raises => Batch(d, true, b.made)
      case Value(made) =>
        var choice := Choose(b.rows, code, act);
        Batch(d, false, if made && choice.Some? then b.made + [choice.value] else b.made)
  }

  function AreaRun(db: Rows, busy: bool, sites: seq<TempSite>, act: CodeAct, autoIds: nat -> nat): Batch {
    if sites == [] then Batch(db, false, [])
    else
      var n := |sites| - 1;
      AreaStep(AreaRun(db, busy, sites[..n], act, autoIds), busy, sites[n].siteCode, act, autoIds(n))
  }

  const BATCH_DEVICE := Some("0")

  method EditAreaStatus(session: Session, ops: TaskOpService, templateId: nat, status: SiteStatus, role: Role,
                        autoIds: nat -> nat)
    returns (r: Outcome<Reply>)
    modifies session, ops
    ensures ops.deviceBusy == old(ops.deviceBusy)
    ensures templateId !in old(session.rows.templates) || old(session.rows.templates)[templateId].runStatus == "1" ==>
              r == Value(Refused) && session.rows == old(session.rows)
    ensures templateId in old(session.rows.templates) && old(session.rows.templates)[templateId].runStatus != "1" ==>
              var b := AreaRun(old(session.rows), Form(BATCH_DEVICE) in ops.deviceBusy,
                               SitesOf(old(session.rows.tempSites), templateId, role), ActFor(status), autoIds);
              session.rows == b.rows && r == if b.raised then Raises else Value(Done)
  {
    if templateId !in session.rows.templates || session.rows.templates[templateId].runStatus == "1" {
      return Value(Refused);
    }
    hide AreaRun, SitesOf;
    var sites := SitesOf(session.rows.tempSites, templateId, role);
    var raised := VisitAll(session, ops, sites, if status == Empty then CallGoods else StoreGoods, autoIds);
    r := if raised then Raises else Value(Done);
  }

  /** The loop over the sites. */
  method VisitAll(session: Session, ops: TaskOpService, sites: seq<TempSite>, act: CodeAct, autoIds: nat -> nat)
    returns (raised: bool)
    modifies session, ops
    ensures ops.deviceBusy == old(ops.deviceBusy)
    ensures var b := AreaRun(old(session.rows), Form(BATCH_DEVICE) in ops.deviceBusy, sites, act, autoIds);
            session.rows == b.rows && raised == b.raised
  {
    hide AreaRun, AreaStep;
    ghost var start, busy := session.rows, Form(BATCH_DEVICE) in ops.deviceBusy;
    AreaBegin(start, busy, sites, act, autoIds);
    for i := 0 to |sites|
      invariant ops.deviceBusy == old(ops.deviceBusy)
      invariant session.rows == AreaRun(start, busy, sites[..i], act, autoIds).rows
      invariant !AreaRun(start, busy, sites[..i], act, autoIds).raised
    {
      AreaSnoc(start, busy, sites, i, act, autoIds);
      ghost var b := AreaRun(start, busy, sites[..i], act, autoIds);
      raised := VisitSite(session, ops, sites[i].siteCode, act, autoIds(i), b);
      if raised {
        RaisedStays(start, busy, sites, i + 1, act, autoIds);
        return;
      }
    }
    raised := false;
  }

  method VisitSite(session: Session, ops: TaskOpService, code: nat, act: CodeAct, autoId: nat, ghost b: Batch)
    returns (raised: bool)
    requires session.rows == b.rows && !b.raised
    modifies session, ops
    ensures ops.deviceBusy == old(ops.deviceBusy)
    ensures var after := AreaStep(b, Form(BATCH_DEVICE) in ops.deviceBusy, code, act, autoId);
            session.rows == after.rows && raised == after.raised
  {
    hide CreateResult, Choose;
    raised := false;
    if code in session.rows.storages {
      var storage := session.rows.storages[code];
      if storage.isEnabled && storage.siteStatus != Outgoing && storage.siteStatus != Incoming {
        var task := ops.CreateTask(session, BATCH_DEVICE, code, act, autoId);
        raised := task.Raises?;
      }
    }
  }

  lemma AreaBegin(db: Rows, busy: bool, sites: seq<TempSite>, act: CodeAct, autoIds: nat -> nat)
    ensures AreaRun(db, busy, sites[..0], act, autoIds) == Batch(db, false, [])
    ensures sites[..|sites|] == sites
  {
  }

  lemma AreaSnoc(db: Rows, busy: bool, sites: seq<TempSite>, i: nat, act: CodeAct, autoIds: nat -> nat)
    requires i < |sites|
    ensures AreaRun(db, busy, sites[..i + 1], act, autoIds) ==
            AreaStep(AreaRun(db, busy, sites[..i], act, autoIds), busy, sites[i].siteCode, act, autoIds(i))
  {
    assert sites[..i + 1][..i] == sites[..i];
  }

  lemma {:induction false} RaisedStays(db: Rows, busy: bool, sites: seq<TempSite>, n: nat, act: CodeAct,
                                       autoIds: nat -> nat)
    requires n <= |sites| && AreaRun(db, busy, sites[..n], act, autoIds).raised
    ensures AreaRun(db, busy, sites, act, autoIds) == AreaRun(db, busy, sites[..n], act, autoIds)
    decreases |sites|
  {
    if n < |sites| {
      var before := sites[..|sites| - 1];
      assert before[..n] == sites[..n];
      RaisedStays(db, busy, before, n, act, autoIds);
    } else {
      assert sites[..n] == sites;
    }
  }

  // ---------- What one creation takes ----------

  predicate InWork(db: Rows, code: nat) {
    code in db.storages && db.storages[code].siteStatus in {Outgoing, Incoming}
  }

  function WorkSites(db: Rows): set<nat> {
    set c | c in db.storages && InWork(db, c)
  }

  /** The storage that `find_storage` answers for the first running template of the site. */
  function Counterpart(db: Rows, code: nat, act: CodeAct): Option<nat> {
    match act
    case CallGoods =>
      var templates := SelectRunTaskTempBySite(db, code, EndRole, None);
      if templates == [] then None else FindStorage(db, templates[0], StartRole, Goods)
    case StoreGoods =>
      var templates := SelectRunTaskTempBySite(db, code, StartRole, None);
      if templates == [] then None else FindStorage(db, templates[0], EndRole, Empty)
    case Unknown => None
  }

  lemma ChoiceIs(db: Rows, code: nat, act: CodeAct)
    requires Choose(db, code, act).Some?
    ensures var r, other := Choose(db, code, act).value, Counterpart(db, code, act);
            && code in db.storages && other.Some? && other.value in db.storages && !InWork(db, other.value)
            && {r.start, r.end} == {code, other.value}
            && (r.start == r.end <==> other == Some(code))
  {
  }

  /** Exactly these storages, not in work before, are in work now, and nothing else changed. */
  ghost predicate Takes(db: Rows, d: Rows, taken: set<nat>) {
    && taken !! WorkSites(db)
    && WorkSites(d) == WorkSites(db) + taken
    && d.tempSites == db.tempSites
    && d.storages.Keys == db.storages.Keys
    && (forall c | c in db.storages && c !in taken :: d.storages[c] == db.storages[c])
  }

  /** One creation from a free site takes the site and its counterpart, free as well, and touches no other storage. */
  lemma CreateTakes(db: Rows, code: nat, act: CodeAct, autoId: nat)
    requires !InWork(db, code) && CreateResult(db, code, act, autoId).1 == Value(true)
    ensures Choose(db, code, act).Some?
    ensures var d, r := CreateResult(db, code, act, autoId).0, Choose(db, code, act).value;
            && code in {r.start, r.end} && Takes(db, d, {r.start, r.end})
            && r.start in d.storages && r.end in d.storages
            && d.storages[r.end].siteStatus == Incoming
            && (r.start != r.end ==> d.storages[r.start].siteStatus == Outgoing)
  {
    hide NewTask, Choose, Counterpart;
    ChoiceIs(db, code, act);
    var d, r := CreateResult(db, code, act, autoId).0, Choose(db, code, act).value;
    assert code in {r.start, r.end} && r.start in {r.start, r.end} && r.end in {r.start, r.end};
    assert d.storages == Reserve(db.storages, r.start, r.end);
    assert WorkSites(d) == WorkSites(db) + {r.start, r.end};
  }

  lemma DisjointSize(s: set<nat>, t: set<nat>)
    requires s !! t
    ensures |s + t| == |s| + |t|
  {
  }

  lemma PairSize(a: nat, b: nat)
    ensures |{a, b}| == if a == b then 1 else 2
  {
    if a != b {
      DisjointSize({a}, {b});
      assert {a, b} == {a} + {b};
    }
  }

  /** The exact condition: two storages go in work unless the counterpart found is the announced site itself. */
  lemma CreateTakesTwoIff(db: Rows, code: nat, act: CodeAct, autoId: nat)
    requires !InWork(db, code) && CreateResult(db, code, act, autoId).1 == Value(true)
    ensures |WorkSites(CreateResult(db, code, act, autoId).0)| == |WorkSites(db)| + 2
            <==> Counterpart(db, code, act) != Some(code)
  {
    hide CreateResult, Choose, Counterpart, WorkSites;
    CreateTakes(db, code, act, autoId);
    var r := Choose(db, code, act).value;
    ChoiceIs(db, code, act);
    PairSize(r.start, r.end);
    DisjointSize(WorkSites(db), {r.start, r.end});
  }

  /** No template lists a site in both roles. Different templates may use it differently. */
  ghost predicate OneRolePerTemplate(db: Rows) {
    forall s, t | s in db.tempSites && t in db.tempSites && s.templateId == t.templateId && s.siteCode == t.siteCode ::
      s.role == t.role
  }

  lemma CounterpartDiffers(db: Rows, code: nat, act: CodeAct)
    requires OneRolePerTemplate(db)
    ensures Counterpart(db, code, act) != Some(code)
  {
    if Counterpart(db, code, act).Some? {
      var role := if act == CallGoods then EndRole else StartRole;
      var templates := SelectRunTaskTempBySite(db, code, role, None);
      assert templates[0] in templates;
    }
  }

  // ---------- What a batch takes ----------

  function SitesTaken(made: seq<Pairing>): set<nat> {
    if made == [] then {} else SitesTaken(made[..|made| - 1]) + {made[|made| - 1].start, made[|made| - 1].end}
  }

  ghost predicate TakenApart(made: seq<Pairing>) {
    forall i, j | 0 <= i < j < |made| :: {made[i].start, made[i].end} !! {made[j].start, made[j].end}
  }

  ghost predicate AllProper(made: seq<Pairing>) {
    forall i | 0 <= i < |made| :: made[i].start != made[i].end
  }

  lemma {:induction false} TakenMember(made: seq<Pairing>, i: nat)
    requires i < |made|
    ensures {made[i].start, made[i].end} <= SitesTaken(made)
  {
    if i < |made| - 1 {
      TakenMember(made[..|made| - 1], i);
    }
  }

  lemma {:induction false} MemberTaken(made: seq<Pairing>, c: nat)
    requires c in SitesTaken(made)
    ensures exists i :: 0 <= i < |made| && c in {made[i].start, made[i].end}
  {
    var n := |made| - 1;
    if c !in {made[n].start, made[n].end} {
      MemberTaken(made[..n], c);
      var i :| 0 <= i < n && c in {made[..n][i].start, made[..n][i].end};
      assert made[i] == made[..n][i];
    }
  }

  /** Disjoint pairs take two storages each exactly if each has two different ends, and never more. */
  lemma {:induction false} TakenSize(made: seq<Pairing>)
    requires TakenApart(made)
    ensures |SitesTaken(made)| <= 2 * |made|
    ensures |SitesTaken(made)| == 2 * |made| <==> AllProper(made)
  {
    if made != [] {
      var n := |made| - 1;
      var before, last := made[..n], {made[n].start, made[n].end};
      TakenSize(before);
      forall c | c in SitesTaken(before)
        ensures c !in last
      {
        MemberTaken(before, c);
        var i :| 0 <= i < n && c in {before[i].start, before[i].end};
        assert before[i] == made[i];
      }
      DisjointSize(SitesTaken(before), last);
      PairSize(made[n].start, made[n].end);
      assert AllProper(made) <==> AllProper(before) && made[n].start != made[n].end;
    }
  }

  /** Pairwise disjoint pairs of formerly free storages are in work, and nothing else changed. */
  ghost predicate Allocated(db: Rows, b: Batch) {
    TakenApart(b.made) && Takes(db, b.rows, SitesTaken(b.made))
  }

  ghost predicate ServesOneOf(r: Pairing, sites: seq<TempSite>) {
    exists s :: s in sites && s.siteCode in {r.start, r.end}
  }

  ghost predicate Appends(a: seq<Pairing>, b: seq<Pairing>, code: nat) {
    |b| == |a| + 1 && b[..|a|] == a && code in {b[|a|].start, b[|a|].end}
  }

  lemma StepAllocates(db: Rows, a: Batch, busy: bool, code: nat, act: CodeAct, autoId: nat)
    requires Allocated(db, a)
    ensures var b := AreaStep(a, busy, code, act, autoId);
            && Allocated(db, b)
            && (b.made == a.made || Appends(a.made, b.made, code))
    ensures OneRolePerTemplate(db) && AllProper(a.made) ==> AllProper(AreaStep(a, busy, code, act, autoId).made)
  {
    hide CreateResult, Choose, Allocated, OneRolePerTemplate, Takes, Counterpart;
    SameTables(db, a);
    if !a.raised && !busy && !Skips(a.rows, code) {
      var (d, r) := CreateResult(a.rows, code, act, autoId);
      CreateTouches(a.rows, code, act, autoId);
      if r == Value(true) {
        CreateTakes(a.rows, code, act, autoId);
        ChoiceIs(a.rows, code, act);
        AllocateMore(db, a, d, Choose(a.rows, code, act).value);
        SameRoles(db, a.rows);
        if OneRolePerTemplate(db) {
          CounterpartDiffers(a.rows, code, act);
        }
      }
    }
  }

  lemma SameTables(db: Rows, a: Batch)
    requires Allocated(db, a)
    ensures Allocated(db, a.(raised := true)) && Allocated(db, a.(raised := false))
    ensures a.rows.tempSites == db.tempSites
  {
  }

  lemma SameRoles(db: Rows, d: Rows)
    requires d.tempSites == db.tempSites
    ensures OneRolePerTemplate(d) == OneRolePerTemplate(db)
  {
  }

  lemma AllocateMore(db: Rows, a: Batch, d: Rows, r: Pairing)
    requires Allocated(db, a) && Takes(a.rows, d, {r.start, r.end})
    ensures Allocated(db, Batch(d, false, a.made + [r]))
  {
    hide WorkSites, SitesTaken, TakenApart;
    Extend(a.made, r, WorkSites(db));
  }

  lemma Extend(made: seq<Pairing>, r: Pairing, work: set<nat>)
    requires TakenApart(made) && SitesTaken(made) !! work
    requires {r.start, r.end} !! work + SitesTaken(made)
    ensures TakenApart(made + [r])
    ensures SitesTaken(made + [r]) == SitesTaken(made) + {r.start, r.end}
    ensures SitesTaken(made + [r]) !! work
  {
    assert (made + [r])[..|made|] == made;
    forall i | 0 <= i < |made|
      ensures {made[i].start, made[i].end} !! {r.start, r.end}
    {
      TakenMember(made, i);
    }
  }

  lemma EmptyBatch(db: Rows)
    ensures Allocated(db, Batch(db, false, []))
  {
  }

  /**
   * Whatever the templates, a batch pairs its tasks with pairwise disjoint storages that were free, each
   * pair containing a site of the area, and leaves all others as they were.
   */
  lemma {:induction false} BatchAllocates(db: Rows, busy: bool, sites: seq<TempSite>, act: CodeAct, autoIds: nat -> nat)
    ensures var b := AreaRun(db, busy, sites, act, autoIds);
            && Allocated(db, b)
            && (forall r | r in b.made :: ServesOneOf(r, sites))
            && (OneRolePerTemplate(db) ==> AllProper(b.made))
  {
    hide AreaStep, WorkSites, TakenApart, SitesTaken, OneRolePerTemplate;
    if sites == [] {
      EmptyBatch(db);
    } else {
      var n := |sites| - 1;
      var a, b := AreaRun(db, busy, sites[..n], act, autoIds), AreaRun(db, busy, sites, act, autoIds);
      BatchAllocates(db, busy, sites[..n], act, autoIds);
      StepAllocates(db, a, busy, sites[n].siteCode, act, autoIds(n));
      forall r | r in b.made
        ensures ServesOneOf(r, sites)
      {
        if r in a.made {
          var s :| s in sites[..n] && s.siteCode in {r.start, r.end};
          assert s in sites;
        } else {
          assert r == b.made[|a.made|];
          assert sites[n] in sites;
        }
      }
    }
  }

  /**
   * The batch puts two storages in work for each task exactly if none of its tasks starts and ends at
   * one storage. Templates that give a site one role each suffice.
   */
  lemma BatchTakesTwoIff(db: Rows, busy: bool, sites: seq<TempSite>, act: CodeAct, autoIds: nat -> nat)
    ensures var b := AreaRun(db, busy, sites, act, autoIds);
            |WorkSites(b.rows)| == |WorkSites(db)| + 2 * |b.made| <==> AllProper(b.made)
    ensures OneRolePerTemplate(db) ==>
              var b := AreaRun(db, busy, sites, act, autoIds);
              |WorkSites(b.rows)| == |WorkSites(db)| + 2 * |b.made|
  {
    hide AreaRun, WorkSites, OneRolePerTemplate;
    var b := AreaRun(db, busy, sites, act, autoIds);
    BatchAllocates(db, busy, sites, act, autoIds);
    TakenSize(b.made);
    DisjointSize(WorkSites(db), SitesTaken(b.made));
  }

  lemma {:induction false} MadeGrows(db: Rows, busy: bool, sites: seq<TempSite>, n: nat, act: CodeAct,
                                    autoIds: nat -> nat)
    requires n <= |sites|
    ensures AreaRun(db, busy, sites[..n], act, autoIds).made <= AreaRun(db, busy, sites, act, autoIds).made
    decreases |sites|
  {
    hide CreateResult, Choose;
    if n < |sites| {
      var before := sites[..|sites| - 1];
      assert before[..n] == sites[..n];
      MadeGrows(db, busy, before, n, act, autoIds);
    } else {
      assert sites[..n] == sites;
    }
  }

  /** The site is free and enabled when its turn comes, and a task can be created from it. */
  predicate CanServe(a: Batch, busy: bool, code: nat, act: CodeAct) {
    && !a.raised && code in a.rows.storages && a.rows.storages[code].isEnabled
    && a.rows.storages[code].siteStatus in {Empty, Goods} && CanCreate(a.rows, busy, code, act)
  }

  /** A site that can be served is served, or its insertion raised and ended the batch. */
  lemma BatchServes(db: Rows, busy: bool, sites: seq<TempSite>, act: CodeAct, autoIds: nat -> nat, i: nat)
    requires i < |sites|
    requires CanServe(AreaRun(db, busy, sites[..i], act, autoIds), busy, sites[i].siteCode, act)
    ensures var b := AreaRun(db, busy, sites, act, autoIds);
            || (sites[i].siteCode in SitesTaken(b.made) && InWork(b.rows, sites[i].siteCode))
            || (b.raised && b == AreaRun(db, busy, sites[..i + 1], act, autoIds))
  {
    hide CreateResult, Choose, FindSiteTask, Counterpart;
    var a, c, b := AreaRun(db, busy, sites[..i], act, autoIds), AreaRun(db, busy, sites[..i + 1], act, autoIds),
                   AreaRun(db, busy, sites, act, autoIds);
    AreaSnoc(db, busy, sites, i, act, autoIds);
    CanCreateMeans(a.rows, busy, sites[i].siteCode, act, autoIds(i));
    if c.raised {
      RaisedStays(db, busy, sites, i + 1, act, autoIds);
    } else {
      ChoiceIs(a.rows, sites[i].siteCode, act);
      MadeGrows(db, busy, sites, i + 1, act, autoIds);
      TakenMember(b.made, |a.made|);
      BatchAllocates(db, busy, sites, act, autoIds);
    }
  }

  /** Possible creation succeeds, or raises over a key that is taken. */
  lemma CanCreateMeans(db: Rows, busy: bool, code: nat, act: CodeAct, autoId: nat)
    ensures CanCreate(db, busy, code, act) <==> StorageService.Create(db, busy, code, act, autoId).1 != Value(false)
  {
  }

  /** A template with a site in both roles: the storage serves as both ends, and the creation takes only one. */
  lemma BothRolesTakeOne(height: int)
    ensures var db := Rows(map[7 := Storage(Goods, Single, true, height)], map[], map[1 := Template("0")],
                           [TempSite(1, 7, StartRole, 1), TempSite(1, 7, EndRole, 1)], [], 0);
            var d := CreateResult(db, 7, CallGoods, 1).0;
            && CreateResult(db, 7, CallGoods, 1).1 == Value(true)
            && Counterpart(db, 7, CallGoods) == Some(7)
            && WorkSites(db) == {} && WorkSites(d) == {7}
            && d.tasks[1].startSite == d.tasks[1].endSite == Some(7)
  {
    var a, b := TempSite(1, 7, StartRole, 1), TempSite(1, 7, EndRole, 1);
    var db := Rows(map[7 := Storage(Goods, Single, true, height)], map[], map[1 := Template("0")], [a, b], [], 0);
    assert db.tempSites[1..] == [b] && [b][1..] == [];
    assert FindSiteTask(db, 7) == {};
    assert RunningAt(db.templates, [b], 7, EndRole, None) == [1];
    assert SelectRunTaskTempBySite(db, 7, EndRole, None) == [1];
    assert FirstFit(db, [b], 1, StartRole, Goods) == None;
    assert FindStorage(db, 1, StartRole, Goods) == Some(7);
    assert Choose(db, 7, CallGoods) == Some(Pairing(1, 7, 7));
  }
}
