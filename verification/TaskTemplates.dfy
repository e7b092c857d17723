/** Task templates and which of them may run together, app/services/task.py. */
module TaskTemplates {
  import opened Tables
  import opened Wrappers

  datatype AddForm = AddForm(templateId: Option<nat>, startSites: seq<nat>, endSites: seq<nat>, devices: seq<nat>)

  // ---------- Rows of one template ----------

  function SiteRows(id: nat, codes: seq<nat>, role: Role): (rows: seq<TempSite>)
    ensures |rows| == |codes|
    ensures forall i | 0 <= i < |codes| :: rows[i] == TempSite(id, codes[i], role, i + 1)
    ensures forall s :: s in rows ==> s.templateId == id && s.role == role && s.siteCode in codes
    ensures forall c | c in codes :: exists s :: s in rows && s.siteCode == c
  {
    var rows := seq(|codes|, i requires 0 <= i < |codes| => TempSite(id, codes[i], role, i + 1));
    assert forall i | 0 <= i < |codes| :: rows[i].siteCode == codes[i];
    rows
  }

  function DeviceRows(id: nat, devices: seq<nat>): seq<TempDevice> {
    seq(|devices|, i requires 0 <= i < |devices| => TempDevice(id, devices[i]))
  }

  function WithoutSites(sites: seq<TempSite>, id: nat): (r: seq<TempSite>)
    ensures forall s :: s in r <==> s in sites && s.templateId != id
  {
    if sites == [] then []
    else (if sites[0].templateId != id then [sites[0]] else []) + WithoutSites(sites[1..], id)
  }

  function WithoutDevices(devices: seq<TempDevice>, id: nat): (r: seq<TempDevice>)
    ensures forall d :: d in r <==> d in devices && d.templateId != id
  {
    if devices == [] then []
    else (if devices[0].templateId != id then [devices[0]] else []) + WithoutDevices(devices[1..], id)
  }

  // ---------- The four calls ----------

  function Deleted(db: Rows, id: nat): Rows {
    db.(templates := db.templates - {id}, tempSites := WithoutSites(db.tempSites, id),
        tempDevices := WithoutDevices(db.tempDevices, id))
  }

  /** A replaced template keeps a run status that is not empty; a new one does not run. */
  function StatusFor(db: Rows, id: nat): string {
    if id in db.templates && db.templates[id].runStatus != "" then db.templates[id].runStatus else "1"
  }

  function Inserted(db: Rows, id: nat, status: string, form: AddForm): Rows {
    db.(templates := db.templates[id := Template(status)],
        tempSites := db.tempSites + SiteRows(id, form.startSites, StartRole) + SiteRows(id, form.endSites, EndRole),
        tempDevices := db.tempDevices + DeviceRows(id, form.devices))
  }

  /** Without an id the new row takes `nextId`, and a clash of keys raises. */
  function Added(db: Rows, form: AddForm, nextId: nat): (Rows, Outcome<()>) {
    match form.templateId
    case Some(id) => (Inserted(Deleted(db, id), id, StatusFor(db, id), form), Value(()))
    case None => if nextId in db.templates then (db, Raises) else (Inserted(db, nextId, "1", form), Value(()))
  }

  predicate Clashes(db: Rows, id: nat) {
    exists s | s in db.tempSites ::
      s.templateId == id && RunningAt(db.templates, db.tempSites, s.siteCode, s.role, Some(id)) != []
  }

  /** Switching to "0" is refused when a site of the template is run by another one. */
  function Edited(db: Rows, id: nat, status: string): (Rows, bool) {
    if id !in db.templates || (status == "0" && Clashes(db, id)) then (db, false)
    else (db.(templates := db.templates[id := Template(status)]), true)
  }

  function InfoEdited(db: Rows, id: nat, form: AddForm): Rows {
    Added(Deleted(db, id), form.(templateId := Some(id)), 0).0
  }

  method AddTaskTemp(session: Session, form: AddForm, nextId: nat) returns (r: Outcome<()>)
    modifies session
    ensures (session.rows, r) == Added(old(session.rows), form, nextId)
  {
    var status, id := "1", nextId;
    if form.templateId.Some? {
      id := form.templateId.value;
      if id in session.rows.templates && session.rows.templates[id].runStatus != "" {
        status := session.rows.templates[id].runStatus;
      }
      DelTaskTemp(session, id);
    } else if id in session.rows.templates {
      return Raises;
    }
    var db := session.rows;
    session.rows := db.(templates := db.templates[id := Template(status)]);
    InsertSites(session, id, form.startSites, StartRole);
    InsertSites(session, id, form.endSites, EndRole);
    InsertDevices(session, id, form.devices);
    r := Value(());
  }

  method InsertSites(session: Session, id: nat, codes: seq<nat>, role: Role)
    modifies session
    ensures session.rows == old(session.rows).(tempSites := old(session.rows.tempSites) + SiteRows(id, codes, role))
  {
    ghost var before := session.rows.tempSites;
    for i := 0 to |codes|
      invariant session.rows == old(session.rows).(tempSites := before + SiteRows(id, codes[..i], role))
    {
      session.rows := session.rows.(tempSites := session.rows.tempSites + [TempSite(id, codes[i], role, i + 1)]);
      assert SiteRows(id, codes[..i + 1], role) ==
             SiteRows(id, codes[..i], role) + [TempSite(id, codes[i], role, i + 1)];
    }
    assert codes[..|codes|] == codes;
  }

  method InsertDevices(session: Session, id: nat, devices: seq<nat>)
    modifies session
    ensures session.rows == old(session.rows).(tempDevices := old(session.rows.tempDevices) + DeviceRows(id, devices))
  {
    ghost var before := session.rows.tempDevices;
    for i := 0 to |devices|
      invariant session.rows == old(session.rows).(tempDevices := before + DeviceRows(id, devices[..i]))
    {
      session.rows := session.rows.(tempDevices := session.rows.tempDevices + [TempDevice(id, devices[i])]);
      assert DeviceRows(id, devices[..i + 1]) == DeviceRows(id, devices[..i]) + [TempDevice(id, devices[i])];
    }
    assert devices[..|devices|] == devices;
  }

  method EditTaskTemp(session: Session, id: nat, status: string) returns (ok: bool)
    modifies session
    ensures (session.rows, ok) == Edited(old(session.rows), id, status)
  {
    var db := session.rows;
    if id !in db.templates {
      return false;
    }
    if status == "0" {
      for i := 0 to |db.tempSites|
        invariant forall k | 0 <= k < i && db.tempSites[k].templateId == id ::
                    var s := db.tempSites[k];
                    RunningAt(db.templates, db.tempSites, s.siteCode, s.role, Some(id)) == []
      {
        var s := db.tempSites[i];
        if s.templateId == id && RunningAt(db.templates, db.tempSites, s.siteCode, s.role, Some(id)) != [] {
          assert s in db.tempSites;
          return false;
        }
      }
      assert !Clashes(db, id);
    }
    session.rows := db.(templates := db.templates[id := Template(status)]);
    ok := true;
  }

  method DelTaskTemp(session: Session, id: nat)
    modifies session
    ensures session.rows == Deleted(old(session.rows), id)
  {
    var db := session.rows;
    session.rows := db.(templates := db.templates - {id}, tempSites := WithoutSites(db.tempSites, id),
                        tempDevices := WithoutDevices(db.tempDevices, id));
  }

  method EditTaskTempInfo(session: Session, id: nat, form: AddForm)
    modifies session
    ensures session.rows == InfoEdited(old(session.rows), id, form)
  {
    DelTaskTemp(session, id);
    var r := AddTaskTemp(session, form.(templateId := Some(id)), 0);
  }

  // ---------- Exclusivity ----------

  predicate Running(db: Rows, id: nat) {
    id in db.templates && db.templates[id].runStatus == "0"
  }

  ghost predicate SamePlace(s: TempSite, t: TempSite) {
    s.siteCode == t.siteCode && s.role == t.role
  }

  /** Two running templates never share a site in the same role. */
  ghost predicate Exclusive(db: Rows) {
    forall s, t | s in db.tempSites && t in db.tempSites && SamePlace(s, t)
                  && Running(db, s.templateId) && Running(db, t.templateId) ::
      s.templateId == t.templateId
  }

  lemma DeleteKeeps(db: Rows, id: nat)
    requires Exclusive(db)
    ensures Exclusive(Deleted(db, id)) && !Running(Deleted(db, id), id)
  {
  }

  /** A site listed in the form that another running template uses in the same role. */
  ghost predicate FormClashes(db: Rows, form: AddForm, id: nat) {
    exists s :: s in db.tempSites && s.templateId != id && Running(db, s.templateId)
                && s.siteCode in if s.role == StartRole then form.startSites else form.endSites
  }

  /** Inserting a template keeps exclusivity exactly when it does not run or its sites are free. */
  lemma InsertKeepsIff(db: Rows, id: nat, status: string, form: AddForm)
    requires Exclusive(db) && id !in db.templates && (forall s | s in db.tempSites :: s.templateId != id)
    ensures Exclusive(Inserted(db, id, status, form)) <==> status != "0" || !FormClashes(db, form, id)
  {
    var d := Inserted(db, id, status, form);
    var starts, ends := SiteRows(id, form.startSites, StartRole), SiteRows(id, form.endSites, EndRole);
    assert forall s :: s in d.tempSites <==> s in db.tempSites || s in starts || s in ends;
    assert forall i | i != id :: Running(d, i) == Running(db, i);
    if status == "0" && FormClashes(db, form, id) {
      var s :| s in db.tempSites && s.templateId != id && Running(db, s.templateId)
               && s.siteCode in if s.role == StartRole then form.startSites else form.endSites;
      var t: TempSite :| t in (if s.role == StartRole then starts else ends) && t.siteCode == s.siteCode;
      assert SamePlace(s, t) && s in d.tempSites && t in d.tempSites && Running(d, id);
    }
  }

  /** A new template does not run, so it breaks nothing, even if rows of an earlier template of its id are left. */
  lemma InsertIdleKeeps(db: Rows, id: nat, form: AddForm)
    requires Exclusive(db) && id !in db.templates
    ensures Exclusive(Inserted(db, id, "1", form))
  {
    var d := Inserted(db, id, "1", form);
    assert forall i :: Running(d, i) == Running(db, i);
    forall s | s in d.tempSites && Running(d, s.templateId)
      ensures s in db.tempSites
    {
    }
  }

  /**
   * Adding keeps exclusivity unless it replaces a running template, whose status it keeps without
   * looking at the new sites; then it does exactly when those are free.
   */
  lemma AddKeepsIff(db: Rows, form: AddForm, nextId: nat)
    requires Exclusive(db)
    ensures Exclusive(Added(db, form, nextId).0) <==>
            (form.templateId.Some? && Running(db, form.templateId.value) ==>
               !FormClashes(db, form, form.templateId.value))
  {
    match form.templateId
    case Some(id) =>
      DeleteKeeps(db, id);
      InsertKeepsIff(Deleted(db, id), id, StatusFor(db, id), form);
      assert forall s :: s in Deleted(db, id).tempSites <==> s in db.tempSites && s.templateId != id;
      assert forall i | i != id :: Running(Deleted(db, id), i) == Running(db, i);
      assert FormClashes(Deleted(db, id), form, id) <==> FormClashes(db, form, id);
    case None =>
      if nextId !in db.templates {
        InsertIdleKeeps(db, nextId, form);
      }
  }

  /** The rows after adding: those of other templates, and the form's sites numbered in their order. */
  lemma AddedRows(db: Rows, form: AddForm, nextId: nat)
    requires form.templateId.Some? || nextId !in db.templates
    ensures var d, id := Added(db, form, nextId).0, if form.templateId.Some? then form.templateId.value else nextId;
            && id in d.templates && d.templates.Keys == db.templates.Keys + {id}
            && (forall i | i in db.templates && i != id :: d.templates[i] == db.templates[i])
            && d.templates[id].runStatus ==
               (if id in db.templates && db.templates[id].runStatus != "" then db.templates[id].runStatus else "1")
            && (forall s: TempSite :: s in d.tempSites <==>
                  (s in db.tempSites && (s.templateId != id || form.templateId.None?)) || FormSite(form, id, s))
            && (forall v: TempDevice :: v in d.tempDevices <==>
                  (v in db.tempDevices && (v.templateId != id || form.templateId.None?))
                  || (v.templateId == id && v.deviceImei in form.devices))
  {
    var d, id := Added(db, form, nextId).0, if form.templateId.Some? then form.templateId.value else nextId;
    var kept := if form.templateId.Some? then Deleted(db, id) else db;
    var starts, ends := SiteRows(id, form.startSites, StartRole), SiteRows(id, form.endSites, EndRole);
    assert d.tempSites == kept.tempSites + starts + ends;
    assert forall s :: s in d.tempSites <==> s in kept.tempSites || s in starts || s in ends;
    forall s
      ensures FormSite(form, id, s) <==> s in starts || s in ends
    {
      FormSiteIff(form, id, s);
    }
    var devices := DeviceRows(id, form.devices);
    assert d.tempDevices == kept.tempDevices + devices;
    assert forall v :: v in d.tempDevices <==> v in kept.tempDevices || v in devices;
    forall v: TempDevice
      ensures v in devices <==> v.templateId == id && v.deviceImei in form.devices
    {
      if v.templateId == id && v.deviceImei in form.devices {
        var i :| 0 <= i < |form.devices| && form.devices[i] == v.deviceImei;
        assert devices[i] == v;
      }
    }
  }

  /** Editing a template's details leaves it with the form's rows alone, and not running. */
  lemma InfoEditedRows(db: Rows, id: nat, form: AddForm)
    ensures var d := InfoEdited(db, id, form);
            && id in d.templates && d.templates[id].runStatus == "1"
            && (forall i | i != id :: (i in d.templates <==> i in db.templates)
                                      && (i in db.templates ==> d.templates[i] == db.templates[i]))
            && (forall s: TempSite :: s in d.tempSites <==>
                  (s in db.tempSites && s.templateId != id) || FormSite(form, id, s))
  {
    hide FormSite;
    var named := form.(templateId := Some(id));
    AddedRows(Deleted(db, id), named, 0);
    forall s
      ensures FormSite(named, id, s) == FormSite(form, id, s)
    {
      SameForm(form, named, id, s);
    }
  }

  lemma SameForm(form: AddForm, named: AddForm, id: nat, s: TempSite)
    requires named == form.(templateId := named.templateId)
    ensures FormSite(named, id, s) == FormSite(form, id, s)
  {
    assert forall i: nat :: ListedAt(named, id, s, i) == ListedAt(form, id, s, i);
  }

  /** The i-th site that the form lists for the role, with its place in the order. */
  predicate ListedAt(form: AddForm, id: nat, s: TempSite, i: nat) {
    var codes := if s.role == StartRole then form.startSites else form.endSites;
    i < |codes| && s == TempSite(id, codes[i], s.role, i + 1)
  }

  ghost predicate FormSite(form: AddForm, id: nat, s: TempSite) {
    exists i: nat :: ListedAt(form, id, s, i)
  }

  lemma FormSiteIff(form: AddForm, id: nat, s: TempSite)
    ensures FormSite(form, id, s) <==>
              s in SiteRows(id, form.startSites, StartRole) || s in SiteRows(id, form.endSites, EndRole)
  {
    var codes := if s.role == StartRole then form.startSites else form.endSites;
    var rows := SiteRows(id, codes, s.role);
    if FormSite(form, id, s) {
      var i: nat :| ListedAt(form, id, s, i);
      assert rows[i] == s;
    }
    if s in rows {
      var i :| 0 <= i < |rows| && rows[i] == s;
      assert ListedAt(form, id, s, i);
    }
  }

  /** Switching is refused only for an unknown template, and to "0" if another running one shares a site in a role. */
  lemma EditSucceedsIff(db: Rows, id: nat, status: string)
    ensures Edited(db, id, status).1 <==>
              && id in db.templates
              && (status == "0" ==>
                    forall s, t | s in db.tempSites && t in db.tempSites && SamePlace(s, t)
                                  && s.templateId == id && t.templateId != id :: !Running(db, t.templateId))
    ensures Edited(db, id, status).1 ==>
              Edited(db, id, status).0 == db.(templates := db.templates[id := Template(status)])
    ensures !Edited(db, id, status).1 ==> Edited(db, id, status).0 == db
  {
    if Clashes(db, id) {
      var s :| s in db.tempSites && s.templateId == id
               && RunningAt(db.templates, db.tempSites, s.siteCode, s.role, Some(id)) != [];
      var ids := RunningAt(db.templates, db.tempSites, s.siteCode, s.role, Some(id));
      assert ids[0] in ids;
      var t :| t in db.tempSites && t.templateId == ids[0] && RunsAt(db.templates, t, s.siteCode, s.role, Some(id));
      assert SamePlace(s, t) && Running(db, t.templateId);
    } else {
      forall s, t | s in db.tempSites && t in db.tempSites && SamePlace(s, t)
                    && s.templateId == id && t.templateId != id
        ensures !Running(db, t.templateId)
      {
        NoClash(db, id, s, t);
      }
    }
  }

  /** The excluded call, made: template 2 runs at site 8, is added again with site 7 of template 1, and still runs. */
  lemma AddOverRunningClashes()
    ensures var db := Rows(map[], map[], map[1 := Template("0"), 2 := Template("0")],
                           [TempSite(1, 7, StartRole, 1), TempSite(2, 8, StartRole, 1)], [], 0);
            && Exclusive(db)
            && !Exclusive(Added(db, AddForm(Some(2), [7], [], []), 0).0)
  {
    var a, b := TempSite(1, 7, StartRole, 1), TempSite(2, 8, StartRole, 1);
    var db := Rows(map[], map[], map[1 := Template("0"), 2 := Template("0")], [a, b], [], 0);
    var form := AddForm(Some(2), [7], [], []);
    assert a in db.tempSites && Running(db, 1) && 7 in form.startSites;
    assert FormClashes(db, form, 2);
    AddKeepsIff(db, form, 0);
  }

  lemma EditKeeps(db: Rows, id: nat, status: string)
    requires Exclusive(db)
    ensures Exclusive(Edited(db, id, status).0)
  {
    var d := Edited(db, id, status).0;
    forall s, t | s in d.tempSites && t in d.tempSites && SamePlace(s, t)
                  && Running(d, s.templateId) && Running(d, t.templateId)
      ensures s.templateId == t.templateId
    {
      if d != db && status == "0" && s.templateId != t.templateId {
        NoClash(db, id, s, t);
        NoClash(db, id, t, s);
      }
    }
  }

  lemma NoClash(db: Rows, id: nat, s: TempSite, t: TempSite)
    requires !Clashes(db, id) && s in db.tempSites && t in db.tempSites && SamePlace(s, t)
    ensures s.templateId == id && t.templateId != id ==> !Running(db, t.templateId)
  {
    assert RunsAt(db.templates, t, s.siteCode, s.role, Some(id)) <==> Running(db, t.templateId) && t.templateId != id;
  }

  // ---------- Runs ----------

  datatype Event =
    | Add(form: AddForm, nextId: nat)
    | Edit(id: nat, status: string)
    | EditInfo(id: nat, form: AddForm)
    | Del(id: nat)

  function Next(db: Rows, e: Event): Rows {
    match e
    case Add(form, nextId) => Added(db, form, nextId).0
    case Edit(id, status) => Edited(db, id, status).0
    case EditInfo(id, form) => InfoEdited(db, id, form)
    case Del(id) => Deleted(db, id)
  }

  function Run(db: Rows, events: seq<Event>): Rows {
    if events == [] then db else Next(Run(db, events[..|events| - 1]), events[|events| - 1])
  }

  /** The one excluded call: adding over a template that is running. */
  ghost predicate NoReplacing(db: Rows, events: seq<Event>) {
    forall n | 0 <= n < |events| && events[n].Add? && events[n].form.templateId.Some? ::
      !Running(Run(db, events[..n]), events[n].form.templateId.value)
  }

  lemma StepKeeps(db: Rows, e: Event)
    requires Exclusive(db)
    requires e.Add? && e.form.templateId.Some? ==> !Running(db, e.form.templateId.value)
    ensures Exclusive(Next(db, e))
  {
    match e
    case Add(form, nextId) => AddKeepsIff(db, form, nextId);
    case Edit(id, status) => EditKeeps(db, id, status);
    case EditInfo(id, form) =>
      DeleteKeeps(db, id);
      AddKeepsIff(Deleted(db, id), form.(templateId := Some(id)), 0);
    case Del(id) => DeleteKeeps(db, id);
  }

  lemma {:induction false} RunsStayExclusive(db: Rows, events: seq<Event>)
    requires Exclusive(db) && NoReplacing(db, events)
    ensures Exclusive(Run(db, events))
  {
    hide Next, Exclusive;
    if events != [] {
      var n := |events| - 1;
      forall k | 0 <= k < n && events[..n][k].Add? && events[..n][k].form.templateId.Some?
        ensures !Running(Run(db, events[..n][..k]), events[..n][k].form.templateId.value)
      {
        assert events[..n][..k] == events[..k];
      }
      RunsStayExclusive(db, events[..n]);
      StepKeeps(Run(db, events[..n]), events[n]);
    }
  }

  /** Under exclusivity the template that creation takes first is the only one, in whatever order rows come. */
  lemma FirstTemplateIsOnly(db: Rows, d: Rows, code: nat, role: Role)
    requires Exclusive(db) && multiset(d.tempSites) == multiset(db.tempSites) && d.templates == db.templates
    ensures var a, b := SelectRunTaskTempBySite(db, code, role, None), SelectRunTaskTempBySite(d, code, role, None);
            (a == [] <==> b == []) && forall i, j | i in a && j in b :: i == j
  {
    hide RunningAt;
    SameMembers(db.tempSites, d.tempSites);
    var a, b := SelectRunTaskTempBySite(db, code, role, None), SelectRunTaskTempBySite(d, code, role, None);
    if a != [] {
      assert a[0] in a;
    }
    if b != [] {
      assert b[0] in b;
    }
  }

  lemma SameMembers(a: seq<TempSite>, b: seq<TempSite>)
    requires multiset(a) == multiset(b)
    ensures forall s :: s in a <==> s in b
  {
    forall s
      ensures s in a <==> s in b
    {
      assert s in a <==> s in multiset(a);
      assert s in b <==> s in multiset(b);
    }
  }
}
