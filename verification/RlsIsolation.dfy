/**
 * Statements under the generated policies: which rows a session reads, changes
 * and leaves behind, over whole runs of many sessions.
 */
module RlsIsolation {
  import opened Common
  import opened RlsPolicy
  import opened RlsMigration

  /**
   * One statement on one table. `needsRead` says the statement also needs read
   * access (a WHERE over columns, or RETURNING), which brings the SELECT
   * policies in on top of the statement's own.
   */
  datatype Command =
    | Select(filter: Row -> bool)
    | Insert(id: nat, row: Row, needsRead: bool)
    | Update(filter: Row -> bool, change: Row -> Row, needsRead: bool)
    | Delete(filter: Row -> bool, needsRead: bool)

  datatype Outcome =
    | Rows(rows: map<nat, Row>)
    | Affected(ids: set<nat>)
    | BadUuid
    | RowRefused
    | DuplicateKey

  predicate Governed(t: Table, s: Session) { t.enabled && (t.forced || !s.owner) }

  predicate Applies(p: Policy, kind: CommandKind) { p.kind.ForAll? || p.kind == kind }

  function CheckOf(p: Policy): Pred { if p.check.Some? then p.check.value else p.using }

  /** Permissive policies for one command kind are joined with OR; with none, nothing passes. */
  ghost predicate UsingPasses(t: Table, s: Session, kind: CommandKind, row: Row) {
    Governed(t, s) ==> exists n | n in t.policies ::
      Applies(t.policies[n], kind) && Eval(t.policies[n].using, s, row) == Yes
  }

  ghost predicate CheckPasses(t: Table, s: Session, kind: CommandKind, row: Row) {
    Governed(t, s) ==> exists n | n in t.policies ::
      Applies(t.policies[n], kind) && Eval(CheckOf(t.policies[n]), s, row) == Yes
  }

  /** A row filter of some applicable policy cannot be planned. */
  ghost predicate Unplannable(t: Table, s: Session, kind: CommandKind) {
    Governed(t, s) && exists n | n in t.policies :: Applies(t.policies[n], kind) && PlanRaises(t.policies[n].using, s)
  }

  /** Policies are joined with AND across command kinds. */
  ghost predicate OldRowPasses(t: Table, s: Session, kind: CommandKind, needsRead: bool, row: Row) {
    UsingPasses(t, s, kind, row) && (needsRead ==> UsingPasses(t, s, ForSelect, row))
  }

  ghost predicate NewRowPasses(t: Table, s: Session, kind: CommandKind, needsRead: bool, row: Row) {
    CheckPasses(t, s, kind, row) && (needsRead ==> UsingPasses(t, s, ForSelect, row))
  }

  ghost function Targets(t: Table, s: Session, kind: CommandKind, needsRead: bool, filter: Row -> bool): set<nat> {
    set id | id in t.rows && filter(t.rows[id]) && OldRowPasses(t, s, kind, needsRead, t.rows[id])
  }

  ghost function Statement(t: Table, s: Session, c: Command): (Table, Outcome) {
    match c
    case Select(filter) =>
      if Unplannable(t, s, ForSelect) then (t, BadUuid)
      else
        var seen := set id | id in t.rows && filter(t.rows[id]) && UsingPasses(t, s, ForSelect, t.rows[id]);
        (t, Rows(map id | id in seen :: t.rows[id]))
    case Insert(id, row, needsRead) =>
      if !NewRowPasses(t, s, ForInsert, needsRead, row) then (t, RowRefused)
      else if id in t.rows then (t, DuplicateKey)
      else (t.(rows := t.rows[id := row]), Affected({id}))
    case Update(filter, change, needsRead) =>
      if Unplannable(t, s, ForUpdate) || (needsRead && Unplannable(t, s, ForSelect)) then (t, BadUuid)
      else
        var ids := Targets(t, s, ForUpdate, needsRead, filter);
        if exists id | id in ids :: !NewRowPasses(t, s, ForUpdate, needsRead, change(t.rows[id])) then (t, RowRefused)
        else (t.(rows := map id | id in t.rows :: if id in ids then change(t.rows[id]) else t.rows[id]), Affected(ids))
    case Delete(filter, needsRead) =>
      if Unplannable(t, s, ForDelete) || (needsRead && Unplannable(t, s, ForSelect)) then (t, BadUuid)
      else
        var ids := Targets(t, s, ForDelete, needsRead, filter);
        (t.(rows := t.rows - ids), Affected(ids))
  }

  datatype Request = Request(session: Session, table: string, command: Command)

  /** A statement on a table that does not exist does nothing. */
  ghost function Perform(c: Catalog, r: Request): (Catalog, Outcome) {
    if r.table !in c then (c, Affected({}))
    else
      var (t, o) := Statement(c[r.table], r.session, r.command);
      (c[r.table := t], o)
  }

  ghost function Run(c: Catalog, run: seq<Request>): (Catalog, seq<Outcome>) {
    if run == [] then (c, [])
    else
      var (c1, o) := Perform(c, run[0]);
      var (c2, os) := Run(c1, run[1..]);
      (c2, [o] + os)
  }

  /** The table carries its class's policies, forced, and no others. */
  ghost predicate Protected(t: Table, cls: PolicyClass) {
    t.enabled && t.forced && t.policies == ClassPolicies(cls)
  }

  /** Every table is protected by the class `classes` gives it. */
  ghost predicate AllProtected(c: Catalog, classes: map<string, PolicyClass>) {
    c.Keys == classes.Keys && forall name | name in c :: Protected(c[name], classes[name])
  }

  // ---- What the policies of a protected table amount to ----

  /** Old-row and new-row tests are the isolation policy's alone, for every session. */
  lemma WriteTests(t: Table, cls: PolicyClass, s: Session, kind: CommandKind, needsRead: bool, row: Row)
    requires Protected(t, cls) && (kind.ForInsert? || kind.ForUpdate? || kind.ForDelete?)
    ensures OldRowPasses(t, s, kind, needsRead, row) <==> Eval(Compile(cls).using, s, row) == Yes
    ensures NewRowPasses(t, s, kind, needsRead, row) <==> Eval(Compile(cls).check, s, row) == Yes
  {
    ClassPoliciesAreManaged(cls);
    assert t.policies[TenantIsolation] == IsolationPolicy(cls);
    assert forall n | n in t.policies && Applies(t.policies[n], kind) :: n == TenantIsolation;
    if Eval(Compile(cls).check, s, row) == Yes { CheckImpliesUsing(cls, s, row); }
  }

  /** A statement of any kind cannot be planned exactly when the isolation policy refuses the session. */
  lemma PlanTest(t: Table, cls: PolicyClass, s: Session, kind: CommandKind)
    requires Protected(t, cls)
    ensures Unplannable(t, s, kind) <==> Refused(cls, s)
  {
    ClassPoliciesAreManaged(cls);
    assert t.policies[TenantIsolation] == IsolationPolicy(cls);
    PlanRaisesIffRefused(cls, s);
  }

  /** A readable row passes isolation, or is widened to inside the session's organisation. */
  lemma ReadTest(t: Table, cls: PolicyClass, s: Session, row: Row)
    requires Protected(t, cls)
    ensures UsingPasses(t, s, ForSelect, row) <==>
      || Eval(Compile(cls).using, s, row) == Yes
      || ((cls.Standard? || cls.WorkspaceNullable?) && IsOn(s.orgWide) && OwnOrg(s, row))
      || (cls.WorkspaceNullable? && OwnOrg(s, row) && row.workspace.None?)
  {
    ClassPoliciesAreManaged(cls);
    WideningMeaning(s, row);
    assert t.policies[TenantIsolation] == IsolationPolicy(cls);
    if cls.Standard? || cls.WorkspaceNullable? {
      assert t.policies[TenantOrgWideRead] == Policy(ForSelect, ORG_WIDE_READ, None);
    }
    if cls.WorkspaceNullable? {
      assert t.policies[TenantOrgSharedRead] == Policy(ForSelect, SHARED_READ, None);
    }
  }

  // ---- Isolation ----

  /** For a session without bypass, the tests of a protected table are the class's own rules. */
  lemma RowTests(t: Table, cls: PolicyClass, s: Session, kind: CommandKind, needsRead: bool, row: Row)
    requires Protected(t, cls) && !IsOn(s.bypass) && (kind.ForInsert? || kind.ForUpdate? || kind.ForDelete?)
    ensures !Refused(cls, s) ==> (OldRowPasses(t, s, kind, needsRead, row) <==> MayTouch(cls, s, row))
    ensures NewRowPasses(t, s, kind, needsRead, row) <==> !Refused(cls, s) && MayWrite(cls, s, row)
    ensures !Refused(cls, s) ==> (UsingPasses(t, s, ForSelect, row) <==> MayRead(cls, s, row))
    ensures Unplannable(t, s, kind) <==> Refused(cls, s)
    ensures Unplannable(t, s, ForSelect) <==> Refused(cls, s)
  {
    WriteTests(t, cls, s, kind, needsRead, row);
    ReadTest(t, cls, s, row);
    PlanTest(t, cls, s, kind);
    PlanTest(t, cls, s, ForSelect);
    IsolationMeaning(cls, s, row);
    if Refused(cls, s) { RefusedWritesNothing(cls, s, row); }
  }

  // ---- Statements, bypass or not ----

  /** The rows the class lets the session change: every row with bypass, else those of its scope. */
  predicate CanTouch(cls: PolicyClass, s: Session, row: Row) { IsOn(s.bypass) || MayTouch(cls, s, row) }

  predicate CanWrite(cls: PolicyClass, s: Session, row: Row) { IsOn(s.bypass) || MayWrite(cls, s, row) }

  predicate CanRead(cls: PolicyClass, s: Session, row: Row) { IsOn(s.bypass) || MayRead(cls, s, row) }

  /** For every session whose settings plan, the tests of a protected table are the class's rules and bypass. */
  lemma RuleTests(t: Table, cls: PolicyClass, s: Session, kind: CommandKind, needsRead: bool, row: Row)
    requires Protected(t, cls) && (kind.ForInsert? || kind.ForUpdate? || kind.ForDelete?)
    ensures !Refused(cls, s) ==>
      && (OldRowPasses(t, s, kind, needsRead, row) <==> CanTouch(cls, s, row))
      && (UsingPasses(t, s, ForSelect, row) <==> CanRead(cls, s, row))
    ensures NewRowPasses(t, s, kind, needsRead, row) <==>
      CanWrite(cls, s, row) && (Refused(cls, s) ==> IsOn(s.bypass))
  {
    WriteTests(t, cls, s, kind, needsRead, row);
    ReadTest(t, cls, s, row);
    IsolationMeaning(cls, s, row);
    if Refused(cls, s) && !IsOn(s.bypass) { RefusedWritesNothing(cls, s, row); }
  }

  /** A SELECT of a session whose settings plan answers exactly the matching rows it can read. */
  lemma SelectEffect(t: Table, cls: PolicyClass, s: Session, filter: Row -> bool)
    requires Protected(t, cls) && !Refused(cls, s)
    ensures var (t', o) := Statement(t, s, Select(filter));
      && t' == t && o.Rows?
      && (forall id :: id in o.rows <==> id in t.rows && filter(t.rows[id]) && CanRead(cls, s, t.rows[id]))
      && forall id | id in o.rows :: o.rows[id] == t.rows[id]
  {
    PlanTest(t, cls, s, ForSelect);
    forall row: Row { RuleTests(t, cls, s, ForDelete, true, row); }
  }

  /**
   * An INSERT adds the row exactly if the session can write it and the key is
   * free; with bypass any row, whatever the tenant settings hold.
   */
  lemma InsertEffect(t: Table, cls: PolicyClass, s: Session, id: nat, row: Row, needsRead: bool)
    requires Protected(t, cls)
    ensures var (t', o) := Statement(t, s, Insert(id, row, needsRead));
      if !CanWrite(cls, s, row) || (Refused(cls, s) && !IsOn(s.bypass)) then t' == t && o == RowRefused
      else if id in t.rows then t' == t && o == DuplicateKey
      else t' == t.(rows := t.rows[id := row]) && o == Affected({id})
  {
    RuleTests(t, cls, s, ForInsert, needsRead, row);
  }

  /** The rows an UPDATE or a DELETE is about. */
  ghost predicate Hit(t: Table, cls: PolicyClass, s: Session, filter: Row -> bool, id: nat) {
    id in t.rows && filter(t.rows[id]) && CanTouch(cls, s, t.rows[id])
  }

  /**
   * An UPDATE of a session whose settings plan changes exactly the matching rows
   * it can touch, if it can write every one of them as changed, and else nothing.
   */
  lemma UpdateEffect(t: Table, cls: PolicyClass, s: Session, filter: Row -> bool, change: Row -> Row, needsRead: bool)
    requires Protected(t, cls) && !Refused(cls, s)
    ensures var (t', o) := Statement(t, s, Update(filter, change, needsRead));
      if forall id | Hit(t, cls, s, filter, id) :: CanWrite(cls, s, change(t.rows[id])) then
        && o.Affected? && (forall id :: id in o.ids <==> Hit(t, cls, s, filter, id))
        && t'.rows.Keys == t.rows.Keys
        && forall id | id in t.rows ::
             t'.rows[id] == if Hit(t, cls, s, filter, id) then change(t.rows[id]) else t.rows[id]
      else t' == t && o == RowRefused
  {
    PlanTest(t, cls, s, ForUpdate);
    PlanTest(t, cls, s, ForSelect);
    forall row: Row { RuleTests(t, cls, s, ForUpdate, needsRead, row); }
    var ids := Targets(t, s, ForUpdate, needsRead, filter);
    assert forall id :: id in ids <==> Hit(t, cls, s, filter, id);
  }

  /** A DELETE of a session whose settings plan removes exactly the matching rows it can touch. */
  lemma DeleteEffect(t: Table, cls: PolicyClass, s: Session, filter: Row -> bool, needsRead: bool)
    requires Protected(t, cls) && !Refused(cls, s)
    ensures var (t', o) := Statement(t, s, Delete(filter, needsRead));
      && o.Affected? && (forall id :: id in o.ids <==> Hit(t, cls, s, filter, id))
      && (forall id :: id in t'.rows <==> id in t.rows && !Hit(t, cls, s, filter, id))
      && forall id | id in t'.rows :: t'.rows[id] == t.rows[id]
  {
    PlanTest(t, cls, s, ForDelete);
    PlanTest(t, cls, s, ForSelect);
    forall row: Row { RuleTests(t, cls, s, ForDelete, needsRead, row); }
    var ids := Targets(t, s, ForDelete, needsRead, filter);
    assert forall id :: id in ids <==> Hit(t, cls, s, filter, id);
  }

  /** No statement but an INSERT of a session whose settings do not plan gets anywhere, bypass or not. */
  lemma UnplannedStatement(t: Table, cls: PolicyClass, s: Session, c: Command)
    requires Protected(t, cls) && Refused(cls, s) && !c.Insert?
    ensures Statement(t, s, c) == (t, BadUuid)
  {
    PlanTest(t, cls, s, if c.Select? then ForSelect else KindOf(c));
  }

  function KindOf(c: Command): CommandKind {
    match c
    case Select(_) => ForDelete
    case Insert(_, _, _) => ForInsert
    case Update(_, _, _) => ForUpdate
    case Delete(_, _) => ForDelete
  }

  function NeedsRead(c: Command): bool { c.Select? || c.needsRead }

  /** The statement inserted, rewrote or deleted the row. */
  predicate Affects(o: Outcome, id: nat) { o.Affected? && id in o.ids }

  /** One statement of a session without bypass. */
  lemma StatementIsolation(t: Table, cls: PolicyClass, s: Session, c: Command)
    requires Protected(t, cls) && !IsOn(s.bypass)
    ensures var (t', o) := Statement(t, s, c);
      && Protected(t', cls)
      && (forall id | id in t.rows && !MayTouch(cls, s, t.rows[id]) :: id in t'.rows && t'.rows[id] == t.rows[id])
      && (forall id | id in t'.rows && Affects(o, id) :: MayWrite(cls, s, t'.rows[id]))
      && (forall id | id in t'.rows && !Affects(o, id) :: id in t.rows && t.rows[id] == t'.rows[id])
      && (o.Rows? ==> forall id | id in t.rows :: id in o.rows <==> c.filter(t.rows[id]) && MayRead(cls, s, t.rows[id]))
      && (o.Rows? ==> forall id | id in o.rows :: id in t.rows && o.rows[id] == t.rows[id])
      && (Refused(cls, s) ==> t' == t && (o == BadUuid || o == RowRefused))
  {
    StatementKeeps(t, cls, s, c);
    StatementWrites(t, cls, s, c);
    if c.Select? && Statement(t, s, c).1.Rows? { StatementReads(t, cls, s, c); }
  }

  lemma StatementKeeps(t: Table, cls: PolicyClass, s: Session, c: Command)
    requires Protected(t, cls) && !IsOn(s.bypass)
    ensures var (t', o) := Statement(t, s, c);
      && (forall id | id in t.rows && !MayTouch(cls, s, t.rows[id]) :: id in t'.rows && t'.rows[id] == t.rows[id])
      && (Refused(cls, s) ==> t' == t && (o == BadUuid || o == RowRefused))
  {
    forall row: Row { RowTests(t, cls, s, KindOf(c), NeedsRead(c), row); }
    RowTests(t, cls, s, KindOf(c), NeedsRead(c), Row(None, None, 0));
  }

  lemma StatementWrites(t: Table, cls: PolicyClass, s: Session, c: Command)
    requires Protected(t, cls) && !IsOn(s.bypass)
    ensures var (t', o) := Statement(t, s, c);
      && (forall id | id in t'.rows && Affects(o, id) :: MayWrite(cls, s, t'.rows[id]))
      && (forall id | id in t'.rows && !Affects(o, id) :: id in t.rows && t.rows[id] == t'.rows[id])
  {
    forall row: Row { RowTests(t, cls, s, KindOf(c), NeedsRead(c), row); }
  }

  lemma StatementReads(t: Table, cls: PolicyClass, s: Session, c: Command)
    requires Protected(t, cls) && !IsOn(s.bypass) && Statement(t, s, c).1.Rows?
    ensures var rows := Statement(t, s, c).1.rows;
      forall id | id in t.rows :: id in rows <==> c.filter(t.rows[id]) && MayRead(cls, s, t.rows[id])
  {
    forall row: Row { RowTests(t, cls, s, KindOf(c), NeedsRead(c), row); }
  }

  /** Every request on `table` comes from a session without bypass that may not `act` on `row`. */
  ghost predicate NoneMay(run: seq<Request>, table: string, cls: PolicyClass, row: Row,
                          act: (PolicyClass, Session, Row) -> bool) {
    forall i | 0 <= i < |run| && run[i].table == table :: !act(cls, run[i].session, row)
  }

  ghost predicate NoBypass(run: seq<Request>) {
    forall i | 0 <= i < |run| :: !IsOn(run[i].session.bypass)
  }

  /** The session whose statement was the last to affect the row. */
  ghost function LastWriter(run: seq<Request>, outcomes: seq<Outcome>, table: string, id: nat): Option<Session>
    requires |outcomes| == |run|
  {
    if run == [] then None
    else
      var later := LastWriter(run[1..], outcomes[1..], table, id);
      if later.Some? then later
      else if run[0].table == table && Affects(outcomes[0], id) then Some(run[0].session)
      else None
  }

  /** At the end of a run a row passes the write rule for the session that wrote it last, or no statement wrote it. */
  lemma {:induction false} LastWriterAnswers(c: Catalog, classes: map<string, PolicyClass>, run: seq<Request>,
                                             name: string, id: nat)
    requires AllProtected(c, classes) && NoBypass(run) && name in c
    requires |Run(c, run).1| == |run| && name in Run(c, run).0 && id in Run(c, run).0[name].rows
    ensures var row, writer := Run(c, run).0[name].rows[id], LastWriter(run, Run(c, run).1, name, id);
      if writer.Some? then MayWrite(classes[name], writer.value, row)
      else id in c[name].rows && c[name].rows[id] == row
    decreases |run|
  {
    if run != [] {
      var r := run[0];
      var c1 := Perform(c, r).0;
      if r.table in c { StatementIsolation(c[r.table], classes[r.table], r.session, r.command); }
      RunLength(c1, run[1..]);
      assert Run(c, run).1[1..] == Run(c1, run[1..]).1;
      LastWriterAnswers(c1, classes, run[1..], name, id);
    }
  }

  /**
   * Isolation over whole runs, with the requests of any number of sessions
   * interleaved: a row no session may touch ends as it began, a row that a
   * statement wrote satisfies the class's write rule for the session that wrote
   * it last, and the policies stay in force.
   */
  lemma RunIsolation(c: Catalog, classes: map<string, PolicyClass>, run: seq<Request>)
    requires AllProtected(c, classes) && NoBypass(run)
    ensures |Run(c, run).1| == |run|
    ensures var (after, outcomes) := Run(c, run);
      && AllProtected(after, classes)
      && (forall name, id | name in c && id in c[name].rows
            && NoneMay(run, name, classes[name], c[name].rows[id], MayTouch) ::
              id in after[name].rows && after[name].rows[id] == c[name].rows[id])
      && (forall name, id | name in c && id in after[name].rows && LastWriter(run, outcomes, name, id).Some? ::
            MayWrite(classes[name], LastWriter(run, outcomes, name, id).value, after[name].rows[id]))
      && (forall name, id | name in c && id in after[name].rows && LastWriter(run, outcomes, name, id).None? ::
            id in c[name].rows && c[name].rows[id] == after[name].rows[id])
    decreases |run|
  {
    RunLength(c, run);
    RunKeepsUntouchable(c, classes, run);
    var after := Run(c, run).0;
    forall name, id | name in c && id in after[name].rows
      ensures var writer := LastWriter(run, Run(c, run).1, name, id);
        if writer.Some? then MayWrite(classes[name], writer.value, after[name].rows[id])
        else id in c[name].rows && c[name].rows[id] == after[name].rows[id]
    {
      LastWriterAnswers(c, classes, run, name, id);
    }
  }

  lemma {:induction false} RunKeepsUntouchable(c: Catalog, classes: map<string, PolicyClass>, run: seq<Request>)
    requires AllProtected(c, classes) && NoBypass(run)
    ensures var after := Run(c, run).0;
      && AllProtected(after, classes)
      && forall name, id | name in c && id in c[name].rows
           && NoneMay(run, name, classes[name], c[name].rows[id], MayTouch) ::
           id in after[name].rows && after[name].rows[id] == c[name].rows[id]
    decreases |run|
  {
    if run != [] {
      var r := run[0];
      var c1 := Perform(c, r).0;
      if r.table in c { StatementIsolation(c[r.table], classes[r.table], r.session, r.command); }
      var after := Run(c1, run[1..]).0;
      RunKeepsUntouchable(c1, classes, run[1..]);
      forall name, id | name in c && id in c[name].rows && NoneMay(run, name, classes[name], c[name].rows[id], MayTouch)
        ensures id in after[name].rows && after[name].rows[id] == c[name].rows[id]
      {
        assert name == r.table ==> !MayTouch(classes[name], run[0].session, c[name].rows[id]);
        assert id in c1[name].rows && c1[name].rows[id] == c[name].rows[id];
        assert NoneMay(run[1..], name, classes[name], c[name].rows[id], MayTouch);
      }
    }
  }

  lemma {:induction false} RunLength(c: Catalog, run: seq<Request>)
    ensures |Run(c, run).1| == |run|
    decreases |run|
  {
    if run != [] { RunLength(Perform(c, run[0]).0, run[1..]); }
  }

  /** Every SELECT of every run returns only rows its own session may read. */
  lemma {:induction false} RunReads(c: Catalog, classes: map<string, PolicyClass>, run: seq<Request>, i: nat, id: nat)
    requires AllProtected(c, classes) && NoBypass(run) && i < |run| && run[i].table in c
    requires |Run(c, run).1| == |run| && Run(c, run).1[i].Rows? && id in Run(c, run).1[i].rows
    ensures MayRead(classes[run[i].table], run[i].session, Run(c, run).1[i].rows[id])
    decreases |run|
  {
    var r := run[0];
    var c1 := Perform(c, r).0;
    RunLength(c1, run[1..]);
    if r.table in c { StatementIsolation(c[r.table], classes[r.table], r.session, r.command); }
    if i > 0 {
      RunReads(c1, classes, run[1..], i - 1, id);
    }
  }

  /** In particular no read crosses the organisation on a class that has one. */
  lemma ReadsStayInOrganisation(cls: PolicyClass, s: Session, row: Row)
    requires MayRead(cls, s, row) && !cls.WorkspaceOnly?
    ensures OwnOrg(s, row) || (cls.OrgOrGlobal? && row.org.None?)
    ensures cls.OrgOnly? || cls.OrgOrGlobal? || OwnWorkspace(s, row) || row.workspace.None? || IsOn(s.orgWide)
  {
  }

  // ---- The organisation-wide setting changes reads alone ----

  ghost predicate SameButOrgWide(a: Session, b: Session) {
    b == a.(orgWide := b.orgWide)
  }

  ghost predicate SameRequestsButOrgWide(a: seq<Request>, b: seq<Request>) {
    |a| == |b| && forall i | 0 <= i < |a| ::
      SameButOrgWide(a[i].session, b[i].session) && b[i] == a[i].(session := b[i].session)
  }

  /** The isolation predicates do not mention `app.org_wide`. */
  lemma OrgWideNotInIsolation(cls: PolicyClass, a: Session, b: Session, row: Row)
    requires SameButOrgWide(a, b)
    ensures Eval(Compile(cls).using, a, row) == Eval(Compile(cls).using, b, row)
    ensures Eval(Compile(cls).check, a, row) == Eval(Compile(cls).check, b, row)
  {
    match cls
    case Standard =>
    case WorkspaceNullable =>
      var shared := And(IsNull(WorkspaceColumn), IsNull(WorkspaceSetting));
      assert Eval(Or(OWN_WORKSPACE, shared), a, row) == Eval(Or(OWN_WORKSPACE, shared), b, row);
    case OrgOnly =>
    case WorkspaceOnly =>
    case OrgOrGlobal =>
      assert Eval(Or(IsNull(OrgColumn), OWN_ORG), a, row) == Eval(Or(IsNull(OrgColumn), OWN_ORG), b, row);
  }

  /** How two outcomes of the same statement may differ when only `b` may be org-wide. */
  ghost predicate Widens(cls: PolicyClass, s: Session, narrow: Outcome, wide: Outcome) {
    if narrow.Rows? && wide.Rows? then
      && (forall id | id in narrow.rows :: id in wide.rows && wide.rows[id] == narrow.rows[id])
      && (forall id | id in wide.rows && id !in narrow.rows ::
            (cls.Standard? || cls.WorkspaceNullable?) && OwnOrg(s, wide.rows[id]))
    else wide == narrow
  }

  lemma AgreeOnPlans(t: Table, cls: PolicyClass, a: Session, b: Session, kind: CommandKind)
    requires Protected(t, cls) && SameButOrgWide(a, b)
    ensures Unplannable(t, a, kind) <==> Unplannable(t, b, kind)
  {
    PlanTest(t, cls, a, kind);
    PlanTest(t, cls, b, kind);
  }

  lemma RowTestsAgree(t: Table, cls: PolicyClass, a: Session, b: Session, kind: CommandKind, needsRead: bool, row: Row)
    requires Protected(t, cls) && SameButOrgWide(a, b) && (kind.ForInsert? || kind.ForUpdate? || kind.ForDelete?)
    ensures OldRowPasses(t, a, kind, needsRead, row) <==> OldRowPasses(t, b, kind, needsRead, row)
    ensures NewRowPasses(t, a, kind, needsRead, row) <==> NewRowPasses(t, b, kind, needsRead, row)
    ensures !IsOn(a.orgWide) && UsingPasses(t, a, ForSelect, row) ==> UsingPasses(t, b, ForSelect, row)
    ensures UsingPasses(t, b, ForSelect, row) && !UsingPasses(t, a, ForSelect, row) ==>
      (cls.Standard? || cls.WorkspaceNullable?) && OwnOrg(b, row)
    ensures Unplannable(t, a, kind) <==> Unplannable(t, b, kind)
    ensures Unplannable(t, a, ForSelect) <==> Unplannable(t, b, ForSelect)
  {
    WriteTests(t, cls, a, kind, needsRead, row);
    WriteTests(t, cls, b, kind, needsRead, row);
    ReadTest(t, cls, a, row);
    ReadTest(t, cls, b, row);
    AgreeOnPlans(t, cls, a, b, kind);
    AgreeOnPlans(t, cls, a, b, ForSelect);
    OrgWideNotInIsolation(cls, a, b, row);
  }

  lemma StatementNoninterference(t: Table, cls: PolicyClass, a: Session, b: Session, c: Command)
    requires Protected(t, cls) && SameButOrgWide(a, b)
    ensures Statement(t, a, c).0 == Statement(t, b, c).0
    ensures !c.Select? ==> Statement(t, a, c).1 == Statement(t, b, c).1
    ensures !IsOn(a.orgWide) ==> Widens(cls, b, Statement(t, a, c).1, Statement(t, b, c).1)
  {
    if c.Select? { ReadsAgree(t, cls, a, b, c); } else { WritesAgree(t, cls, a, b, c); }
  }

  lemma ReadsAgree(t: Table, cls: PolicyClass, a: Session, b: Session, c: Command)
    requires Protected(t, cls) && SameButOrgWide(a, b) && c.Select?
    ensures !IsOn(a.orgWide) ==> Widens(cls, b, Statement(t, a, c).1, Statement(t, b, c).1)
  {
    forall row: Row { RowTestsAgree(t, cls, a, b, KindOf(c), NeedsRead(c), row); }
    RowTestsAgree(t, cls, a, b, KindOf(c), NeedsRead(c), Row(None, None, 0));
  }

  lemma WritesAgree(t: Table, cls: PolicyClass, a: Session, b: Session, c: Command)
    requires Protected(t, cls) && SameButOrgWide(a, b) && !c.Select?
    ensures Statement(t, a, c) == Statement(t, b, c)
  {
    forall row: Row { RowTestsAgree(t, cls, a, b, KindOf(c), NeedsRead(c), row); }
    RowTestsAgree(t, cls, a, b, KindOf(c), NeedsRead(c), Row(None, None, 0));
    if c.Update? || c.Delete? {
      assert Targets(t, a, KindOf(c), NeedsRead(c), c.filter) == Targets(t, b, KindOf(c), NeedsRead(c), c.filter);
    }
  }

  /**
   * Two runs of the same statements whose sessions differ only in
   * `app.org_wide`, bypass or not, leave the same database.
   */
  lemma {:induction false} RunsLeaveTheSame(c: Catalog, classes: map<string, PolicyClass>, a: seq<Request>,
                                            b: seq<Request>)
    requires AllProtected(c, classes) && SameRequestsButOrgWide(a, b)
    ensures Run(c, a).0 == Run(c, b).0
    decreases |a|
  {
    if a != [] {
      PerformsAgree(c, classes, a[0], b[0]);
      assert SameRequestsButOrgWide(a[1..], b[1..]);
      RunsLeaveTheSame(Perform(c, a[0]).0, classes, a[1..], b[1..]);
    }
  }

  /**
   * And in them every INSERT, UPDATE and DELETE answers alike, while a SELECT only
   * ever gains rows of its own organisation.
   */
  lemma {:induction false} RunsAnswerAlike(c: Catalog, classes: map<string, PolicyClass>, a: seq<Request>,
                                           b: seq<Request>, i: nat)
    requires AllProtected(c, classes) && SameRequestsButOrgWide(a, b) && i < |a|
    ensures |Run(c, a).1| == |Run(c, b).1| == |a|
    ensures !a[i].command.Select? ==> Run(c, a).1[i] == Run(c, b).1[i]
    ensures a[i].table in c && !IsOn(a[i].session.orgWide) ==>
      Widens(classes[a[i].table], b[i].session, Run(c, a).1[i], Run(c, b).1[i])
    decreases i
  {
    PerformsAgree(c, classes, a[0], b[0]);
    RunLength(c, a);
    RunLength(c, b);
    if i > 0 {
      assert SameRequestsButOrgWide(a[1..], b[1..]);
      RunsAnswerAlike(Perform(c, a[0]).0, classes, a[1..], b[1..], i - 1);
    }
  }

  lemma PerformsAgree(c: Catalog, classes: map<string, PolicyClass>, x: Request, y: Request)
    requires AllProtected(c, classes) && SameButOrgWide(x.session, y.session) && y == x.(session := y.session)
    ensures Perform(c, x).0 == Perform(c, y).0 && AllProtected(Perform(c, x).0, classes)
    ensures !x.command.Select? ==> Perform(c, x).1 == Perform(c, y).1
    ensures x.table in c && !IsOn(x.session.orgWide) ==>
      Widens(classes[x.table], y.session, Perform(c, x).1, Perform(c, y).1)
  {
    if x.table in c {
      StatementNoninterference(c[x.table], classes[x.table], x.session, y.session, x.command);
      StatementKeepsPolicies(c[x.table], x.session, x.command);
    }
  }

  lemma StatementKeepsPolicies(t: Table, s: Session, c: Command)
    ensures Statement(t, s, c).0 == t.(rows := Statement(t, s, c).0.rows)
  {
  }

  // ---- From the generator to the runs ----

  /** The class each table of a migrated catalog ends up protected by. */
  ghost function Classes(c: Catalog, entries: seq<Entry>): map<string, PolicyClass> {
    map name | name in c :: ClassOf(entries, name).GetOr(Standard)
  }

  lemma MigratedFromManaged(t: Table, cls: PolicyClass)
    requires t.policies.Keys <= MANAGED
    ensures Protected(Migrated(t, cls), cls)
  {
  }

  lemma LeavesProtected(c: Catalog, entries: seq<Entry>, after: Catalog)
    requires Leaves(c, entries, after)
    requires forall name | name in c :: c[name].policies.Keys <= MANAGED && ClassOf(entries, name).Some?
    ensures AllProtected(after, Classes(c, entries))
  {
    forall name | name in c ensures Protected(after[name], Classes(c, entries)[name]) {
      MigratedFromManaged(c[name], ClassOf(entries, name).value);
    }
  }

  /**
   * A migration over tables that carry no hand-written policy protects every
   * one of them, so both theorems above hold of any run after it.
   */
  lemma MigrationProtects(c: Catalog, entries: seq<Entry>)
    requires Tables(entries) == c.Keys
    requires forall name | name in c :: c[name].policies.Keys <= MANAGED
    ensures ExecuteAll(c, RenderMigration(entries)).Ok?
    ensures AllProtected(ExecuteAll(c, RenderMigration(entries)).value, Classes(c, entries))
  {
    MigrationOutcome(c, entries);
    forall name | name in c ensures ClassOf(entries, name).Some? { ClassOfTables(entries, name); }
    LeavesProtected(c, entries, ExecuteAll(c, RenderMigration(entries)).value);
  }
}
