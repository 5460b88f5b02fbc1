/**
 * Row-level security as `gen-rls-migration.ts` compiles it: the five policy
 * classes, the predicates each one becomes, and how PostgreSQL evaluates them.
 *
 * Predicates are kept as syntax. Three-valued logic, unset settings and the
 * `::uuid` cast of a setting that is not a uuid are evaluated explicitly.
 */
module RlsPolicy {
  import opened Common

  type Uuid = nat

  /** A tenant setting as text: absent, empty, a uuid, or text that is not a uuid. */
  datatype Guc = Unset | Empty | Id(id: Uuid) | NotUuid

  /** An on/off setting: absent, or some text that is or is not 'on'. */
  datatype Flag = FlagUnset | FlagText(on: bool)

  /** What a connection carries. `owner` is the table owner's role. */
  datatype Session = Session(org: Guc, workspace: Guc, bypass: Flag, orgWide: Flag, owner: bool)

  /** The scoping columns of a row, and the rest of it. */
  datatype Row = Row(org: Option<Uuid>, workspace: Option<Uuid>, payload: int)

  /** SQL truth, plus `Raise` for an expression whose evaluation fails. */
  datatype Truth = Yes | No | Null | Raise

  datatype Term = OrgColumn | WorkspaceColumn | OrgSetting | WorkspaceSetting

  datatype Pred =
    | BypassOn
    | OrgWideOn
    | Equals(left: Term, right: Term)
    | IsNull(term: Term)
    | And(a: Pred, b: Pred)
    | Or(a: Pred, b: Pred)

  /** A scalar: NULL, a uuid, or a failed cast. */
  datatype Scalar = SqlNull | SqlId(id: Uuid) | CastError

  function Column(c: Option<Uuid>): Scalar {
    if c.Some? then SqlId(c.value) else SqlNull
  }

  /** `nullif(current_setting(name, true), '')::uuid` */
  function Cast(g: Guc): Scalar {
    match g
    case Unset => SqlNull
    case Empty => SqlNull
    case Id(u) => SqlId(u)
    case NotUuid => CastError
  }

  function EvalTerm(t: Term, s: Session, row: Row): Scalar {
    match t
    case OrgColumn => Column(row.org)
    case WorkspaceColumn => Column(row.workspace)
    case OrgSetting => Cast(s.org)
    case WorkspaceSetting => Cast(s.workspace)
  }

  function EvalFlag(f: Flag): Truth {
    if f.FlagUnset? then Null else if f.on then Yes else No
  }

  function EvalEquals(x: Scalar, y: Scalar): Truth {
    if x.CastError? || y.CastError? then Raise
    else if x.SqlNull? || y.SqlNull? then Null
    else if x.id == y.id then Yes else No
  }

  function EvalAnd(x: Truth, y: Truth): Truth {
    if x == Raise || x == No then x
    else if y == Raise || y == No then y
    else if x == Null || y == Null then Null
    else Yes
  }

  function EvalOr(x: Truth, y: Truth): Truth {
    if x == Raise || x == Yes then x
    else if y == Raise || y == Yes then y
    else if x == Null || y == Null then Null
    else No
  }

  function Eval(p: Pred, s: Session, row: Row): Truth
    decreases p
  {
    match p
    case BypassOn => EvalFlag(s.bypass)
    case OrgWideOn => EvalFlag(s.orgWide)
    case Equals(l, r) => EvalEquals(EvalTerm(l, s, row), EvalTerm(r, s, row))
    case IsNull(t) =>
      (match EvalTerm(t, s, row)
       case CastError => Raise
       case SqlNull => Yes
       case SqlId(_) => No)
    case And(a, b) => EvalAnd(Eval(a, s, row), Eval(b, s, row))
    case Or(a, b) => EvalOr(Eval(a, s, row), Eval(b, s, row))
  }

  function TermCasts(t: Term, s: Session): bool {
    (t.OrgSetting? && s.org.NotUuid?) || (t.WorkspaceSetting? && s.workspace.NotUuid?)
  }

  /**
   * Whether planning a statement that applies `p` as a row filter raises. The
   * planner folds every cast while it estimates selectivity, so a setting that
   * is not a uuid raises whatever the rows are, and whether or not bypass is on.
   */
  predicate PlanRaises(p: Pred, s: Session)
    decreases p
  {
    match p
    case BypassOn => false
    case OrgWideOn => false
    case Equals(l, r) => TermCasts(l, s) || TermCasts(r, s)
    case IsNull(t) => TermCasts(t, s)
    case And(a, b) => PlanRaises(a, s) || PlanRaises(b, s)
    case Or(a, b) => PlanRaises(a, s) || PlanRaises(b, s)
  }

  // ---- The compiler ----

  datatype PolicyClass = Standard | WorkspaceNullable | OrgOnly | WorkspaceOnly | OrgOrGlobal

  datatype Predicates = Predicates(using: Pred, check: Pred, orgWideRead: Option<Pred>)

  const OWN_ORG: Pred := Equals(OrgColumn, OrgSetting)
  const OWN_WORKSPACE: Pred := Equals(WorkspaceColumn, WorkspaceSetting)
  const ORG_WIDE_READ: Pred := And(OrgWideOn, OWN_ORG)

  /** The predicates each policy class compiles to. */
  function Compile(cls: PolicyClass): Predicates {
    match cls
    case OrgOnly =>
      var p := Or(BypassOn, OWN_ORG);
      Predicates(p, p, None)
    case WorkspaceNullable =>
      var shared := And(IsNull(WorkspaceColumn), IsNull(WorkspaceSetting));
      var p := Or(BypassOn, And(OWN_ORG, Or(OWN_WORKSPACE, shared)));
      Predicates(p, p, Some(ORG_WIDE_READ))
    case WorkspaceOnly =>
      var p := Or(BypassOn, OWN_WORKSPACE);
      Predicates(p, p, None)
    case OrgOrGlobal =>
      Predicates(Or(BypassOn, Or(IsNull(OrgColumn), OWN_ORG)), Or(BypassOn, OWN_ORG), None)
    case Standard =>
      var p := Or(BypassOn, And(OWN_ORG, OWN_WORKSPACE));
      Predicates(p, p, Some(ORG_WIDE_READ))
  }

  datatype CommandKind = ForAll | ForSelect | ForInsert | ForUpdate | ForDelete

  /** A permissive policy. A missing WITH CHECK falls back to USING. */
  datatype Policy = Policy(kind: CommandKind, using: Pred, check: Option<Pred>)

  /** The three names the generator manages, and every other name a policy may have. */
  datatype PolicyName = TenantIsolation | TenantOrgWideRead | TenantOrgSharedRead | OtherName(name: string)

  const MANAGED: set<PolicyName> := {TenantIsolation, TenantOrgWideRead, TenantOrgSharedRead}

  const SHARED_READ: Pred := And(OWN_ORG, IsNull(WorkspaceColumn))

  function IsolationPolicy(cls: PolicyClass): Policy {
    Policy(ForAll, Compile(cls).using, Some(Compile(cls).check))
  }

  function WidenPolicies(cls: PolicyClass): map<PolicyName, Policy> {
    var read := Compile(cls).orgWideRead;
    if read.Some? then map[TenantOrgWideRead := Policy(ForSelect, read.value, None)] else map[]
  }

  function SharedPolicies(cls: PolicyClass): map<PolicyName, Policy> {
    if cls.WorkspaceNullable? then map[TenantOrgSharedRead := Policy(ForSelect, SHARED_READ, None)] else map[]
  }

  /** The policies a table of this class ends up with, by name. */
  function ClassPolicies(cls: PolicyClass): map<PolicyName, Policy> {
    map[TenantIsolation := IsolationPolicy(cls)] + WidenPolicies(cls) + SharedPolicies(cls)
  }

  // ---- What the classes are for, stated without the predicates ----

  predicate IsOn(f: Flag) { f == FlagText(true) }

  predicate OwnOrg(s: Session, row: Row) { s.org.Id? && row.org == Some(s.org.id) }

  predicate OwnWorkspace(s: Session, row: Row) { s.workspace.Id? && row.workspace == Some(s.workspace.id) }

  predicate NoWorkspaceInScope(s: Session) { s.workspace.Unset? || s.workspace.Empty? }

  /** A setting the class's isolation policy casts is not a uuid. */
  predicate Refused(cls: PolicyClass, s: Session) {
    || (s.org.NotUuid? && !cls.WorkspaceOnly?)
    || (s.workspace.NotUuid? && !cls.OrgOnly? && !cls.OrgOrGlobal?)
  }

  /** The rows a session without bypass may change or delete. */
  predicate MayTouch(cls: PolicyClass, s: Session, row: Row) {
    match cls
    case Standard => OwnOrg(s, row) && OwnWorkspace(s, row)
    case WorkspaceNullable =>
      OwnOrg(s, row) && (OwnWorkspace(s, row) || (row.workspace.None? && NoWorkspaceInScope(s)))
    case OrgOnly => OwnOrg(s, row)
    case WorkspaceOnly => OwnWorkspace(s, row)
    case OrgOrGlobal => row.org.None? || OwnOrg(s, row)
  }

  /** The rows a session without bypass may leave behind. */
  predicate MayWrite(cls: PolicyClass, s: Session, row: Row) {
    MayTouch(cls, s, row) && (cls.OrgOrGlobal? ==> row.org.Some?)
  }

  /** The rows a session without bypass may see. */
  predicate MayRead(cls: PolicyClass, s: Session, row: Row) {
    match cls
    case Standard => OwnOrg(s, row) && (OwnWorkspace(s, row) || IsOn(s.orgWide))
    case WorkspaceNullable => OwnOrg(s, row) && (OwnWorkspace(s, row) || row.workspace.None? || IsOn(s.orgWide))
    case OrgOnly => MayTouch(cls, s, row)
    case WorkspaceOnly => MayTouch(cls, s, row)
    case OrgOrGlobal => MayTouch(cls, s, row)
  }

  // ---- Compilation is correct: the predicates mean the classes ----

  /**
   * The isolation policy's two tests admit exactly the intended rows without
   * bypass, and every row with it, whatever the tenant settings hold.
   */
  lemma IsolationMeaning(cls: PolicyClass, s: Session, row: Row)
    ensures IsOn(s.bypass) ==> Eval(Compile(cls).using, s, row) == Yes && Eval(Compile(cls).check, s, row) == Yes
    ensures !IsOn(s.bypass) && !Refused(cls, s) ==>
      && (Eval(Compile(cls).using, s, row) == Yes <==> MayTouch(cls, s, row))
      && (Eval(Compile(cls).check, s, row) == Yes <==> MayWrite(cls, s, row))
  {
    if Refused(cls, s) || IsOn(s.bypass) { return; }
    match cls
    case Standard =>
    case WorkspaceNullable =>
      var shared := And(IsNull(WorkspaceColumn), IsNull(WorkspaceSetting));
      assert Eval(shared, s, row) == Yes <==> row.workspace.None? && NoWorkspaceInScope(s);
      assert Eval(Or(OWN_WORKSPACE, shared), s, row) != Raise;
    case OrgOnly =>
    case WorkspaceOnly =>
    case OrgOrGlobal =>
      assert Eval(Or(IsNull(OrgColumn), OWN_ORG), s, row) != Raise;
  }

  /** Without bypass, a setting that is not a uuid never lets a new row through. */
  lemma RefusedWritesNothing(cls: PolicyClass, s: Session, row: Row)
    requires !IsOn(s.bypass) && Refused(cls, s)
    ensures Eval(Compile(cls).check, s, row) != Yes
    ensures PlanRaises(Compile(cls).using, s)
  {
  }

  /** Planning raises exactly for the refused sessions, whichever clauses apply. */
  lemma PlanRaisesIffRefused(cls: PolicyClass, s: Session)
    ensures PlanRaises(Compile(cls).using, s) <==> Refused(cls, s)
    ensures cls.Standard? || cls.WorkspaceNullable? ==>
      (PlanRaises(ORG_WIDE_READ, s) ==> Refused(cls, s)) && (PlanRaises(SHARED_READ, s) ==> Refused(cls, s))
  {
  }

  /** For every session, bypass or not: a row that may be written may also be touched. */
  lemma CheckImpliesUsing(cls: PolicyClass, s: Session, row: Row)
    requires Eval(Compile(cls).check, s, row) == Yes
    ensures Eval(Compile(cls).using, s, row) == Yes
  {
  }

  /** The read-widening policies admit only rows of the session's organisation. */
  lemma WideningMeaning(s: Session, row: Row)
    ensures Eval(ORG_WIDE_READ, s, row) == Yes <==> IsOn(s.orgWide) && OwnOrg(s, row)
    ensures Eval(SHARED_READ, s, row) == Yes <==> OwnOrg(s, row) && row.workspace.None?
  {
  }
}
