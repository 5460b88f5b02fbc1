/**
 * provision-enterprise-org.ts: one organisation's turn of the run, and what
 * whole histories of runs, subscriptions and cancellations keep.
 */
module Provision {
  import opened Common
  import opened Credits

  const ENTERPRISE: string := "enterprise"
  const ACTIVE: string := "active"
  const DELETED: string := "deleted"

  // ---- Who can still act ----

  datatype Role = Role(name: string, scopeKind: string, isSystemDefault: bool, principalIds: set<string>)

  /** What the resolver loads for a user. */
  datatype Authz = Authz(principal: Option<string>, roles: seq<Role>)

  /** Rule 7.5: the system-default, org-scoped Owner role. */
  predicate GrantsOrgOwnerSuperUser(roles: seq<Role>, principal: string) {
    exists r | r in roles ::
      principal in r.principalIds && r.scopeKind == "org" && r.name == "Owner" && r.isSystemDefault
  }

  predicate Confirms(a: Authz) {
    a.principal.Some? && GrantsOrgOwnerSuperUser(a.roles, a.principal.value)
  }

  /** Some role gives the user the organisation: a system-default Owner of organisation scope. */
  predicate IsOwner(a: Authz) {
    && a.principal.Some?
    && exists r | r in a.roles ::
         r.isSystemDefault && r.name == "Owner" && r.scopeKind == "org" && a.principal.value in r.principalIds
  }

  /** What asking the resolver about one candidate comes to. */
  datatype Lookup = Answered(authz: Authz) | Threw

  datatype Readiness = Readiness(ready: bool, considered: nat, confirmedUser: Option<string>)

  /** What asking about the candidates in turn comes to. */
  datatype Verdict = Confirmed | Unconfirmed | Broken

  function VerdictOf(candidates: seq<string>, authzFor: string -> Lookup): Verdict {
    if candidates == [] then Unconfirmed
    else
      match authzFor(candidates[0])
      case Threw => Broken
      case Answered(a) => if Confirms(a) then Confirmed else VerdictOf(candidates[1..], authzFor)
  }

  predicate Passes(l: Lookup) { l.Answered? && !IsOwner(l.authz) }

  lemma {:induction false} VerdictAfter(candidates: seq<string>, authzFor: string -> Lookup, n: nat)
    requires n <= |candidates| && forall k | 0 <= k < n :: Passes(authzFor(candidates[k]))
    ensures VerdictOf(candidates, authzFor) == VerdictOf(candidates[n..], authzFor)
    decreases n
  {
    if n > 0 {
      assert Passes(authzFor(candidates[0]));
      assert forall k | 0 <= k < n - 1 :: candidates[1..][k] == candidates[k + 1];
      VerdictAfter(candidates[1..], authzFor, n - 1);
      assert candidates[1..][n - 1..] == candidates[n..];
    } else {
      assert candidates[0..] == candidates;
    }
  }

  /**
   * Asks the resolver about one candidate after another, up to the first it
   * confirms; none when a question throws before that.
   */
  method OwnerReadiness(candidates: seq<string>, authzFor: string -> Lookup) returns (r: Option<Readiness>)
    ensures VerdictOf(candidates, authzFor) ==
      if r.None? then Broken else if r.value.ready then Confirmed else Unconfirmed
    ensures r.None? ==> exists i | 0 <= i < |candidates| ::
      authzFor(candidates[i]).Threw? && forall k | 0 <= k < i :: Passes(authzFor(candidates[k]))
    ensures r.Some? ==> r.value.considered == |candidates|
    ensures r.Some? && r.value.ready ==> exists i | 0 <= i < |candidates| ::
      && r.value.confirmedUser == Some(candidates[i])
      && authzFor(candidates[i]).Answered? && IsOwner(authzFor(candidates[i]).authz)
      && forall k | 0 <= k < i :: Passes(authzFor(candidates[k]))
    ensures r.Some? && !r.value.ready ==>
      r.value.confirmedUser.None? && forall c | c in candidates :: Passes(authzFor(c))
  {
    for i := 0 to |candidates|
      invariant forall k | 0 <= k < i :: Passes(authzFor(candidates[k]))
    {
      VerdictAfter(candidates, authzFor, i);
      var answer := authzFor(candidates[i]);
      if answer.Threw? { return None; }
      var authz := answer.authz;
      if authz.principal.None? { continue; }
      if GrantsOrgOwnerSuperUser(authz.roles, authz.principal.value) {
        return Some(Readiness(true, |candidates|, Some(candidates[i])));
      }
    }
    VerdictAfter(candidates, authzFor, |candidates|);
    r := Some(Readiness(false, |candidates|, None));
  }

  // ---- The subscription guard ----

  predicate IsTier(t: string) { t == "free" || t == "build" || t == "scale" || t == ENTERPRISE }

  /** The tier of a plan: the CHECK on billing.plans refuses any other. */
  type PlanTier = t: string | IsTier(t) witness "free"

  datatype Subscription = Subscription(status: string, planSlug: string, planTier: PlanTier)

  /** Set that plan's monthly allowance instead. */
  datatype Refusal = Refusal(planSlug: string, monthly: nat)

  datatype Guard = Guard(refusal: Option<Refusal>, subscriptionWins: bool, writesEnterpriseTier: bool)

  /** The smallest monthly figure that covers the annual one. */
  function MonthlyOf(annual: nat): (m: nat)
    ensures 12 * m >= annual && (m > 0 ==> 12 * (m - 1) < annual)
  {
    (annual + 11) / 12
  }

  function SubscriptionGuard(sub: Option<Subscription>, given: bool, annual: nat): Guard {
    var wins := sub.Some? && sub.value.planTier != ENTERPRISE;
    if sub.Some? && given then Guard(Some(Refusal(sub.value.planSlug, MonthlyOf(annual))), wins, false)
    else Guard(None, wins, !wins)
  }

  /** The tier everything else reads: an entitled subscription, else the column, else free. */
  function ResolveTier(sub: Option<Subscription>, planType: string): (tier: PlanTier)
    ensures sub.None? && tier != planType ==> tier == "free" && !IsTier(planType)
  {
    if sub.Some? then sub.value.planTier
    else if IsTier(planType) then planType
    else "free"
  }

  /**
   * The guard agrees with the resolver: a subscription wins exactly when no
   * column value makes the tier enterprise, and the tier is written exactly
   * where the write takes effect and no refusal stands.
   */
  lemma GuardFollowsResolver(sub: Option<Subscription>, given: bool, annual: nat)
    ensures SubscriptionGuard(sub, given, annual).subscriptionWins <==>
      forall planType :: ResolveTier(sub, planType) != ENTERPRISE
    ensures SubscriptionGuard(sub, given, annual).refusal.Some? <==> sub.Some? && given
    ensures sub.Some? && given ==>
      var refusal := SubscriptionGuard(sub, given, annual).refusal.value;
      && refusal.planSlug == sub.value.planSlug
      && 12 * refusal.monthly >= annual && (refusal.monthly > 0 ==> 12 * (refusal.monthly - 1) < annual)
    ensures SubscriptionGuard(sub, given, annual).writesEnterpriseTier <==>
      ResolveTier(sub, ENTERPRISE) == ENTERPRISE && !(sub.Some? && given)
  {
    var g := SubscriptionGuard(sub, given, annual);
    assert g.subscriptionWins <==> ResolveTier(sub, ENTERPRISE) != ENTERPRISE;
  }

  // ---- The organisation ----

  datatype Settings = Settings(assistantCap: Option<nat>, dunning: string, delinquentSince: Option<int>,
                               graceEndsAt: Option<int>, suspendedAt: Option<int>, autoReload: bool)

  const CLEARED: Settings := Settings(None, ACTIVE, None, None, None, false)

  /** Everything but the credits. `budgets` says which spend ceilings are enabled. */
  datatype OrgState = OrgState(planType: string, status: string, allowance: Option<nat>,
                               settings: Option<Settings>, budgets: map<string, bool>)

  /** A stored commitment is left alone unless the operator gave a figure. */
  predicate ShouldWriteAllowance(stored: Option<nat>, given: bool) { given || stored.None? }

  /** The statements of a turn that may throw, in order. */
  datatype Stage =
    | SubscriptionRead
    | OwnerRead
    | TierWrite
    | SettingsRead
    | SettingsWrite
    | BudgetRead
    | BudgetWrite
    | CreditRead
    | CreditWrite

  datatype Flags = Flags(dryRun: bool, actionsGiven: bool, actionsAnnual: nat, floorCents: nat,
                         canRecordAllowance: bool)

  datatype Outcome = Refused | Failed(at: Stage) | Done(overridden: bool)

  // ---- What a turn does, as a function ----

  function WithTier(o: OrgState, f: Flags): OrgState {
    var write := f.canRecordAllowance && ShouldWriteAllowance(o.allowance, f.actionsGiven);
    o.(planType := ENTERPRISE, status := ACTIVE, allowance := if write then Some(f.actionsAnnual) else o.allowance)
  }

  function WithSettings(o: OrgState): OrgState {
    if o.settings.Some? && o.settings.value.assistantCap.None? && o.settings.value.dunning == ACTIVE then o
    else o.(settings := Some(CLEARED))
  }

  function WithBudgets(o: OrgState): OrgState {
    o.(budgets := map b | b in o.budgets :: false)
  }

  /** The organisation a turn leaves, and how the turn ended. */
  datatype Ended = Ended(org: OrgState, outcome: Outcome)

  /**
   * A turn from its refusals on. `v` is what asking for an owner comes to,
   * `short` whether the balance is below the floor, `fault` the statement that
   * throws if the turn gets to it; a write is only made where it changes
   * something.
   */
  function Provisioned(o: OrgState, sub: Option<Subscription>, f: Flags, v: Verdict, short: bool,
                       fault: Option<Stage>): Ended {
    var g := SubscriptionGuard(sub, f.actionsGiven, f.actionsAnnual);
    if o.status == DELETED then Ended(o, Refused)
    else if fault == Some(SubscriptionRead) then Ended(o, Failed(SubscriptionRead))
    else if g.refusal.Some? then Ended(o, Refused)
    else if g.writesEnterpriseTier && (fault == Some(OwnerRead) || v.Broken?) then Ended(o, Failed(OwnerRead))
    else if g.writesEnterpriseTier && v.Unconfirmed? then Ended(o, Refused)
    else if f.dryRun then Ended(o, DryOutcome(g, fault))
    else Written(o, g, f, short, fault)
  }

  /** A dry run only reads. */
  function DryOutcome(g: Guard, fault: Option<Stage>): Outcome {
    if fault.Some? && (fault.value.SettingsRead? || fault.value.BudgetRead? || fault.value.CreditRead?)
    then Failed(fault.value)
    else Done(g.subscriptionWins)
  }

  /** The writes of an applied turn that nothing refused. */
  function Written(o: OrgState, g: Guard, f: Flags, short: bool, fault: Option<Stage>): Ended {
    var o1 := if g.writesEnterpriseTier then WithTier(o, f) else o;
    var o2 := WithSettings(o1);
    var o3 := WithBudgets(o2);
    if fault == Some(TierWrite) && o1 != o then Ended(o, Failed(TierWrite))
    else if fault == Some(SettingsRead) then Ended(o1, Failed(SettingsRead))
    else if fault == Some(SettingsWrite) && o2 != o1 then Ended(o1, Failed(SettingsWrite))
    else if fault == Some(BudgetRead) then Ended(o2, Failed(BudgetRead))
    else if fault == Some(BudgetWrite) && o3 != o2 then Ended(o2, Failed(BudgetWrite))
    else if fault == Some(CreditRead) then Ended(o3, Failed(CreditRead))
    else if fault == Some(CreditWrite) && short then Ended(o3, Failed(CreditWrite))
    else Ended(o3, Done(g.subscriptionWins))
  }

  // ---- What a turn leaves, stated without its steps ----

  /** The tier is this run's to write: no other tier's subscription wins. */
  predicate TierIsWritten(sub: Option<Subscription>) { sub.None? || sub.value.planTier == ENTERPRISE }

  /**
   * Tier, status and allowance after the tier write: the run's annual figure is
   * recorded exactly if there is a column for it and it was given, or none was
   * stored; otherwise the stored commitment stands.
   */
  predicate TierLeft(o: OrgState, n: OrgState, sub: Option<Subscription>, f: Flags) {
    if TierIsWritten(sub) then
      && n.planType == ENTERPRISE && n.status == ACTIVE
      && n.allowance == if f.canRecordAllowance && (f.actionsGiven || o.allowance.None?) then Some(f.actionsAnnual)
                        else o.allowance
    else n.planType == o.planType && n.status == o.status && n.allowance == o.allowance
  }

  predicate IsClear(settings: Option<Settings>) {
    settings.Some? && settings.value.assistantCap.None? && settings.value.dunning == ACTIVE
  }

  /** Settings that were clear stay; others have no cap, no hold, no delinquency and no auto-reload. */
  predicate SettingsLeft(o: OrgState, n: OrgState) {
    if IsClear(o.settings) then n.settings == o.settings
    else
      && IsClear(n.settings) && !n.settings.value.autoReload
      && n.settings.value.delinquentSince.None? && n.settings.value.graceEndsAt.None?
      && n.settings.value.suspendedAt.None?
  }

  /** The budgets are those from before, none of them enabled. */
  ghost predicate BudgetsLeft(o: OrgState, n: OrgState) {
    n.budgets.Keys == o.budgets.Keys && forall b | b in n.budgets :: !n.budgets[b]
  }

  /** What a turn leaves of the organisation, by how far it got. */
  ghost predicate Leaves(o: OrgState, n: OrgState, sub: Option<Subscription>, f: Flags, r: Outcome) {
    if r.Refused? || f.dryRun || FailedEarly(r) then n == o
    else
      && TierLeft(o, n, sub, f)
      && (if r.Failed? && (r.at.SettingsRead? || r.at.SettingsWrite?) then n.settings == o.settings
          else SettingsLeft(o, n))
      && (if r.Failed? && !r.at.CreditRead? && !r.at.CreditWrite? then n.budgets == o.budgets
          else BudgetsLeft(o, n))
  }

  /** Failed before its first write took effect. */
  predicate FailedEarly(r: Outcome) {
    r.Failed? && (r.at.SubscriptionRead? || r.at.OwnerRead? || r.at.TierWrite?)
  }

  /** What each of the writes leaves, and whether it has anything to change. */
  lemma TierStep(o: OrgState, sub: Option<Subscription>, f: Flags)
    ensures var o1 := if TierIsWritten(sub) then WithTier(o, f) else o;
      && TierLeft(o, o1, sub, f) && o1.settings == o.settings && o1.budgets == o.budgets
      && (o1 == o <==> TierLeft(o, o, sub, f))
  {
  }

  lemma SettingsStep(o: OrgState)
    ensures var n := WithSettings(o);
      && SettingsLeft(o, n) && n == o.(settings := n.settings)
      && (n == o <==> IsClear(o.settings))
  {
  }

  lemma BudgetsStep(o: OrgState)
    ensures var n := WithBudgets(o);
      && BudgetsLeft(o, n) && n == o.(budgets := n.budgets)
      && (n == o <==> forall b | b in o.budgets :: !o.budgets[b])
  {
    if forall b | b in o.budgets :: !o.budgets[b] { assert WithBudgets(o).budgets == o.budgets; }
  }

  lemma WrittenLeaves(o: OrgState, sub: Option<Subscription>, f: Flags, short: bool, fault: Option<Stage>)
    requires !f.dryRun && !(sub.Some? && f.actionsGiven)
    ensures var e := Written(o, SubscriptionGuard(sub, f.actionsGiven, f.actionsAnnual), f, short, fault);
      Leaves(o, e.org, sub, f, e.outcome)
  {
    var o1 := if TierIsWritten(sub) then WithTier(o, f) else o;
    TierStep(o, sub, f);
    SettingsStep(o1);
    BudgetsStep(WithSettings(o1));
  }

  lemma WrittenFails(o: OrgState, sub: Option<Subscription>, f: Flags, short: bool, fault: Option<Stage>, at: Stage)
    requires !f.dryRun && !(sub.Some? && f.actionsGiven)
    ensures Written(o, SubscriptionGuard(sub, f.actionsGiven, f.actionsAnnual), f, short, fault).outcome == Failed(at)
       <==> !at.SubscriptionRead? && !at.OwnerRead? && fault == Some(at) && Fails(o, sub, f, short, at)
  {
    var o1 := if TierIsWritten(sub) then WithTier(o, f) else o;
    TierStep(o, sub, f);
    SettingsStep(o1);
    BudgetsStep(WithSettings(o1));
  }

  lemma TurnLeaves(o: OrgState, sub: Option<Subscription>, f: Flags, v: Verdict, short: bool, fault: Option<Stage>)
    ensures var e := Provisioned(o, sub, f, v, short, fault);
      && Leaves(o, e.org, sub, f, e.outcome)
      && (e.outcome.Done? ==> (e.outcome.overridden <==> !TierIsWritten(sub)))
  {
    if !f.dryRun && !(sub.Some? && f.actionsGiven) { WrittenLeaves(o, sub, f, short, fault); }
  }

  /** The statements that throw if they are reached, given that nothing refuses the turn. */
  ghost predicate Fails(o: OrgState, sub: Option<Subscription>, f: Flags, short: bool, at: Stage) {
    match at
    case SettingsRead => true
    case BudgetRead => true
    case CreditRead => true
    case TierWrite =>
      !f.dryRun && !TierLeft(o, o, sub, f)
    case SettingsWrite => !f.dryRun && !IsClear(o.settings)
    case BudgetWrite => !f.dryRun && exists b | b in o.budgets :: o.budgets[b]
    case CreditWrite => !f.dryRun && short
    case SubscriptionRead => true
    case OwnerRead => TierIsWritten(sub)
  }

  /**
   * When a turn fails: a deleted organisation never; on its subscription; on an
   * owner it has to ask for; and otherwise, where nothing refuses it, exactly on
   * the statement that throws if that is a read or would change something.
   */
  lemma FailedIff(o: OrgState, sub: Option<Subscription>, f: Flags, v: Verdict, short: bool, fault: Option<Stage>,
                  at: Stage)
    ensures Provisioned(o, sub, f, v, short, fault).outcome == Failed(at) <==>
      && o.status != DELETED
      && (if at.SubscriptionRead? then fault == Some(at)
          else if at.OwnerRead? then
            TierIsWritten(sub) && !(sub.Some? && f.actionsGiven)
            && (fault == Some(at) || (v.Broken? && fault != Some(SubscriptionRead)))
          else
            && fault == Some(at) && Fails(o, sub, f, short, at) && !(sub.Some? && f.actionsGiven)
            && (TierIsWritten(sub) ==> v.Confirmed?))
  {
    if !f.dryRun && !(sub.Some? && f.actionsGiven) { WrittenFails(o, sub, f, short, fault, at); }
  }

  class Organisation {
    var planType: string
    var status: string
    var allowance: Option<nat>
    var settings: Option<Settings>
    var budgets: map<string, bool>
    const wallet: Wallet

    constructor (o: OrgState, wallet: Wallet)
      ensures State() == o && this.wallet == wallet
    {
      planType, status, allowance := o.planType, o.status, o.allowance;
      settings, budgets := o.settings, o.budgets;
      this.wallet := wallet;
    }

    function State(): OrgState
      reads this
    {
      OrgState(planType, status, allowance, settings, budgets)
    }

    /** Tier, status and recorded allowance move together, where one of them differs. */
    method WriteTier(f: Flags, throws: bool) returns (threw: bool)
      modifies this`planType, this`status, this`allowance
      ensures threw <==> throws && !f.dryRun && WithTier(old(State()), f) != old(State())
      ensures State() == if f.dryRun || threw then old(State()) else WithTier(old(State()), f)
    {
      var tierIsSet := planType == ENTERPRISE && status == ACTIVE;
      var writeAllowance := f.canRecordAllowance && ShouldWriteAllowance(allowance, f.actionsGiven);
      var allowanceIsSet := !writeAllowance || allowance == Some(f.actionsAnnual);
      if (tierIsSet && allowanceIsSet) || f.dryRun { return false; }
      if throws { return true; }
      planType, status := ENTERPRISE, ACTIVE;
      if writeAllowance { allowance := Some(f.actionsAnnual); }
      threw := false;
    }

    /** No assistant cap and no dunning hold; a missing row is inserted. */
    method ClearSettings(dryRun: bool, throws: bool) returns (threw: bool)
      modifies this`settings
      ensures threw <==> throws && !dryRun && WithSettings(old(State())) != old(State())
      ensures State() == if dryRun || threw then old(State()) else WithSettings(old(State()))
    {
      var capIsClear := settings.Some? && settings.value.assistantCap.None?;
      var dunningIsClear := settings.Some? && settings.value.dunning == ACTIVE;
      if (settings.Some? && capIsClear && dunningIsClear) || dryRun { return false; }
      if throws { return true; }
      settings := Some(CLEARED);
      threw := false;
    }

    /** Enabled ceilings are disabled; the rows stay. */
    method DisableBudgets(dryRun: bool, throws: bool) returns (threw: bool)
      modifies this`budgets
      ensures threw <==> throws && !dryRun && WithBudgets(old(State())) != old(State())
      ensures State() == if dryRun || threw then old(State()) else WithBudgets(old(State()))
    {
      var enabled := set b | b in budgets && budgets[b];
      if enabled == {} {
        assert forall b | b in budgets :: b !in enabled;
        assert budgets == map b | b in budgets :: false;
        return false;
      }
      assert exists b :: b in budgets && budgets[b];
      assert WithBudgets(State()).budgets != budgets;
      if dryRun { return false; }
      if throws { return true; }
      budgets := map b | b in budgets :: if b in enabled then false else budgets[b];
      threw := false;
    }

    /**
     * The refusals, all of them before any write; the resolver is asked only if
     * the tier will be written. With an outcome the turn is over.
     */
    method Preflight(sub: Option<Subscription>, f: Flags, candidates: seq<string>, authzFor: string -> Lookup,
                     fault: Option<Stage>)
      returns (over: Option<Outcome>)
      ensures var o, v := State(), VerdictOf(candidates, authzFor);
        && (over.Some? ==> forall short :: Provisioned(o, sub, f, v, short, fault) == Ended(o, over.value))
        && (over.Some? ==> !over.value.Done?)
        && (over.None? ==> var g := SubscriptionGuard(sub, f.actionsGiven, f.actionsAnnual);
              forall short :: Provisioned(o, sub, f, v, short, fault)
                == if f.dryRun then Ended(o, DryOutcome(g, fault)) else Written(o, g, f, short, fault))
    {
      if status == DELETED { return Some(Refused); }
      if fault == Some(SubscriptionRead) { return Some(Failed(SubscriptionRead)); }
      var guard := SubscriptionGuard(sub, f.actionsGiven, f.actionsAnnual);
      if guard.refusal.Some? { return Some(Refused); }
      if !guard.writesEnterpriseTier { return None; }
      if fault == Some(OwnerRead) { return Some(Failed(OwnerRead)); }
      var readiness := OwnerReadiness(candidates, authzFor);
      if readiness.None? { return Some(Failed(OwnerRead)); }
      over := if readiness.value.ready then None else Some(Refused);
    }

    /** The rest of a turn nothing refused. A throwing statement ends it, leaving what came before. */
    method Apply(guard: Guard, f: Flags, now: int, fault: Option<Stage>) returns (outcome: Outcome)
      modifies this, wallet
      ensures Ended(State(), outcome) ==
        if f.dryRun then Ended(old(State()), DryOutcome(guard, fault))
        else Written(old(State()), guard, f, Balance(old(wallet.lots), now) < f.floorCents, fault)
      ensures var before := (Balance(old(wallet.lots), now), Owed(old(wallet.buckets)));
        (Balance(wallet.lots, now), Owed(wallet.buckets))
        == if outcome.Done? && !f.dryRun then AfterTopUp(before.0, before.1, f.floorCents) else before
      ensures !(outcome.Done? && !f.dryRun) ==> wallet.lots == old(wallet.lots) && wallet.buckets == old(wallet.buckets)
    {
      if guard.writesEnterpriseTier {
        var tierThrew := WriteTier(f, fault == Some(TierWrite));
        if tierThrew { return Failed(TierWrite); }
      }
      if fault == Some(SettingsRead) { return Failed(SettingsRead); }
      var settingsThrew := ClearSettings(f.dryRun, fault == Some(SettingsWrite));
      if settingsThrew { return Failed(SettingsWrite); }
      if fault == Some(BudgetRead) { return Failed(BudgetRead); }
      var budgetsThrew := DisableBudgets(f.dryRun, fault == Some(BudgetWrite));
      if budgetsThrew { return Failed(BudgetWrite); }
      if fault == Some(CreditRead) { return Failed(CreditRead); }
      if !f.dryRun {
        if fault == Some(CreditWrite) && TopUpCents(Balance(wallet.lots, now), f.floorCents) > 0 {
          return Failed(CreditWrite);
        }
        var granted := wallet.HoldFloor(f.floorCents, now);
      }
      outcome := Done(guard.subscriptionWins);
    }

    /** The turn of one organisation: the refusals, then the writes. */
    method Turn(sub: Option<Subscription>, f: Flags, candidates: seq<string>, authzFor: string -> Lookup, now: int,
                fault: Option<Stage>)
      returns (outcome: Outcome)
      modifies this, wallet
      ensures Ended(State(), outcome) == Provisioned(old(State()), sub, f, VerdictOf(candidates, authzFor),
                                                     Balance(old(wallet.lots), now) < f.floorCents, fault)
      ensures Leaves(old(State()), State(), sub, f, outcome)
      ensures outcome.Done? ==> (outcome.overridden <==> !TierIsWritten(sub))
      ensures var before := (Balance(old(wallet.lots), now), Owed(old(wallet.buckets)));
        (Balance(wallet.lots, now), Owed(wallet.buckets))
        == if outcome.Done? && !f.dryRun then AfterTopUp(before.0, before.1, f.floorCents) else before
      ensures !(outcome.Done? && !f.dryRun) ==> wallet.lots == old(wallet.lots) && wallet.buckets == old(wallet.buckets)
    {
      TurnLeaves(State(), sub, f, VerdictOf(candidates, authzFor), Balance(wallet.lots, now) < f.floorCents, fault);
      var over := Preflight(sub, f, candidates, authzFor, fault);
      if over.Some? {
        outcome := over.value;
      } else {
        var guard := SubscriptionGuard(sub, f.actionsGiven, f.actionsAnnual);
        outcome := Apply(guard, f, now, fault);
      }
    }
  }

  /** A run exits 1 if an organisation was refused or failed, else 2 if a subscription overrode a tier, else 0. */
  method ExitCode(outcomes: seq<Outcome>) returns (code: int)
    ensures code == 1 <==> exists o | o in outcomes :: !o.Done?
    ensures code == 2 <==> (forall o | o in outcomes :: o.Done?) && exists o | o in outcomes :: o.Done? && o.overridden
    ensures code == 0 || code == 1 || code == 2
  {
    var failures, overrides: nat := 0, 0;
    for i := 0 to |outcomes|
      invariant failures > 0 <==> exists k | 0 <= k < i :: !outcomes[k].Done?
      invariant overrides > 0 <==> exists k | 0 <= k < i :: outcomes[k].Done? && outcomes[k].overridden
    {
      if !outcomes[i].Done? { failures := failures + 1; }
      else if outcomes[i].overridden { overrides := overrides + 1; }
    }
    code := if failures > 0 then 1 else if overrides > 0 then 2 else 0;
  }

  // ---- One turn ----

  /**
   * An applied turn that ends: no enabled budget, no assistant cap, active
   * dunning. Settings that were clear are left alone; others, hold and
   * auto-reload included, are all cleared.
   */
  lemma AppliedTurnClearsTheWay(o: OrgState, sub: Option<Subscription>, f: Flags, v: Verdict, short: bool,
                                fault: Option<Stage>)
    requires Provisioned(o, sub, f, v, short, fault).outcome.Done? && !f.dryRun
    ensures var n := Provisioned(o, sub, f, v, short, fault).org;
      && n.settings.Some? && n.settings.value.assistantCap.None? && n.settings.value.dunning == ACTIVE
      && (n.settings == o.settings || n.settings == Some(CLEARED))
      && n.budgets.Keys == o.budgets.Keys && (forall b | b in n.budgets :: !n.budgets[b])
      && (sub.None? || sub.value.planTier == ENTERPRISE ==>
            && ResolveTier(sub, n.planType) == ENTERPRISE && n.status == ACTIVE
            && (f.canRecordAllowance ==> n.allowance.Some?))
  {
  }

  /** Refused and dry turns change nothing, nor do those that fail before the first write. */
  lemma RefusedAndDryChangeNothing(o: OrgState, sub: Option<Subscription>, f: Flags, v: Verdict, short: bool,
                                   fault: Option<Stage>)
    ensures var e := Provisioned(o, sub, f, v, short, fault);
      (e.outcome == Refused || f.dryRun || FailedEarly(e.outcome)) ==> e.org == o
  {
  }

  /**
   * The refusals: a deleted organisation, a figure a subscription answers for, and
   * no owner where the tier would be written.
   */
  lemma RefusedIff(o: OrgState, sub: Option<Subscription>, f: Flags, v: Verdict, short: bool, fault: Option<Stage>)
    ensures Provisioned(o, sub, f, v, short, fault).outcome == Refused <==>
      || o.status == DELETED
      || (fault != Some(SubscriptionRead) && sub.Some? && f.actionsGiven)
      || (fault != Some(SubscriptionRead) && fault != Some(OwnerRead) && TierIsWritten(sub) && v.Unconfirmed?)
  {
  }

  function AllWrites(o: OrgState, g: Guard, f: Flags): OrgState {
    WithBudgets(WithSettings(if g.writesEnterpriseTier then WithTier(o, f) else o))
  }

  /** All the writes, from wherever some of them were made already, come to the same. */
  lemma WritesTwice(o: OrgState, g: Guard, f: Flags)
    ensures g.writesEnterpriseTier ==> AllWrites(WithTier(o, f), g, f) == AllWrites(o, g, f)
    ensures var o1 := if g.writesEnterpriseTier then WithTier(o, f) else o;
      AllWrites(WithSettings(o1), g, f) == AllWrites(o, g, f) == AllWrites(WithBudgets(WithSettings(o1)), g, f)
  {
    var o3 := AllWrites(o, g, f);
    assert WithBudgets(o3).budgets == o3.budgets;
  }

  lemma WrittenTwice(o: OrgState, g: Guard, f: Flags, short: bool, again: bool, fault: Option<Stage>)
    ensures Written(Written(o, g, f, short, fault).org, g, f, again, None) == Written(o, g, f, again, None)
  {
    WritesTwice(o, g, f);
    var n := Written(o, g, f, short, fault).org;
    assert Written(n, g, f, again, None).org == AllWrites(n, g, f);
  }

  /**
   * A turn cut short anywhere is completed by the next one, to the same
   * organisation and outcome as if it had not been; one that was not cut short
   * is repeated without effect.
   */
  lemma RerunCompletes(o: OrgState, sub: Option<Subscription>, f: Flags, v: Verdict, short: bool, fault: Option<Stage>,
                       later: Verdict, again: bool)
    requires v.Broken? || later == v
    ensures var n := Provisioned(o, sub, f, v, short, fault).org;
      Provisioned(n, sub, f, later, again, None) == Provisioned(o, sub, f, later, again, None)
  {
    var n := Provisioned(o, sub, f, v, short, fault).org;
    var g := SubscriptionGuard(sub, f.actionsGiven, f.actionsAnnual);
    if n != o { WrittenTwice(o, g, f, short, again, fault); }
  }

  /** The same turn again changes nothing. */
  lemma SecondTurnIsIdle(o: OrgState, sub: Option<Subscription>, f: Flags, v: Verdict, short: bool, again: bool)
    ensures var n := Provisioned(o, sub, f, v, short, None).org;
      Provisioned(n, sub, f, v, again, None).org == n
  {
    RerunCompletes(o, sub, f, v, short, None, v, again);
  }

  // ---- Histories ----

  /** `candidates` may own the organisation and `authzFor` is what the resolver says of each at the time. */
  datatype Run = Run(flags: Flags, candidates: seq<string>, authzFor: string -> Lookup, short: bool,
                     fault: Option<Stage>)

  datatype Event = Provisioning(run: Run) | Subscribe(sub: Subscription) | Cancel

  datatype World = World(org: OrgState, sub: Option<Subscription>)

  /** The organisation after a run. */
  function OrgAfter(w: World, r: Run): OrgState {
    Provisioned(w.org, w.sub, r.flags, VerdictOf(r.candidates, r.authzFor), r.short, r.fault).org
  }

  function Perform(w: World, e: Event): World {
    match e
    case Provisioning(r) => w.(org := OrgAfter(w, r))
    case Subscribe(s) => w.(sub := Some(s))
    case Cancel => w.(sub := None)
  }

  function After(w: World, history: seq<Event>): World {
    if history == [] then w else Perform(After(w, history[..|history| - 1]), history[|history| - 1])
  }

  /** The resolver answers for one of the candidates that it owns the organisation. */
  ghost predicate SomeoneOwns(candidates: seq<string>, authzFor: string -> Lookup) {
    exists c | c in candidates :: authzFor(c).Answered? && IsOwner(authzFor(c).authz)
  }

  lemma {:induction false} ConfirmedIsAnOwner(candidates: seq<string>, authzFor: string -> Lookup)
    requires VerdictOf(candidates, authzFor).Confirmed?
    ensures SomeoneOwns(candidates, authzFor)
    decreases |candidates|
  {
    var first := authzFor(candidates[0]);
    if !(first.Answered? && IsOwner(first.authz)) { ConfirmedIsAnOwner(candidates[1..], authzFor); }
  }

  /** An applied run that finds an owner, while no other tier's subscription wins. */
  ghost predicate MayUpgrade(w: World, e: Event) {
    && e.Provisioning? && !e.run.flags.dryRun && SomeoneOwns(e.run.candidates, e.run.authzFor)
    && !(w.sub.Some? && w.sub.value.planTier != ENTERPRISE)
  }

  lemma TierMoves(w: World, r: Run)
    ensures OrgAfter(w, r).planType == w.org.planType
         || (OrgAfter(w, r).planType == ENTERPRISE && MayUpgrade(w, Provisioning(r)))
  {
    if VerdictOf(r.candidates, r.authzFor).Confirmed? { ConfirmedIsAnOwner(r.candidates, r.authzFor); }
  }

  /** The tier column moves only in a run for which the resolver confirms a candidate, and only to enterprise. */
  lemma {:induction false} TierNeedsAnOwner(w: World, history: seq<Event>)
    ensures After(w, history).org.planType == w.org.planType || After(w, history).org.planType == ENTERPRISE
    ensures After(w, history).org.planType != w.org.planType ==>
      exists i | 0 <= i < |history| :: MayUpgrade(After(w, history[..i]), history[i])
    decreases |history|
  {
    if history != [] {
      var n := |history| - 1;
      TierNeedsAnOwner(w, history[..n]);
      var before := After(w, history[..n]);
      if before.org.planType != w.org.planType {
        var i :| 0 <= i < n && MayUpgrade(After(w, history[..n][..i]), history[..n][i]);
        assert history[..n][..i] == history[..i];
      }
      if history[n].Provisioning? { TierMoves(before, history[n].run); }
    }
  }

  /** Every run of the history meets a subscription that wins, or is dry. */
  ghost predicate AlwaysOverridden(w: World, history: seq<Event>) {
    forall i | 0 <= i < |history| && history[i].Provisioning? && !history[i].run.flags.dryRun ::
      var s := After(w, history[..i]).sub;
      s.Some? && s.value.planTier != ENTERPRISE
  }

  lemma OverriddenLeavesTheTier(w: World, r: Run)
    requires r.flags.dryRun || (w.sub.Some? && w.sub.value.planTier != ENTERPRISE)
    ensures var n := OrgAfter(w, r);
      n.planType == w.org.planType && n.status == w.org.status && n.allowance == w.org.allowance
  {
  }

  /**
   * Runs under a winning subscription leave tier, status and allowance as they
   * were, so a later cancellation resolves to the tier from before them.
   */
  lemma {:induction false} CancellingRestoresTheTier(w: World, history: seq<Event>)
    requires AlwaysOverridden(w, history)
    ensures var o, cancelled := After(w, history).org, After(w, history + [Cancel]);
      && o.planType == w.org.planType && o.status == w.org.status && o.allowance == w.org.allowance
      && ResolveTier(cancelled.sub, cancelled.org.planType) == ResolveTier(None, w.org.planType)
    decreases |history|
  {
    assert (history + [Cancel])[..|history|] == history;
    if history != [] {
      var n := |history| - 1;
      assert forall i | 0 <= i < n :: history[..n][i] == history[i] && history[..n][..i] == history[..i];
      CancellingRestoresTheTier(w, history[..n]);
      var before, e := After(w, history[..n]), history[n];
      if e.Provisioning? { OverriddenLeavesTheTier(before, e.run); }
    }
  }

  lemma RunKeepsAllowance(w: World, r: Run)
    requires w.org.allowance.Some? && !r.flags.actionsGiven
    ensures OrgAfter(w, r).allowance == w.org.allowance
  {
  }

  /** A recorded allowance changes only in a run that was given a figure. */
  lemma {:induction false} AllowanceIsKept(w: World, history: seq<Event>)
    requires w.org.allowance.Some?
    requires forall e | e in history && e.Provisioning? :: !e.run.flags.actionsGiven
    ensures After(w, history).org.allowance == w.org.allowance
    decreases |history|
  {
    if history != [] {
      var n := |history| - 1;
      assert forall e | e in history[..n] :: e in history;
      AllowanceIsKept(w, history[..n]);
      if history[n].Provisioning? { RunKeepsAllowance(After(w, history[..n]), history[n].run); }
    }
  }

  /** A deleted organisation is never written to, whatever happens around it. */
  lemma {:induction false} DeletedStaysDeleted(w: World, history: seq<Event>)
    requires w.org.status == DELETED
    ensures After(w, history).org == w.org
    decreases |history|
  {
    if history != [] { DeletedStaysDeleted(w, history[..|history| - 1]); }
  }
}
