/**
 * The catalog of stripe-sync.ts as reconcile entries, and the billing.plans
 * table it upserts.
 */
module StripePlans {
  import opened Common
  import opened StripeRerun
  import opened StripeSync

  const FREE_PLAN_SLUG: string := "free"

  /** A subscription plan. `terms` stands for the columns copied as they are. */
  datatype PlanDef = PlanDef(slug: string, name: string, tier: string, monthlyCents: int, annualCents: int,
                             terms: string, metadata: map<string, string>, priceMetadata: map<string, string>)

  datatype PackDef = PackDef(slug: string, name: string, priceCents: int, metadata: map<string, string>,
                             priceMetadata: map<string, string>)

  // ---- Lookup keys ----

  datatype Suffix = Monthly | Yearly | OneTime

  function SuffixText(x: Suffix): string {
    match x
    case Monthly => "month"
    case Yearly => "year"
    case OneTime => "onetime"
  }

  function Underscored(slug: string): string {
    seq(|slug|, i requires 0 <= i < |slug| => if slug[i] == '-' then '_' else slug[i])
  }

  function LookupKey(slug: string, x: Suffix): string {
    Underscored(slug) + ("_" + SuffixText(x))
  }

  /** Two lookup keys are one exactly for one suffix and slugs that differ at most in `-` for `_`. */
  lemma LookupKeysCollide(s: string, x: Suffix, t: string, y: Suffix)
    ensures LookupKey(s, x) == LookupKey(t, y) <==> x == y && Underscored(s) == Underscored(t)
  {
    var k, l := LookupKey(s, x), LookupKey(t, y);
    assert k[|k| - 1] == SuffixText(x)[|SuffixText(x)| - 1];
    assert l[|l| - 1] == SuffixText(y)[|SuffixText(y)| - 1];
    if k == l {
      assert x == y;
      assert Underscored(s) == k[..|k| - 1 - |SuffixText(x)|] == l[..|l| - 1 - |SuffixText(y)|] == Underscored(t);
    }
  }

  function PlanItem(p: PlanDef): Item {
    Item(p.slug, p.name, p.metadata,
         [ PriceSpec(LookupKey(p.slug, Monthly), p.monthlyCents, Some(Month), p.priceMetadata),
           PriceSpec(LookupKey(p.slug, Yearly), p.annualCents, Some(Year), p.priceMetadata) ])
  }

  function PackItem(p: PackDef): Item {
    Item(p.slug, p.name, p.metadata, [PriceSpec(LookupKey(p.slug, OneTime), p.priceCents, None, p.priceMetadata)])
  }

  /** Plans first, then packs. */
  function Catalog(plans: seq<PlanDef>, packs: seq<PackDef>): seq<Item> {
    seq(|plans|, i requires 0 <= i < |plans| => PlanItem(plans[i]))
    + seq(|packs|, i requires 0 <= i < |packs| => PackItem(packs[i]))
  }

  function Slugs(plans: seq<PlanDef>, packs: seq<PackDef>): seq<string> {
    seq(|plans|, i requires 0 <= i < |plans| => plans[i].slug)
    + seq(|packs|, i requires 0 <= i < |packs| => packs[i].slug)
  }

  ghost predicate Distinct(slugs: seq<string>) {
    forall i, j | 0 <= i < j < |slugs| :: slugs[i] != slugs[j]
  }

  /** No two plans, and no two packs, come to one lookup key. */
  ghost predicate KeysApart(plans: seq<PlanDef>, packs: seq<PackDef>) {
    && (forall i, j | 0 <= i < j < |plans| :: Underscored(plans[i].slug) != Underscored(plans[j].slug))
    && forall i, j | 0 <= i < j < |packs| :: Underscored(packs[i].slug) != Underscored(packs[j].slug)
  }

  ghost predicate MetadataLeavesSlug(plans: seq<PlanDef>, packs: seq<PackDef>) {
    (forall p | p in plans :: SLUG_KEY !in p.metadata) && forall p | p in packs :: SLUG_KEY !in p.metadata
  }

  lemma CatalogAt(plans: seq<PlanDef>, packs: seq<PackDef>, i: nat)
    requires i < |plans| + |packs|
    ensures var item := Catalog(plans, packs)[i];
      && item == (if i < |plans| then PlanItem(plans[i]) else PackItem(packs[i - |plans|]))
      && item.slug == Slugs(plans, packs)[i]
      && KeysOf(item.prices) == if i < |plans| then {LookupKey(item.slug, Monthly), LookupKey(item.slug, Yearly)}
                                else {LookupKey(item.slug, OneTime)}
  {
    var item := Catalog(plans, packs)[i];
    if i < |plans| {
      var specs := item.prices;
      assert specs[0].lookupKey == LookupKey(item.slug, Monthly) && specs[1].lookupKey == LookupKey(item.slug, Yearly);
    } else {
      assert item.prices[0].lookupKey == LookupKey(item.slug, OneTime);
    }
  }

  /**
   * Two entries share a key exactly when both are plans or both are packs and
   * their slugs differ at most in `-` for `_`.
   */
  lemma EntriesShareKeys(plans: seq<PlanDef>, packs: seq<PackDef>, i: nat, j: nat)
    requires i < j < |plans| + |packs|
    ensures var a, b := Catalog(plans, packs)[i], Catalog(plans, packs)[j];
      KeysOf(a.prices) !! KeysOf(b.prices) <==>
      !((i < |plans| <==> j < |plans|) && Underscored(a.slug) == Underscored(b.slug))
  {
    CatalogAt(plans, packs, i);
    CatalogAt(plans, packs, j);
    var s, t := Catalog(plans, packs)[i].slug, Catalog(plans, packs)[j].slug;
    forall x, y { LookupKeysCollide(s, x, t, y); }
    if i < |plans| && Underscored(s) == Underscored(t) { assert LookupKey(s, Monthly) == LookupKey(t, Monthly); }
    if j >= |plans| && Underscored(s) == Underscored(t) { assert LookupKey(s, OneTime) == LookupKey(t, OneTime); }
  }

  lemma OwnKeysApart(plans: seq<PlanDef>, packs: seq<PackDef>, i: nat)
    requires i < |plans| + |packs|
    ensures var specs := Catalog(plans, packs)[i].prices;
      forall a, b | 0 <= a < b < |specs| :: specs[a].lookupKey != specs[b].lookupKey
  {
    CatalogAt(plans, packs, i);
    LookupKeysCollide(Catalog(plans, packs)[i].slug, Monthly, Catalog(plans, packs)[i].slug, Yearly);
  }

  /**
   * A catalog is fit for the reconcile exactly when its slugs are distinct, no
   * two plans and no two packs differ only in `-` for `_`, and no entry's
   * metadata sets the slug.
   */
  lemma CatalogOkIff(plans: seq<PlanDef>, packs: seq<PackDef>)
    ensures CatalogOk(Catalog(plans, packs)) <==>
      Distinct(Slugs(plans, packs)) && KeysApart(plans, packs) && MetadataLeavesSlug(plans, packs)
  {
    var items, n := Catalog(plans, packs), |plans|;
    forall i | 0 <= i < |items| ensures items[i].slug == Slugs(plans, packs)[i] { CatalogAt(plans, packs, i); }
    forall i | 0 <= i < |items|
      ensures forall a, b | 0 <= a < b < |items[i].prices| ::
        items[i].prices[a].lookupKey != items[i].prices[b].lookupKey
    {
      OwnKeysApart(plans, packs, i);
    }
    MetadataOf(plans, packs);
    forall i, j | 0 <= i < j < |items|
      ensures KeysOf(items[i].prices) !! KeysOf(items[j].prices)
         <==> !((i < n <==> j < n) && Underscored(items[i].slug) == Underscored(items[j].slug))
    {
      EntriesShareKeys(plans, packs, i, j);
    }
    KeysApartOf(plans, packs);
  }

  lemma MetadataOf(plans: seq<PlanDef>, packs: seq<PackDef>)
    ensures var items := Catalog(plans, packs);
      MetadataLeavesSlug(plans, packs) <==> forall i | 0 <= i < |items| :: SLUG_KEY !in items[i].metadata
  {
    var items, n := Catalog(plans, packs), |plans|;
    forall k | 0 <= k < n ensures items[k].metadata == plans[k].metadata { CatalogAt(plans, packs, k); }
    forall k | 0 <= k < |packs| ensures items[n + k].metadata == packs[k].metadata { CatalogAt(plans, packs, n + k); }
  }

  lemma KeysApartOf(plans: seq<PlanDef>, packs: seq<PackDef>)
    ensures var slugs, n := Slugs(plans, packs), |plans|;
      KeysApart(plans, packs) <==>
      forall i, j | 0 <= i < j < |slugs| && (i < n <==> j < n) :: Underscored(slugs[i]) != Underscored(slugs[j])
  {
    var slugs, n := Slugs(plans, packs), |plans|;
    assert forall k | 0 <= k < n :: slugs[k] == plans[k].slug;
    assert forall k | 0 <= k < |packs| :: slugs[n + k] == packs[k].slug;
    if KeysApart(plans, packs) {
      forall i, j | 0 <= i < j < |slugs| && (i < n <==> j < n) ensures Underscored(slugs[i]) != Underscored(slugs[j]) {
        if i >= n { assert slugs[i] == packs[i - n].slug && slugs[j] == packs[j - n].slug; }
      }
    } else if forall i, j | 0 <= i < j < |slugs| && (i < n <==> j < n) ::
      Underscored(slugs[i]) != Underscored(slugs[j])
    {
      forall i, j | 0 <= i < j < |packs| ensures Underscored(packs[i].slug) != Underscored(packs[j].slug) {
        assert slugs[n + i] == packs[i].slug && slugs[n + j] == packs[j].slug;
      }
      assert false;
    }
  }

  predicate Kebab(slug: string) {
    forall i | 0 <= i < |slug| :: slug[i] != '_'
  }

  lemma KebabIsInjective(s: string, t: string)
    requires Kebab(s) && Kebab(t) && Underscored(s) == Underscored(t)
    ensures s == t
  {
    assert |s| == |Underscored(s)| == |t|;
    forall i | 0 <= i < |s| ensures s[i] == t[i] {
      assert Underscored(s)[i] == Underscored(t)[i];
    }
  }

  /** In particular distinct slugs without underscores are enough. */
  lemma KebabCatalogIsOk(plans: seq<PlanDef>, packs: seq<PackDef>)
    requires Distinct(Slugs(plans, packs)) && MetadataLeavesSlug(plans, packs)
    requires forall i | 0 <= i < |Slugs(plans, packs)| :: Kebab(Slugs(plans, packs)[i])
    ensures CatalogOk(Catalog(plans, packs))
  {
    var slugs, n := Slugs(plans, packs), |plans|;
    forall i, j | 0 <= i < j < |slugs| ensures Underscored(slugs[i]) != Underscored(slugs[j]) {
      if Underscored(slugs[i]) == Underscored(slugs[j]) { KebabIsInjective(slugs[i], slugs[j]); }
    }
    KeysApartOf(plans, packs);
    CatalogOkIff(plans, packs);
  }

  /** Slugs that differ only in `-` for `_` share their lookup keys. */
  lemma MixedSlugsShareKeys()
    ensures "a-b" != "a_b" && LookupKey("a-b", Monthly) == LookupKey("a_b", Monthly)
  {
  }

  // ---- billing.plans ----

  datatype PlanFields = PlanFields(name: string, tier: string, productId: Id, monthlyPrice: Id, annualPrice: Id,
                                   monthlyCents: int, annualCents: int, terms: string)

  datatype PlanRow = PlanRow(slug: string, fields: PlanFields, isPublic: bool)

  /** The table by slug. The column ignores letter case, so the key is the slug in lower case. */
  type PlanRows = rows: map<string, PlanRow> | forall key | key in rows :: Lower(rows[key].slug) == key

  datatype SyncedPlan = SyncedPlan(productId: Id, monthlyPrice: Id, annualPrice: Id)

  function FieldsOf(p: PlanDef, s: SyncedPlan): PlanFields {
    PlanFields(p.name, p.tier, s.productId, s.monthlyPrice, s.annualPrice, p.monthlyCents, p.annualCents, p.terms)
  }

  /** Insert, or on a conflict of slugs rewrite everything but the slug and the public flag. */
  function UpsertedRow(rows: PlanRows, slug: string, fields: PlanFields): PlanRow {
    if Lower(slug) in rows then rows[Lower(slug)].(fields := fields) else PlanRow(slug, fields, true)
  }

  function Upserted(rows: PlanRows, plans: seq<PlanDef>, synced: map<string, SyncedPlan>): PlanRows {
    if plans == [] then rows
    else
      var n := |plans| - 1;
      var before, p := Upserted(rows, plans[..n], synced), plans[n];
      if p.slug !in synced then before
      else before[Lower(p.slug) := UpsertedRow(before, p.slug, FieldsOf(p, synced[p.slug]))]
  }

  function CanonicalKeys(plans: seq<PlanDef>): set<string> {
    {Lower(FREE_PLAN_SLUG)} + set i | 0 <= i < |plans| :: Lower(plans[i].slug)
  }

  /** The table after an applied run. */
  function PlansAfter(rows: PlanRows, plans: seq<PlanDef>, synced: map<string, SyncedPlan>): PlanRows {
    var all := Upserted(rows, plans, synced);
    map key | key in all :: if key in CanonicalKeys(plans) then all[key] else all[key].(isPublic := false)
  }

  class PlanTable {
    var rows: PlanRows

    constructor (rows: PlanRows)
      ensures this.rows == rows
    {
      this.rows := rows;
    }

    method Upsert(slug: string, fields: PlanFields)
      modifies this
      ensures rows == old(rows)[Lower(slug) := UpsertedRow(old(rows), slug, fields)]
    {
      rows := rows[Lower(slug) := UpsertedRow(rows, slug, fields)];
    }

    /** Tombstones, never deletes: public rows outside `keep` become private. */
    method Hide(keep: set<string>) returns (hidden: set<string>)
      modifies this
      ensures hidden == set key | key in old(rows) && old(rows)[key].isPublic && key !in keep
      ensures rows == map key | key in old(rows) ::
        if key in keep then old(rows)[key] else old(rows)[key].(isPublic := false)
    {
      hidden := set key | key in rows && rows[key].isPublic && key !in keep;
      rows := map key | key in rows :: if key in hidden then rows[key].(isPublic := false) else rows[key];
    }
  }

  /** Upserts the synced plans and hides every other public plan but Free's; a dry run changes nothing. */
  method UpsertPlans(table: PlanTable, plans: seq<PlanDef>, synced: map<string, SyncedPlan>, apply: bool)
    modifies table
    ensures table.rows == if apply then PlansAfter(old(table.rows), plans, synced) else old(table.rows)
  {
    ghost var was := table.rows;
    for i := 0 to |plans|
      invariant table.rows == if apply then Upserted(was, plans[..i], synced) else was
    {
      assert plans[..i + 1][..i] == plans[..i];
      if plans[i].slug !in synced { continue; }
      if !apply { continue; }
      table.Upsert(plans[i].slug, FieldsOf(plans[i], synced[plans[i].slug]));
    }
    assert plans[..|plans|] == plans;
    if apply {
      var hidden := table.Hide(CanonicalKeys(plans));
    }
  }

  /** The row a plan ends with: its own columns, and what it was synced to. */
  ghost predicate Carries(f: PlanFields, p: PlanDef, s: SyncedPlan) {
    && f.name == p.name && f.tier == p.tier && f.terms == p.terms
    && f.monthlyCents == p.monthlyCents && f.annualCents == p.annualCents
    && f.productId == s.productId && f.monthlyPrice == s.monthlyPrice && f.annualPrice == s.annualPrice
  }

  /** Free's slug or a plan's, letter case aside. */
  ghost predicate Canonical(plans: seq<PlanDef>, slug: string) {
    SameButCase(slug, "free") || exists i | 0 <= i < |plans| :: SameButCase(slug, plans[i].slug)
  }

  lemma CanonicalKeysAre(plans: seq<PlanDef>, slug: string)
    ensures Lower(slug) in CanonicalKeys(plans) <==> Canonical(plans, slug)
  {
    LowerIffSame(slug, FREE_PLAN_SLUG);
    forall i | 0 <= i < |plans| ensures Lower(slug) == Lower(plans[i].slug) <==> SameButCase(slug, plans[i].slug) {
      LowerIffSame(slug, plans[i].slug);
    }
  }

  /** The rows some synced plan writes. */
  ghost predicate Writes(plans: seq<PlanDef>, synced: map<string, SyncedPlan>, key: string) {
    exists k | 0 <= k < |plans| :: plans[k].slug in synced && Lower(plans[k].slug) == key
  }

  /** The slug as a synced plan has it. */
  ghost predicate SlugOf(plans: seq<PlanDef>, synced: map<string, SyncedPlan>, slug: string) {
    slug in synced && exists k | 0 <= k < |plans| :: plans[k].slug == slug
  }

  /** The last synced plan of its slug, letter case aside. */
  ghost predicate LastOfSlug(plans: seq<PlanDef>, synced: map<string, SyncedPlan>, k: nat) {
    && k < |plans| && plans[k].slug in synced
    && forall j | k < j < |plans| && plans[j].slug in synced :: Lower(plans[j].slug) != Lower(plans[k].slug)
  }

  lemma {:induction false} UpsertedAt(rows: PlanRows, plans: seq<PlanDef>, synced: map<string, SyncedPlan>, key: string)
    ensures key in Upserted(rows, plans, synced) <==> key in rows || Writes(plans, synced, key)
    ensures key in rows && !Writes(plans, synced, key) ==> Upserted(rows, plans, synced)[key] == rows[key]
    ensures key in Upserted(rows, plans, synced) ==>
      && (Upserted(rows, plans, synced)[key].isPublic <==> key !in rows || rows[key].isPublic)
      && (if key in rows then Upserted(rows, plans, synced)[key].slug == rows[key].slug
          else SlugOf(plans, synced, Upserted(rows, plans, synced)[key].slug))
    decreases |plans|
  {
    if plans != [] {
      var n := |plans| - 1;
      var before := plans[..n];
      UpsertedAt(rows, before, synced, key);
      forall k | 0 <= k < n ensures before[k] == plans[k] {}
      assert Writes(plans, synced, key) <==>
        Writes(before, synced, key) || (plans[n].slug in synced && Lower(plans[n].slug) == key);
    }
  }

  lemma {:induction false} UpsertedFields(rows: PlanRows, plans: seq<PlanDef>, synced: map<string, SyncedPlan>, k: nat)
    requires LastOfSlug(plans, synced, k)
    ensures var after := Upserted(rows, plans, synced);
      Lower(plans[k].slug) in after && Carries(after[Lower(plans[k].slug)].fields, plans[k], synced[plans[k].slug])
    decreases |plans|
  {
    var n := |plans| - 1;
    var before, p := plans[..n], plans[n];
    if k < n {
      assert before[k] == plans[k] && LastOfSlug(before, synced, k);
      UpsertedFields(rows, before, synced, k);
      assert p.slug in synced ==> Lower(p.slug) != Lower(plans[k].slug);
    } else {
      var now := Upserted(rows, before, synced);
      assert UpsertedRow(now, p.slug, FieldsOf(p, synced[p.slug])).fields == FieldsOf(p, synced[p.slug]);
    }
  }

  /** No row is deleted, none is added but a synced plan's, and every public row ends canonical. */
  lemma PublicPlansAreCanonical(rows: PlanRows, plans: seq<PlanDef>, synced: map<string, SyncedPlan>)
    ensures var after := PlansAfter(rows, plans, synced);
      && (forall key :: key in after <==> key in rows || Writes(plans, synced, key))
      && (forall key | key in after && after[key].isPublic :: Canonical(plans, after[key].slug))
      && forall key | key in rows && !Writes(plans, synced, key) ::
           after[key] == if Canonical(plans, rows[key].slug) then rows[key] else rows[key].(isPublic := false)
  {
    forall key: string { UpsertedAt(rows, plans, synced, key); }
    var after := PlansAfter(rows, plans, synced);
    forall key | key in after ensures key in CanonicalKeys(plans) <==> Canonical(plans, after[key].slug) {
      CanonicalKeysAre(plans, after[key].slug);
    }
  }

  /**
   * A synced plan's row has the plan's own columns and names what it was synced
   * to. It keeps the slug it had, or has a plan's own, and is public exactly
   * unless it was private before.
   */
  lemma SyncedPlanRow(rows: PlanRows, plans: seq<PlanDef>, synced: map<string, SyncedPlan>, k: nat)
    requires LastOfSlug(plans, synced, k)
    ensures var after, key := PlansAfter(rows, plans, synced), Lower(plans[k].slug);
      && key in after && Carries(after[key].fields, plans[k], synced[plans[k].slug])
      && SameButCase(after[key].slug, plans[k].slug)
      && (if key in rows then after[key].slug == rows[key].slug else SlugOf(plans, synced, after[key].slug))
      && (after[key].isPublic <==> key !in rows || rows[key].isPublic)
  {
    var key := Lower(plans[k].slug);
    assert Writes(plans, synced, key);
    UpsertedAt(rows, plans, synced, key);
    UpsertedFields(rows, plans, synced, k);
    LowerIffSame(PlansAfter(rows, plans, synced)[key].slug, plans[k].slug);
  }

  /**
   * A canonical plan that an earlier catalog left out and a run hid: the next runs
   * rewrite its row and leave it private.
   */
  lemma HiddenPlanStaysHidden(p: PlanDef, s: SyncedPlan, row: PlanRow)
    requires !row.isPublic && SameButCase(row.slug, p.slug)
    ensures Lower(row.slug) == Lower(p.slug) && Canonical([p], row.slug)
    ensures var after := PlansAfter(map[Lower(p.slug) := row], [p], map[p.slug := s])[Lower(p.slug)];
      after.slug == row.slug && Carries(after.fields, p, s) && !after.isPublic
  {
    LowerIffSame(row.slug, p.slug);
    assert [p][0] == p;
    SyncedPlanRow(map[Lower(p.slug) := row], [p], map[p.slug := s], 0);
  }

  // ---- The whole run ----

  ghost predicate DistinctPlans(plans: seq<PlanDef>) {
    forall i, j | 0 <= i < j < |plans| :: plans[i].slug != plans[j].slug
  }

  function PlanLinks(links: Links): SyncedPlan
    requires |links.priceIds| == 2
  {
    SyncedPlan(links.productId, links.priceIds[0], links.priceIds[1])
  }

  /** What the run hands from Stripe to the table: each plan's product, monthly and annual price. */
  function SyncedPlans(plans: seq<PlanDef>, links: seq<Links>): map<string, SyncedPlan>
    requires |plans| <= |links| && forall i | 0 <= i < |plans| :: |links[i].priceIds| == 2
  {
    if plans == [] then map[]
    else
      var n := |plans| - 1;
      SyncedPlans(plans[..n], links)[plans[n].slug := PlanLinks(links[n])]
  }

  lemma {:induction false} SyncedPlansOf(plans: seq<PlanDef>, links: seq<Links>, k: nat)
    requires |plans| <= |links| && (forall i | 0 <= i < |plans| :: |links[i].priceIds| == 2) && k < |plans|
    requires DistinctPlans(plans)
    ensures var synced := SyncedPlans(plans, links);
      && plans[k].slug in synced
      && synced[plans[k].slug] == PlanLinks(links[k])
    decreases |plans|
  {
    var n := |plans| - 1;
    if k < n {
      assert plans[..n][k] == plans[k];
      SyncedPlansOf(plans[..n], links, k);
    }
  }

  /** An active product of the slug under this name, with every one of these metadata values. */
  ghost predicate Shows(products: map<nat, Product>, id: Id, slug: string, name: string,
                        metadata: map<string, string>) {
    && id.Real? && id.n in Active(BySlug(products, slug)) && products[id.n].name == name
    && forall k | k in metadata :: k in products[id.n].metadata && products[id.n].metadata[k] == metadata[k]
  }

  /** A price of this amount and interval. */
  predicate Charges(p: Price, cents: int, interval: Option<Interval>) { p.amount == cents && p.interval == interval }

  /**
   * The price is the one active holder of the key, for this amount and interval.
   * It is the one that was, if that charged as much as often; so it is a price of
   * the product, and carries this metadata, exactly if no such price had others.
   */
  ghost predicate Sells(before: map<nat, Price>, after: map<nat, Price>, id: Id, cents: int,
                        interval: Option<Interval>, product: Id, metadata: map<string, string>) {
    && id.Real? && after.Keys == {id.n} && Charges(after[id.n], cents, interval)
    && (forall x | x in before && Charges(before[x], cents, interval) :: x == id.n && after[x] == before[x])
    && (after[id.n].product == product <==>
          forall x | x in before && Charges(before[x], cents, interval) :: before[x].product == product)
    && (after[id.n].metadata == metadata <==>
          forall x | x in before && Charges(before[x], cents, interval) :: before[x].metadata == metadata)
  }

  /** The key now and before, and the price it sells. */
  ghost predicate KeySells(was: Stores, now: Stores, key: string, id: Id, cents: int, interval: Option<Interval>,
                           product: Id, metadata: map<string, string>) {
    Sells(ByKey(was.prices, key), ByKey(now.prices, key), id, cents, interval, product, metadata)
  }

  /** Stripe sells the plan with this product and these prices. */
  ghost predicate SoldAs(was: Stores, now: Stores, p: PlanDef, s: SyncedPlan) {
    && Shows(now.products, s.productId, p.slug, p.name, p.metadata)
    && KeySells(was, now, LookupKey(p.slug, Monthly), s.monthlyPrice, p.monthlyCents, Some(Month), s.productId,
                p.priceMetadata)
    && KeySells(was, now, LookupKey(p.slug, Yearly), s.annualPrice, p.annualCents, Some(Year), s.productId,
                p.priceMetadata)
  }

  /** Stripe sells the pack with this product and this one-time price. */
  ghost predicate PackSoldAs(was: Stores, now: Stores, p: PackDef, product: Id, price: Id) {
    && Shows(now.products, product, p.slug, p.name, p.metadata)
    && KeySells(was, now, LookupKey(p.slug, OneTime), price, p.priceCents, None, product, p.priceMetadata)
  }

  /**
   * The plan's row has the plan's own columns, and names the product and the
   * prices Stripe sells the plan with: at the row's own two amounts.
   */
  ghost predicate RowMatchesStripe(rows: PlanRows, was: Stores, now: Stores, p: PlanDef) {
    && Lower(p.slug) in rows
    && var f := rows[Lower(p.slug)].fields;
       && f.name == p.name && f.tier == p.tier && f.terms == p.terms
       && f.monthlyCents == p.monthlyCents && f.annualCents == p.annualCents
       && Shows(now.products, f.productId, p.slug, p.name, p.metadata)
       && KeySells(was, now, LookupKey(p.slug, Monthly), f.monthlyPrice, f.monthlyCents, Some(Month), f.productId,
                   p.priceMetadata)
       && KeySells(was, now, LookupKey(p.slug, Yearly), f.annualPrice, f.annualCents, Some(Year), f.productId,
                   p.priceMetadata)
  }

  lemma ProductShows(was: Stores, now: Stores, index: set<string>, item: Item, found: Option<nat>, links: Links)
    requires SLUG_KEY !in item.metadata && EntryDone(was, now, item, found, links)
    requires Answers(BySlug(was.products, item.slug), item.slug, index, found)
    ensures Shows(now.products, links.productId, item.slug, item.name, item.metadata)
  {
    var before, view := BySlug(was.products, item.slug), BySlug(now.products, item.slug);
    ProductWritten(before, view, item, index, found, links.productId);
    DesiredMeans(view[links.productId.n], item);
  }

  lemma KeyIsSold(was: Stores, now: Stores, spec: PriceSpec, product: Id, id: Id)
    requires PriceDone(ByKey(was.prices, spec.lookupKey), ByKey(now.prices, spec.lookupKey), spec, product, id)
    ensures KeySells(was, now, spec.lookupKey, id, spec.amount, spec.interval, product, spec.metadata)
  {
    assert forall p: Price :: PriceMatches(p, spec) <==> Charges(p, spec.amount, spec.interval);
  }

  lemma PlanSells(was: Stores, now: Stores, index: set<string>, p: PlanDef, found: Option<nat>, links: Links)
    requires SLUG_KEY !in p.metadata && EntryDone(was, now, PlanItem(p), found, links)
    requires Answers(BySlug(was.products, p.slug), p.slug, index, found)
    ensures |links.priceIds| == 2
    ensures SoldAs(was, now, p, PlanLinks(links))
  {
    var specs := PlanItem(p).prices;
    ProductShows(was, now, index, PlanItem(p), found, links);
    KeyIsSold(was, now, specs[0], links.productId, links.priceIds[0]);
    KeyIsSold(was, now, specs[1], links.productId, links.priceIds[1]);
  }

  lemma PackSells(was: Stores, now: Stores, index: set<string>, p: PackDef, found: Option<nat>, links: Links)
    requires SLUG_KEY !in p.metadata && EntryDone(was, now, PackItem(p), found, links)
    requires Answers(BySlug(was.products, p.slug), p.slug, index, found)
    ensures |links.priceIds| == 1
    ensures PackSoldAs(was, now, p, links.productId, links.priceIds[0])
  {
    ProductShows(was, now, index, PackItem(p), found, links);
    KeyIsSold(was, now, PackItem(p).prices[0], links.productId, links.priceIds[0]);
  }

  lemma CatalogPlans(plans: seq<PlanDef>, packs: seq<PackDef>)
    requires CatalogOk(Catalog(plans, packs))
    ensures DistinctPlans(plans) && forall k | 0 <= k < |plans| :: SLUG_KEY !in plans[k].metadata
    ensures forall k | 0 <= k < |plans| :: Catalog(plans, packs)[k] == PlanItem(plans[k])
  {
    var items := Catalog(plans, packs);
    forall k | 0 <= k < |plans| ensures items[k] == PlanItem(plans[k]) && SLUG_KEY !in plans[k].metadata {
      assert SLUG_KEY !in items[k].metadata;
    }
    forall i, j | 0 <= i < j < |plans| ensures plans[i].slug != plans[j].slug {
      assert items[i].slug == plans[i].slug && items[j].slug == plans[j].slug;
    }
  }

  lemma {:induction false} SyncedKeys(plans: seq<PlanDef>, links: seq<Links>)
    requires |plans| <= |links| && forall i | 0 <= i < |plans| :: |links[i].priceIds| == 2
    ensures forall i | 0 <= i < |plans| :: plans[i].slug in SyncedPlans(plans, links)
    decreases |plans|
  {
    if plans != [] {
      var n := |plans| - 1;
      SyncedKeys(plans[..n], links);
      assert forall i | 0 <= i < n :: plans[..n][i] == plans[i];
    }
  }

  /** What the Stripe half of a run leaves for the table. */
  ghost predicate AllDone(was: Stores, now: Stores, index: set<string>, items: seq<Item>, log: Log) {
    && LogOf(log, |items|)
    && forall k | 0 <= k < |items| ::
         && Answers(BySlug(was.products, items[k].slug), items[k].slug, index, log.founds[k])
         && EntryDone(was, now, items[k], log.founds[k], log.links[k])
  }

  /** The Stripe half of the run, over the whole catalog. */
  method SyncCatalog(stripe: Stripe, plans: seq<PlanDef>, packs: seq<PackDef>, derived: set<string>, apply: bool)
    returns (r: Result<seq<Links>, SyncError>, ghost log: Log)
    requires stripe.Valid() && CatalogOk(Catalog(plans, packs))
    modifies stripe`products, stripe`prices, stripe`nextId, stripe`writesLeft
    ensures r.Ok? ==> AllDerived(Catalog(plans, packs), derived) && r.value == log.links
    ensures old(stripe.writesLeft).None? ==> (r.Ok? <==> AllDerived(Catalog(plans, packs), derived))
    ensures !apply ==> stripe.products == old(stripe.products) && stripe.prices == old(stripe.prices)
    ensures r.Ok? ==> |plans| <= |r.value| && forall i | 0 <= i < |plans| :: |r.value[i].priceIds| == 2
    ensures r.Ok? && apply ==>
      AllDone(Stores(old(stripe.products), old(stripe.prices)), Stores(stripe.products, stripe.prices),
              stripe.index, Catalog(plans, packs), log)
  {
    var items := Catalog(plans, packs);
    CatalogPlans(plans, packs);
    ghost var was := Stores(stripe.products, stripe.prices);
    var reports;
    r, reports, log := SyncStripe(stripe, items, derived, apply);
    if r.Ok? {
      PlannedAll(was, Stores(stripe.products, stripe.prices), stripe.index, items, derived, log, apply);
    }
  }

  lemma PlannedAll(was: Stores, now: Stores, index: set<string>, items: seq<Item>, derived: set<string>, log: Log,
                   apply: bool)
    requires Stands(was, now, index, items, derived, |items|, log, None, apply)
    ensures LogOf(log, |items|) && AllDerived(items, derived)
    ensures forall k | 0 <= k < |items| :: |log.links[k].priceIds| == |items[k].prices|
    ensures apply ==> AllDone(was, now, index, items, log)
  {
    assert items[..|items|] == items;
    forall k | 0 <= k < |items|
      ensures |log.links[k].priceIds| == |items[k].prices|
      ensures Answers(BySlug(was.products, items[k].slug), items[k].slug, index, log.founds[k])
    {
      assert EntryPlanned(was, index, items[k], log.founds[k], log.links[k], log.reports[k]);
    }
  }

  lemma CatalogSynced(was: Stores, now: Stores, index: set<string>, items: seq<Item>, log: Log)
    requires CatalogOk(items) && OneAnswerEach(was.products, index, items) && AllDone(was, now, index, items, log)
    ensures forall item | item in items :: ItemSynced(now, item)
  {
    forall k | 0 <= k < |items| ensures ItemSynced(now, items[k]) {
      DoneIsSynced(was, now, index, items[k], log.founds[k], log.links[k]);
    }
  }

  /** Stripe sells each plan with the product and the prices linked to it. */
  ghost predicate PlansSold(was: Stores, now: Stores, plans: seq<PlanDef>, links: seq<Links>) {
    && |plans| <= |links|
    && forall k | 0 <= k < |plans| :: |links[k].priceIds| == 2 && SoldAs(was, now, plans[k], PlanLinks(links[k]))
  }

  /** Stripe sells each pack. */
  ghost predicate PacksSold(was: Stores, now: Stores, packs: seq<PackDef>) {
    forall p | p in packs :: exists product, price :: PackSoldAs(was, now, p, product, price)
  }

  lemma CatalogPacks(plans: seq<PlanDef>, packs: seq<PackDef>, k: nat)
    requires CatalogOk(Catalog(plans, packs)) && k < |packs|
    ensures Catalog(plans, packs)[|plans| + k] == PackItem(packs[k]) && SLUG_KEY !in packs[k].metadata
  {
    assert SLUG_KEY !in Catalog(plans, packs)[|plans| + k].metadata;
  }

  lemma PacksAreSold(was: Stores, now: Stores, index: set<string>, plans: seq<PlanDef>, packs: seq<PackDef>, log: Log)
    requires CatalogOk(Catalog(plans, packs)) && AllDone(was, now, index, Catalog(plans, packs), log)
    ensures PacksSold(was, now, packs)
  {
    forall p | p in packs ensures exists product, price :: PackSoldAs(was, now, p, product, price) {
      var k :| 0 <= k < |packs| && packs[k] == p;
      CatalogPacks(plans, packs, k);
      PackSells(was, now, index, p, log.founds[|plans| + k], log.links[|plans| + k]);
    }
  }

  lemma CatalogSold(was: Stores, now: Stores, index: set<string>, plans: seq<PlanDef>, packs: seq<PackDef>, log: Log)
    requires CatalogOk(Catalog(plans, packs)) && AllDone(was, now, index, Catalog(plans, packs), log)
    ensures DistinctPlans(plans) && PlansSold(was, now, plans, log.links)
  {
    CatalogPlans(plans, packs);
    forall k | 0 <= k < |plans|
      ensures |log.links[k].priceIds| == 2 && SoldAs(was, now, plans[k], PlanLinks(log.links[k]))
    {
      assert Catalog(plans, packs)[k] == PlanItem(plans[k]);
      PlanSells(was, now, index, plans[k], log.founds[k], log.links[k]);
    }
  }

  lemma RowMatches(was: Stores, now: Stores, plans: seq<PlanDef>, links: seq<Links>, rows: PlanRows, k: nat)
    requires DistinctPlans(plans) && PlansSold(was, now, plans, links)
    requires LastOfSlug(plans, SyncedPlans(plans, links), k)
    ensures RowMatchesStripe(PlansAfter(rows, plans, SyncedPlans(plans, links)), was, now, plans[k])
  {
    SyncedPlansOf(plans, links, k);
    SyncedPlanRow(rows, plans, SyncedPlans(plans, links), k);
    SoldRow(PlansAfter(rows, plans, SyncedPlans(plans, links)), was, now, plans[k], PlanLinks(links[k]));
  }

  lemma SoldRow(rows: PlanRows, was: Stores, now: Stores, p: PlanDef, s: SyncedPlan)
    requires Lower(p.slug) in rows && Carries(rows[Lower(p.slug)].fields, p, s) && SoldAs(was, now, p, s)
    ensures RowMatchesStripe(rows, was, now, p)
  {
  }

  /** No later plan has the slug, letter case aside. */
  predicate LastPlan(plans: seq<PlanDef>, k: nat) {
    k < |plans| && forall j | k < j < |plans| :: Lower(plans[j].slug) != Lower(plans[k].slug)
  }

  /** Each plan's row is as Stripe sells it. */
  ghost predicate RowsDone(after: PlanRows, was: Stores, now: Stores, plans: seq<PlanDef>) {
    forall k: nat | LastPlan(plans, k) :: RowMatchesStripe(after, was, now, plans[k])
  }

  /** The rows are those from before and the plans', and every public one is canonical. */
  ghost predicate OnlyCanonical(before: PlanRows, after: PlanRows, plans: seq<PlanDef>) {
    && (forall key :: key in after <==> key in before || exists k | 0 <= k < |plans| :: Lower(plans[k].slug) == key)
    && forall key | key in after && after[key].isPublic :: Canonical(plans, after[key].slug)
  }

  /** The table after the run. */
  ghost predicate TableDone(before: PlanRows, after: PlanRows, was: Stores, now: Stores, plans: seq<PlanDef>) {
    RowsDone(after, was, now, plans) && OnlyCanonical(before, after, plans)
  }

  lemma TableIsDone(was: Stores, now: Stores, plans: seq<PlanDef>, links: seq<Links>, rows: PlanRows)
    requires DistinctPlans(plans) && PlansSold(was, now, plans, links)
    ensures TableDone(rows, PlansAfter(rows, plans, SyncedPlans(plans, links)), was, now, plans)
  {
    SyncedKeys(plans, links);
    LastRowsMatch(was, now, plans, links, rows);
    RowsAreCanonical(rows, plans, SyncedPlans(plans, links));
  }

  lemma LastRowsMatch(was: Stores, now: Stores, plans: seq<PlanDef>, links: seq<Links>, rows: PlanRows)
    requires DistinctPlans(plans) && PlansSold(was, now, plans, links)
    requires forall i | 0 <= i < |plans| :: plans[i].slug in SyncedPlans(plans, links)
    ensures RowsDone(PlansAfter(rows, plans, SyncedPlans(plans, links)), was, now, plans)
  {
    forall k: nat | LastPlan(plans, k)
      ensures RowMatchesStripe(PlansAfter(rows, plans, SyncedPlans(plans, links)), was, now, plans[k])
    {
      RowMatches(was, now, plans, links, rows, k);
    }
  }

  /**
   * With every plan synced, the rows are those of the plans and those from before,
   * and the public ones are canonical.
   */
  lemma RowsAreCanonical(rows: PlanRows, plans: seq<PlanDef>, synced: map<string, SyncedPlan>)
    requires forall i | 0 <= i < |plans| :: plans[i].slug in synced
    ensures OnlyCanonical(rows, PlansAfter(rows, plans, synced), plans)
  {
    PublicPlansAreCanonical(rows, plans, synced);
    forall key: string
      ensures Writes(plans, synced, key) <==> exists k | 0 <= k < |plans| :: Lower(plans[k].slug) == key
    {
    }
  }

  /**
   * The whole run. Applied, every plan's row names an active product as the
   * catalog has it and the one active price of each of its lookup keys, at the
   * amount the row itself quotes, a price of that product unless one of another
   * product already charged it; every pack has its one-time price; where lookups showed one product each, every
   * entry ends synced, so that product is its slug's only active one. A dry run
   * changes neither store, and a run that throws leaves the table alone.
   */
  method Sync(stripe: Stripe, table: PlanTable, plans: seq<PlanDef>, packs: seq<PackDef>, derived: set<string>,
              apply: bool, noDb: bool)
    returns (ok: bool)
    requires stripe.Valid() && CatalogOk(Catalog(plans, packs))
    modifies stripe`products, stripe`prices, stripe`nextId, stripe`writesLeft, table
    ensures old(stripe.writesLeft).None? ==> (ok <==> AllDerived(Catalog(plans, packs), derived))
    ensures !apply ==> stripe.products == old(stripe.products) && stripe.prices == old(stripe.prices)
    ensures !apply || noDb || !ok ==> table.rows == old(table.rows)
    ensures ok && apply && OneAnswerEach(old(stripe.products), stripe.index, Catalog(plans, packs)) ==>
      forall item | item in Catalog(plans, packs) :: ItemSynced(Stores(stripe.products, stripe.prices), item)
    ensures ok && apply && !noDb ==>
      TableDone(old(table.rows), table.rows, Stores(old(stripe.products), old(stripe.prices)),
                Stores(stripe.products, stripe.prices), plans)
    ensures ok && apply ==>
      PacksSold(Stores(old(stripe.products), old(stripe.prices)), Stores(stripe.products, stripe.prices), packs)
  {
    ghost var was := Stores(stripe.products, stripe.prices);
    var r; ghost var log;
    r, log := SyncCatalog(stripe, plans, packs, derived, apply);
    if r.Err? {
      return false;
    }
    ghost var now := Stores(stripe.products, stripe.prices);
    if apply { PacksAreSold(was, now, stripe.index, plans, packs, log); }
    if apply && OneAnswerEach(was.products, stripe.index, Catalog(plans, packs)) {
      CatalogSynced(was, now, stripe.index, Catalog(plans, packs), log);
    }
    if !noDb {
      if apply {
        CatalogSold(was, now, stripe.index, plans, packs, log);
        TableIsDone(was, now, plans, r.value, table.rows);
      }
      UpsertPlans(table, plans, SyncedPlans(plans, r.value), apply);
    }
    ok := true;
  }
}
