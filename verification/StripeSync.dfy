/**
 * stripe-sync.ts: reconcile Stripe products and prices with the catalog.
 * Products are keyed by a metadata slug, prices by lookup key; prices are
 * immutable, so a change creates a price and moves the key to it.
 *
 * Stripe is a store whose reads see earlier writes. Product search answers for
 * some slugs only (`index`): it may be down, or not have indexed a product yet.
 * Any write may throw (`writesLeft`), which ends the run where it stands.
 */
module StripeSync {
  import opened Common

  const SLUG_KEY: string := "oxagen_slug"
  const VERSION_KEY: string := "oxagen_version"

  datatype Id = Real(n: nat) | DryRun(name: string)

  datatype Product = Product(name: string, active: bool, metadata: map<string, string>)

  datatype Interval = Month | Year

  datatype Price = Price(product: Id, lookupKey: Option<string>, amount: int, interval: Option<Interval>,
                         active: bool, metadata: map<string, string>)

  datatype PriceSpec = PriceSpec(lookupKey: string, amount: int, interval: Option<Interval>,
                                 metadata: map<string, string>)

  /** A catalog entry: a plan has a monthly and an annual price, a pack one one-time price. */
  datatype Item = Item(slug: string, name: string, metadata: map<string, string>, prices: seq<PriceSpec>)

  datatype Action = Create | Update | Reuse

  // ---- What the store holds for a slug or a key ----

  predicate HasSlug(p: Product, slug: string) {
    SLUG_KEY in p.metadata && p.metadata[SLUG_KEY] == slug
  }

  predicate Holds(p: Price, key: string) {
    p.active && p.lookupKey == Some(key)
  }

  function BySlug(products: map<nat, Product>, slug: string): map<nat, Product> {
    map id | id in products && HasSlug(products[id], slug) :: products[id]
  }

  function ByKey(prices: map<nat, Price>, key: string): map<nat, Price> {
    map id | id in prices && Holds(prices[id], key) :: prices[id]
  }

  /** Two active prices of the store hold different lookup keys. */
  ghost predicate OnePricePerKey(prices: map<nat, Price>) {
    forall a, b | a in prices && b in prices && prices[a].active && prices[a].lookupKey.Some?
      && Holds(prices[b], prices[a].lookupKey.value) :: a == b
  }

  /** What a product must look like. */
  function Desired(item: Item): Product {
    Product(item.name, true, map[SLUG_KEY := item.slug, VERSION_KEY := "v2"] + item.metadata)
  }

  /** Whether a product differs in what the script manages; other metadata keys are not its business. */
  predicate DiffersFromDesired(existing: Product, desired: Product) {
    || existing.name != desired.name
    || existing.active != desired.active
    || exists k | k in desired.metadata :: !(k in existing.metadata && existing.metadata[k] == desired.metadata[k])
  }

  /** Stripe merges metadata keys on update. */
  function Merged(existing: Product, desired: Product): Product {
    Product(desired.name, desired.active, existing.metadata + desired.metadata)
  }

  predicate PriceMatches(p: Price, spec: PriceSpec) {
    p.amount == spec.amount && p.interval == spec.interval
  }

  // ---- Looking a product up by its slug; `view` holds the products of the slug ----

  /** A lookup shows the active products, and the archived ones too if search answers. */
  predicate Visible(p: Product, slug: string, index: set<string>) {
    p.active || slug in index
  }

  /** What a lookup may answer: any product it shows, and none only if it shows none. */
  ghost predicate Answers(view: map<nat, Product>, slug: string, index: set<string>, found: Option<nat>) {
    if found.Some? then found.value in view && Visible(view[found.value], slug, index)
    else forall id | id in view :: !Visible(view[id], slug, index)
  }

  /** A lookup shows at most one product, so it has one answer. */
  ghost predicate OneVisible(view: map<nat, Product>, slug: string, index: set<string>) {
    forall a, b | a in view && b in view && Visible(view[a], slug, index) && Visible(view[b], slug, index) :: a == b
  }

  /** The products a lookup does not show: archived ones that search misses. */
  function Hidden(view: map<nat, Product>, slug: string, index: set<string>): set<nat> {
    set id | id in view && !Visible(view[id], slug, index)
  }

  function Active(view: map<nat, Product>): set<nat> {
    set id | id in view && view[id].active
  }

  ghost predicate AtMostOne(view: map<nat, Product>) {
    forall a, b | a in view && b in view :: a == b
  }

  /** One answer, whichever it is. */
  lemma AnswerIsUnique(view: map<nat, Product>, slug: string, index: set<string>, a: Option<nat>, b: Option<nat>)
    requires OneVisible(view, slug, index) && Answers(view, slug, index, a) && Answers(view, slug, index, b)
    ensures a == b
  {
  }

  // ---- What a run reports: decided by the store before it and what lookups answer ----

  function ProductAction(view: map<nat, Product>, found: Option<nat>, item: Item): Action {
    if found.None? || found.value !in view then Create
    else if DiffersFromDesired(view[found.value], Desired(item)) then Update
    else Reuse
  }

  ghost function PlannedPrice(view: map<nat, Price>, spec: PriceSpec): Action {
    if view == map[] then Create
    else if exists id | id in view :: PriceMatches(view[id], spec) then Reuse
    else Update
  }

  datatype ItemReport = ItemReport(product: Action, prices: seq<Action>)

  /** The products and the prices of the account at one moment. */
  datatype Stores = Stores(products: map<nat, Product>, prices: map<nat, Price>)

  ghost function PlannedPrices(prices: map<nat, Price>, specs: seq<PriceSpec>): seq<Action> {
    seq(|specs|, i requires 0 <= i < |specs| => PlannedPrice(ByKey(prices, specs[i].lookupKey), specs[i]))
  }

  ghost function Planned(was: Stores, found: Option<nat>, item: Item): ItemReport {
    ItemReport(ProductAction(BySlug(was.products, item.slug), found, item), PlannedPrices(was.prices, item.prices))
  }

  function ProductWrite(found: Option<nat>): Write {
    if found.Some? then ProductUpdate(found.value) else ProductCreate
  }

  /** A holder of the key; a valid store has at most one. */
  ghost function HolderOf(view: map<nat, Price>): (id: nat)
    requires view != map[]
    ensures id in view
  {
    var id :| id in view;
    id
  }

  ghost function PriceWrites(view: map<nat, Price>, spec: PriceSpec): seq<Write> {
    match PlannedPrice(view, spec)
    case Reuse => []
    case Create => [PriceCreate(spec.lookupKey)]
    case Update => [PriceCreate(spec.lookupKey), PriceArchive(HolderOf(view))]
  }

  ghost function AllPriceWrites(prices: map<nat, Price>, specs: seq<PriceSpec>): seq<Write> {
    if specs == [] then []
    else
      var n := |specs| - 1;
      AllPriceWrites(prices, specs[..n]) + PriceWrites(ByKey(prices, specs[n].lookupKey), specs[n])
  }

  ghost function ItemWrites(was: Stores, found: Option<nat>, item: Item): seq<Write> {
    [ProductWrite(found)] + AllPriceWrites(was.prices, item.prices)
  }

  /** The writes of an applied run, in order. */
  ghost function RunWrites(was: Stores, items: seq<Item>, founds: seq<Option<nat>>): seq<Write>
    requires |founds| == |items|
  {
    if items == [] then []
    else
      var n := |items| - 1;
      RunWrites(was, items[..n], founds[..n]) + ItemWrites(was, founds[n], items[n])
  }

  function Applied(apply: bool, planned: seq<Write>): seq<Write> { if apply then planned else [] }

  function Thrown<T>(r: Result<T, Write>): Option<Write> { if r.Err? then Some(r.error) else None }

  predicate AllReuse(r: ItemReport) {
    r.product == Reuse && forall a | a in r.prices :: a == Reuse
  }

  // ---- The target ----

  /** The product and the prices a run settled on for one entry. */
  datatype Links = Links(productId: Id, priceIds: seq<Id>)

  /** The products of a slug once the one a lookup found, or else a new one, has been written. */
  function Settled(view: map<nat, Product>, found: Option<nat>, id: nat, item: Item): map<nat, Product> {
    view[id := if found.Some? && found.value in view then Merged(view[found.value], Desired(item)) else Desired(item)]
  }

  ghost predicate ProductDone(before: map<nat, Product>, after: map<nat, Product>, found: Option<nat>, id: Id,
                              item: Item) {
    && id.Real? && (if found.Some? then id.n == found.value else id.n !in before)
    && after == Settled(before, found, id.n, item)
  }

  /** The holder of the key that will be reused carries the metadata asked for. */
  ghost predicate MetadataCurrent(view: map<nat, Price>, spec: PriceSpec) {
    forall x | x in view && PriceMatches(view[x], spec) :: view[x].metadata == spec.metadata
  }

  /** The holder of the key that will be reused belongs to the product. */
  ghost predicate ProductCurrent(view: map<nat, Price>, spec: PriceSpec, product: Id) {
    forall x | x in view && PriceMatches(view[x], spec) :: view[x].product == product
  }

  /**
   * Exactly one active price holds the key, with the amount and interval: the
   * holder that matched, as it was, or else a new price of the product. So its
   * metadata and product are as asked unless a price was reused that had others.
   */
  ghost predicate PriceDone(before: map<nat, Price>, after: map<nat, Price>, spec: PriceSpec, product: Id, id: Id) {
    && id.Real? && after.Keys == {id.n} && PriceMatches(after[id.n], spec)
    && (forall x | x in before && PriceMatches(before[x], spec) :: id.n == x && after[x] == before[x])
    && (after[id.n].metadata == spec.metadata <==> MetadataCurrent(before, spec))
    && (after[id.n].product == product <==> ProductCurrent(before, spec, product))
  }

  ghost predicate PricesDone(was: map<nat, Price>, now: map<nat, Price>, specs: seq<PriceSpec>, product: Id,
                             ids: seq<Id>) {
    && |ids| == |specs|
    && forall i | 0 <= i < |specs| ::
         PriceDone(ByKey(was, specs[i].lookupKey), ByKey(now, specs[i].lookupKey), specs[i], product, ids[i])
  }

  /** What an applied run has done for an entry, `was` being the store before it. */
  ghost predicate EntryDone(was: Stores, now: Stores, item: Item, found: Option<nat>, links: Links) {
    match links
    case Links(productId, priceIds) =>
      && ProductDone(BySlug(was.products, item.slug), BySlug(now.products, item.slug), found, productId, item)
      && PricesDone(was.prices, now.prices, item.prices, productId, priceIds)
  }

  /** The slug has exactly one active product, and it is as desired. */
  ghost predicate ProductSynced(view: map<nat, Product>, item: Item) {
    exists id | id in view :: Active(view) == {id} && !DiffersFromDesired(view[id], Desired(item))
  }

  /** The key has exactly one active price, of the amount and interval. */
  ghost predicate PriceSynced(view: map<nat, Price>, spec: PriceSpec) {
    exists id | id in view :: view.Keys == {id} && PriceMatches(view[id], spec)
  }

  ghost predicate ItemSynced(now: Stores, item: Item) {
    && ProductSynced(BySlug(now.products, item.slug), item)
    && forall spec | spec in item.prices :: PriceSynced(ByKey(now.prices, spec.lookupKey), spec)
  }

  function KeysOf(specs: seq<PriceSpec>): set<string> {
    set i | 0 <= i < |specs| :: specs[i].lookupKey
  }

  function AllKeys(items: seq<Item>): set<string> {
    if items == [] then {} else AllKeys(items[..|items| - 1]) + KeysOf(items[|items| - 1].prices)
  }

  function AllSlugs(items: seq<Item>): set<string> {
    if items == [] then {} else AllSlugs(items[..|items| - 1]) + {items[|items| - 1].slug}
  }

  /** Slugs and lookup keys are used once, and no entry's metadata sets the slug itself. */
  ghost predicate CatalogOk(items: seq<Item>) {
    && (forall i, j | 0 <= i < j < |items| :: items[i].slug != items[j].slug)
    && (forall i | 0 <= i < |items| :: SLUG_KEY !in items[i].metadata)
    && (forall i, a, b | 0 <= i < |items| && 0 <= a < b < |items[i].prices| ::
          items[i].prices[a].lookupKey != items[i].prices[b].lookupKey)
    && forall i, j | 0 <= i < j < |items| :: KeysOf(items[i].prices) !! KeysOf(items[j].prices)
  }

  // ---- Stripe ----

  /** A write that threw. */
  datatype Write = ProductCreate | ProductUpdate(product: nat) | PriceCreate(key: string) | PriceArchive(price: nat)

  /** The prices with one more that takes the key over. */
  function WithPrice(prices: map<nat, Price>, id: nat, p: Price, key: string): (after: map<nat, Price>)
    requires OnePricePerKey(prices) && id !in prices && p.lookupKey == Some(key)
    ensures OnePricePerKey(after) && after.Keys == prices.Keys + {id} && after[id] == p
    ensures forall i | i in prices ::
      after[i] == if Holds(prices[i], key) then prices[i].(lookupKey := None) else prices[i]
  {
    map i | i in prices.Keys + {id} ::
      if i == id then p else if Holds(prices[i], key) then prices[i].(lookupKey := None) else prices[i]
  }

  function OneLess(left: Option<nat>): Option<nat> {
    if left.Some? && left.value > 0 then Some(left.value - 1) else left
  }

  /** Which of the planned writes throws when only `left` go through. */
  function Throws(left: Option<nat>, planned: seq<Write>): Option<Write> {
    if left.Some? && left.value < |planned| then Some(planned[left.value]) else None
  }

  /** The planned writes were sent, up to and including the one that threw. */
  ghost predicate Sent(left: Option<nat>, after: Option<nat>, planned: seq<Write>, threw: Option<Write>) {
    && threw == Throws(left, planned)
    && after == if left.None? then None else if left.value < |planned| then Some(0) else Some(left.value - |planned|)
  }

  lemma SentOne(a: Option<nat>, w: Write)
    ensures Sent(a, OneLess(a), [w], if a == Some(0) then Some(w) else None)
  {
  }

  lemma SentTwo(a: Option<nat>, v: Write, w: Write)
    ensures a == Some(0) ==> Sent(a, a, [v, w], Some(v))
    ensures a != Some(0) ==> Sent(a, OneLess(OneLess(a)), [v, w], if OneLess(a) == Some(0) then Some(w) else None)
  {
  }

  lemma SentBoth(a: Option<nat>, b: Option<nat>, c: Option<nat>, first: seq<Write>, second: seq<Write>,
                 threw: Option<Write>)
    requires Sent(a, b, first, None) && Sent(b, c, second, threw)
    ensures Sent(a, c, first + second, threw)
  {
  }

  lemma SentInPart(a: Option<nat>, b: Option<nat>, first: seq<Write>, second: seq<Write>, threw: Write)
    requires Sent(a, b, first, Some(threw))
    ensures Sent(a, b, first + second, Some(threw))
  {
  }

  class Stripe {
    var products: map<nat, Product>
    var prices: map<nat, Price>
    var nextId: nat
    /** The slugs product search answers for. */
    var index: set<string>
    /** How many more writes go through before one throws; none for all of them. */
    var writesLeft: Option<nat>

    constructor (products: map<nat, Product>, prices: map<nat, Price>, nextId: nat, index: set<string>,
                 writesLeft: Option<nat>)
      requires (forall id | id in products :: id < nextId) && (forall id | id in prices :: id < nextId)
      requires OnePricePerKey(prices)
      ensures Valid() && this.products == products && this.prices == prices
      ensures this.index == index && this.writesLeft == writesLeft
    {
      this.products, this.prices, this.nextId := products, prices, nextId;
      this.index, this.writesLeft := index, writesLeft;
    }

    /** At most one active price a lookup key: kept by every call below. */
    ghost predicate Valid()
      reads this
    {
      && (forall id | id in products :: id < nextId) && (forall id | id in prices :: id < nextId)
      && OnePricePerKey(prices)
    }

    /** Whether the next write goes through. */
    method Accept() returns (ok: bool)
      modifies this`writesLeft
      ensures (ok <==> old(writesLeft) != Some(0)) && writesLeft == OneLess(old(writesLeft))
    {
      ok := writesLeft != Some(0);
      if ok && writesLeft.Some? {
        writesLeft := Some(writesLeft.value - 1);
      }
    }

    method CreateProduct(p: Product) returns (r: Option<nat>)
      requires Valid()
      modifies this`products, this`nextId, this`writesLeft
      ensures Valid() && (r.Some? <==> old(writesLeft) != Some(0)) && writesLeft == OneLess(old(writesLeft))
      ensures r.Some? ==> r.value !in old(products) && products == old(products)[r.value := p]
      ensures r.None? ==> products == old(products)
    {
      var ok := Accept();
      if !ok { return None; }
      r := Some(nextId);
      products := products[nextId := p];
      nextId := nextId + 1;
    }

    method UpdateProduct(id: nat, p: Product) returns (ok: bool)
      requires Valid() && id in products
      modifies this`products, this`writesLeft
      ensures Valid() && (ok <==> old(writesLeft) != Some(0)) && writesLeft == OneLess(old(writesLeft))
      ensures products == if ok then old(products)[id := Merged(old(products)[id], p)] else old(products)
    {
      ok := Accept();
      if ok { products := products[id := Merged(products[id], p)]; }
    }

    /** A key an active price holds can only be taken over with `transfer`. */
    method CreatePrice(p: Price, key: string, transfer: bool) returns (r: Option<nat>)
      requires Valid() && p.active && p.lookupKey == Some(key)
      modifies this`prices, this`nextId, this`writesLeft
      ensures Valid() && writesLeft == OneLess(old(writesLeft))
      ensures r.Some? <==> old(writesLeft) != Some(0) && (transfer || ByKey(old(prices), key) == map[])
      ensures r.None? ==> prices == old(prices)
      ensures r.Some? ==>
        && r.value !in old(prices)
        && prices.Keys == old(prices).Keys + {r.value} && prices[r.value] == p
        && forall id | id in old(prices) ::
             prices[id] == if Holds(old(prices)[id], key) then old(prices)[id].(lookupKey := None) else old(prices)[id]
    {
      var ok := Accept();
      if !transfer && exists id | id in prices :: Holds(prices[id], key) {
        assert exists id | id in prices :: id in ByKey(prices, key);
        return None;
      }
      assert !transfer ==> forall id | id in prices :: id !in ByKey(prices, key);
      if !ok { return None; }
      var id := nextId;
      nextId := nextId + 1;
      prices := WithPrice(prices, id, p, key);
      r := Some(id);
    }

    method Archive(id: nat) returns (ok: bool)
      requires Valid() && id in prices
      modifies this`prices, this`writesLeft
      ensures Valid() && (ok <==> old(writesLeft) != Some(0)) && writesLeft == OneLess(old(writesLeft))
      ensures prices == if ok then old(prices)[id := old(prices)[id].(active := false)] else old(prices)
    {
      ok := Accept();
      if ok { prices := prices[id := prices[id].(active := false)]; }
    }

    /** The active price that holds the key, if any. */
    method ListActive(key: string) returns (r: Option<nat>)
      ensures r.Some? ==> r.value in ByKey(prices, key)
      ensures r.None? ==> ByKey(prices, key) == map[]
    {
      var holders := set id | id in prices && Holds(prices[id], key);
      assert holders == ByKey(prices, key).Keys;
      if holders == {} {
        return None;
      }
      var id :| id in holders;
      r := Some(id);
    }

    /** Search where it answers; otherwise a scan of the active products. */
    method FindProductBySlug(slug: string) returns (r: Option<nat>)
      ensures Answers(BySlug(products, slug), slug, index, r)
    {
      if slug in index {
        var found := set id | id in products && HasSlug(products[id], slug);
        if found != {} {
          var id :| id in found;
          return Some(id);
        }
        assert forall id | id in products :: id !in found;
      }
      var listed := set id | id in products && products[id].active;
      while listed != {}
        invariant listed <= products.Keys && forall id | id in listed :: products[id].active
        invariant forall id | id in products && products[id].active && HasSlug(products[id], slug) :: id in listed
        decreases |listed|
      {
        var id :| id in listed;
        if HasSlug(products[id], slug) {
          return Some(id);
        }
        listed := listed - {id};
      }
      r := None;
    }
  }

  // ---- What a run leaves alone ----

  predicate SlugIn(p: Product, slugs: set<string>) {
    SLUG_KEY in p.metadata && p.metadata[SLUG_KEY] in slugs
  }

  /** Products are never removed, and only those of the given slugs are written. */
  ghost predicate OnlySlugs(before: map<nat, Product>, after: map<nat, Product>, slugs: set<string>) {
    && before.Keys <= after.Keys
    && (forall id | id in before && !SlugIn(before[id], slugs) :: after[id] == before[id])
    && forall id | id in after && !(id in before && after[id] == before[id]) ::
         SlugIn(after[id], slugs) && (id in before ==> before[id].metadata[SLUG_KEY] == after[id].metadata[SLUG_KEY])
  }

  predicate KeyIn(p: Price, keys: set<string>) {
    p.active && p.lookupKey.Some? && p.lookupKey.value in keys
  }

  function Retired(p: Price): Price { p.(lookupKey := None, active := false) }

  /**
   * Prices are never removed; only holders of the given keys are retired, and
   * new prices hold one of them. `orphans` lost their key and stayed active.
   */
  ghost predicate OnlyKeys(before: map<nat, Price>, after: map<nat, Price>, keys: set<string>, orphans: set<nat>) {
    && before.Keys <= after.Keys && orphans <= before.Keys
    && (forall id | id in before && id !in orphans ::
         after[id] == before[id] || (KeyIn(before[id], keys) && after[id] == Retired(before[id])))
    && (forall id | id in orphans :: KeyIn(before[id], keys) && after[id] == before[id].(lookupKey := None))
    && forall id | id in after && id !in before :: KeyIn(after[id], keys)
  }

  lemma OnlySlugsView(before: map<nat, Product>, after: map<nat, Product>, slugs: set<string>, slug: string)
    requires OnlySlugs(before, after, slugs) && slug !in slugs
    ensures BySlug(after, slug) == BySlug(before, slug)
  {
  }

  lemma OnlyKeysView(before: map<nat, Price>, after: map<nat, Price>, keys: set<string>, orphans: set<nat>, key: string)
    requires OnlyKeys(before, after, keys, orphans) && key !in keys
    ensures ByKey(after, key) == ByKey(before, key)
  {
  }

  lemma OnlySlugsTwice(a: map<nat, Product>, b: map<nat, Product>, c: map<nat, Product>, s: set<string>, t: set<string>)
    requires OnlySlugs(a, b, s) && OnlySlugs(b, c, t)
    ensures OnlySlugs(a, c, s + t)
  {
  }

  lemma OnlyKeysTwice(a: map<nat, Price>, b: map<nat, Price>, c: map<nat, Price>, s: set<string>, t: set<string>,
                      orphans: set<nat>)
    requires OnlyKeys(a, b, s, {}) && OnlyKeys(b, c, t, orphans) && s !! t
    ensures OnlyKeys(a, c, s + t, orphans)
  {
    forall id | id in orphans ensures id in a && a[id] == b[id] {
      assert KeyIn(b[id], t);
    }
  }

  /** Active prices without a lookup key: nothing the script does will ever find them. */
  function Orphans(prices: map<nat, Price>): set<nat> {
    set id | id in prices && prices[id].active && prices[id].lookupKey.None?
  }

  lemma OrphansGrow(before: map<nat, Price>, after: map<nat, Price>, keys: set<string>, orphans: set<nat>)
    requires OnlyKeys(before, after, keys, orphans)
    ensures Orphans(after) == Orphans(before) + orphans && Orphans(before) !! orphans
  {
  }

  /** The price a throwing write leaves behind without its key. */
  function OrphanOf(at: Write): set<nat> { if at.PriceArchive? then {at.price} else {} }

  /** A lookup that had one answer still has one. */
  ghost predicate VisibleKept(before: map<nat, Product>, after: map<nat, Product>, index: set<string>) {
    forall slug: string ::
      OneVisible(BySlug(before, slug), slug, index) ==> OneVisible(BySlug(after, slug), slug, index)
  }

  // ---- Products ----

  /**
   * As desired: active, under the entry's name and slug, marked as version 2
   * unless the entry says otherwise, with every metadata value of the entry.
   */
  lemma DesiredMeans(p: Product, item: Item)
    requires SLUG_KEY !in item.metadata
    ensures !DiffersFromDesired(p, Desired(item)) <==>
      && p.active && p.name == item.name && HasSlug(p, item.slug)
      && (VERSION_KEY in item.metadata || (VERSION_KEY in p.metadata && p.metadata[VERSION_KEY] == "v2"))
      && forall k | k in item.metadata :: k in p.metadata && p.metadata[k] == item.metadata[k]
  {
    var d := Desired(item).metadata;
    assert SLUG_KEY in d && VERSION_KEY in d && d.Keys == {SLUG_KEY, VERSION_KEY} + item.metadata.Keys;
  }

  /** Metadata the script does not manage: what a product had before stays, and nothing is added. */
  ghost predicate ForeignKept(before: map<nat, Product>, p: Product, found: Option<nat>, item: Item) {
    forall k | k != SLUG_KEY && k != VERSION_KEY && k !in item.metadata ::
      && (k in p.metadata <==> found.Some? && found.value in before && k in before[found.value].metadata)
      && (k in p.metadata ==> p.metadata[k] == before[found.value].metadata[k])
  }

  /**
   * Writing the product a lookup found, or a new one where it found none: that
   * product ends as desired, and nothing changes where nothing differed.
   */
  lemma ProductWritten(before: map<nat, Product>, after: map<nat, Product>, item: Item, index: set<string>,
                       found: Option<nat>, id: Id)
    requires SLUG_KEY !in item.metadata && (forall x | x in before :: HasSlug(before[x], item.slug))
    requires Answers(before, item.slug, index, found) && ProductDone(before, after, found, id, item)
    ensures id.n in after && HasSlug(after[id.n], item.slug) && !DiffersFromDesired(after[id.n], Desired(item))
    ensures ForeignKept(before, after[id.n], found, item)
    ensures ProductAction(before, found, item) == Reuse ==> after == before
  {
    var d := Desired(item);
    assert HasSlug(d, item.slug);
    if found.Some? && !DiffersFromDesired(before[id.n], d) {
      assert after[id.n].metadata == before[id.n].metadata;
    }
  }

  lemma OthersAreHidden(before: map<nat, Product>, after: map<nat, Product>, item: Item, index: set<string>,
                        found: Option<nat>, id: Id)
    requires Answers(before, item.slug, index, found) && ProductDone(before, after, found, id, item)
    requires OneVisible(before, item.slug, index)
    ensures after.Keys == {id.n} + Hidden(before, item.slug, index) && id.n !in Hidden(before, item.slug, index)
    ensures forall x | x in Hidden(before, item.slug, index) :: after[x] == before[x]
  {
  }

  /**
   * If the lookup had one answer, the slug then has one active product, and
   * beside it exactly the products that were hidden.
   */
  lemma ProductOutcome(before: map<nat, Product>, after: map<nat, Product>, item: Item, index: set<string>,
                       found: Option<nat>, id: Id)
    requires SLUG_KEY !in item.metadata && (forall x | x in before :: HasSlug(before[x], item.slug))
    requires Answers(before, item.slug, index, found) && ProductDone(before, after, found, id, item)
    requires OneVisible(before, item.slug, index)
    ensures Active(after) == {id.n} && ProductSynced(after, item)
    ensures after.Keys == {id.n} + Hidden(before, item.slug, index) && id.n !in Hidden(before, item.slug, index)
    ensures AtMostOne(after) <==> Hidden(before, item.slug, index) == {}
    ensures OneVisible(after, item.slug, index) && Hidden(after, item.slug, index) == Hidden(before, item.slug, index)
  {
    ProductWritten(before, after, item, index, found, id);
    OthersAreHidden(before, after, item, index, found, id);
    var hidden := Hidden(before, item.slug, index);
    assert Active(after) == {id.n};
    if hidden != {} {
      var h :| h in hidden;
      assert h in after && h != id.n;
    }
  }

  /**
   * The actions reported for a product: create exactly where one was added, reuse
   * exactly where the write changed nothing.
   */
  lemma ProductActionMeans(before: map<nat, Product>, after: map<nat, Product>, item: Item, index: set<string>,
                           found: Option<nat>, id: Id)
    requires SLUG_KEY !in item.metadata && (forall x | x in before :: HasSlug(before[x], item.slug))
    requires Answers(before, item.slug, index, found) && ProductDone(before, after, found, id, item)
    ensures ProductAction(before, found, item) == Create <==> id.n !in before
    ensures ProductAction(before, found, item) == Reuse <==> after == before
  {
    ProductWritten(before, after, item, index, found, id);
  }

  /** And for a price: create exactly where the key had none, reuse exactly where it keeps its price. */
  lemma PriceActionMeans(before: map<nat, Price>, after: map<nat, Price>, spec: PriceSpec, product: Id, id: Id)
    requires PriceDone(before, after, spec, product, id)
    ensures PlannedPrice(before, spec) == Create <==> before == map[]
    ensures PlannedPrice(before, spec) == Reuse ==> id.n in before && after[id.n] == before[id.n]
  {
  }

  /** One write touches only its slug. */
  lemma OneSlug(before: map<nat, Product>, id: nat, slug: string, written: Product)
    requires HasSlug(written, slug) && (id in before ==> HasSlug(before[id], slug))
    ensures OnlySlugs(before, before[id := written], {slug})
  {
  }

  /** And it settles the products of the slug. */
  lemma OneWrite(before: map<nat, Product>, found: Option<nat>, id: nat, item: Item, written: Product)
    requires HasSlug(written, item.slug) && (if found.Some? then id == found.value else id !in before)
    requires found.Some? ==> id in before && HasSlug(before[id], item.slug)
    requires written == if found.Some? then Merged(before[id], Desired(item)) else Desired(item)
    ensures BySlug(before[id := written], item.slug) == Settled(BySlug(before, item.slug), found, id, item)
  {
    var after, settled := BySlug(before[id := written], item.slug), Settled(BySlug(before, item.slug), found, id, item);
    assert after.Keys == settled.Keys;
    assert after[id] == settled[id];
  }

  lemma KeepsVisible(before: map<nat, Product>, after: map<nat, Product>, slug: string, index: set<string>)
    requires OnlySlugs(before, after, {slug})
    requires OneVisible(BySlug(before, slug), slug, index) ==> OneVisible(BySlug(after, slug), slug, index)
    ensures VisibleKept(before, after, index)
  {
    forall other: string | other != slug ensures BySlug(after, other) == BySlug(before, other) {
      OnlySlugsView(before, after, {slug}, other);
    }
  }

  lemma StoreOutcome(before: map<nat, Product>, found: Option<nat>, id: nat, item: Item, index: set<string>)
    requires SLUG_KEY !in item.metadata && Answers(BySlug(before, item.slug), item.slug, index, found)
    requires if found.Some? then id == found.value else id !in before
    ensures var written := if found.Some? then Merged(before[id], Desired(item)) else Desired(item);
      var after := before[id := written];
      && OnlySlugs(before, after, {item.slug})
      && (OneVisible(BySlug(before, item.slug), item.slug, index) ==>
            OneVisible(BySlug(after, item.slug), item.slug, index))
      && ProductDone(BySlug(before, item.slug), BySlug(after, item.slug), found, Real(id), item)
      && (ProductAction(BySlug(before, item.slug), found, item) == Reuse ==> after == before)
  {
    var written := if found.Some? then Merged(before[id], Desired(item)) else Desired(item);
    var after := before[id := written];
    var view := BySlug(before, item.slug);
    OneSlug(before, id, item.slug, written);
    OneWrite(before, found, id, item, written);
    ProductWritten(view, BySlug(after, item.slug), item, index, found, Real(id));
    if OneVisible(view, item.slug, index) {
      ProductOutcome(view, BySlug(after, item.slug), item, index, found, Real(id));
    }
    if ProductAction(view, found, item) == Reuse {
      assert after[id] == BySlug(after, item.slug)[id] == view[id] == before[id];
    }
  }

  datatype Ensured = Ensured(id: Id, action: Action)

  method EnsureProduct(stripe: Stripe, item: Item, apply: bool)
    returns (r: Result<Ensured, Write>, ghost found: Option<nat>)
    requires stripe.Valid() && SLUG_KEY !in item.metadata
    modifies stripe`products, stripe`nextId, stripe`writesLeft
    ensures stripe.Valid()
    ensures Sent(old(stripe.writesLeft), stripe.writesLeft, Applied(apply, [ProductWrite(found)]), Thrown(r))
    ensures Answers(BySlug(old(stripe.products), item.slug), item.slug, stripe.index, found)
    ensures r.Ok? ==> r.value.action == ProductAction(BySlug(old(stripe.products), item.slug), found, item)
    ensures !apply || r.Err? || r.value.action == Reuse ==> stripe.products == old(stripe.products)
    ensures r.Err? ==> !r.error.PriceArchive?
    ensures r.Ok? && !apply ==> r.value.id == if found.Some? then Real(found.value) else DryRun(item.slug)
    ensures r.Ok? && apply ==>
      ProductDone(BySlug(old(stripe.products), item.slug), BySlug(stripe.products, item.slug), found, r.value.id, item)
    ensures OnlySlugs(old(stripe.products), stripe.products, {item.slug})
    ensures OneVisible(BySlug(old(stripe.products), item.slug), item.slug, stripe.index) ==>
      OneVisible(BySlug(stripe.products, item.slug), item.slug, stripe.index)
  {
    var existing := stripe.FindProductBySlug(item.slug);
    found := existing;
    var desired := Desired(item);
    ghost var before := stripe.products;
    if existing.Some? {
      var e := existing.value;
      var differs := DiffersFromDesired(stripe.products[e], desired);
      if apply {
        StoreOutcome(before, found, e, item, stripe.index);
        var ok := stripe.UpdateProduct(e, desired);
        if !ok { return Err(ProductUpdate(e)), found; }
      }
      return Ok(Ensured(Real(e), if differs then Update else Reuse)), found;
    }
    if !apply {
      return Ok(Ensured(DryRun(item.slug), Create)), found;
    }
    var created := stripe.CreateProduct(desired);
    if created.None? { return Err(ProductCreate), found; }
    StoreOutcome(before, found, created.value, item, stripe.index);
    return Ok(Ensured(Real(created.value), Create)), found;
  }

  // ---- Prices ----

  lemma OneHolder(prices: map<nat, Price>, key: string, id: nat)
    requires OnePricePerKey(prices) && id in ByKey(prices, key)
    ensures ByKey(prices, key).Keys == {id}
    ensures ByKey(prices, key) != map[]
  {
  }

  /** A price takes the key over, and its stale holder is retired. */
  lemma NewHolder(before: map<nat, Price>, after: map<nat, Price>, id: nat, price: Price, spec: PriceSpec)
    requires id !in before && after.Keys == before.Keys + {id} && after[id] == price
    requires price == Price(price.product, Some(spec.lookupKey), spec.amount, spec.interval, true, spec.metadata)
    requires forall x | x in before ::
      after[x] == if Holds(before[x], spec.lookupKey) then Retired(before[x]) else before[x]
    requires forall x | x in ByKey(before, spec.lookupKey) :: !PriceMatches(before[x], spec)
    ensures OnlyKeys(before, after, {spec.lookupKey}, {})
    ensures PriceDone(ByKey(before, spec.lookupKey), ByKey(after, spec.lookupKey), spec, price.product, Real(id))
  {
    assert ByKey(after, spec.lookupKey).Keys == {id};
  }

  /** What ensuring one price comes to. */
  ghost predicate PriceTurn(before: map<nat, Price>, now: map<nat, Price>, product: Id, spec: PriceSpec,
                            r: Result<Ensured, Write>, apply: bool) {
    match r
    case Ok(Ensured(id, action)) =>
      && action == PlannedPrice(ByKey(before, spec.lookupKey), spec)
      && (!apply || action == Reuse ==> now == before)
      && OnlyKeys(before, now, {spec.lookupKey}, {})
      && (if apply then
            PriceDone(ByKey(before, spec.lookupKey), ByKey(now, spec.lookupKey), spec, product, id)
          else if action == Create then id == DryRun(spec.lookupKey)
          else id.Real? && id.n in ByKey(now, spec.lookupKey))
    case Err(at) =>
      && apply && (!at.PriceArchive? ==> now == before)
      && OnlyKeys(before, now, {spec.lookupKey}, OrphanOf(at))
  }

  /** The key's one holder, if it has any. */
  ghost predicate IsHolder(view: map<nat, Price>, existing: Option<nat>) {
    if existing.Some? then view.Keys == {existing.value} else view == map[]
  }

  /** Where the holder matches, or nothing may be written, the store stays as it is. */
  lemma NothingWritten(prices: map<nat, Price>, product: Id, spec: PriceSpec, existing: Option<nat>, apply: bool)
    requires IsHolder(ByKey(prices, spec.lookupKey), existing)
    ensures existing.Some? && PriceMatches(prices[existing.value], spec) ==>
      PriceTurn(prices, prices, product, spec, Ok(Ensured(Real(existing.value), Reuse)), apply)
    ensures !apply && existing.Some? && !PriceMatches(prices[existing.value], spec) ==>
      PriceTurn(prices, prices, product, spec, Ok(Ensured(Real(existing.value), Update)), apply)
    ensures !apply && existing.None? ==>
      PriceTurn(prices, prices, product, spec, Ok(Ensured(DryRun(spec.lookupKey), Create)), apply)
    ensures apply ==> PriceTurn(prices, prices, product, spec, Err(PriceCreate(spec.lookupKey)), apply)
  {
    if existing.Some? { assert existing.value in ByKey(prices, spec.lookupKey); }
  }

  lemma PlannedFor(view: map<nat, Price>, spec: PriceSpec, existing: Option<nat>)
    requires IsHolder(view, existing)
    ensures PriceWrites(view, spec) ==
      if existing.None? then [PriceCreate(spec.lookupKey)]
      else if PriceMatches(view[existing.value], spec) then []
      else [PriceCreate(spec.lookupKey), PriceArchive(existing.value)]
  {
    if existing.Some? { assert existing.value in view && HolderOf(view) in view.Keys; }
  }

  /** The new price holds the key and its stale holder, if any, has lost it; archiving that one is all that is left. */
  lemma PriceWritten(before: map<nat, Price>, now: map<nat, Price>, id: nat, product: Id, spec: PriceSpec,
                     existing: Option<nat>)
    requires IsHolder(ByKey(before, spec.lookupKey), existing)
    requires existing.Some? ==> !PriceMatches(before[existing.value], spec)
    requires id !in before && now.Keys == before.Keys + {id}
    requires now[id] == Price(product, Some(spec.lookupKey), spec.amount, spec.interval, true, spec.metadata)
    requires forall x | x in before ::
      now[x] == if Holds(before[x], spec.lookupKey) then before[x].(lookupKey := None) else before[x]
    ensures existing.None? ==> PriceTurn(before, now, product, spec, Ok(Ensured(Real(id), Create)), true)
    ensures existing.Some? ==>
      && existing.value in now
      && PriceTurn(before, now, product, spec, Err(PriceArchive(existing.value)), true)
      && var archived := now[existing.value := now[existing.value].(active := false)];
         PriceTurn(before, archived, product, spec, Ok(Ensured(Real(id), Update)), true)
  {
    forall x | x in before && Holds(before[x], spec.lookupKey) ensures existing == Some(x) {
      assert x in ByKey(before, spec.lookupKey);
    }
    if existing.Some? {
      assert existing.value in ByKey(before, spec.lookupKey);
      NewHolder(before, now[existing.value := now[existing.value].(active := false)], id, now[id], spec);
    } else {
      NewHolder(before, now, id, now[id], spec);
    }
  }

  method EnsurePrice(stripe: Stripe, product: Id, spec: PriceSpec, apply: bool) returns (r: Result<Ensured, Write>)
    requires stripe.Valid()
    modifies stripe`prices, stripe`nextId, stripe`writesLeft
    ensures stripe.Valid() && PriceTurn(old(stripe.prices), stripe.prices, product, spec, r, apply)
    ensures Sent(old(stripe.writesLeft), stripe.writesLeft,
                 Applied(apply, PriceWrites(ByKey(old(stripe.prices), spec.lookupKey), spec)), Thrown(r))
  {
    var key := spec.lookupKey;
    ghost var before := stripe.prices;
    var existing := stripe.ListActive(key);
    if existing.Some? { OneHolder(before, key, existing.value); }
    PlannedFor(ByKey(before, key), spec, existing);
    ghost var writes := PriceWrites(ByKey(before, key), spec);
    SentOne(stripe.writesLeft, PriceCreate(key));
    if existing.Some? { SentTwo(stripe.writesLeft, PriceCreate(key), PriceArchive(existing.value)); }
    NothingWritten(before, product, spec, existing, apply);
    if existing.Some? && PriceMatches(stripe.prices[existing.value], spec) {
      r := Ok(Ensured(Real(existing.value), Reuse));
      assert writes == [];
    } else if !apply {
      r := Ok(if existing.Some? then Ensured(Real(existing.value), Update) else Ensured(DryRun(key), Create));
    } else {
      var price := Price(product, Some(key), spec.amount, spec.interval, true, spec.metadata);
      var created := stripe.CreatePrice(price, key, existing.Some?);
      assert |writes| > 0 && writes[0] == PriceCreate(key);
      if created.None? {
        r := Err(PriceCreate(key));
      } else {
        PriceWritten(before, stripe.prices, created.value, product, spec, existing);
        if existing.None? {
          assert writes == [PriceCreate(key)];
          r := Ok(Ensured(Real(created.value), Create));
        } else {
          assert writes == [PriceCreate(key), PriceArchive(existing.value)];
          var archived := stripe.Archive(existing.value);
          r := if archived then Ok(Ensured(Real(created.value), Update)) else Err(PriceArchive(existing.value));
        }
      }
    }
  }

  /** The store once these prices have been ensured, from what it was. */
  ghost predicate PricesTurn(before: map<nat, Price>, now: map<nat, Price>, specs: seq<PriceSpec>,
                             product: Id, ids: seq<Id>, actions: seq<Action>, apply: bool) {
    && actions == PlannedPrices(before, specs) && |ids| == |specs|
    && OnlyKeys(before, now, KeysOf(specs), {})
    && (!apply || (forall a | a in actions :: a == Reuse) ==> now == before)
    && (apply ==> PricesDone(before, now, specs, product, ids))
  }

  /** Prices whose keys are not among those written stay done. */
  lemma StillDone(was: map<nat, Price>, before: map<nat, Price>, after: map<nat, Price>, specs: seq<PriceSpec>,
                  product: Id, ids: seq<Id>, keys: set<string>)
    requires OnlyKeys(before, after, keys, {}) && keys !! KeysOf(specs) && PricesDone(was, before, specs, product, ids)
    ensures PricesDone(was, after, specs, product, ids)
  {
    forall i | 0 <= i < |specs| ensures ByKey(after, specs[i].lookupKey) == ByKey(before, specs[i].lookupKey) {
      assert specs[i].lookupKey in KeysOf(specs);
      OnlyKeysView(before, after, keys, {}, specs[i].lookupKey);
    }
  }

  /** One price more, or a run of prices cut short at this one. */
  lemma PricesStep(before: map<nat, Price>, p: map<nat, Price>, now: map<nat, Price>, specs: seq<PriceSpec>, i: nat,
                   product: Id, ids: seq<Id>, actions: seq<Action>, ensured: Result<Ensured, Write>, apply: bool)
    requires i < |specs| && forall a, b | 0 <= a < b < |specs| :: specs[a].lookupKey != specs[b].lookupKey
    requires PricesTurn(before, p, specs[..i], product, ids, actions, apply)
    requires PriceTurn(p, now, product, specs[i], ensured, apply)
    ensures ensured.Ok? ==>
      PricesTurn(before, now, specs[..i + 1], product, ids + [ensured.value.id], actions + [ensured.value.action],
                 apply)
    ensures ensured.Err? ==> OnlyKeys(before, now, KeysOf(specs), OrphanOf(ensured.error))
  {
    var spec := specs[i];
    NewKey(specs, i);
    OnlyKeysView(before, p, KeysOf(specs[..i]), {}, spec.lookupKey);
    assert specs[..i + 1] == specs[..i] + [spec];
    if ensured.Err? {
      OnlyKeysTwice(before, p, now, KeysOf(specs[..i]), {spec.lookupKey}, OrphanOf(ensured.error));
      OnlyKeysMore(before, now, KeysOf(specs[..i]) + {spec.lookupKey}, KeysOf(specs), OrphanOf(ensured.error));
    } else {
      OnePriceMore(before, p, now, specs[..i], spec, product, ids, ensured.value.id, actions, ensured.value.action,
                   apply);
    }
  }

  lemma OnePriceMore(before: map<nat, Price>, p: map<nat, Price>, now: map<nat, Price>, specs: seq<PriceSpec>,
                     spec: PriceSpec, product: Id, ids: seq<Id>, id: Id, actions: seq<Action>, action: Action,
                     apply: bool)
    requires spec.lookupKey !in KeysOf(specs) && PricesTurn(before, p, specs, product, ids, actions, apply)
    requires action == PlannedPrice(ByKey(before, spec.lookupKey), spec) && OnlyKeys(p, now, {spec.lookupKey}, {})
    requires !apply || action == Reuse ==> now == p
    requires apply ==> PriceDone(ByKey(before, spec.lookupKey), ByKey(now, spec.lookupKey), spec, product, id)
    ensures PricesTurn(before, now, specs + [spec], product, ids + [id], actions + [action], apply)
  {
    OnlyKeysTwice(before, p, now, KeysOf(specs), {spec.lookupKey}, {});
    KeysGrow(specs, spec);
    ActionsGrow(before, specs, spec, actions, action);
    if apply {
      StillDone(before, p, now, specs, product, ids, {spec.lookupKey});
      OnePriceDone(before, now, specs, spec, product, ids, id);
    }
  }

  lemma ActionsGrow(before: map<nat, Price>, specs: seq<PriceSpec>, spec: PriceSpec, actions: seq<Action>,
                    action: Action)
    requires actions == PlannedPrices(before, specs) && action == PlannedPrice(ByKey(before, spec.lookupKey), spec)
    ensures PlannedPrices(before, specs + [spec]) == actions + [action]
    ensures (forall a | a in actions + [action] :: a == Reuse) ==>
      action == Reuse && forall a | a in actions :: a == Reuse
  {
    var acts := actions + [action];
    assert action in acts && forall a | a in actions :: a in acts;
  }

  lemma OnePriceDone(was: map<nat, Price>, now: map<nat, Price>, specs: seq<PriceSpec>, spec: PriceSpec, product: Id,
                     ids: seq<Id>, id: Id)
    requires PricesDone(was, now, specs, product, ids)
    requires PriceDone(ByKey(was, spec.lookupKey), ByKey(now, spec.lookupKey), spec, product, id)
    ensures PricesDone(was, now, specs + [spec], product, ids + [id])
  {
  }

  lemma KeysGrow(specs: seq<PriceSpec>, spec: PriceSpec)
    ensures KeysOf(specs + [spec]) == KeysOf(specs) + {spec.lookupKey}
  {
    var all := specs + [spec];
    assert all[|specs|] == spec && forall i | 0 <= i < |specs| :: all[i] == specs[i];
  }

  lemma NewKey(specs: seq<PriceSpec>, i: nat)
    requires i < |specs| && forall a, b | 0 <= a < b < |specs| :: specs[a].lookupKey != specs[b].lookupKey
    ensures specs[i].lookupKey !in KeysOf(specs[..i]) && KeysOf(specs[..i]) + {specs[i].lookupKey} <= KeysOf(specs)
  {
  }

  lemma PricesStart(before: map<nat, Price>, product: Id, apply: bool)
    ensures PricesTurn(before, before, [], product, [], [], apply)
  {
  }

  /** Keys that are not written after all may be named too. */
  lemma OnlyKeysMore(before: map<nat, Price>, after: map<nat, Price>, keys: set<string>, more: set<string>,
                     orphans: set<nat>)
    requires OnlyKeys(before, after, keys, orphans) && keys <= more
    ensures OnlyKeys(before, after, more, orphans)
  {
  }

  lemma {:induction false} SentEarly(prices: map<nat, Price>, specs: seq<PriceSpec>, i: nat, left: Option<nat>,
                                     after: Option<nat>, threw: Write)
    requires i <= |specs| && Sent(left, after, AllPriceWrites(prices, specs[..i]), Some(threw))
    ensures Sent(left, after, AllPriceWrites(prices, specs), Some(threw))
    decreases |specs| - i
  {
    if i == |specs| {
      assert specs[..i] == specs;
    } else {
      var spec := specs[i];
      assert specs[..i + 1][..i] == specs[..i];
      SentInPart(left, after, AllPriceWrites(prices, specs[..i]), PriceWrites(ByKey(prices, spec.lookupKey), spec),
                 threw);
      SentEarly(prices, specs, i + 1, left, after, threw);
    }
  }

  /** The writes of one price more. */
  lemma OnePriceSent(before: map<nat, Price>, p: map<nat, Price>, specs: seq<PriceSpec>, i: nat, first: Option<nat>,
                     left: Option<nat>, after: Option<nat>, threw: Option<Write>, apply: bool)
    requires i < |specs| && forall a, b | 0 <= a < b < |specs| :: specs[a].lookupKey != specs[b].lookupKey
    requires OnlyKeys(before, p, KeysOf(specs[..i]), {})
    requires Sent(first, left, Applied(apply, AllPriceWrites(before, specs[..i])), None)
    requires Sent(left, after, Applied(apply, PriceWrites(ByKey(p, specs[i].lookupKey), specs[i])), threw)
    ensures Sent(first, after, Applied(apply, AllPriceWrites(before, specs[..i + 1])), threw)
    ensures threw.Some? ==> Sent(first, after, Applied(apply, AllPriceWrites(before, specs)), threw)
  {
    NewKey(specs, i);
    OnlyKeysView(before, p, KeysOf(specs[..i]), {}, specs[i].lookupKey);
    assert specs[..i + 1][..i] == specs[..i];
    if apply {
      SentBoth(first, left, after, AllPriceWrites(before, specs[..i]),
               PriceWrites(ByKey(p, specs[i].lookupKey), specs[i]), threw);
      if threw.Some? { SentEarly(before, specs, i + 1, first, after, threw.value); }
    }
  }

  /** Every price of one catalog entry. */
  method EnsurePrices(stripe: Stripe, product: Id, specs: seq<PriceSpec>, apply: bool)
    returns (r: Result<seq<Id>, Write>, actions: seq<Action>)
    requires stripe.Valid()
    requires forall a, b | 0 <= a < b < |specs| :: specs[a].lookupKey != specs[b].lookupKey
    modifies stripe`prices, stripe`nextId, stripe`writesLeft
    ensures stripe.Valid()
    ensures Sent(old(stripe.writesLeft), stripe.writesLeft,
                 Applied(apply, AllPriceWrites(old(stripe.prices), specs)), Thrown(r))
    ensures r.Ok? ==> PricesTurn(old(stripe.prices), stripe.prices, specs, product, r.value, actions, apply)
    ensures r.Err? ==> OnlyKeys(old(stripe.prices), stripe.prices, KeysOf(specs), OrphanOf(r.error))
  {
    var ids := [];
    actions := [];
    ghost var before := stripe.prices;
    PricesStart(before, product, apply);
    assert specs[..0] == [];
    for i := 0 to |specs|
      invariant stripe.Valid()
      invariant Sent(old(stripe.writesLeft), stripe.writesLeft, Applied(apply, AllPriceWrites(before, specs[..i])),
                     None)
      invariant PricesTurn(before, stripe.prices, specs[..i], product, ids, actions, apply)
    {
      ghost var p, left := stripe.prices, stripe.writesLeft;
      var ensured := EnsurePrice(stripe, product, specs[i], apply);
      PricesStep(before, p, stripe.prices, specs, i, product, ids, actions, ensured, apply);
      OnePriceSent(before, p, specs, i, old(stripe.writesLeft), left, stripe.writesLeft, Thrown(ensured), apply);
      if ensured.Err? {
        return Err(ensured.error), actions;
      }
      ids, actions := ids + [ensured.value.id], actions + [ensured.value.action];
    }
    assert specs[..|specs|] == specs;
    r := Ok(ids);
  }

  // ---- The run ----

  datatype SyncError = NoDerivedProduct(slug: string) | Interrupted(at: Write)

  /** What `SyncItem` promises of one entry. */
  ghost predicate ItemTurn(p: Stores, now: Stores, index: set<string>, item: Item, found: Option<nat>, links: Links,
                           report: ItemReport, apply: bool) {
    && EntryPlanned(p, index, item, found, links, report)
    && (!apply || AllReuse(report) ==> now == p)
    && OnlySlugs(p.products, now.products, {item.slug}) && OnlyKeys(p.prices, now.prices, KeysOf(item.prices), {})
    && (apply ==> EntryDone(p, now, item, found, links))
  }

  /** What one entry's turn does to the store; a write that throws leaves part of it. */
  method SyncItem(stripe: Stripe, item: Item, apply: bool)
    returns (r: Result<Links, Write>, report: ItemReport, ghost found: Option<nat>)
    requires stripe.Valid() && CatalogOk([item])
    modifies stripe`products, stripe`prices, stripe`nextId, stripe`writesLeft
    ensures stripe.Valid() && Answers(BySlug(old(stripe.products), item.slug), item.slug, stripe.index, found)
    ensures Sent(old(stripe.writesLeft), stripe.writesLeft,
                 Applied(apply, ItemWrites(Stores(old(stripe.products), old(stripe.prices)), found, item)), Thrown(r))
    ensures r.Ok? ==> ItemTurn(Stores(old(stripe.products), old(stripe.prices)), Stores(stripe.products, stripe.prices),
                               stripe.index, item, found, r.value, report, apply)
    ensures r.Err? ==> OnlyKeys(old(stripe.prices), stripe.prices, KeysOf(item.prices), OrphanOf(r.error))
    ensures OnlySlugs(old(stripe.products), stripe.products, {item.slug})
    ensures OneVisible(BySlug(old(stripe.products), item.slug), item.slug, stripe.index) ==>
      OneVisible(BySlug(stripe.products, item.slug), item.slug, stripe.index)
  {
    assert [item][0] == item;
    ghost var p, first := Stores(stripe.products, stripe.prices), stripe.writesLeft;
    ghost var writes := AllPriceWrites(stripe.prices, item.prices);
    report := ItemReport(Create, []);
    var product;
    product, found := EnsureProduct(stripe, item, apply);
    if product.Err? {
      SentInPart(first, stripe.writesLeft, [ProductWrite(found)], writes, product.error);
      r := Err(product.error);
    } else {
      ghost var left, products := stripe.writesLeft, stripe.products;
      var prices, actions := EnsurePrices(stripe, product.value.id, item.prices, apply);
      assert stripe.products == products;
      if apply { SentBoth(first, left, stripe.writesLeft, [ProductWrite(found)], writes, Thrown(prices)); }
      if prices.Err? {
        r := Err(prices.error);
      } else {
        report := ItemReport(product.value.action, actions);
        r := Ok(Links(product.value.id, prices.value));
        ItemTurns(p, Stores(stripe.products, stripe.prices), stripe.index, item, found, r.value, report, apply);
      }
    }
  }

  /** A product written and its prices ensured make the turn. */
  lemma ItemTurns(p: Stores, now: Stores, index: set<string>, item: Item, found: Option<nat>, links: Links,
                  report: ItemReport, apply: bool)
    requires Answers(BySlug(p.products, item.slug), item.slug, index, found)
    requires report.product == ProductAction(BySlug(p.products, item.slug), found, item)
    requires !apply || report.product == Reuse ==> now.products == p.products
    requires apply ==>
      ProductDone(BySlug(p.products, item.slug), BySlug(now.products, item.slug), found, links.productId, item)
    requires OnlySlugs(p.products, now.products, {item.slug})
    requires PricesTurn(p.prices, now.prices, item.prices, links.productId, links.priceIds, report.prices, apply)
    ensures ItemTurn(p, now, index, item, found, links, report, apply)
  {
  }

  lemma {:induction false} InAll(items: seq<Item>, n: nat, slug: string, key: string)
    requires n <= |items|
    ensures slug in AllSlugs(items[..n]) <==> exists k | 0 <= k < n :: items[k].slug == slug
    ensures key in AllKeys(items[..n]) <==> exists k | 0 <= k < n :: key in KeysOf(items[k].prices)
    decreases n
  {
    if n > 0 {
      InAll(items, n - 1, slug, key);
      assert items[..n][..n - 1] == items[..n - 1];
    }
  }

  /** Two stores hold the same for one entry: the products of its slug and the holders of its keys. */
  ghost predicate SameFor(a: Stores, b: Stores, item: Item) {
    && BySlug(a.products, item.slug) == BySlug(b.products, item.slug)
    && forall i | 0 <= i < |item.prices| ::
         ByKey(a.prices, item.prices[i].lookupKey) == ByKey(b.prices, item.prices[i].lookupKey)
  }

  /** The entries before `i` have not touched what entry `i` will look at. */
  lemma Untouched(items: seq<Item>, i: nat, was: Stores, p: Stores)
    requires CatalogOk(items) && i < |items|
    requires OnlySlugs(was.products, p.products, AllSlugs(items[..i]))
    requires OnlyKeys(was.prices, p.prices, AllKeys(items[..i]), {})
    ensures CatalogOk([items[i]]) && AllKeys(items[..i]) !! KeysOf(items[i].prices) && SameFor(was, p, items[i])
  {
    var item := items[i];
    assert [item][0] == item;
    InAll(items, i, item.slug, "");
    OnlySlugsView(was.products, p.products, AllSlugs(items[..i]), item.slug);
    forall key | key in KeysOf(item.prices)
      ensures key !in AllKeys(items[..i]) && ByKey(p.prices, key) == ByKey(was.prices, key)
    {
      InAll(items, i, item.slug, key);
      OnlyKeysView(was.prices, p.prices, AllKeys(items[..i]), {}, key);
    }
    assert forall k | 0 <= k < |item.prices| :: item.prices[k].lookupKey in KeysOf(item.prices);
  }

  /** An entry's turn leaves the same for another entry. */
  lemma OthersUntouched(p: Stores, now: Stores, item: Item, other: Item)
    requires item.slug != other.slug && KeysOf(item.prices) !! KeysOf(other.prices)
    requires OnlySlugs(p.products, now.products, {other.slug})
    requires OnlyKeys(p.prices, now.prices, KeysOf(other.prices), {})
    ensures SameFor(p, now, item)
  {
    OnlySlugsView(p.products, now.products, {other.slug}, item.slug);
    forall i | 0 <= i < |item.prices|
      ensures ByKey(now.prices, item.prices[i].lookupKey) == ByKey(p.prices, item.prices[i].lookupKey)
    {
      assert item.prices[i].lookupKey in KeysOf(item.prices);
      OnlyKeysView(p.prices, now.prices, KeysOf(other.prices), {}, item.prices[i].lookupKey);
    }
  }

  lemma DoneForSame(was: Stores, was': Stores, now: Stores, now': Stores, item: Item, found: Option<nat>, links: Links)
    requires SameFor(was, was', item) && SameFor(now, now', item) && EntryDone(was, now, item, found, links)
    ensures EntryDone(was', now', item, found, links)
  {
  }

  lemma {:induction false} PriceWritesForSame(a: map<nat, Price>, b: map<nat, Price>, specs: seq<PriceSpec>)
    requires forall i | 0 <= i < |specs| :: ByKey(a, specs[i].lookupKey) == ByKey(b, specs[i].lookupKey)
    ensures AllPriceWrites(a, specs) == AllPriceWrites(b, specs)
    decreases |specs|
  {
    if specs != [] {
      var n := |specs| - 1;
      assert forall i | 0 <= i < n :: specs[..n][i] == specs[i];
      PriceWritesForSame(a, b, specs[..n]);
      assert ByKey(a, specs[n].lookupKey) == ByKey(b, specs[n].lookupKey);
    }
  }

  lemma PlannedForSame(a: Stores, b: Stores, item: Item, found: Option<nat>)
    requires SameFor(a, b, item)
    ensures Planned(a, found, item) == Planned(b, found, item)
  {
  }

  /** What an entry's report rests on, and how many prices its turn answered with. */
  ghost predicate EntryPlanned(was: Stores, index: set<string>, item: Item, found: Option<nat>, links: Links,
                               report: ItemReport) {
    && Answers(BySlug(was.products, item.slug), item.slug, index, found)
    && report == Planned(was, found, item) && |links.priceIds| == |item.prices|
  }

  /** What a run knows of each entry it has been through, and the writes these call for. */
  datatype Log = Log(founds: seq<Option<nat>>, links: seq<Links>, reports: seq<ItemReport>, writes: seq<Write>)

  const NO_LOG: Log := Log([], [], [], [])

  predicate LogOf(log: Log, n: nat) { |log.founds| == n && |log.links| == n && |log.reports| == n }

  /** The log once an entry has been looked up. */
  function LogAsked(log: Log, found: Option<nat>, writes: seq<Write>): Log {
    log.(founds := log.founds + [found], writes := log.writes + writes)
  }

  /** And once its turn has answered. */
  function LogWith(log: Log, found: Option<nat>, writes: seq<Write>, links: Links, report: ItemReport): Log {
    LogAsked(log, found, writes).(links := log.links + [links], reports := log.reports + [report])
  }

  /** The first `n` entries were answered like this, and these are the writes the answers call for. */
  ghost predicate CallsFor(was: Stores, index: set<string>, items: seq<Item>, n: nat, log: Log) {
    && n <= |items| && |log.founds| == n
    && (forall k | 0 <= k < n :: Answers(BySlug(was.products, items[k].slug), items[k].slug, index, log.founds[k]))
    && log.writes == RunWrites(was, items[..n], log.founds)
  }

  lemma CallsForMore(was: Stores, p: Stores, index: set<string>, items: seq<Item>, n: nat, log: Log,
                     found: Option<nat>)
    requires n < |items| && CallsFor(was, index, items, n, log) && SameFor(was, p, items[n])
    requires Answers(BySlug(p.products, items[n].slug), items[n].slug, index, found)
    ensures CallsFor(was, index, items, n + 1, LogAsked(log, found, ItemWrites(p, found, items[n])))
  {
    PriceWritesForSame(was.prices, p.prices, items[n].prices);
    assert items[..n + 1][..n] == items[..n] && (log.founds + [found])[..n] == log.founds;
  }

  /** The run after its first `n` entries. */
  ghost predicate Progress(was: Stores, now: Stores, index: set<string>, items: seq<Item>, n: nat, log: Log,
                           apply: bool)
    requires n <= |items|
  {
    && LogOf(log, n) && CallsFor(was, index, items, n, log)
    && (forall k | 0 <= k < n :: EntryPlanned(was, index, items[k], log.founds[k], log.links[k], log.reports[k]))
    && (!apply || (forall x | x in log.reports :: AllReuse(x)) ==> now == was)
    && OnlySlugs(was.products, now.products, AllSlugs(items[..n]))
    && OnlyKeys(was.prices, now.prices, AllKeys(items[..n]), {})
    && (apply ==> forall k | 0 <= k < n :: EntryDone(was, now, items[k], log.founds[k], log.links[k]))
  }

  lemma ProgressStep(was: Stores, p: Stores, now: Stores, index: set<string>, items: seq<Item>, i: nat, log: Log,
                     found: Option<nat>, writes: seq<Write>, links: Links, report: ItemReport, apply: bool)
    requires CatalogOk(items) && i < |items| && writes == ItemWrites(p, found, items[i])
    requires Progress(was, p, index, items, i, log, apply)
    requires ItemTurn(p, now, index, items[i], found, links, report, apply)
    ensures Progress(was, now, index, items, i + 1, LogWith(log, found, writes, links, report), apply)
  {
    Untouched(items, i, was, p);
    FrameStep(was, p, now, items, i, {});
    CallsForMore(was, p, index, items, i, log, found);
    PlannedStep(was, p, index, items, i, log, found, writes, links, report);
    ReuseStep(log.reports, report);
    if apply { EntriesStep(was, p, now, items, i, log, found, writes, links, report); }
  }

  lemma ReuseStep(reports: seq<ItemReport>, report: ItemReport)
    ensures (forall x | x in reports + [report] :: AllReuse(x)) ==>
      AllReuse(report) && forall x | x in reports :: AllReuse(x)
  {
    var all := reports + [report];
    assert report in all && forall x | x in reports :: x in all;
  }

  lemma PlannedStep(was: Stores, p: Stores, index: set<string>, items: seq<Item>, i: nat, log: Log,
                    found: Option<nat>, writes: seq<Write>, links: Links, report: ItemReport)
    requires i < |items| && LogOf(log, i) && SameFor(was, p, items[i])
    requires EntryPlanned(p, index, items[i], found, links, report)
    requires forall k | 0 <= k < i :: EntryPlanned(was, index, items[k], log.founds[k], log.links[k], log.reports[k])
    ensures var next := LogWith(log, found, writes, links, report);
      forall k | 0 <= k < i + 1 :: EntryPlanned(was, index, items[k], next.founds[k], next.links[k], next.reports[k])
  {
    PlannedForSame(was, p, items[i], found);
    assert EntryPlanned(was, index, items[i], found, links, report);
  }

  lemma FrameStep(was: Stores, p: Stores, now: Stores, items: seq<Item>, i: nat, orphans: set<nat>)
    requires i < |items| && AllKeys(items[..i]) !! KeysOf(items[i].prices)
    requires OnlySlugs(was.products, p.products, AllSlugs(items[..i]))
    requires OnlySlugs(p.products, now.products, {items[i].slug})
    requires OnlyKeys(was.prices, p.prices, AllKeys(items[..i]), {})
    requires OnlyKeys(p.prices, now.prices, KeysOf(items[i].prices), orphans)
    ensures OnlySlugs(was.products, now.products, AllSlugs(items[..i + 1]))
    ensures OnlyKeys(was.prices, now.prices, AllKeys(items[..i + 1]), orphans)
  {
    assert items[..i + 1][..i] == items[..i];
    OnlySlugsTwice(was.products, p.products, now.products, AllSlugs(items[..i]), {items[i].slug});
    OnlyKeysTwice(was.prices, p.prices, now.prices, AllKeys(items[..i]), KeysOf(items[i].prices), orphans);
  }

  /** What is done for an entry stays done through the turn of another one. */
  lemma StaysDone(was: Stores, p: Stores, now: Stores, item: Item, other: Item, found: Option<nat>, links: Links)
    requires item.slug != other.slug && KeysOf(item.prices) !! KeysOf(other.prices)
    requires EntryDone(was, p, item, found, links)
    requires OnlySlugs(p.products, now.products, {other.slug})
    requires OnlyKeys(p.prices, now.prices, KeysOf(other.prices), {})
    ensures EntryDone(was, now, item, found, links)
  {
    OthersUntouched(p, now, item, other);
    DoneForSame(was, was, p, now, item, found, links);
  }

  lemma EntriesStep(was: Stores, p: Stores, now: Stores, items: seq<Item>, i: nat, log: Log,
                    found: Option<nat>, writes: seq<Write>, links: Links, report: ItemReport)
    requires CatalogOk(items) && i < |items| && LogOf(log, i) && SameFor(was, p, items[i])
    requires OnlySlugs(p.products, now.products, {items[i].slug})
    requires OnlyKeys(p.prices, now.prices, KeysOf(items[i].prices), {})
    requires EntryDone(p, now, items[i], found, links)
    requires forall k | 0 <= k < i :: EntryDone(was, p, items[k], log.founds[k], log.links[k])
    ensures var next := LogWith(log, found, writes, links, report);
      forall k | 0 <= k < i + 1 :: EntryDone(was, now, items[k], next.founds[k], next.links[k])
  {
    DoneForSame(p, was, now, now, items[i], found, links);
    forall k | 0 <= k < i ensures EntryDone(was, now, items[k], log.founds[k], log.links[k]) {
      StaysDone(was, p, now, items[k], items[i], log.founds[k], log.links[k]);
    }
  }

  ghost predicate AllDerived(items: seq<Item>, derived: set<string>) {
    forall i | 0 <= i < |items| :: items[i].slug in derived
  }

  lemma DerivedStep(items: seq<Item>, derived: set<string>, i: nat)
    requires i < |items| && AllDerived(items[..i], derived) && items[i].slug in derived
    ensures AllDerived(items[..i + 1], derived)
  {
    assert items[..i + 1] == items[..i] + [items[i]];
  }

  /** A run a throwing write cut short in the entry after the first `done`. */
  ghost predicate CutShort(was: Stores, now: Stores, items: seq<Item>, done: nat, at: Write)
    requires done < |items|
  {
    && OnlySlugs(was.products, now.products, AllSlugs(items[..done + 1]))
    && OnlyKeys(was.prices, now.prices, AllKeys(items[..done + 1]), OrphanOf(at))
  }

  /** A run that is still going, `i` entries in. */
  ghost predicate Running(was: Stores, now: Stores, index: set<string>, items: seq<Item>, derived: set<string>, i: nat,
                          log: Log, apply: bool) {
    && i <= |items| && AllDerived(items[..i], derived)
    && Progress(was, now, index, items, i, log, apply) && VisibleKept(was.products, now.products, index)
  }

  /** Where a run stands: still going, before an entry without a derived product, or on a write that threw. */
  ghost predicate Stands(was: Stores, now: Stores, index: set<string>, items: seq<Item>, derived: set<string>,
                         i: nat, log: Log, error: Option<SyncError>, apply: bool) {
    if error.Some? && error.value.Interrupted? then
      && apply && i < |items| && AllDerived(items[..i + 1], derived) && CallsFor(was, index, items, i + 1, log)
      && CutShort(was, now, items, i, error.value.at) && VisibleKept(was.products, now.products, index)
    else
      && Running(was, now, index, items, derived, i, log, apply)
      && (error.Some? ==> i < |items| && error == Some(NoDerivedProduct(items[i].slug)) && items[i].slug !in derived)
  }

  lemma RunStarts(was: Stores, index: set<string>, items: seq<Item>, derived: set<string>, apply: bool)
    ensures Running(was, was, index, items, derived, 0, NO_LOG, apply)
  {
  }

  lemma RunGoesOn(was: Stores, p: Stores, now: Stores, index: set<string>, items: seq<Item>, derived: set<string>,
                  i: nat, log: Log, found: Option<nat>, writes: seq<Write>, links: Links, report: ItemReport,
                  apply: bool)
    requires CatalogOk(items) && i < |items| && items[i].slug in derived && VisibleKept(p.products, now.products, index)
    requires Running(was, p, index, items, derived, i, log, apply) && writes == ItemWrites(p, found, items[i])
    requires ItemTurn(p, now, index, items[i], found, links, report, apply)
    ensures Running(was, now, index, items, derived, i + 1, LogWith(log, found, writes, links, report), apply)
  {
    ProgressStep(was, p, now, index, items, i, log, found, writes, links, report, apply);
    DerivedStep(items, derived, i);
  }

  lemma RunThrows(was: Stores, p: Stores, now: Stores, index: set<string>, items: seq<Item>, derived: set<string>,
                  i: nat, log: Log, found: Option<nat>, writes: seq<Write>, at: Write)
    requires CatalogOk(items) && i < |items| && items[i].slug in derived && VisibleKept(p.products, now.products, index)
    requires Running(was, p, index, items, derived, i, log, true) && writes == ItemWrites(p, found, items[i])
    requires Answers(BySlug(p.products, items[i].slug), items[i].slug, index, found)
    requires OnlySlugs(p.products, now.products, {items[i].slug})
    requires OnlyKeys(p.prices, now.prices, KeysOf(items[i].prices), OrphanOf(at))
    ensures Stands(was, now, index, items, derived, i, LogAsked(log, found, writes), Some(Interrupted(at)), true)
  {
    DerivedStep(items, derived, i);
    Untouched(items, i, was, p);
    CallsForMore(was, p, index, items, i, log, found);
    FrameStep(was, p, now, items, i, OrphanOf(at));
  }

  function ErrorOf<T>(r: Result<T, SyncError>): Option<SyncError> { if r.Err? then Some(r.error) else None }

  /** The write an interruption is due to. */
  function CauseOf(error: Option<SyncError>): Option<Write> {
    if error.Some? && error.value.Interrupted? then Some(error.value.at) else None
  }

  /** One turn of the loop: one entry more, or the end of the run. */
  method SyncNext(stripe: Stripe, ghost was: Stores, items: seq<Item>, derived: set<string>, i: nat, ghost log: Log,
                  apply: bool, ghost first: Option<nat>)
    returns (error: Option<SyncError>, links: Links, report: ItemReport, ghost next: Log)
    requires stripe.Valid() && CatalogOk(items) && i < |items|
    requires Running(was, Stores(stripe.products, stripe.prices), stripe.index, items, derived, i, log, apply)
    requires Sent(first, stripe.writesLeft, Applied(apply, log.writes), None)
    modifies stripe`products, stripe`prices, stripe`nextId, stripe`writesLeft
    ensures stripe.Valid()
    ensures next.links == log.links + (if error.Some? then [] else [links])
    ensures next.reports == log.reports + (if error.Some? then [] else [report])
    ensures Stands(was, Stores(stripe.products, stripe.prices), stripe.index, items, derived,
                   if error.Some? then i else i + 1, next, error, apply)
    ensures Sent(first, stripe.writesLeft, Applied(apply, next.writes), CauseOf(error))
  {
    next, links, report := log, Links(DryRun(""), []), ItemReport(Create, []);
    if items[i].slug !in derived {
      error := Some(NoDerivedProduct(items[i].slug));
    } else {
      ghost var p, left := Stores(stripe.products, stripe.prices), stripe.writesLeft;
      Untouched(items, i, was, p);
      var turn; ghost var found;
      turn, report, found := SyncItem(stripe, items[i], apply);
      ghost var now, writes := Stores(stripe.products, stripe.prices), ItemWrites(p, found, items[i]);
      if apply { SentBoth(first, left, stripe.writesLeft, log.writes, writes, Thrown(turn)); }
      KeepsVisible(p.products, now.products, items[i].slug, stripe.index);
      if turn.Err? {
        error, next := Some(Interrupted(turn.error)), LogAsked(log, found, writes);
        RunThrows(was, p, now, stripe.index, items, derived, i, log, found, writes, turn.error);
      } else {
        error, links, next := None, turn.value, LogWith(log, found, writes, turn.value, report);
        RunGoesOn(was, p, now, stripe.index, items, derived, i, log, found, writes, turn.value, report, apply);
      }
    }
  }

  /**
   * The reconcile loop. Its report is decided by the store before the run and
   * what lookups answer, the same with and without --apply. Applied, it has done
   * every entry it reached; dry, nothing changes. A lookup that had one answer
   * still has one, whatever stops the run. Of the writes the answers call for,
   * the first ones go through, as many as may, and the next one throws.
   */
  method SyncStripe(stripe: Stripe, items: seq<Item>, derived: set<string>, apply: bool)
    returns (r: Result<seq<Links>, SyncError>, reports: seq<ItemReport>, ghost log: Log)
    requires stripe.Valid() && CatalogOk(items)
    modifies stripe`products, stripe`prices, stripe`nextId, stripe`writesLeft
    ensures stripe.Valid() && log.reports == reports && (r.Ok? ==> |reports| == |items| && r.value == log.links)
    ensures Stands(Stores(old(stripe.products), old(stripe.prices)), Stores(stripe.products, stripe.prices),
                   stripe.index, items, derived, |reports|, log, ErrorOf(r), apply)
    ensures Sent(old(stripe.writesLeft), stripe.writesLeft, Applied(apply, log.writes), CauseOf(ErrorOf(r)))
    ensures AllDerived(items, derived) ==> !(r.Err? && r.error.NoDerivedProduct?)
    ensures old(stripe.writesLeft).None? ==> stripe.writesLeft.None? && !(r.Err? && r.error.Interrupted?)
  {
    ghost var was, first := Stores(stripe.products, stripe.prices), stripe.writesLeft;
    var synced, error := [], None;
    reports, log := [], NO_LOG;
    RunStarts(was, stripe.index, items, derived, apply);
    while |reports| < |items| && error.None?
      invariant stripe.Valid() && |reports| <= |items| && log.links == synced && log.reports == reports
      invariant Stands(was, Stores(stripe.products, stripe.prices), stripe.index, items, derived, |reports|, log,
                       error, apply)
      invariant Sent(first, stripe.writesLeft, Applied(apply, log.writes), CauseOf(error))
      decreases |items| - |reports|, error.None?
    {
      var links, report;
      error, links, report, log := SyncNext(stripe, was, items, derived, |reports|, log, apply, first);
      if error.None? { synced, reports := synced + [links], reports + [report]; }
    }
    r := if error.Some? then Err(error.value) else Ok(synced);
  }
}
