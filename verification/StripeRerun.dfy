/**
 * stripe-sync.ts run again: after a run that ended, after search has changed
 * its mind, and after a write that threw.
 */
module StripeRerun {
  import opened Common
  import opened StripeSync

  /** A lookup of any catalog slug has one answer. */
  ghost predicate OneAnswerEach(products: map<nat, Product>, index: set<string>, items: seq<Item>) {
    forall i | 0 <= i < |items| :: OneVisible(BySlug(products, items[i].slug), items[i].slug, index)
  }

  /** What a lookup answers; with one product shown, what it always answers. */
  ghost function AnswerOf(view: map<nat, Product>, slug: string, index: set<string>): (found: Option<nat>)
    ensures Answers(view, slug, index, found)
  {
    if x: nat :| x in view && Visible(view[x], slug, index) then Some(x) else None
  }

  ghost function AnswersOf(was: Stores, index: set<string>, items: seq<Item>): seq<Option<nat>> {
    seq(|items|, i requires 0 <= i < |items| => AnswerOf(BySlug(was.products, items[i].slug), items[i].slug, index))
  }

  lemma FoundsAreAnswers(was: Stores, index: set<string>, items: seq<Item>, n: nat, log: Log)
    requires OneAnswerEach(was.products, index, items) && CallsFor(was, index, items, n, log)
    ensures log.founds == AnswersOf(was, index, items)[..n]
  {
    forall k | 0 <= k < n ensures log.founds[k] == AnswersOf(was, index, items)[k] {
      AnswerIsUnique(BySlug(was.products, items[k].slug), items[k].slug, index, log.founds[k],
                     AnswersOf(was, index, items)[k]);
    }
  }

  /** The writes an applied run plans, from the store before it. */
  ghost function PlannedWrites(was: Stores, index: set<string>, items: seq<Item>): seq<Write> {
    RunWrites(was, items, AnswersOf(was, index, items))
  }

  /** The report of a run, from the store before it. */
  ghost function Expected(was: Stores, index: set<string>, items: seq<Item>): seq<ItemReport> {
    seq(|items|, i requires 0 <= i < |items| => Planned(was, AnswersOf(was, index, items)[i], items[i]))
  }

  function HiddenOf(products: map<nat, Product>, index: set<string>, item: Item): set<nat> {
    Hidden(BySlug(products, item.slug), item.slug, index)
  }

  ghost predicate NoneHidden(products: map<nat, Product>, index: set<string>, items: seq<Item>) {
    forall i | 0 <= i < |items| :: HiddenOf(products, index, items[i]) == {}
  }

  // ---- What one applied run leaves ----

  lemma PricesAreSynced(was: map<nat, Price>, now: map<nat, Price>, specs: seq<PriceSpec>, product: Id, ids: seq<Id>)
    requires PricesDone(was, now, specs, product, ids)
    ensures forall spec | spec in specs :: PriceSynced(ByKey(now, spec.lookupKey), spec)
    ensures forall a | a in PlannedPrices(now, specs) :: a == Reuse
  {
    forall i | 0 <= i < |specs|
      ensures PriceSynced(ByKey(now, specs[i].lookupKey), specs[i]) && PlannedPrices(now, specs)[i] == Reuse
    {
      assert PriceDone(ByKey(was, specs[i].lookupKey), ByKey(now, specs[i].lookupKey), specs[i], product, ids[i]);
      assert ids[i].n in ByKey(now, specs[i].lookupKey).Keys;
    }
  }

  /**
   * A done entry whose lookup had one answer is synced: one active product, as
   * desired, and beside it exactly the hidden ones, so that the slug has one
   * product exactly when none was hidden.
   */
  lemma DoneIsSynced(was: Stores, now: Stores, index: set<string>, item: Item, found: Option<nat>, links: Links)
    requires SLUG_KEY !in item.metadata && EntryDone(was, now, item, found, links)
    requires Answers(BySlug(was.products, item.slug), item.slug, index, found)
    requires OneVisible(BySlug(was.products, item.slug), item.slug, index)
    ensures ItemSynced(now, item)
    ensures var view := BySlug(now.products, item.slug);
      && Active(view) == {links.productId.n}
      && view.Keys == {links.productId.n} + HiddenOf(was.products, index, item)
      && (AtMostOne(view) <==> HiddenOf(was.products, index, item) == {})
  {
    ProductOutcome(BySlug(was.products, item.slug), BySlug(now.products, item.slug), item, index, found,
                   links.productId);
    PricesAreSynced(was.prices, now.prices, item.prices, links.productId, links.priceIds);
  }

  /** Every price of the key carries the metadata asked for. */
  ghost predicate MetadataAsked(view: map<nat, Price>, spec: PriceSpec) {
    forall x | x in view :: view[x].metadata == spec.metadata
  }

  ghost predicate AllAsked(prices: map<nat, Price>, items: seq<Item>) {
    forall item, spec | item in items && spec in item.prices :: MetadataAsked(ByKey(prices, spec.lookupKey), spec)
  }

  ghost predicate AllCurrent(prices: map<nat, Price>, items: seq<Item>) {
    forall item, spec | item in items && spec in item.prices :: MetadataCurrent(ByKey(prices, spec.lookupKey), spec)
  }

  /** The one price of each key of an applied entry, against what the key held before. */
  lemma PriceOfEntry(was: Stores, now: Stores, item: Item, found: Option<nat>, links: Links, spec: PriceSpec)
    requires EntryDone(was, now, item, found, links) && spec in item.prices
    ensures var view, holders := ByKey(was.prices, spec.lookupKey), ByKey(now.prices, spec.lookupKey);
      && (MetadataAsked(holders, spec) <==> MetadataCurrent(view, spec))
      && (BelongsTo(holders, links.productId) <==> ProductCurrent(view, spec, links.productId))
  {
    var i :| 0 <= i < |item.prices| && item.prices[i] == spec;
    var id := links.priceIds[i];
    assert PriceDone(ByKey(was.prices, spec.lookupKey), ByKey(now.prices, spec.lookupKey), spec, links.productId, id);
    assert id.n in ByKey(now.prices, spec.lookupKey).Keys;
  }

  /**
   * Whether a new margin reaches every price of a whole applied run: exactly
   * when no holder of the amount and interval asked for carried other metadata.
   */
  lemma MetadataReachesEveryPrice(was: Stores, now: Stores, items: seq<Item>, founds: seq<Option<nat>>,
                                  links: seq<Links>)
    requires |founds| == |links| == |items|
    requires forall k | 0 <= k < |items| :: EntryDone(was, now, items[k], founds[k], links[k])
    ensures AllAsked(now.prices, items) <==> AllCurrent(was.prices, items)
  {
    forall item, spec | item in items && spec in item.prices
      ensures MetadataAsked(ByKey(now.prices, spec.lookupKey), spec) <==>
        MetadataCurrent(ByKey(was.prices, spec.lookupKey), spec)
    {
      var k :| 0 <= k < |items| && items[k] == item;
      PriceOfEntry(was, now, item, founds[k], links[k], spec);
    }
  }

  /** Every active price of the key is a price of the product. */
  ghost predicate BelongsTo(view: map<nat, Price>, product: Id) {
    forall x | x in view :: view[x].product == product
  }

  ghost predicate AllBelong(prices: map<nat, Price>, items: seq<Item>, links: seq<Links>)
    requires |links| == |items|
  {
    forall k, spec | 0 <= k < |items| && spec in items[k].prices ::
      BelongsTo(ByKey(prices, spec.lookupKey), links[k].productId)
  }

  ghost predicate AllProductsCurrent(prices: map<nat, Price>, items: seq<Item>, links: seq<Links>)
    requires |links| == |items|
  {
    forall k, spec | 0 <= k < |items| && spec in items[k].prices ::
      ProductCurrent(ByKey(prices, spec.lookupKey), spec, links[k].productId)
  }

  /**
   * After a whole applied run every price is one of its entry's own product
   * exactly when no price of another product held a key at the amount and
   * interval asked for.
   */
  lemma PricesFollowProducts(was: Stores, now: Stores, items: seq<Item>, founds: seq<Option<nat>>, links: seq<Links>)
    requires |founds| == |links| == |items|
    requires forall k | 0 <= k < |items| :: EntryDone(was, now, items[k], founds[k], links[k])
    ensures AllBelong(now.prices, items, links) <==> AllProductsCurrent(was.prices, items, links)
  {
    forall k, spec | 0 <= k < |items| && spec in items[k].prices
      ensures BelongsTo(ByKey(now.prices, spec.lookupKey), links[k].productId) <==>
        ProductCurrent(ByKey(was.prices, spec.lookupKey), spec, links[k].productId)
    {
      PriceOfEntry(was, now, items[k], founds[k], links[k], spec);
    }
  }

  /**
   * The active price of a product that was archived and is hidden: the run
   * creates a new product, reuses the price, and the new product has none.
   */
  lemma PriceStaysBehind()
    ensures var spec := PriceSpec("build_v2_month", 4900, Some(Month), map[]);
      var view := map[5 := Price(Real(1), Some("build_v2_month"), 4900, Some(Month), true, map[])];
      && PlannedPrice(view, spec) == Reuse && !ProductCurrent(view, spec, Real(2))
      && forall after: map<nat, Price>, id: Id | PriceDone(view, after, spec, Real(2), id) ::
           id == Real(5) && after == view && after[5].product == Real(1)
  {
    var spec := PriceSpec("build_v2_month", 4900, Some(Month), map[]);
    var view: map<nat, Price> := map[5 := Price(Real(1), Some("build_v2_month"), 4900, Some(Month), true, map[])];
    assert 5 in view && PriceMatches(view[5], spec);
  }

  /** A price of the old margin, reused: whatever the run leaves there has the old metadata. */
  lemma OldMarginStays()
    ensures var holder := Price(Real(0), Some("build_v2_month"), 4900, Some(Month), true, map["margin" := "0.6"]);
      var spec := PriceSpec("build_v2_month", 4900, Some(Month), map["margin" := "0.7"]);
      var view: map<nat, Price> := map[1 := holder];
      && PlannedPrice(view, spec) == Reuse && !MetadataCurrent(view, spec)
      && forall after: map<nat, Price>, product: Id, id: Id | PriceDone(view, after, spec, product, id) ::
           after[id.n].metadata != spec.metadata
  {
    var holder := Price(Real(0), Some("build_v2_month"), 4900, Some(Month), true, map["margin" := "0.6"]);
    var view: map<nat, Price> := map[1 := holder];
    assert 1 in view && view[1].metadata["margin"] != "0.7";
  }

  // ---- The next run ----

  /** A synced entry is reported as reuse exactly when the lookup answers with its active product. */
  lemma SyncedIsReuse(now: Stores, index: set<string>, item: Item, found: Option<nat>)
    requires ItemSynced(now, item) && Answers(BySlug(now.products, item.slug), item.slug, index, found)
    ensures found.Some?
    ensures AllReuse(Planned(now, found, item)) <==> BySlug(now.products, item.slug)[found.value].active
  {
    var view, specs := BySlug(now.products, item.slug), item.prices;
    var id :| id in view && Active(view) == {id} && !DiffersFromDesired(view[id], Desired(item));
    assert id in Active(view);
    assert view[found.value].active ==> found.value in Active(view);
    forall i | 0 <= i < |specs| ensures PlannedPrices(now.prices, specs)[i] == Reuse {
      assert specs[i] in specs;
      var holders := ByKey(now.prices, specs[i].lookupKey);
      var x :| x in holders && PriceMatches(holders[x], specs[i]);
    }
  }

  /**
   * The next run, whatever its lookup answers by then: prices are reused, and the
   * product too unless the answer is another one than was written before, and
   * not as desired.
   */
  lemma NextAnswer(was: Stores, now: Stores, index: set<string>, item: Item, found: Option<nat>, links: Links,
                   later: set<string>, again: Option<nat>)
    requires SLUG_KEY !in item.metadata && EntryDone(was, now, item, found, links)
    requires Answers(BySlug(was.products, item.slug), item.slug, index, found)
    requires Answers(BySlug(now.products, item.slug), item.slug, later, again)
    ensures again.Some? && (again.value != links.productId.n ==> again.value in BySlug(was.products, item.slug))
    ensures Planned(now, again, item).product ==
      if OtherAndDiffers(was.products, links, item, again.value) then Update else Reuse
    ensures forall a | a in Planned(now, again, item).prices :: a == Reuse
  {
    var before, view := BySlug(was.products, item.slug), BySlug(now.products, item.slug);
    ProductWritten(before, view, item, index, found, links.productId);
    PricesAreSynced(was.prices, now.prices, item.prices, links.productId, links.priceIds);
    assert links.productId.n in view && view[links.productId.n].active;
  }

  /** Another product of the slug than the one the run wrote, and not as desired. */
  predicate OtherAndDiffers(products: map<nat, Product>, links: Links, item: Item, id: nat) {
    && links.productId.Real? && id != links.productId.n
    && id in BySlug(products, item.slug) && DiffersFromDesired(products[id], Desired(item))
  }

  /** Where a lookup shows one product, the others that differ are exactly the hidden ones. */
  lemma OthersDifferIffHidden(was: Stores, now: Stores, index: set<string>, item: Item, found: Option<nat>,
                              links: Links, id: nat)
    requires SLUG_KEY !in item.metadata && EntryDone(was, now, item, found, links)
    requires Answers(BySlug(was.products, item.slug), item.slug, index, found)
    requires OneVisible(BySlug(was.products, item.slug), item.slug, index)
    ensures OtherAndDiffers(was.products, links, item, id) <==> id in HiddenOf(was.products, index, item)
  {
    DoneIsSynced(was, now, index, item, found, links);
    OthersAreHidden(BySlug(was.products, item.slug), BySlug(now.products, item.slug), item, index, found,
                    links.productId);
  }

  /** With search as it was and one product shown, the next lookup answers with the product that was written. */
  lemma SameAnswer(was: Stores, now: Stores, index: set<string>, item: Item, found: Option<nat>, links: Links,
                   again: Option<nat>)
    requires SLUG_KEY !in item.metadata && EntryDone(was, now, item, found, links)
    requires Answers(BySlug(was.products, item.slug), item.slug, index, found)
    requires OneVisible(BySlug(was.products, item.slug), item.slug, index)
    requires Answers(BySlug(now.products, item.slug), item.slug, index, again)
    ensures again == Some(links.productId.n)
  {
    var view := BySlug(now.products, item.slug);
    ProductOutcome(BySlug(was.products, item.slug), view, item, index, found, links.productId);
    assert links.productId.n in Active(view);
    AnswerIsUnique(view, item.slug, index, again, Some(links.productId.n));
  }

  /**
   * The next run reports reuse of an entry, whatever its lookup answers by then,
   * exactly when every other product of the slug was as desired already.
   */
  lemma ReuseWhateverSearchAnswers(was: Stores, now: Stores, index: set<string>, item: Item, found: Option<nat>,
                                   links: Links)
    requires SLUG_KEY !in item.metadata && EntryDone(was, now, item, found, links)
    requires Answers(BySlug(was.products, item.slug), item.slug, index, found)
    ensures (forall later, again | Answers(BySlug(now.products, item.slug), item.slug, later, again) ::
              AllReuse(Planned(now, again, item))) <==>
      forall x | x in BySlug(was.products, item.slug) && found != Some(x) ::
        !DiffersFromDesired(BySlug(was.products, item.slug)[x], Desired(item))
  {
    var before, view := BySlug(was.products, item.slug), BySlug(now.products, item.slug);
    forall later, again | Answers(view, item.slug, later, again)
      ensures again.Some? && (again.value != links.productId.n ==> again.value in before)
      ensures AllReuse(Planned(now, again, item)) <==> !OtherAndDiffers(was.products, links, item, again.value)
    {
      NextAnswer(was, now, index, item, found, links, later, again);
    }
    forall x | x in before && found != Some(x) && DiffersFromDesired(before[x], Desired(item))
      ensures exists later, again :: Answers(view, item.slug, later, again) && !AllReuse(Planned(now, again, item))
    {
      var later, again := {item.slug}, Some(x);
      assert x in view && Answers(view, item.slug, later, again);
      assert !AllReuse(Planned(now, again, item));
    }
  }

  /** Where a lookup showed one product: exactly when none was hidden. */
  lemma ReuseIffNoneHidden(was: Stores, now: Stores, index: set<string>, item: Item, found: Option<nat>, links: Links)
    requires SLUG_KEY !in item.metadata && EntryDone(was, now, item, found, links)
    requires Answers(BySlug(was.products, item.slug), item.slug, index, found)
    requires OneVisible(BySlug(was.products, item.slug), item.slug, index)
    ensures (forall later, again | Answers(BySlug(now.products, item.slug), item.slug, later, again) ::
              AllReuse(Planned(now, again, item))) <==>
      HiddenOf(was.products, index, item) == {}
  {
    var before := BySlug(was.products, item.slug);
    ReuseWhateverSearchAnswers(was, now, index, item, found, links);
    forall x | x in before
      ensures found != Some(x) && DiffersFromDesired(before[x], Desired(item)) <==>
        x in HiddenOf(was.products, index, item)
    {
      OthersDifferIffHidden(was, now, index, item, found, links, x);
    }
  }

  /**
   * Two active products of a slug: the run that finds the one as desired reports
   * reuse, the next may find the other.
   */
  lemma TwoActiveDisagree()
    ensures var item := Item("build-v2", "Build", map[], []);
      var view := map[1 := Desired(item), 2 := Desired(item).(name := "Old")];
      && Answers(view, "build-v2", {}, Some(1)) && ProductAction(view, Some(1), item) == Reuse
      && ProductDone(view, view, Some(1), Real(1), item) && Hidden(view, "build-v2", {}) == {}
      && Answers(view, "build-v2", {}, Some(2)) && ProductAction(view, Some(2), item) == Update
  {
    var item := Item("build-v2", "Build", map[], []);
    var view: map<nat, Product> := map[1 := Desired(item), 2 := Desired(item).(name := "Old")];
    assert Merged(view[1], Desired(item)) == view[1];
    assert Settled(view, Some(1), 1, item) == view;
  }

  /**
   * An archived product that search misses in the first run and answers with in
   * the second: the first creates a product beside it, the second reports an
   * update, brings it back, and leaves two active products of the slug.
   */
  lemma HiddenProductComesBack()
    ensures var item := Item("build-v2", "Build", map[], []);
      var archived := Desired(item).(active := false);
      var first, second := map[1 := archived], map[1 := archived, 2 := Desired(item)];
      && Answers(first, "build-v2", {}, None) && ProductDone(first, second, None, Real(2), item)
      && !AtMostOne(second)
      && Answers(second, "build-v2", {"build-v2"}, Some(1)) && ProductAction(second, Some(1), item) == Update
      && Active(Settled(second, Some(1), 1, item)) == {1, 2}
  {
    var item := Item("build-v2", "Build", map[], []);
    var archived := Desired(item).(active := false);
    var second: map<nat, Product> := map[1 := archived, 2 := Desired(item)];
    assert second == map[1 := archived][2 := Desired(item)];
    assert 1 in second && 2 in second;
    var third := Settled(second, Some(1), 1, item);
    assert third[1].active && third[2].active;
  }

  lemma RunsDone(was: Stores, now: Stores, index: set<string>, items: seq<Item>, derived: set<string>, log: Log)
    requires Stands(was, now, index, items, derived, |items|, log, None, true)
    ensures |log.founds| == |log.links| == |items| && VisibleKept(was.products, now.products, index)
    ensures forall i | 0 <= i < |items| ::
      && Answers(BySlug(was.products, items[i].slug), items[i].slug, index, log.founds[i])
      && EntryDone(was, now, items[i], log.founds[i], log.links[i])
  {
    forall i | 0 <= i < |items|
      ensures Answers(BySlug(was.products, items[i].slug), items[i].slug, index, log.founds[i])
    {
      assert EntryPlanned(was, index, items[i], log.founds[i], log.links[i], log.reports[i]);
    }
  }

  /** What the first run's report says of each entry. */
  ghost predicate FirstReport(was: Stores, index: set<string>, items: seq<Item>, log: Log, first: seq<ItemReport>) {
    && LogOf(log, |items|) && |first| == |items|
    && forall i | 0 <= i < |items| :: EntryPlanned(was, index, items[i], log.founds[i], log.links[i], first[i])
  }

  /** What the second run's report says of each entry. */
  ghost predicate SecondReport(was: Stores, now: Stores, later: set<string>, items: seq<Item>, links: seq<Links>,
                               agains: seq<Option<nat>>, second: seq<ItemReport>) {
    && |second| == |agains| == |links| == |items|
    && forall i | 0 <= i < |items| ::
         && Answers(BySlug(now.products, items[i].slug), items[i].slug, later, agains[i]) && agains[i].Some?
         && second[i].product ==
            (if OtherAndDiffers(was.products, links[i], items[i], agains[i].value) then Update else Reuse)
         && forall a | a in second[i].prices :: a == Reuse
  }

  lemma SecondReports(was: Stores, now: Stores, last: Stores, index: set<string>, later: set<string>, items: seq<Item>,
                      derived: set<string>, log: Log, log2: Log, applyAgain: bool)
    requires CatalogOk(items)
    requires Stands(was, now, index, items, derived, |items|, log, None, true)
    requires Stands(now, last, later, items, derived, |items|, log2, None, applyAgain)
    ensures SecondReport(was, now, later, items, log.links, log2.founds, log2.reports)
  {
    RunsDone(was, now, index, items, derived, log);
    forall i | 0 <= i < |items|
      ensures Answers(BySlug(now.products, items[i].slug), items[i].slug, later, log2.founds[i]) && log2.founds[i].Some?
      ensures log2.reports[i].product ==
        if OtherAndDiffers(was.products, log.links[i], items[i], log2.founds[i].value) then Update else Reuse
      ensures forall a | a in log2.reports[i].prices :: a == Reuse
    {
      assert EntryPlanned(now, later, items[i], log2.founds[i], log2.links[i], log2.reports[i]);
      NextAnswer(was, now, index, items[i], log.founds[i], log.links[i], later, log2.founds[i]);
    }
  }

  /** With search as it was, or nothing hidden, the second run reports reuse throughout and changes nothing. */
  lemma SecondIsIdle(was: Stores, now: Stores, last: Stores, index: set<string>, later: set<string>, items: seq<Item>,
                     derived: set<string>, log: Log, log2: Log, applyAgain: bool)
    requires CatalogOk(items) && OneAnswerEach(was.products, index, items)
    requires later == index || NoneHidden(was.products, index, items)
    requires Stands(was, now, index, items, derived, |items|, log, None, true)
    requires Stands(now, last, later, items, derived, |items|, log2, None, applyAgain)
    ensures last == now && forall x | x in log2.reports :: AllReuse(x)
  {
    SecondReports(was, now, last, index, later, items, derived, log, log2, applyAgain);
    RunsDone(was, now, index, items, derived, log);
    forall i | 0 <= i < |items| ensures !OtherAndDiffers(was.products, log.links[i], items[i], log2.founds[i].value) {
      if later == index {
        SameAnswer(was, now, index, items[i], log.founds[i], log.links[i], log2.founds[i]);
      } else {
        OthersDifferIffHidden(was, now, index, items[i], log.founds[i], log.links[i], log2.founds[i].value);
      }
    }
  }

  /** A run that went through reported what the store before it called for. */
  lemma ReportIsExpected(was: Stores, now: Stores, index: set<string>, items: seq<Item>, derived: set<string>, n: nat,
                         log: Log, error: Option<SyncError>, apply: bool)
    requires OneAnswerEach(was.products, index, items) && CauseOf(error).None?
    requires Stands(was, now, index, items, derived, n, log, error, apply)
    ensures n <= |items| && log.reports == Expected(was, index, items)[..n]
  {
    FoundsAreAnswers(was, index, items, n, log);
    forall k | 0 <= k < n ensures log.reports[k] == Expected(was, index, items)[k] {
      assert EntryPlanned(was, index, items[k], log.founds[k], log.links[k], log.reports[k]);
    }
  }

  lemma WholeReport(was: Stores, now: Stores, index: set<string>, items: seq<Item>, derived: set<string>, log: Log)
    requires OneAnswerEach(was.products, index, items)
    requires Stands(was, now, index, items, derived, |items|, log, None, true)
    ensures log.reports == Expected(was, index, items)
  {
    ReportIsExpected(was, now, index, items, derived, |items|, log, None, true);
    TakeAll(Expected(was, index, items));
  }

  lemma TakeAll<T>(s: seq<T>)
    ensures s[..|s|] == s
  {
  }

  /**
   * A dry run and the applied run after it stop at the same entry, and where
   * lookups show one product each they report the same.
   */
  method DryThenApply(stripe: Stripe, items: seq<Item>, derived: set<string>)
    returns (dry: seq<ItemReport>, applied: seq<ItemReport>)
    requires stripe.Valid() && CatalogOk(items) && stripe.writesLeft.None?
    modifies stripe`products, stripe`prices, stripe`nextId, stripe`writesLeft
    ensures |dry| == |applied| && (|dry| < |items| ==> items[|dry|].slug !in derived)
    ensures OneAnswerEach(old(stripe.products), stripe.index, items) ==>
      dry == applied <= Expected(Stores(old(stripe.products), old(stripe.prices)), stripe.index, items)
  {
    ghost var was := Stores(stripe.products, stripe.prices);
    var r, again; ghost var log, log2;
    r, dry, log := SyncStripe(stripe, items, derived, false);
    ghost var p := Stores(stripe.products, stripe.prices);
    again, applied, log2 := SyncStripe(stripe, items, derived, true);
    ghost var now := Stores(stripe.products, stripe.prices);
    SameStop(items, derived, |dry|, |applied|);
    if OneAnswerEach(was.products, stripe.index, items) {
      ReportIsExpected(was, p, stripe.index, items, derived, |dry|, log, ErrorOf(r), false);
      ReportIsExpected(was, now, stripe.index, items, derived, |applied|, log2, ErrorOf(again), true);
    }
  }

  lemma SameStop(items: seq<Item>, derived: set<string>, a: nat, b: nat)
    requires a <= |items| && b <= |items| && AllDerived(items[..a], derived) && AllDerived(items[..b], derived)
    requires (a == |items| || items[a].slug !in derived) && (b == |items| || items[b].slug !in derived)
    ensures a == b
  {
    DerivedUpTo(items, derived, a);
    DerivedUpTo(items, derived, b);
  }

  lemma DerivedUpTo(items: seq<Item>, derived: set<string>, n: nat)
    requires n <= |items| && AllDerived(items[..n], derived)
    ensures forall k | 0 <= k < n :: items[k].slug in derived
  {
    forall k | 0 <= k < n ensures items[k].slug in derived { assert items[..n][k] == items[k]; }
  }

  /**
   * Apply, then run again, applied or dry, with search answering as it likes by
   * then. The first report is what the store before it called for. The second
   * run reuses every price, and every product but one that differs and that the
   * lookup finds now in place of the one written. If lookups showed one product
   * each, every entry is synced in between; and with search as it was, or no
   * product hidden, the second run reports reuse throughout and changes nothing.
   */
  method SyncTwice(stripe: Stripe, items: seq<Item>, derived: set<string>, later: set<string>, applyAgain: bool)
    returns (first: seq<ItemReport>, second: seq<ItemReport>, ghost between: Stores, ghost log: Log,
             ghost agains: seq<Option<nat>>)
    requires stripe.Valid() && CatalogOk(items) && stripe.writesLeft.None? && AllDerived(items, derived)
    modifies stripe
    ensures FirstReport(Stores(old(stripe.products), old(stripe.prices)), old(stripe.index), items, log, first)
    ensures SecondReport(Stores(old(stripe.products), old(stripe.prices)), between, later, items, log.links, agains,
                         second)
    ensures OneAnswerEach(old(stripe.products), old(stripe.index), items) ==>
      first == Expected(Stores(old(stripe.products), old(stripe.prices)), old(stripe.index), items)
    ensures OneAnswerEach(old(stripe.products), old(stripe.index), items) ==>
      forall i | 0 <= i < |items| :: ItemSynced(between, items[i])
    ensures OneAnswerEach(old(stripe.products), old(stripe.index), items)
            && (later == old(stripe.index) || NoneHidden(old(stripe.products), old(stripe.index), items)) ==>
      Stores(stripe.products, stripe.prices) == between && forall x | x in second :: AllReuse(x)
  {
    ghost var was, index := Stores(stripe.products, stripe.prices), stripe.index;
    var r, again; ghost var log2;
    r, first, log := SyncStripe(stripe, items, derived, true);
    between := Stores(stripe.products, stripe.prices);
    stripe.index := later;
    again, second, log2 := SyncStripe(stripe, items, derived, applyAgain);
    agains := log2.founds;
    ghost var last := Stores(stripe.products, stripe.prices);
    SecondReports(was, between, last, index, later, items, derived, log, log2, applyAgain);
    FirstReports(was, between, index, items, derived, log);
    if OneAnswerEach(was.products, index, items) {
      FinishedRun(was, between, index, items, derived, log);
      WholeReport(was, between, index, items, derived, log);
      if later == index || NoneHidden(was.products, index, items) {
        SecondIsIdle(was, between, last, index, later, items, derived, log, log2, applyAgain);
      }
    }
  }

  lemma FirstReports(was: Stores, now: Stores, index: set<string>, items: seq<Item>, derived: set<string>, log: Log)
    requires Stands(was, now, index, items, derived, |items|, log, None, true)
    ensures FirstReport(was, index, items, log, log.reports)
  {
  }

  // ---- After a write that threw ----

  lemma AnswersKept(before: map<nat, Product>, after: map<nat, Product>, index: set<string>, items: seq<Item>)
    requires VisibleKept(before, after, index) && OneAnswerEach(before, index, items)
    ensures OneAnswerEach(after, index, items)
  {
  }

  /** What a run that stopped has done to the prices without a key. */
  lemma StoppedOrphans(was: Stores, now: Stores, index: set<string>, items: seq<Item>, derived: set<string>, i: nat,
                       log: Log, error: Option<SyncError>, apply: bool)
    requires Stands(was, now, index, items, derived, i, log, error, apply)
    ensures var left := if error.Some? && error.value.Interrupted? then OrphanOf(error.value.at) else {};
      Orphans(now.prices) == Orphans(was.prices) + left && Orphans(was.prices) !! left
  {
    if error.Some? && error.value.Interrupted? {
      OrphansGrow(was.prices, now.prices, AllKeys(items[..i + 1]), OrphanOf(error.value.at));
    } else {
      OrphansGrow(was.prices, now.prices, AllKeys(items[..i]), {});
    }
  }

  /** The active prices without a key are those from before, and the one the throwing write left, if it did. */
  ghost predicate LeftBehind(before: map<nat, Price>, after: map<nat, Price>, threw: Option<Write>) {
    var left := if threw.Some? then OrphanOf(threw.value) else {};
    Orphans(after) == Orphans(before) + left && Orphans(before) !! left
  }

  lemma StoppedRun(was: Stores, now: Stores, index: set<string>, items: seq<Item>, derived: set<string>, i: nat,
                   log: Log, error: Option<SyncError>)
    requires Stands(was, now, index, items, derived, i, log, error, true)
    ensures OneAnswerEach(was.products, index, items) ==> OneAnswerEach(now.products, index, items)
    ensures LeftBehind(was.prices, now.prices,
                       if error.Some? && error.value.Interrupted? then Some(error.value.at) else None)
  {
    StoppedOrphans(was, now, index, items, derived, i, log, error, true);
    if OneAnswerEach(was.products, index, items) { AnswersKept(was.products, now.products, index, items); }
  }

  /** The slug has an active product as desired, the only one or not, and each key exactly one active price. */
  ghost predicate OnSale(now: Stores, item: Item) {
    && (exists id | id in Active(BySlug(now.products, item.slug)) ::
          !DiffersFromDesired(now.products[id], Desired(item)))
    && forall spec | spec in item.prices :: PriceSynced(ByKey(now.prices, spec.lookupKey), spec)
  }

  lemma DoneIsOnSale(was: Stores, now: Stores, index: set<string>, item: Item, found: Option<nat>, links: Links)
    requires SLUG_KEY !in item.metadata && EntryDone(was, now, item, found, links)
    requires Answers(BySlug(was.products, item.slug), item.slug, index, found)
    ensures OnSale(now, item)
  {
    ProductWritten(BySlug(was.products, item.slug), BySlug(now.products, item.slug), item, index, found,
                   links.productId);
    assert links.productId.n in Active(BySlug(now.products, item.slug));
    PricesAreSynced(was.prices, now.prices, item.prices, links.productId, links.priceIds);
  }

  lemma FinishedRun(was: Stores, now: Stores, index: set<string>, items: seq<Item>, derived: set<string>, log: Log)
    requires CatalogOk(items) && Stands(was, now, index, items, derived, |items|, log, None, true)
    ensures forall i | 0 <= i < |items| :: OnSale(now, items[i])
    ensures OneAnswerEach(was.products, index, items) ==> forall i | 0 <= i < |items| :: ItemSynced(now, items[i])
  {
    RunsDone(was, now, index, items, derived, log);
    forall i | 0 <= i < |items|
      ensures OnSale(now, items[i])
      ensures OneAnswerEach(was.products, index, items) ==> ItemSynced(now, items[i])
    {
      DoneIsOnSale(was, now, index, items[i], log.founds[i], log.links[i]);
      if OneAnswerEach(was.products, index, items) {
        DoneIsSynced(was, now, index, items[i], log.founds[i], log.links[i]);
      }
    }
  }

  /**
   * A new amount, and the archiving of the old price throws: it stays active
   * without its key, and the next run reports reuse.
   */
  lemma OldPriceIsLeft()
    ensures var key, spec := "build_v2_month", PriceSpec("build_v2_month", 5900, Some(Month), map[]);
      var stale, next := MonthlyPrice(4900), MonthlyPrice(5900);
      var before, now := map[1 := stale], map[1 := stale.(lookupKey := None), 2 := next];
      && PriceTurn(before, now, Real(0), spec, Err(PriceArchive(1)), true)
      && Orphans(before) == {} && Orphans(now) == {1} && PlannedPrice(ByKey(now, key), spec) == Reuse
  {
    var key, spec := "build_v2_month", PriceSpec("build_v2_month", 5900, Some(Month), map[]);
    var stale, next := MonthlyPrice(4900), MonthlyPrice(5900);
    var before: map<nat, Price> := map[1 := stale];
    var now: map<nat, Price> := map[1 := stale.(lookupKey := None), 2 := next];
    assert ByKey(before, key).Keys == {1};
    PriceWritten(before, now, 2, Real(0), spec, Some(1));
    assert 2 in ByKey(now, key) && PriceMatches(now[2], spec);
  }

  function MonthlyPrice(amount: int): Price {
    Price(Real(0), Some("build_v2_month"), amount, Some(Month), true, map[])
  }

  lemma {:induction false} RunWritesPrefix(was: Stores, items: seq<Item>, founds: seq<Option<nat>>, n: nat)
    requires n <= |items| == |founds|
    ensures RunWrites(was, items[..n], founds[..n]) <= RunWrites(was, items, founds)
    decreases |items|
  {
    var m := |items| - 1;
    if n == |items| {
      assert items[..n] == items && founds[..n] == founds;
    } else {
      assert items[..m][..n] == items[..n] && founds[..m][..n] == founds[..n];
      RunWritesPrefix(was, items[..m], founds[..m], n);
    }
  }

  /** The write that throws is the first of the planned ones that may not go through. */
  lemma ThrowsAsPlanned(was: Stores, index: set<string>, items: seq<Item>, n: nat, log: Log, left: Option<nat>,
                        after: Option<nat>, threw: Option<Write>)
    requires OneAnswerEach(was.products, index, items) && CallsFor(was, index, items, n, log)
    requires Sent(left, after, log.writes, threw) && (threw.Some? || n == |items|)
    ensures threw == Throws(left, PlannedWrites(was, index, items))
  {
    FoundsAreAnswers(was, index, items, n, log);
    RunWritesPrefix(was, items, AnswersOf(was, index, items), n);
    if n == |items| { assert items[..n] == items && AnswersOf(was, index, items)[..n] == AnswersOf(was, index, items); }
  }

  lemma StoppedThrows(was: Stores, now: Stores, index: set<string>, items: seq<Item>, derived: set<string>, i: nat,
                      log: Log, error: Option<SyncError>, left: Option<nat>, after: Option<nat>)
    requires OneAnswerEach(was.products, index, items) && (error.None? ==> i == |items|)
    requires Stands(was, now, index, items, derived, i, log, error, true) && (error.Some? ==> error.value.Interrupted?)
    requires Sent(left, after, log.writes, CauseOf(error))
    ensures CauseOf(error) == Throws(left, PlannedWrites(was, index, items))
  {
    ThrowsAsPlanned(was, index, items, if error.Some? then i + 1 else i, log, left, after, CauseOf(error));
  }

  /** An applied run in which any write may throw. */
  method SyncMayThrow(stripe: Stripe, items: seq<Item>, derived: set<string>) returns (threw: Option<Write>)
    requires stripe.Valid() && CatalogOk(items) && AllDerived(items, derived)
    modifies stripe`products, stripe`prices, stripe`nextId, stripe`writesLeft
    ensures stripe.Valid() && LeftBehind(old(stripe.prices), stripe.prices, threw)
    ensures old(stripe.writesLeft).None? ==> threw.None?
    ensures threw.None? ==>
      forall i | 0 <= i < |items| :: OnSale(Stores(stripe.products, stripe.prices), items[i])
    ensures var one := OneAnswerEach(old(stripe.products), stripe.index, items);
      && (one ==> OneAnswerEach(stripe.products, stripe.index, items))
      && (one && threw.None? ==>
            forall i | 0 <= i < |items| :: ItemSynced(Stores(stripe.products, stripe.prices), items[i]))
    ensures OneAnswerEach(old(stripe.products), stripe.index, items) ==> threw == Throws(old(stripe.writesLeft),
                            PlannedWrites(Stores(old(stripe.products), old(stripe.prices)), stripe.index, items))
  {
    ghost var was, left := Stores(stripe.products, stripe.prices), stripe.writesLeft;
    var r, reports; ghost var log;
    r, reports, log := SyncStripe(stripe, items, derived, true);
    ghost var now := Stores(stripe.products, stripe.prices);
    StoppedRun(was, now, stripe.index, items, derived, |reports|, log, ErrorOf(r));
    threw := CauseOf(ErrorOf(r));
    if OneAnswerEach(was.products, stripe.index, items) {
      StoppedThrows(was, now, stripe.index, items, derived, |reports|, log, ErrorOf(r), left, stripe.writesLeft);
    }
    if r.Ok? { FinishedRun(was, now, stripe.index, items, derived, log); }
  }

  /**
   * A run of which only the first `writes` planned writes go through, and a rerun
   * without a fault: every entry ends on sale, wherever the run was cut, and
   * synced where lookups showed one product each. An active price without a key
   * is left behind exactly when the write that threw was the archiving of the
   * stale price, after its key had moved; the rerun reuses the new price and
   * never archives the old one.
   */
  method SyncResumes(stripe: Stripe, items: seq<Item>, derived: set<string>, writes: Option<nat>)
    returns (threw: Option<Write>)
    requires stripe.Valid() && CatalogOk(items) && AllDerived(items, derived)
    modifies stripe
    ensures stripe.Valid() && LeftBehind(old(stripe.prices), stripe.prices, threw)
    ensures forall i | 0 <= i < |items| :: OnSale(Stores(stripe.products, stripe.prices), items[i])
    ensures OneAnswerEach(old(stripe.products), old(stripe.index), items) ==>
      forall i | 0 <= i < |items| :: ItemSynced(Stores(stripe.products, stripe.prices), items[i])
    ensures OneAnswerEach(old(stripe.products), old(stripe.index), items) ==>
      threw == Throws(writes, PlannedWrites(Stores(old(stripe.products), old(stripe.prices)), old(stripe.index), items))
  {
    stripe.writesLeft := writes;
    threw := SyncMayThrow(stripe, items, derived);
    stripe.writesLeft := None;
    var again := SyncMayThrow(stripe, items, derived);
  }
}
