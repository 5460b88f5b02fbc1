# Operator tooling, modelled and proved

The repository's operator scripts decide things that are hard to undo: which rows a tenant may see, what a customer is
charged, which migration a database skips. This project models the logic of those scripts in Dafny and proves what they
are for. It is one module a file; each file opens with the script it models.

| file | models |
|---|---|
| `RlsPolicy`, `RlsMigration`, `RlsIsolation` | the row-level-security generator: predicates in SQL's three-valued logic, the DDL it writes, and statements run under it |
| `StripeSync`, `StripeRerun`, `StripePlans` | the reconcile of Stripe products and prices, what running it again does, and the plans table |
| `Provision`, `Credits` | provisioning an enterprise organisation, the credit floor and the debt it meets |
| `Backfill` | insert-if-absent in chunks, with duplicates and failures |
| `AtlasLint`, `OrdinalLint` | the migration lints, and the runner they protect |
| `SystemDb`, `KnipBaseline` | the two shrink-only baselines |
| `ShellEnv`, `BuildEnv` | the build environment and the file a shell sources |
| `CanonicalJson`, `DnsImport`, `LineTap` | a canonical printer, TXT quoting and record grouping, a streaming line splitter |
| `Retry` | two bounded retry loops |
| `Common`, `Decimal` | option and result types, decimal digits |

Scripts that change things step by step are methods and classes over mutable stores, proved against specification
functions and predicates; expressions are functions. External services are stores whose reads see earlier writes.

`dafny verify dfyconfig.toml` checks the project.

## Where the code and its documentation part

The models follow the code. Each item below is proved as an exact condition, with an input on which the documentation
fails.

- A credit floor is documented as reached by one run and idle on the next. The grant goes through `createCreditLot`,
  which collects what the organisation owes first, so one run reaches the floor exactly when the balance was already
  there or nothing is owed (`Credits.ReachesFloorIff`, `Credits.SecondRunIdleIff`, `Credits.DebtDefeatsOneRun`); enough
  runs always do (`Credits.RunsConverge`).
- `stripe-sync.ts` is documented as idempotent. Its next run reports reuse of an entry, whatever the lookup answers by
  then, exactly when every product of the slug but the one the first run wrote was as desired already
  (`StripeRerun.ReuseWhateverSearchAnswers`). Where the lookup showed one product that is exactly when none was hidden:
  archived, and missed by search (`StripeRerun.ReuseIffNoneHidden`). Two inputs fail it. A hidden product that search
  finds later is reported as an update, comes back, and stands beside the one the first run created
  (`StripeRerun.HiddenProductComesBack`); of two active products the second run may find the one the first left alone
  (`StripeRerun.TwoActiveDisagree`).
- The header of `stripe-sync.ts` says a new margin is rewritten into the metadata of every product and price. A whole
  applied run gets there exactly when no active price that is kept for its amount and interval carried other metadata
  (`StripeRerun.MetadataReachesEveryPrice`, `StripeRerun.OldMarginStays`).
- Prices are documented as archived when replaced. A throw between the creation of the new price, which takes the key
  over, and the archiving of the old one leaves the old one active without a key, and no rerun finds it; no other throw
  leaves one (`StripeRerun.SyncResumes`, `StripeRerun.OldPriceIsLeft`).
- Plans in the catalog are documented as the public ones. A synced plan ends public exactly unless its row was private
  before: the upsert's conflict branch does not set the flag (`StripePlans.SyncedPlanRow`,
  `StripePlans.HiddenPlanStaysHidden`).
- `import-dns.py` cuts TXT values at 255 characters, where the limit of section 3.3 of RFC 1035 is 255 bytes; the exact
  condition under which every piece fits is `DnsImport.PiecesFitInBytes`, a value that does not is
  `DnsImport.ShortValueOverLimit`.

Three more cases are proved. Prices are found by their key alone, so a reused price stays with the product it was made
for: every price belongs to its entry's own product exactly when no other product's price held a key at the asked
amount (`StripeRerun.PricesFollowProducts`, `StripeRerun.PriceStaysBehind`). The other two the shipped data does not
reach. Lookup keys map `-` to `_`, so two plans or two packs whose slugs differ only there would share their keys
(`StripePlans.CatalogOkIff`, `StripePlans.MixedSlugsShareKeys`); the catalog's slugs are all of the form `build-v2`,
without underscores, and for such slugs being distinct is enough (`StripePlans.KebabCatalogIsOk`). A fixed value that
is secret and absent from Parameter Store would reach the build and not the container, as the script's comment says
(`BuildEnv.SecretFixedValueStaysBehind`); none of the registry's 34 fixed values is secret.

## Model

| member | source | states |
|---|---|---|
| RlsPolicy.IsolationMeaning | tools/scripts/gen-rls-migration.ts:107-152 | for every class, session and row, under three-valued logic: with `app.rls_bypass` on, USING and WITH CHECK hold for every row, whatever the tenant settings; without it, USING holds exactly for the rows the class lets the session touch, WITH CHECK exactly for those it may leave behind; unset and empty settings fail closed |
| RlsPolicy.RefusedWritesNothing | tools/scripts/gen-rls-migration.ts:48-50 | without bypass, a tenant setting that is not a uuid lets no row through; it stops the statement at planning |
| RlsPolicy.PlanRaisesIffRefused | tools/scripts/gen-rls-migration.ts:73-78 | planning raises exactly for the sessions whose settings the class's isolation policy cannot cast; the read policies never add a refusal |
| RlsPolicy.CheckImpliesUsing | tools/scripts/gen-rls-migration.ts:81-96 | in every class and session, bypass or not, a row that may be written may also be touched |
| RlsPolicy.WideningMeaning | tools/scripts/gen-rls-migration.ts:98-105 | the two read policies admit only rows of the session's own organisation: all of them in org-wide mode, those without a workspace always |
| RlsMigration.BlockOutcome | tools/scripts/gen-rls-migration.ts:211-237 | one table's DDL, from any prior policies, ends with row security enabled and forced, exactly the class's policies under the three managed names, and every other policy and row as before |
| RlsMigration.MigrationOutcome | tools/scripts/gen-rls-migration.ts:206-237 | the whole migration succeeds exactly when its tables exist, never fails on a policy that exists, and leaves every table as its class says and the others untouched |
| RlsMigration.MigrationIdempotent | tools/scripts/gen-rls-migration.ts:28-31 | running the migration twice is running it once |
| RlsMigration.OnlyNamedTablesChange | tools/scripts/gen-rls-migration.ts:172-204 | a run is refused exactly for an empty `--only` or a stranger in it, the refusal naming the strangers; otherwise exactly the chosen tables are reset |
| RlsIsolation.StatementIsolation | tools/scripts/gen-rls-migration.ts:66-78 | one SELECT, INSERT, UPDATE or DELETE of a session without bypass: rows it may not touch stay, rows it leaves behind pass the class's write rule, and a SELECT answers exactly the readable rows that match |
| RlsIsolation.SelectEffect | tools/scripts/gen-rls-migration.ts:48-50 | a SELECT of any session whose settings plan answers exactly the matching rows the class lets it read, with bypass all matching rows |
| RlsIsolation.InsertEffect | tools/scripts/gen-rls-migration.ts:66-72 | an INSERT adds the row exactly if the key is free and the session may write it, with bypass any row whatever the tenant settings; otherwise nothing changes and the answer says why |
| RlsIsolation.UpdateEffect | tools/scripts/gen-rls-migration.ts:66-72 | an UPDATE changes exactly the matching rows the session may touch, with bypass all of them, if it may write each as changed; otherwise it changes nothing |
| RlsIsolation.DeleteEffect | tools/scripts/gen-rls-migration.ts:56-63 | a DELETE removes exactly the matching rows the session may touch, with bypass all of them |
| RlsIsolation.UnplannedStatement | tools/scripts/gen-rls-migration.ts:73-78 | a SELECT, UPDATE or DELETE under settings the class cannot cast is refused and changes nothing, bypass or not |
| RlsIsolation.RunIsolation | tools/scripts/gen-rls-migration.ts:206-237 | over every interleaved run of any sessions without bypass: a row no session may touch ends as it began, a row some statement wrote satisfies the write rule for the session that wrote it last, every other row is as it was, and the policies stay in force |
| RlsIsolation.LastWriterAnswers | tools/scripts/gen-rls-migration.ts:107-152 | at the end of any such run a row passes the write rule for its last writer, or no statement wrote it |
| RlsIsolation.RunReads | tools/scripts/gen-rls-migration.ts:81-105 | every SELECT anywhere in a run returns only rows its own session may read |
| RlsIsolation.ReadsStayInOrganisation | tools/scripts/gen-rls-migration.ts:100-105 | on the classes with an organisation column no read leaves the organisation, but for the global rows of org_or_global |
| RlsIsolation.StatementNoninterference | tools/scripts/gen-rls-migration.ts:51-72 | two sessions that differ only in `app.org_wide`: the same statement changes the same rows and answers alike, except that a SELECT may gain rows of its own organisation |
| RlsIsolation.RunsLeaveTheSame | tools/scripts/gen-rls-migration.ts:51-72 | two whole runs that differ only in `app.org_wide` leave the same database |
| RlsIsolation.RunsAnswerAlike | tools/scripts/gen-rls-migration.ts:51-72 | and every INSERT, UPDATE and DELETE in them answers alike, a SELECT only ever gaining rows, of standard and workspace_nullable tables alone |
| RlsIsolation.MigrationProtects | tools/scripts/gen-rls-migration.ts:206-237 | the generator's own DDL puts every table into the state the run theorems assume |
| CanonicalJson.CanonicalDecidesEquivalence | tools/scripts/gen-architecture-docs.ts:42-54 | two values print alike exactly when they are equal up to the member order of objects at every depth |
| CanonicalJson.CanonicalReads | tools/scripts/gen-architecture-docs.ts:53 | the text is JSON: a reader of the grammar of RFC 8259, written apart from the printer, reads it back as the sorted value |
| CanonicalJson.CanonicalIsLaid | tools/scripts/gen-architecture-docs.ts:53 | every member and element stands on its own line, one space a level, with one space after a colon and no other blanks |
| CanonicalJson.EscapesWhatItMust | tools/scripts/gen-architecture-docs.ts:53 | exactly the characters section 7 of RFC 8259 says must be escaped are, and in lower case |
| CanonicalJson.SortDecidesEquivalence | tools/scripts/gen-architecture-docs.ts:43-52 | two values have one sorted form exactly when they are equal up to member order |
| CanonicalJson.SortIdempotent | tools/scripts/gen-architecture-docs.ts:43-52 | sorting a sorted value changes nothing |
| CanonicalJson.SortIsEquivalent | tools/scripts/gen-architecture-docs.ts:43-52 | sorting only reorders members, and keys stay distinct |
| CanonicalJson.SortMembersKeeps | tools/scripts/gen-architecture-docs.ts:46-50 | a sorted object is in key order and holds each key with its own sorted value, and nothing else |
| CanonicalJson.RenderDecodes | tools/scripts/gen-architecture-docs.ts:53 | printed text is uniquely decodable: whatever separator follows, two values that read alike are alike |
| CanonicalJson.KeyOrder | tools/scripts/gen-architecture-docs.ts:47-49 | the order objects enumerate sorted keys in, array indices first, is a total order |
| CanonicalJson.KeyLeqMeans | tools/scripts/gen-architecture-docs.ts:47-49 | the order is array indices by value, before all other keys, and those by their UTF-16 code units |
| CanonicalJson.IndexIff | tools/scripts/gen-architecture-docs.ts:47-49 | an array index is the decimal text of a number below 2^32 - 1, and nothing else is |
| CanonicalJson.RankIsCodeUnitOrder | tools/scripts/gen-architecture-docs.ts:47-48 | the order of other keys is the order of their UTF-16 code units, characters outside the basic plane included |
| ShellEnv.ShellQuoteReads | tools/scripts/build-env.ts:203-206 | a shell reads a quoted value back as it was, whatever it holds but NUL: quotes, newlines, backslashes, `$`, `=` |
| ShellEnv.EnvFileRoundTrip | tools/scripts/build-env.ts:208-212 | sourcing the rendered file gives exactly the list of keys and values, in order |
| BuildEnv.ResolveBuildEnv | tools/scripts/build-env.ts:118-194 | the loops fill the six lists with exactly the entries each bucket's rule admits, in registry order; a later parameter of a leaf wins; OAuth omission outside preview is an error |
| BuildEnv.WhereAVariableIs | tools/scripts/build-env.ts:148-184 | from the registry entry and the store alone: in which missing list a variable is, or to which value it is resolved and whether as fixed or stored |
| BuildEnv.LastParameterWins | tools/scripts/build-env.ts:135-144 | a key has the value of the last parameter with that leaf, and only shell names are keys |
| BuildEnv.Leaf | tools/scripts/build-env.ts:137-139 | a parameter's name under the prefix, else the whole name |
| BuildEnv.BucketsPartition | tools/scripts/build-env.ts:152-184 | each variable the service needs is in exactly one of resolved and the three missing lists |
| BuildEnv.BuildAndRuntimeAgree | tools/scripts/build-env.ts:98-110 | build and container see one value for a resolved variable exactly when it has no fixed value, or the store holds that value, or the store holds none and it is not secret; drift is reported exactly when the store holds another |
| LineTap.Session | tools/scripts/dev.ts:244-264 | for every cutting into chunks and every interleaving of both streams: each stream ships exactly the lines of its whole text, an empty last piece dropped, and each terminal shows its text verbatim |
| LineTap.Tap.OnData | tools/scripts/dev.ts:252-260 | a chunk goes to the terminal as it is, the lines it completes are shipped, the rest stays in the buffer |
| LineTap.Tap.OnEnd | tools/scripts/dev.ts:261-263 | a last line without a newline is shipped once its stream ends |
| LineTap.StripCr | tools/scripts/dev.ts:257 | one carriage return is removed from a line's end, and only there |
| LineTap.SplitIsExact | tools/scripts/dev.ts:255-260 | splitting at newlines loses nothing: joined with newlines the pieces are the text, and none holds one |
| LineTap.CompletedExtends | tools/scripts/dev.ts:252-260 | the lines of a text are those of its first part and those its second part completes from the partial line |
| DnsImport.TxtRoundTrip | infra/tools/import-dns.py:48-66 | wrapped in the provider's quotes, a value without quotes or backslashes parses as strings of 255 characters, the last one at most that, that concatenate back to it |
| DnsImport.PiecesFitInBytes | infra/tools/import-dns.py:43-66 | every piece fits 255 bytes of UTF-8 exactly when all but the last chunk is ASCII and the last chunk fits |
| DnsImport.ShortValueOverLimit | infra/tools/import-dns.py:62-63 | a value of at most 255 characters that is passed on raw and is over 255 bytes |
| DnsImport.GroupRecords | infra/tools/import-dns.py:80-105 | each set holds exactly the values of its carried records in input order under their smallest TTL; the skipped list is exactly the rest |
| DnsImport.SetReadsBack | infra/tools/import-dns.py:80-105 | each value of a set reads back to its record: an MX value as preference and exchange, a TXT value as pieces that concatenate to it; a set holds exactly the records of its key that are not hosting, CAA or the wildcard, under a TTL that one of them gives and none undercuts, 300 where there is none |
| DnsImport.SkippedAre | infra/tools/import-dns.py:84-86 | the skipped list names the type and the name, or `@`, of every record left behind and of no other |
| DnsImport.GroupingIsOrderFree | infra/tools/import-dns.py:80-105 | permuting the input gives the same sets, of the same records, under the same TTLs |
| DnsImport.KeyDeterminesSet | infra/tools/import-dns.py:95-101 | two records share a set exactly when they share type and name, the empty name and `@` being one |
| DnsImport.EveryRecordIsCarriedOrSkipped | infra/tools/import-dns.py:80-105 | the values of the sets the loop returns and the skipped list add up to the number of records |
| Retry.CheckCli | tools/scripts/publish-cli-npm.ts:133-164 | against any world whose clock passes at least each sleep: at most 13 tries, each sleep its pause or what is left of the window, true only on the version printed, false only at or past the window |
| Retry.PauseAfterEachTry | tools/scripts/publish-cli-npm.ts:47-53 | 20 seconds after the first try, 10 more after each of the next four, a minute from the fifth on |
| Retry.TwelvePausesReachTheWindow | tools/scripts/publish-cli-npm.ts:42-53 | twelve pauses add up to the ten minutes and eleven do not |
| Retry.PausedStep | tools/scripts/publish-cli-npm.ts:51-53 | a failed try inside the window is one of the first twelve, and the clock keeps up with the pauses |
| Retry.PromptFailureMakesThirteen | tools/scripts/publish-cli-npm.ts:139-163 | the bound is exact: a run without delays of its own that fails makes thirteen tries |
| Retry.SyncRetryDelayMs | tools/scripts/inngest-verify.ts:129-137 | a final status has no delay; a retryable one waits what the header says, clamped to 1 and 15 seconds, or the default where it is missing, negative or no number |
| Retry.SyncApp | tools/scripts/inngest-verify.ts:146-177 | against any responses: total sleep within the budget, at most one retry a second of budget, every sleep the delay the refusal asked for, success exactly after an ok response, failure exactly on a final answer or an exhausted budget |
| Backfill.InsertRows | tools/scripts/backfill-claude-telemetry.ts:400-471 | the store gains each identity it lacked once, as the last row of the first chunk that has it; stored rows stay; the result counts the additions; a throw leaves whole chunks done, on an identity or a request of the next chunk |
| Backfill.Dedupe | tools/scripts/backfill-claude-telemetry.ts:401-405 | a chunk keeps the last row of every identity |
| Backfill.IdentityIff | tools/scripts/backfill-claude-telemetry.ts:388-396 | two rows have one identity exactly when their times are one and their identifiers differ at most in letter case |
| Backfill.RerunCompletes | tools/scripts/backfill-claude-telemetry.ts:414-470 | a rerun after a throw ends with the old identities and all the input's, each addition made once over both runs |
| Backfill.AddressableByIdentity | tools/scripts/backfill-claude-telemetry.ts:390-413 | rows of one identity are all valid or all invalid, so checking the kept row of a chunk checks the dropped ones |
| KnipBaseline.AcceptedIffDistinct | apps/app/knip.preprocessor.ts:44-49 | a baseline is accepted exactly when no entry occurs twice |
| KnipBaseline.RepeatsAre | apps/app/knip.preprocessor.ts:44-49 | the error names exactly the entries that occur twice |
| KnipBaseline.ApplyBaseline | apps/app/knip.preprocessor.ts:53-82 | in any order of the findings: dropped findings and used entries pair up one to one, no kept finding has an unused entry, and every counter ends equal to its kept findings, `files` and the total also counting stale entries |
| KnipBaseline.FindingsConserved | apps/app/knip.preprocessor.ts:57-82 | findings before are findings kept plus entries used |
| KnipBaseline.ZeroIffOneToOne | apps/app/knip.preprocessor.ts:74-81 | the total behind the exit code is zero exactly when findings and entries match one to one, even if findings share a key |
| SystemDb.CollectAliases | tools/scripts/check-system-db-justifications.ts:45-85 | the loop ends with exactly the names reachable from `withSystemDb`, which is the least closed set |
| SystemDb.AliasIff | tools/scripts/check-system-db-justifications.ts:45-85 | an alias is `withSystemDb`, an import, a destructured property or a member of that name, or a variable given an alias |
| SystemDb.AliasesAreOrderFree | tools/scripts/check-system-db-justifications.ts:54-85 | which names are aliases does not depend on the order of the declarations |
| SystemDb.ScanSystemCalls | tools/scripts/check-system-db-justifications.ts:86-113 | each call of an alias and each call of a member `withSystemDb` is recorded once, in order, with its own fingerprint and justification, and no other call |
| SystemDb.BaselineOf | tools/scripts/check-system-db-justifications.ts:116-124 | each file's entry is sorted and holds exactly its unjustified calls, repeats included; no entry is empty |
| SystemDb.UnjustifiedCounts | tools/scripts/check-system-db-justifications.ts:116-124 | a fingerprint counts once for each call of the file that has it and no justification |
| SystemDb.CompareBaseline | tools/scripts/check-system-db-justifications.ts:126-139 | the errors of a file are exactly the multiset of hashes beyond the allowed ones |
| SystemDb.NoErrorsIffWithin | tools/scripts/check-system-db-justifications.ts:126-139 | there is no error exactly when the allowed baseline covers the actual one |
| SystemDb.Check | tools/scripts/check-system-db-justifications.ts:198-237 | a commit passes exactly when its unjustified calls are its baseline and that baseline is within the prior one |
| SystemDb.ExceptionsOnlyShrink | tools/scripts/check-system-db-justifications.ts:206-216 | along any chain of passing commits no file gains an unjustified call over any earlier commit |
| SystemDb.NoneOverTheStart | tools/scripts/check-system-db-justifications.ts:206-216 | nor over the baseline the chain started from |
| AtlasLint.BeforeIsNumeric | tools/scripts/db-lint-migrations.ts:143-150 | on digit strings of one length, string order is numeric order |
| AtlasLint.MaxAtlasVersion | tools/scripts/db-lint-migrations.ts:143-150 | the latest version among the well-named files, none exactly if there is none |
| AtlasLint.CheckAtlasBaseline | tools/scripts/db-lint-migrations.ts:310-396 | errors are exactly the added files not after the merge base that restore nothing; warnings exactly the restorations and the files the tip has overtaken; without git, degraded and silent |
| AtlasLint.LintAtlas | tools/scripts/db-lint-migrations.ts:398-484 | the lint passes exactly when names, versions, atlas.sum and order are right |
| AtlasLint.RunnerSkipsNone | tools/scripts/db-lint-migrations.ts:364-380 | a runner that applies only versions after its last, from a database at the merge base, applies every added file exactly when none is late, and nothing else |
| AtlasLint.SortedIsInVersionOrder | tools/scripts/db-lint-migrations.ts:398-401 | files sorted by name are in version order |
| AtlasLint.CleanRunSkipsNone | tools/scripts/db-lint-migrations.ts:337-395 | a passing lint with a merge base and no restoration: the runner applies every added file and skips none |
| OrdinalLint.FindGap | tools/scripts/db-lint-migrations.ts:91-107 | the loop reports no gap exactly when every lower ordinal is present or squashed, and otherwise the lowest missing one |
| OrdinalLint.LintSeries | tools/scripts/db-lint-migrations.ts:59-121 | the frozen series passes exactly when named well, without duplicates and without gaps |
| StripeSync.ProductOutcome | tools/scripts/stripe-sync.ts:226-254 | writing the product a lookup found, or a new one: it ends as desired with foreign metadata kept, nothing changes where nothing differed, and if the lookup showed one product the slug has one active product and beside it exactly the hidden ones |
| StripeSync.DesiredMeans | tools/scripts/stripe-sync.ts:163-183 | a product is as desired exactly if it is active, has the entry's name, slug and every metadata value, and is marked as version 2 |
| StripeSync.ProductActionMeans | tools/scripts/stripe-sync.ts:241-254 | create is reported exactly where a product was added, reuse exactly where the write changed nothing |
| StripeSync.PriceActionMeans | tools/scripts/stripe-sync.ts:257-301 | create is reported exactly where the key had no price, reuse only where it keeps the one it had |
| StripeSync.AnswerIsUnique | tools/scripts/stripe-sync.ts:185-205 | a lookup that shows one product has one answer, search or list |
| StripeSync.EnsureProduct | tools/scripts/stripe-sync.ts:207-255 | from any store and answer: the action and the identifier follow from what the lookup found, applied its product is written and no other, dry or thrown nothing changes |
| StripeSync.EnsurePrice | tools/scripts/stripe-sync.ts:257-301 | applied, exactly one active price holds the key, with the amount and interval, and is the one returned, its metadata and product as asked exactly if no matching holder had others; a stale holder is retired; reuse and dry runs change nothing; a throw changes nothing or leaves the stale holder without its key |
| StripeSync.SyncStripe | tools/scripts/stripe-sync.ts:310-413 | the report and the writes are decided by the store before the run and what lookups answer; of those writes the first go through, as many as may, and the next throws; applied, every entry reached is done and linked, thrown or not: a new price is one of the entry's own product, a reused one stays as it was; at most one active price a key at every step; nothing outside the catalog changes |
| StripeRerun.DoneIsSynced | tools/scripts/stripe-sync.ts:310-413 | after an applied run an entry has one active product as desired, one product exactly if none was hidden, and each key one active price of the amount and interval |
| StripeRerun.MetadataReachesEveryPrice | tools/scripts/stripe-sync.ts:12-16 | over a whole applied run: every price carries the metadata asked for exactly when every matching holder did before |
| StripeRerun.OldMarginStays | tools/scripts/stripe-sync.ts:274-279 | a price of an old margin that is reused and keeps it |
| StripeRerun.PricesFollowProducts | tools/scripts/stripe-sync.ts:358-399 | over a whole applied run: every price is one of its entry's own product exactly when no matching holder belonged to another |
| StripeRerun.PriceStaysBehind | tools/scripts/stripe-sync.ts:274-279 | the price of a hidden product is reused, and the product created beside it has none |
| StripeRerun.SyncedIsReuse | tools/scripts/stripe-sync.ts:163-183 | a synced entry is reported as reuse exactly when the lookup answers with its active product |
| StripeRerun.NextAnswer | tools/scripts/stripe-sync.ts:185-255 | the run after an applied one, whatever the lookup answers by then, several products or one: prices are reused, the product too unless the answer is another than was written and not as desired |
| StripeRerun.ReuseWhateverSearchAnswers | tools/scripts/stripe-sync.ts:18-21 | the next run reports reuse for every answer a lookup may give exactly when every product of the slug but the one found before was as desired already |
| StripeRerun.ReuseIffNoneHidden | tools/scripts/stripe-sync.ts:18-21 | where the lookup showed one product, exactly when none of the slug was hidden |
| StripeRerun.TwoActiveDisagree | tools/scripts/stripe-sync.ts:163-183 | two active products of a slug, none hidden: the run that finds one reports reuse, the next may find the other and report an update |
| StripeRerun.HiddenProductComesBack | tools/scripts/stripe-sync.ts:189-205 | a product search misses first and finds later: the second run updates and the slug has two active products |
| StripeRerun.DryThenApply | tools/scripts/stripe-sync.ts:6-8 | a dry run and the applied run after it stop at one entry, and where lookups show one product each they report the same, as the store before them has it |
| StripeRerun.SyncTwice | tools/scripts/stripe-sync.ts:310-413 | apply, then run again with lookups answering as they like: the first report is as the store and the answers call for; the second reuses all prices, and all products but those found now that were not written and differ; where lookups showed one product each, entries are synced in between, and with search unchanged or nothing hidden all is reuse and nothing changes |
| StripeRerun.OldPriceIsLeft | tools/scripts/stripe-sync.ts:286-296 | the old price of a new amount, active without its key after such a throw, while the next run reports reuse |
| StripeRerun.SyncResumes | tools/scripts/stripe-sync.ts:283-296 | for every number of writes let through, a rerun leaves every entry with an active product as desired and one active price a key; where lookups showed one product each that product is the only active one, and the throw comes at the first planned write not let through; a stale price stays active without its key exactly when the throw fell between the two calls |
| StripePlans.LookupKeysCollide | tools/scripts/stripe-sync.ts:77-78 | two lookup keys are one exactly for one suffix and slugs that differ at most in `-` for `_` |
| StripePlans.CatalogOkIff | tools/scripts/stripe-sync.ts:339-407 | a catalog meets the reconcile's assumptions exactly when slugs are distinct, no two plans and no two packs differ only in `-` for `_`, and no metadata sets the slug |
| StripePlans.KebabCatalogIsOk | tools/scripts/stripe-sync.ts:77-78 | distinct slugs without underscores share no lookup key, so a catalog of them whose metadata leaves the slug alone meets the assumptions |
| StripePlans.UpsertPlans | tools/scripts/stripe-sync.ts:417-533 | the loop and the tombstone leave the table whose rows the two lemmas below describe; a dry run changes nothing |
| StripePlans.PublicPlansAreCanonical | tools/scripts/stripe-sync.ts:496-523 | no row is deleted, none but a synced plan's is added, every public row ends canonical, rows of no synced plan keep all but the flag, letter case of slugs aside |
| StripePlans.SyncedPlanRow | tools/scripts/stripe-sync.ts:427-485 | a synced plan's row has the plan's own name, tier, monthly and annual amounts and terms, names the product and prices it was synced to, keeps its slug or has a plan's own, and is public exactly unless it was a private row before |
| StripePlans.HiddenPlanStaysHidden | tools/scripts/stripe-sync.ts:461-479 | a canonical plan with a private row: rewritten, and private still |
| StripePlans.Sync | tools/scripts/stripe-sync.ts:537-571 | the whole applied run: every plan's row has the plan's own columns, names an active product as the catalog has it, and the one active monthly and annual price, of the row's own two amounts; a price is one of the row's product exactly unless one of another product already charged as much under that key; every pack has one active one-time price of its amount; where lookups showed one product each, that product is its slug's only active one; dry, failed and no-db runs leave the table alone |
| Credits.Wallet.DrainLots | packages/billing/src/credits.ts:416-453 | takes exactly the amount from the live lots in order, touching a lot only once those before it are empty |
| Credits.Wallet.SettleOwedCredits | packages/billing/src/credits.ts:742-787 | collects the smaller of what is owed and what is spendable, a later reason only once the earlier ones owe nothing, leaving each reason's fraction |
| Credits.Wallet.CreateCreditLot | packages/billing/src/credits.ts:45-117 | the grant joins the lots and the debt is collected out of all of them |
| Credits.Wallet.HoldFloor | tools/scripts/provision-enterprise-org.ts:1177-1255 | one apply step of the floor: grants the shortfall, which debt then shares; at or above the floor nothing changes |
| Credits.TopUpCents | tools/scripts/provision-enterprise-org.ts:485-489 | the grant lifts the balance to the larger of balance and floor |
| Credits.ReachesFloorIff | tools/scripts/provision-enterprise-org.ts:476-489 | one run reaches the floor exactly when the balance was there or nothing is owed |
| Credits.SecondRunIdleIff | tools/scripts/provision-enterprise-org.ts:476-489 | the next run changes nothing under exactly the same condition |
| Credits.DebtDefeatsOneRun | packages/billing/src/credits.ts:84-87 | a debt that makes one run end below the floor and the second grant again |
| Credits.RunsConverge | tools/scripts/provision-enterprise-org.ts:476-489 | runs enough to cover the debt and one more always reach the floor with the debt paid |
| Credits.FormatReadsBack | tools/scripts/provision-enterprise-org.ts:550-557 | the printed figure reads back as the cents it was made from, negative ones included |
| Credits.CommasEveryThree | tools/scripts/provision-enterprise-org.ts:554 | commas stand exactly before every third digit from the right |
| Provision.OwnerReadiness | tools/scripts/provision-enterprise-org.ts:335-354 | ready exactly when the resolver confirms a candidate before any question throws, naming the first one |
| Provision.MonthlyOf | tools/scripts/provision-enterprise-org.ts:375-388 | the smallest monthly figure that covers the annual one |
| Provision.GuardFollowsResolver | tools/scripts/provision-enterprise-org.ts:451-470 | a subscription wins exactly when the resolver gives no enterprise tier whatever the column holds; a figure is refused exactly under a subscription, naming its plan and the smallest monthly figure; the tier is written exactly where the write takes effect and nothing refuses |
| Provision.Organisation.Turn | tools/scripts/provision-enterprise-org.ts:786-1256 | one organisation's turn with any of its statements or resolver questions throwing: the whole new state and outcome; the annual figure is recorded exactly where the tier is written, the column can hold it, and it was given or none was stored; and a wallet that only a finished applied turn moves |
| Provision.TurnLeaves | tools/scripts/provision-enterprise-org.ts:985-1173 | by how far a turn got: tier, status and allowance, settings, and budgets, each as it was or as the run sets it |
| Provision.FailedIff | tools/scripts/provision-enterprise-org.ts:786-1256 | for every statement that may throw: the turn fails on it exactly when it is reached, and is a read or a write that would change something |
| Provision.RefusedIff | tools/scripts/provision-enterprise-org.ts:786-983 | whatever throws later: refused exactly for a deleted organisation, a figure a subscription answers for, or no confirmed owner where the tier would be written |
| Provision.RefusedAndDryChangeNothing | tools/scripts/provision-enterprise-org.ts:787-801 | refused and dry turns change nothing, nor do those that fail before the first write |
| Provision.AppliedTurnClearsTheWay | tools/scripts/provision-enterprise-org.ts:1016-1173 | an applied turn ends with active dunning, no assistant cap and no enabled budget, and resolves to enterprise unless another tier's subscription wins |
| Provision.SecondTurnIsIdle | tools/scripts/provision-enterprise-org.ts:985-1173 | the same turn again changes nothing |
| Provision.RerunCompletes | tools/scripts/provision-enterprise-org.ts:786-1256 | a turn cut short at any write is completed by the next one, as if it had not been |
| Provision.TierNeedsAnOwner | tools/scripts/provision-enterprise-org.ts:883-1066 | over every history of runs, subscriptions and cancellations, the tier column moves only to enterprise and only in an applied run for which the resolver confirms a candidate |
| Provision.CancellingRestoresTheTier | tools/scripts/provision-enterprise-org.ts:990-1010 | runs under a winning subscription leave tier, status and allowance, so cancelling resolves to the tier from before them |
| Provision.AllowanceIsKept | tools/scripts/provision-enterprise-org.ts:527-544 | without a given figure, no number of runs alters a recorded allowance |
| Provision.DeletedStaysDeleted | tools/scripts/provision-enterprise-org.ts:183-197 | a deleted organisation is never written to |
| Provision.ExitCode | tools/scripts/provision-enterprise-org.ts:1278-1293 | 1 exactly if an organisation was refused or failed, else 2 exactly if a subscription overrode a tier |

## Left out

- Databases, Stripe, ClickHouse, npm, Inngest, SSM and git: stores whose reads see earlier writes, or parameters that answer as they like.
- SQL beyond one table: rows are their scoping columns and a payload, filters and changes are functions of the row; subqueries across tables, ON CONFLICT, column grants and settings changed inside a transaction are not modelled.
- SQL evaluation order: AND and OR are taken left to right at run time; that planning raises on a setting that is not a uuid, bypass or not, is what packages/database/integration/org-only-sentinel-refusal.test.ts documents.
- RlsIsolation.RunIsolation: on org_or_global, global rows are ones every session may touch, as the class's USING has it, so only its half about new rows says something of them.
- The text of the DDL: statements are values, and the parsing of `--only=` and of the output file name is not part of this model.
- `derivePricing`, `fetchAuthz`, `staticValueFor`, the plan and pack catalogs, the policy manifest and the environment registry are parameters.
- Stripe's currency is not compared by the script and not modelled; an inactive price that still holds a lookup key is assumed not to block a new one; product search answers for a fixed set of slugs within one run, any set in the next; a write that throws has not been done.
- StripeRerun.SyncTwice, StripeRerun.SyncResumes, StripeRerun.DryThenApply, StripePlans.Sync: that the active product is a slug's only one, and which one it is, is stated where a lookup of each slug shows at most one product; with several, which one a lookup answers with is open.
- StripePlans.UpsertPlans: letter case is folded in ASCII, where the citext column folds by the database's locale; a throw between two upserts is not modelled.
- Provision.Organisation.Turn: at most one entitled subscription an organisation at a time; with several, the script and the resolver each take whichever row comes first.
- The loop over several organisations, the confirmations and the ledger and balance mirror of a grant; the exit code is modelled over the outcomes.
- A grant's invalid reason, and `bucketValue`'s guard against counters past 2^53.
- SystemDb.ScanSystemCalls: the TypeScript syntax walk, the fingerprints and the wording of a justification: declarations, call sites and their fingerprints are given; so is the early exit for a text that never mentions the name.
- The file order of a baseline and of error lists (a locale comparison), and the wording of messages.
- The nested knip report is flattened to slots of type, file and key; `keyOf` is an arbitrary function.
- Names of the frozen series are taken as matched or not; the Atlas name pattern is modelled.
- CanonicalJson.CanonicalDecidesEquivalence: no JSON `undefined` and lone surrogates; numbers are their printed tokens.
- LineTap.Session: chunks are text already; UTF-8 decoding across chunk boundaries is not modelled.
- DnsImport.GroupRecords: leaves out records with a missing type, a null priority or a TTL that is not a natural number.
- Retry.SyncApp: delays are exact reals, a Retry-After header is already read as a number or as none.
- Retry.CheckCli: clocks that run backwards, or less than a sleep asked for, are not modelled.
- Backfill.InsertRows: leaves out the order within one insert, malformed replies of the lookup, and a request that fails after the server has done its work.
- Console output, colours, prompts, flag parsing, timestamps such as `updatedAt`, and the remaining scripts: wiring, or easy members only.
