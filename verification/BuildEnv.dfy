/**
 * `resolveBuildEnv` of build-env.ts: which value each registry variable gets at
 * build time, which are missing, and what the running container will see.
 */
module BuildEnv {
  import opened Common
  import opened ShellEnv

  datatype EnvName = Development | Preview | Production

  /** One registry entry. `fixed` and `fixedAnywhere` are its static values. */
  datatype Entry = Entry(key: string, services: set<string>, requiredIn: set<EnvName>, clientExposed: bool,
                         secret: bool, isStatic: bool, fixed: map<EnvName, string>, fixedAnywhere: Option<string>)

  datatype Parameter = Parameter(name: string, value: string)

  datatype ResolvedVar = ResolvedVar(key: string, value: string, secret: bool, fromRegistry: bool)

  datatype Resolution = Resolution(resolved: seq<ResolvedVar>, missingRequired: seq<string>,
                                   missingInlined: seq<string>, missingOptional: seq<string>,
                                   runtimeFill: seq<ResolvedVar>, drift: seq<string>)

  datatype ResolveError = OAuthOmissionOutsidePreview

  const OAUTH_KEYS: set<string> := {"GOOGLE_LOGIN_CLIENT_ID", "GOOGLE_LOGIN_CLIENT_SECRET",
                                    "GITHUB_LOGIN_CLIENT_ID", "GITHUB_LOGIN_CLIENT_SECRET"}

  function StaticValueFor(e: Entry, env: EnvName): Option<string> {
    if env in e.fixed then Some(e.fixed[env]) else e.fixedAnywhere
  }

  /** A parameter's name under the prefix; a name from elsewhere stands as it is. */
  function Leaf(name: string, prefix: string): (leaf: string)
    ensures leaf == name || name == prefix + "/" + leaf
    ensures (exists rest :: name == prefix + "/" + rest) ==> name == prefix + "/" + leaf
  {
    if prefix + "/" <= name then name[|prefix| + 1..] else name
  }

  /** One trailing slash removed. */
  function Normalized(prefix: string): (p: string)
    ensures prefix == p + "/" || (prefix == p && !(p != [] && p[|p| - 1] == '/'))
  {
    if prefix != [] && prefix[|prefix| - 1] == '/' then prefix[..|prefix| - 1] else prefix
  }

  /** The value the store holds for a key: the last parameter whose leaf it is. */
  function Stored(parameters: seq<Parameter>, prefix: string, key: string): Option<string> {
    if parameters == [] then None
    else
      var p := parameters[|parameters| - 1];
      if Leaf(p.name, prefix) == key && IsName(key) then Some(p.value)
      else Stored(parameters[..|parameters| - 1], prefix, key)
  }

  /** A key's value is that of the last parameter with this leaf, and only names are keys. */
  lemma {:induction false} LastParameterWins(parameters: seq<Parameter>, prefix: string, key: string, i: nat)
    requires i < |parameters| && Leaf(parameters[i].name, prefix) == key
    requires forall j | i < j < |parameters| :: Leaf(parameters[j].name, prefix) != key
    ensures Stored(parameters, prefix, key) == if IsName(key) then Some(parameters[i].value) else None
    decreases |parameters|
  {
    var n := |parameters| - 1;
    if i < n {
      LastParameterWins(parameters[..n], prefix, key, i);
    } else if !IsName(key) {
      NoNameNoValue(parameters, prefix, key);
    }
  }

  lemma {:induction false} NoNameNoValue(parameters: seq<Parameter>, prefix: string, key: string)
    requires !IsName(key) || forall p | p in parameters :: Leaf(p.name, prefix) != key
    ensures Stored(parameters, prefix, key) == None
    decreases |parameters|
  {
    if parameters != [] { NoNameNoValue(parameters[..|parameters| - 1], prefix, key); }
  }

  /** What a build asks for, and what it has to answer from. */
  datatype Query = Query(service: string, env: EnvName, store: map<string, string>, withoutOAuth: bool)

  function InStore(q: Query, key: string): Option<string> {
    if key in q.store then Some(q.store[key]) else None
  }

  predicate Wanted(q: Query, e: Entry) {
    q.service in e.services && !(q.withoutOAuth && e.key in OAUTH_KEYS)
  }

  function Fixed(q: Query, e: Entry): Option<string> {
    if e.isStatic then StaticValueFor(e, q.env) else None
  }

  /** The registry's own value, else the store's. */
  function Supplied(q: Query, e: Entry): Option<string> {
    if Fixed(q, e).Some? then Fixed(q, e) else InStore(q, e.key)
  }

  datatype Bucket = Resolved | MissingRequired | MissingInlined | MissingOptional | Drift

  predicate BelongsIn(q: Query, e: Entry, b: Bucket) {
    Wanted(q, e) &&
    match b
    case Resolved => Supplied(q, e).Some?
    case MissingRequired => Supplied(q, e).None? && q.env in e.requiredIn
    case MissingInlined => Supplied(q, e).None? && q.env !in e.requiredIn && e.clientExposed
    case MissingOptional => Supplied(q, e).None? && q.env !in e.requiredIn && !e.clientExposed
    case Drift => Fixed(q, e).Some? && InStore(q, e.key).Some? && InStore(q, e.key) != Fixed(q, e)
  }

  predicate IsFill(q: Query, e: Entry) {
    Wanted(q, e) && Fixed(q, e).Some? && InStore(q, e.key).None? && !e.secret
  }

  function VarOf(q: Query, e: Entry): ResolvedVar {
    ResolvedVar(e.key, Supplied(q, e).GetOr(""), e.secret, Fixed(q, e).Some?)
  }

  /** The keys of a bucket, in registry order. */
  function KeysIn(q: Query, es: seq<Entry>, b: Bucket): seq<string> {
    if es == [] then []
    else
      var e := es[|es| - 1];
      KeysIn(q, es[..|es| - 1], b) + (if BelongsIn(q, e, b) then [e.key] else [])
  }

  function ResolvedIn(q: Query, es: seq<Entry>): seq<ResolvedVar> {
    if es == [] then []
    else
      var e := es[|es| - 1];
      ResolvedIn(q, es[..|es| - 1]) + (if BelongsIn(q, e, Resolved) then [VarOf(q, e)] else [])
  }

  function FillIn(q: Query, es: seq<Entry>): seq<ResolvedVar> {
    if es == [] then []
    else
      var e := es[|es| - 1];
      FillIn(q, es[..|es| - 1]) + (if IsFill(q, e) then [VarOf(q, e)] else [])
  }

  function Resolve(q: Query, es: seq<Entry>): Resolution {
    Resolution(ResolvedIn(q, es), KeysIn(q, es, MissingRequired), KeysIn(q, es, MissingInlined),
               KeysIn(q, es, MissingOptional), FillIn(q, es), KeysIn(q, es, Drift))
  }

  /** The stored values by key. */
  method ReadStore(parameters: seq<Parameter>, normalized: string) returns (fromStore: map<string, string>)
    ensures forall key ::
      (if key in fromStore then Some(fromStore[key]) else None) == Stored(parameters, normalized, key)
  {
    fromStore := map[];
    for i := 0 to |parameters|
      invariant forall key ::
        (if key in fromStore then Some(fromStore[key]) else None) == Stored(parameters[..i], normalized, key)
    {
      var leaf := Leaf(parameters[i].name, normalized);
      assert parameters[..i + 1][..i] == parameters[..i];
      if IsName(leaf) {
        fromStore := fromStore[leaf := parameters[i].value];
      }
    }
    assert parameters[..|parameters|] == parameters;
  }

  /** Resolves every variable the service needs, in registry order. */
  method ResolveBuildEnv(service: string, env: EnvName, parameters: seq<Parameter>, prefix: string,
                         withoutOAuth: bool, registry: seq<Entry>)
    returns (r: Result<Resolution, ResolveError>, ghost q: Query)
    ensures r.Err? <==> withoutOAuth && env != Preview
    ensures q.service == service && q.env == env && q.withoutOAuth == withoutOAuth
    ensures r.Ok? ==> forall key :: InStore(q, key) == Stored(parameters, Normalized(prefix), key)
    ensures r.Ok? ==> r.value == Resolve(q, registry)
  {
    var fromStore: map<string, string> := map[];
    q := Query(service, env, fromStore, withoutOAuth);
    if withoutOAuth && env != Preview {
      return Err(OAuthOmissionOutsidePreview), q;
    }
    fromStore := ReadStore(parameters, Normalized(prefix));
    q := Query(service, env, fromStore, withoutOAuth);

    var resolved, runtimeFill: seq<ResolvedVar> := [], [];
    var missingRequired, missingInlined, missingOptional, drift := [], [], [], [];
    for i := 0 to |registry|
      invariant resolved == ResolvedIn(q, registry[..i]) && runtimeFill == FillIn(q, registry[..i])
      invariant missingRequired == KeysIn(q, registry[..i], MissingRequired)
      invariant missingInlined == KeysIn(q, registry[..i], MissingInlined)
      invariant missingOptional == KeysIn(q, registry[..i], MissingOptional)
      invariant drift == KeysIn(q, registry[..i], Drift)
    {
      var e := registry[i];
      assert registry[..i + 1][..i] == registry[..i];
      if service !in e.services { continue; }
      if withoutOAuth && e.key in OAUTH_KEYS { continue; }
      var staticValue := if e.isStatic then StaticValueFor(e, env) else None;
      var stored := if e.key in fromStore then Some(fromStore[e.key]) else None;
      var value := if staticValue.Some? then staticValue else stored;
      if value.None? {
        if env in e.requiredIn {
          missingRequired := missingRequired + [e.key];
        } else if e.clientExposed {
          missingInlined := missingInlined + [e.key];
        } else {
          missingOptional := missingOptional + [e.key];
        }
        continue;
      }
      var entry := ResolvedVar(e.key, value.value, e.secret, staticValue.Some?);
      resolved := resolved + [entry];
      if staticValue.None? { continue; }
      if stored.None? {
        if !e.secret { runtimeFill := runtimeFill + [entry]; }
      } else if stored != staticValue {
        drift := drift + [e.key];
      }
    }
    assert registry[..|registry|] == registry;
    r := Ok(Resolution(resolved, missingRequired, missingInlined, missingOptional, runtimeFill, drift));
  }

  // ---- What the buckets promise ----

  function KeysOf(vs: seq<ResolvedVar>): seq<string> {
    seq(|vs|, i requires 0 <= i < |vs| => vs[i].key)
  }

  function WantedKeys(q: Query, es: seq<Entry>): seq<string> {
    if es == [] then []
    else
      var e := es[|es| - 1];
      WantedKeys(q, es[..|es| - 1]) + (if Wanted(q, e) then [e.key] else [])
  }

  lemma {:induction false} ResolvedKeys(q: Query, es: seq<Entry>)
    ensures KeysOf(ResolvedIn(q, es)) == KeysIn(q, es, Resolved)
    decreases |es|
  {
    if es != [] { ResolvedKeys(q, es[..|es| - 1]); }
  }

  /** How often a key is listed in a bucket. */
  ghost function Count(q: Query, es: seq<Entry>, b: Bucket, key: string): nat {
    multiset(KeysIn(q, es, b))[key]
  }

  lemma CountGrows(q: Query, es: seq<Entry>, b: Bucket, key: string)
    requires es != []
    ensures var e := es[|es| - 1];
      Count(q, es, b, key) == Count(q, es[..|es| - 1], b, key) + if BelongsIn(q, e, b) && e.key == key then 1 else 0
  {
  }

  lemma {:induction false} CountsAddUp(q: Query, es: seq<Entry>, key: string)
    ensures Count(q, es, Resolved, key) + Count(q, es, MissingRequired, key) + Count(q, es, MissingInlined, key)
          + Count(q, es, MissingOptional, key) == multiset(WantedKeys(q, es))[key]
    decreases |es|
  {
    if es != [] {
      CountsAddUp(q, es[..|es| - 1], key);
      CountGrows(q, es, Resolved, key);
      CountGrows(q, es, MissingRequired, key);
      CountGrows(q, es, MissingInlined, key);
      CountGrows(q, es, MissingOptional, key);
    }
  }

  /** Every wanted variable is in exactly one of resolved and the three missing lists. */
  lemma BucketsPartition(q: Query, es: seq<Entry>)
    ensures var r := Resolve(q, es);
      multiset(KeysOf(r.resolved)) + multiset(r.missingRequired) + multiset(r.missingInlined)
      + multiset(r.missingOptional) == multiset(WantedKeys(q, es))
  {
    ResolvedKeys(q, es);
    forall key: string { CountsAddUp(q, es, key); }
  }

  ghost predicate DistinctKeys(es: seq<Entry>) {
    forall i, j | 0 <= i < j < |es| :: es[i].key != es[j].key
  }

  lemma {:induction false} BucketMembers(q: Query, es: seq<Entry>, e: Entry)
    requires DistinctKeys(es) && e in es
    ensures e.key in KeysIn(q, es, Drift) <==> BelongsIn(q, e, Drift)
    ensures (exists v | v in FillIn(q, es) :: v.key == e.key) <==> IsFill(q, e)
    ensures forall v | v in FillIn(q, es) && v.key == e.key :: v == VarOf(q, e)
    decreases |es|
  {
    var last, rest := es[|es| - 1], es[..|es| - 1];
    if e == last {
      FromEntries(q, rest, e.key);
      if IsFill(q, e) { assert VarOf(q, e) in FillIn(q, es); }
    } else {
      BucketMembers(q, rest, e);
      assert last.key != e.key;
      assert forall v | v in FillIn(q, rest) :: v in FillIn(q, es);
    }
  }

  lemma {:induction false} FromEntries(q: Query, es: seq<Entry>, key: string)
    requires forall e | e in es :: e.key != key
    ensures key !in KeysIn(q, es, Drift) && forall v | v in FillIn(q, es) :: v.key != key
    decreases |es|
  {
    if es != [] { FromEntries(q, es[..|es| - 1], key); }
  }

  // ---- Where a variable ends up, from its entry and the store ----

  /** The service needs the variable, and it is none of the sign-in ones a build may leave out. */
  predicate Needs(q: Query, e: Entry) {
    q.service in e.services
    && !(q.withoutOAuth && e.key in ["GOOGLE_LOGIN_CLIENT_ID", "GOOGLE_LOGIN_CLIENT_SECRET",
                                     "GITHUB_LOGIN_CLIENT_ID", "GITHUB_LOGIN_CLIENT_SECRET"])
  }

  /** The registry holds a value for this environment or for every one. */
  predicate HasFixed(q: Query, e: Entry) {
    e.isStatic && (q.env in e.fixed || e.fixedAnywhere.Some?)
  }

  predicate Missing(q: Query, e: Entry) {
    Needs(q, e) && !HasFixed(q, e) && e.key !in q.store
  }

  lemma {:induction false} KeysOfEntry(q: Query, es: seq<Entry>, e: Entry, b: Bucket)
    requires DistinctKeys(es) && e in es
    ensures e.key in KeysIn(q, es, b) <==> BelongsIn(q, e, b)
    decreases |es|
  {
    var last, rest := es[|es| - 1], es[..|es| - 1];
    if e == last { NoKeyOf(q, rest, e.key, b); } else { KeysOfEntry(q, rest, e, b); }
  }

  lemma {:induction false} NoKeyOf(q: Query, es: seq<Entry>, key: string, b: Bucket)
    requires forall e | e in es :: e.key != key
    ensures key !in KeysIn(q, es, b)
    decreases |es|
  {
    if es != [] { NoKeyOf(q, es[..|es| - 1], key, b); }
  }

  lemma {:induction false} ResolvedVars(q: Query, es: seq<Entry>, e: Entry, v: ResolvedVar)
    requires DistinctKeys(es) && e in es && v.key == e.key
    ensures v in ResolvedIn(q, es) <==> BelongsIn(q, e, Resolved) && v == VarOf(q, e)
    decreases |es|
  {
    var last, rest := es[|es| - 1], es[..|es| - 1];
    if e == last { NotResolved(q, rest, v); } else { ResolvedVars(q, rest, e, v); }
  }

  lemma {:induction false} NotResolved(q: Query, es: seq<Entry>, v: ResolvedVar)
    requires forall e | e in es :: e.key != v.key
    ensures v !in ResolvedIn(q, es)
    decreases |es|
  {
    if es != [] { NotResolved(q, es[..|es| - 1], v); }
  }

  /**
   * A variable is missing exactly if it is needed and neither the registry nor
   * the store has a value: required by the environment, else inlined into the
   * client, else optional. Otherwise it is resolved once it is needed, to the
   * registry's value for the environment, its value for every one, or the
   * store's, in this order, and so marked.
   */
  lemma WhereAVariableIs(q: Query, es: seq<Entry>, e: Entry)
    requires DistinctKeys(es) && e in es
    ensures var r := Resolve(q, es);
      && (e.key in r.missingRequired <==> Missing(q, e) && q.env in e.requiredIn)
      && (e.key in r.missingInlined <==> Missing(q, e) && q.env !in e.requiredIn && e.clientExposed)
      && (e.key in r.missingOptional <==> Missing(q, e) && q.env !in e.requiredIn && !e.clientExposed)
    ensures forall v: ResolvedVar | v.key == e.key ::
      v in Resolve(q, es).resolved <==>
        && Needs(q, e) && v.secret == e.secret && (v.fromRegistry <==> HasFixed(q, e))
        && (if HasFixed(q, e) then v.value == (if q.env in e.fixed then e.fixed[q.env] else e.fixedAnywhere.value)
            else e.key in q.store && v.value == q.store[e.key])
  {
    KeysOfEntry(q, es, e, MissingRequired);
    KeysOfEntry(q, es, e, MissingInlined);
    KeysOfEntry(q, es, e, MissingOptional);
    forall v: ResolvedVar | v.key == e.key { ResolvedVars(q, es, e, v); }
  }

  /** What the container sees: the store, and the manifest where the store has nothing. */
  ghost predicate RuntimeSees(q: Query, r: Resolution, key: string, value: string) {
    if key in q.store then q.store[key] == value
    else exists v | v in r.runtimeFill :: v.key == key && v.value == value
  }

  /**
   * The build and the container agree on a resolved variable exactly when it
   * has no fixed value, or the store holds that value, or the store holds none
   * and the manifest may carry it.
   */
  lemma BuildAndRuntimeAgree(q: Query, es: seq<Entry>, e: Entry)
    requires DistinctKeys(es) && e in es && BelongsIn(q, e, Resolved)
    ensures var r := Resolve(q, es);
      RuntimeSees(q, r, e.key, Supplied(q, e).value) <==>
      Fixed(q, e).Some? ==> if e.key in q.store then q.store[e.key] == Fixed(q, e).value else !e.secret
    ensures e.key in Resolve(q, es).drift <==>
      Fixed(q, e).Some? && e.key in q.store && q.store[e.key] != Fixed(q, e).value
  {
    BucketMembers(q, es, e);
  }

  /**
   * A secret with a fixed value that the store lacks: the build has it, the
   * container sees nothing, and no list says so.
   */
  lemma SecretFixedValueStaysBehind()
    ensures var e := Entry("SIGNING_SALT", {"api"}, {Production}, false, true, true, map[Production := "s"], None);
      var q := Query("api", Production, map[], false);
      var r := Resolve(q, [e]);
      && r.resolved == [ResolvedVar("SIGNING_SALT", "s", true, true)] && r.drift == [] && r.runtimeFill == []
      && forall value :: !RuntimeSees(q, r, "SIGNING_SALT", value)
  {
    var e := Entry("SIGNING_SALT", {"api"}, {Production}, false, true, true, map[Production := "s"], None);
    assert [e][..0] == [];
  }
}
