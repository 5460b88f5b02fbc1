/**
 * check-system-db-justifications.ts: which calls of a file reach `withSystemDb`
 * through aliases, and the baseline of unjustified ones that may only shrink.
 */
module SystemDb {
  import opened Common

  const SEED: string := "withSystemDb"

  // ---- Aliases ----

  /** An expression, as far as the scan looks at it. */
  datatype Expr = Ident(name: string) | Member(property: string) | OtherExpr

  datatype Binding = Binding(source: string, local: Option<string>)

  /** A declaration that may give `withSystemDb` another name. */
  datatype Decl =
    | ImportAs(imported: string, local: string)
    | VarAs(name: string, init: Expr)
    | Destructure(bindings: seq<Binding>)

  predicate Access(e: Expr, aliases: set<string>) {
    (e.Ident? && e.name in aliases) || (e.Member? && e.property == SEED)
  }

  /** The names a destructuring gives to a property called `withSystemDb`. */
  function Bound(bs: seq<Binding>): set<string> {
    set i | 0 <= i < |bs| && bs[i].source == SEED && bs[i].local.Some? :: bs[i].local.value
  }

  /** The names one declaration makes aliases, given the aliases so far. */
  function Yields(d: Decl, aliases: set<string>): set<string> {
    match d
    case ImportAs(imported, local) => if imported == SEED then {local} else {}
    case VarAs(name, init) => if Access(init, aliases) then {name} else {}
    case Destructure(bs) => Bound(bs)
  }

  function Declared(d: Decl): set<string> {
    match d
    case ImportAs(_, local) => {local}
    case VarAs(name, _) => {name}
    case Destructure(bs) => Bound(bs)
  }

  function DeclaredNames(ds: seq<Decl>): set<string> {
    if ds == [] then {} else Declared(ds[0]) + DeclaredNames(ds[1..])
  }

  lemma {:induction false} DeclaredIn(ds: seq<Decl>, i: nat)
    requires i < |ds|
    ensures Declared(ds[i]) <= DeclaredNames(ds)
    decreases |ds|
  {
    if i > 0 { DeclaredIn(ds[1..], i - 1); }
  }

  /** Reachability: the seed, or a name a declaration gives to a reachable one, in `steps` steps. */
  ghost predicate Reaches(ds: seq<Decl>, name: string, steps: nat)
    decreases steps, 0
  {
    if steps == 0 then name == SEED
    else exists d | d in ds :: GivesName(ds, d, name, steps - 1)
  }

  /** `d` gives `name` to something reachable in `steps`, or to the member itself. */
  ghost predicate GivesName(ds: seq<Decl>, d: Decl, name: string, steps: nat)
    decreases steps, 1
  {
    name in Declared(d) &&
    match d
    case ImportAs(imported, _) => imported == SEED
    case VarAs(_, init) => init == Member(SEED) || (init.Ident? && Reaches(ds, init.name, steps))
    case Destructure(_) => true
  }

  /** An alias set that no declaration extends. */
  ghost predicate Closed(ds: seq<Decl>, aliases: set<string>) {
    SEED in aliases && forall d | d in ds :: Yields(d, aliases) <= aliases
  }

  ghost predicate IsAlias(ds: seq<Decl>, name: string) {
    exists steps: nat :: Reaches(ds, name, steps)
  }

  /** `d` names `withSystemDb` itself `name`, by import, by member or by destructuring. */
  predicate NamesSeed(d: Decl, name: string) {
    || d == ImportAs(SEED, name) || d == VarAs(name, Member(SEED))
    || (d.Destructure? && Binding(SEED, Some(name)) in d.bindings)
  }

  /** The aliases: the name itself, other names of it, and variables that are given an alias. */
  lemma AliasIff(ds: seq<Decl>, name: string)
    ensures IsAlias(ds, name) <==>
      || name == SEED
      || (exists d | d in ds :: NamesSeed(d, name))
      || exists a: string :: VarAs(name, Ident(a)) in ds && IsAlias(ds, a)
  {
    if IsAlias(ds, name) {
      var steps: nat :| Reaches(ds, name, steps);
      if steps > 0 {
        var d :| d in ds && GivesName(ds, d, name, steps - 1);
        if !NamesSeed(d, name) {
          assert d == VarAs(name, Ident(d.init.name)) && Reaches(ds, d.init.name, steps - 1);
        }
      }
    }
    if name == SEED { assert Reaches(ds, name, 0); }
    if d :| d in ds && NamesSeed(d, name) {
      if d.Destructure? {
        var i :| 0 <= i < |d.bindings| && d.bindings[i] == Binding(SEED, Some(name));
        assert name in Bound(d.bindings);
      }
      assert GivesName(ds, d, name, 0);
      assert Reaches(ds, name, 1);
    }
    if a: string :| VarAs(name, Ident(a)) in ds && IsAlias(ds, a) {
      var steps: nat :| Reaches(ds, a, steps);
      assert GivesName(ds, VarAs(name, Ident(a)), name, steps);
      assert Reaches(ds, name, steps + 1);
    }
  }

  /** Every closed set holds every alias. */
  lemma {:induction false} ClosedHoldsAliases(ds: seq<Decl>, closed: set<string>, name: string, steps: nat)
    requires Closed(ds, closed) && Reaches(ds, name, steps)
    ensures name in closed
    decreases steps
  {
    if steps > 0 {
      var d :| d in ds && GivesName(ds, d, name, steps - 1);
      if d.VarAs? && d.init.Ident? && d.init != Member(SEED) {
        ClosedHoldsAliases(ds, closed, d.init.name, steps - 1);
      }
      assert name in Yields(d, closed);
    }
  }

  /** A declaration only ever yields aliases from aliases. */
  lemma YieldsAliases(ds: seq<Decl>, d: Decl, aliases: set<string>, name: string)
    requires d in ds && name in Yields(d, aliases) && forall a | a in aliases :: IsAlias(ds, a)
    ensures IsAlias(ds, name)
  {
    var steps: nat := 0;
    if d.VarAs? && d.init.Ident? {
      assert IsAlias(ds, d.init.name);
      steps :| Reaches(ds, d.init.name, steps);
    }
    assert GivesName(ds, d, name, steps);
    assert Reaches(ds, name, steps + 1);
  }

  /** Every name of the set is an alias. */
  ghost predicate Sound(ds: seq<Decl>, aliases: set<string>) {
    forall a | a in aliases :: IsAlias(ds, a)
  }

  /** One pass over the declarations, in source order, adding as it goes. */
  method Pass(ds: seq<Decl>, before: set<string>) returns (aliases: set<string>, changed: bool)
    requires Sound(ds, before)
    ensures before <= aliases <= before + DeclaredNames(ds) && Sound(ds, aliases)
    ensures changed <==> aliases != before
    ensures !changed ==> forall d | d in ds :: Yields(d, aliases) <= aliases
  {
    aliases, changed := before, false;
    for i := 0 to |ds|
      invariant before <= aliases <= before + DeclaredNames(ds) && Sound(ds, aliases)
      invariant changed <==> aliases != before
      invariant !changed ==> forall k | 0 <= k < i :: Yields(ds[k], aliases) <= aliases
    {
      var more := Yields(ds[i], aliases);
      DeclaredIn(ds, i);
      forall name | name in more ensures IsAlias(ds, name) { YieldsAliases(ds, ds[i], aliases, name); }
      if !(more <= aliases) {
        aliases, changed := aliases + more, true;
      }
    }
  }

  /**
   * Passes until one adds nothing. The result is exactly the aliases, and so
   * the least closed set.
   */
  method CollectAliases(ds: seq<Decl>) returns (aliases: set<string>)
    ensures forall name :: name in aliases <==> IsAlias(ds, name)
    ensures Closed(ds, aliases)
    ensures forall closed: set<string> | Closed(ds, closed) :: aliases <= closed
  {
    aliases := {SEED};
    assert Reaches(ds, SEED, 0);
    var changed := true;
    ghost var all := {SEED} + DeclaredNames(ds);
    while changed
      invariant SEED in aliases && aliases <= all && Sound(ds, aliases)
      invariant !changed ==> Closed(ds, aliases)
      decreases |all - aliases|, changed
    {
      ghost var before := aliases;
      aliases, changed := Pass(ds, aliases);
      if changed { Shrinks(all, before, aliases); }
    }
    forall closed: set<string> | Closed(ds, closed)
      ensures aliases <= closed
    {
      SoundIsBelowClosed(ds, aliases, closed);
    }
    forall name | IsAlias(ds, name) ensures name in aliases {
      var steps: nat :| Reaches(ds, name, steps);
      ClosedHoldsAliases(ds, aliases, name, steps);
    }
  }

  lemma SoundIsBelowClosed(ds: seq<Decl>, aliases: set<string>, closed: set<string>)
    requires Sound(ds, aliases) && Closed(ds, closed)
    ensures aliases <= closed
  {
    forall name | name in aliases ensures name in closed {
      var steps: nat :| Reaches(ds, name, steps);
      ClosedHoldsAliases(ds, closed, name, steps);
    }
  }

  lemma Shrinks(all: set<string>, before: set<string>, after: set<string>)
    requires before <= after <= all && before != after
    ensures |all - after| < |all - before|
  {
    var x :| x in after && x !in before;
    assert all - after <= (all - before) - {x};
    SubsetSize(all - after, (all - before) - {x});
  }

  lemma SubsetSize(a: set<string>, b: set<string>)
    requires a <= b
    ensures |a| <= |b|
  {
    assert b == a + (b - a);
  }

  lemma {:induction false} ReachesInAnyOrder(ds: seq<Decl>, es: seq<Decl>, name: string, steps: nat)
    requires (forall d | d in ds :: d in es) && Reaches(ds, name, steps)
    ensures Reaches(es, name, steps)
    decreases steps
  {
    if steps > 0 {
      var d :| d in ds && GivesName(ds, d, name, steps - 1);
      if d.VarAs? && d.init.Ident? && Reaches(ds, d.init.name, steps - 1) {
        ReachesInAnyOrder(ds, es, d.init.name, steps - 1);
      }
      assert GivesName(es, d, name, steps - 1);
    }
  }

  /** Which names are aliases does not depend on the order of the declarations. */
  lemma AliasesAreOrderFree(ds: seq<Decl>, es: seq<Decl>, name: string)
    requires multiset(ds) == multiset(es)
    ensures IsAlias(ds, name) <==> IsAlias(es, name)
  {
    forall d ensures d in ds <==> d in es {
      assert d in ds <==> d in multiset(ds);
      assert d in es <==> d in multiset(es);
    }
    if IsAlias(ds, name) {
      var steps: nat :| Reaches(ds, name, steps);
      ReachesInAnyOrder(ds, es, name, steps);
    }
    if IsAlias(es, name) {
      var steps: nat :| Reaches(es, name, steps);
      ReachesInAnyOrder(es, ds, name, steps);
    }
  }

  // ---- Calls ----

  datatype Site = Site(callee: Expr, fingerprint: string, justified: bool)

  datatype SystemCall = SystemCall(file: string, fingerprint: string, justified: bool)

  /** Ascending positions below `n`. */
  predicate Ascends(at: seq<nat>, n: nat) {
    (forall k | 0 <= k < |at| :: at[k] < n) && forall j, k | 0 <= j < k < |at| :: at[j] < at[k]
  }

  /**
   * Every call of an alias, and every call of a member `withSystemDb`, is
   * recorded once, in source order, with its own fingerprint and justification,
   * and no other call. `at` says which site each record is of.
   */
  method ScanSystemCalls(file: string, ds: seq<Decl>, sites: seq<Site>)
    returns (calls: seq<SystemCall>, ghost at: seq<nat>)
    ensures |at| == |calls| && Ascends(at, |sites|)
    ensures forall k | 0 <= k < |calls| ::
      && calls[k].file == file
      && calls[k].fingerprint == sites[at[k]].fingerprint && calls[k].justified == sites[at[k]].justified
    ensures forall i | 0 <= i < |sites| && sites[i].callee.Ident? :: i in at <==> IsAlias(ds, sites[i].callee.name)
    ensures forall i | 0 <= i < |sites| && !sites[i].callee.Ident? :: i in at <==> sites[i].callee == Member(SEED)
  {
    var aliases := CollectAliases(ds);
    calls, at := [], [];
    for i := 0 to |sites|
      invariant |at| == |calls| && Ascends(at, i)
      invariant forall k | 0 <= k < |calls| ::
        calls[k] == SystemCall(file, sites[at[k]].fingerprint, sites[at[k]].justified)
      invariant forall k | 0 <= k < i :: k in at <==> Access(sites[k].callee, aliases)
    {
      if Access(sites[i].callee, aliases) {
        calls, at := calls + [SystemCall(file, sites[i].fingerprint, sites[i].justified)], at + [i];
      }
    }
  }

  // ---- The baseline ----

  /** Unjustified call fingerprints, by file. */
  type Baseline = map<string, seq<string>>

  function Hashes(b: Baseline, file: string): seq<string> {
    if file in b then b[file] else []
  }

  /** The exceptions a baseline holds for a file, counted. */
  function Exceptions(b: Baseline, file: string): multiset<string> {
    multiset(Hashes(b, file))
  }

  function Unjustified(calls: seq<SystemCall>, file: string): multiset<string> {
    if calls == [] then multiset{}
    else
      var c := calls[|calls| - 1];
      Unjustified(calls[..|calls| - 1], file)
      + (if c.file == file && !c.justified then multiset{c.fingerprint} else multiset{})
  }

  predicate IsBare(c: SystemCall, file: string, hash: string) {
    c.file == file && c.fingerprint == hash && !c.justified
  }

  /** The calls of the file with this fingerprint and no justification. */
  function Bare(calls: seq<SystemCall>, file: string, hash: string): set<nat> {
    set i: nat | i < |calls| && IsBare(calls[i], file, hash)
  }

  /** Each unjustified call counts once. */
  lemma {:induction false} UnjustifiedCounts(calls: seq<SystemCall>, file: string, hash: string)
    ensures Unjustified(calls, file)[hash] == |Bare(calls, file, hash)|
    decreases |calls|
  {
    if calls != [] {
      var n := |calls| - 1;
      UnjustifiedCounts(calls[..n], file, hash);
      BareGrows(calls, file, hash);
    }
  }

  lemma BareGrows(calls: seq<SystemCall>, file: string, hash: string)
    requires calls != []
    ensures var n := |calls| - 1;
      |Bare(calls, file, hash)| == |Bare(calls[..n], file, hash)|
        + if IsBare(calls[n], file, hash) then 1 else 0
  {
    var n := |calls| - 1;
    var before := Bare(calls[..n], file, hash);
    assert n !in before;
    assert Bare(calls, file, hash) == before + if IsBare(calls[n], file, hash) then {n} else {};
  }

  predicate StringLeq(a: string, b: string) {
    a == [] || (b != [] && (a[0] < b[0] || (a[0] == b[0] && StringLeq(a[1..], b[1..]))))
  }

  predicate Sorted(s: seq<string>) {
    forall i | 0 < i < |s| :: StringLeq(s[i - 1], s[i])
  }

  lemma {:induction false} StringTotal(a: string, b: string)
    ensures StringLeq(a, b) || StringLeq(b, a)
  {
    if a != [] && b != [] { StringTotal(a[1..], b[1..]); }
  }

  function InsertSorted(x: string, s: seq<string>): (r: seq<string>)
    requires Sorted(s)
    ensures Sorted(r) && multiset(r) == multiset(s) + multiset{x}
    ensures r != [] && (r[0] == x || (s != [] && r[0] == s[0]))
  {
    if s == [] then [x]
    else
      StringTotal(x, s[0]);
      assert s == [s[0]] + s[1..];
      if StringLeq(x, s[0]) then [x] + s else [s[0]] + InsertSorted(x, s[1..])
  }

  function SortHashes(s: seq<string>): (r: seq<string>)
    ensures Sorted(r) && multiset(r) == multiset(s)
  {
    if s == [] then []
    else
      assert s == [s[0]] + s[1..];
      InsertSorted(s[0], SortHashes(s[1..]))
  }

  lemma UnjustifiedGrows(calls: seq<SystemCall>, c: SystemCall, file: string)
    ensures Unjustified(calls + [c], file)
         == Unjustified(calls, file) + if c.file == file && !c.justified then multiset{c.fingerprint} else multiset{}
  {
  }

  /** `b` with the call's fingerprint under its file, unless it is justified. */
  function WithCall(b: Baseline, c: SystemCall): Baseline {
    if c.justified then b else b[c.file := Hashes(b, c.file) + [c.fingerprint]]
  }

  lemma WithCallCounts(b: Baseline, calls: seq<SystemCall>, c: SystemCall, file: string)
    requires Exceptions(b, file) == Unjustified(calls, file)
    ensures Exceptions(WithCall(b, c), file) == Unjustified(calls + [c], file)
  {
    UnjustifiedGrows(calls, c, file);
    if !c.justified && file == c.file {
      assert Hashes(WithCall(b, c), file) == Hashes(b, file) + [c.fingerprint];
    }
  }

  ghost predicate Groups(b: Baseline, calls: seq<SystemCall>) {
    forall file :: Exceptions(b, file) == Unjustified(calls, file)
  }

  lemma WithCallGroups(b: Baseline, calls: seq<SystemCall>, c: SystemCall)
    requires Groups(b, calls)
    ensures Groups(WithCall(b, c), calls + [c])
  {
    forall file: string ensures Exceptions(WithCall(b, c), file) == Unjustified(calls + [c], file) {
      WithCallCounts(b, calls, c, file);
    }
  }

  /** The unjustified fingerprints of each file, in call order. */
  method GroupUnjustified(calls: seq<SystemCall>) returns (b: Baseline)
    ensures Groups(b, calls)
    ensures forall file | file in b :: b[file] != []
  {
    b := map[];
    for i := 0 to |calls|
      invariant Groups(b, calls[..i])
      invariant forall file | file in b :: b[file] != []
    {
      var c := calls[i];
      assert calls[..i + 1] == calls[..i] + [c];
      WithCallGroups(b, calls[..i], c);
      if !c.justified {
        b := b[c.file := Hashes(b, c.file) + [c.fingerprint]];
      }
    }
    assert calls[..|calls|] == calls;
  }

  /** The unjustified calls of each file, sorted; a file without any has no entry. */
  method BaselineOf(calls: seq<SystemCall>) returns (b: Baseline)
    ensures forall file :: Exceptions(b, file) == Unjustified(calls, file)
    ensures forall file | file in b :: b[file] != [] && Sorted(b[file])
  {
    var grouped := GroupUnjustified(calls);
    b := map file | file in grouped :: SortHashes(grouped[file]);
    forall file ensures Exceptions(b, file) == Exceptions(grouped, file) {}
    forall file | file in b ensures b[file] != [] {
      assert grouped[file][0] in multiset(b[file]);
    }
  }

  /** A hash the allowed baseline does not cover, with its file. */
  datatype Unreviewed = Unreviewed(file: string, hash: string)

  function HashesFor(errors: seq<Unreviewed>, file: string): multiset<string> {
    if errors == [] then multiset{}
    else (if errors[0].file == file then multiset{errors[0].hash} else multiset{}) + HashesFor(errors[1..], file)
  }

  function IndexOf(s: seq<string>, x: string): (i: nat)
    ensures i <= |s| && (i < |s| ==> s[i] == x) && (i == |s| <==> x !in s)
  {
    if s == [] then 0 else if s[0] == x then 0 else 1 + IndexOf(s[1..], x)
  }

  lemma RemoveAt(s: seq<string>, i: nat)
    requires i < |s|
    ensures multiset(s[..i] + s[i + 1..]) == multiset(s) - multiset{s[i]}
  {
    assert s == s[..i] + [s[i]] + s[i + 1..];
  }

  lemma CoveredHash(done: multiset<string>, allowed: multiset<string>, h: string)
    requires h in allowed - done
    ensures (done + multiset{h}) - allowed == done - allowed
    ensures allowed - (done + multiset{h}) == (allowed - done) - multiset{h}
  {
  }

  lemma UncoveredHash(done: multiset<string>, allowed: multiset<string>, h: string)
    requires h !in allowed - done
    ensures (done + multiset{h}) - allowed == (done - allowed) + multiset{h}
    ensures allowed - (done + multiset{h}) == allowed - done
  {
  }

  /** One file: every hash beyond the allowed ones, counting repeats. */
  method Beyond(hashes: seq<string>, allowed: seq<string>) returns (extra: seq<string>)
    ensures multiset(extra) == multiset(hashes) - multiset(allowed)
  {
    extra := [];
    var remaining := allowed;
    for i := 0 to |hashes|
      invariant multiset(remaining) == multiset(allowed) - multiset(hashes[..i])
      invariant multiset(extra) == multiset(hashes[..i]) - multiset(allowed)
    {
      assert hashes[..i + 1] == hashes[..i] + [hashes[i]];
      var index := IndexOf(remaining, hashes[i]);
      assert hashes[i] in remaining <==> hashes[i] in multiset(remaining);
      if index == |remaining| {
        UncoveredHash(multiset(hashes[..i]), multiset(allowed), hashes[i]);
        extra := extra + [hashes[i]];
      } else {
        CoveredHash(multiset(hashes[..i]), multiset(allowed), hashes[i]);
        RemoveAt(remaining, index);
        remaining := remaining[..index] + remaining[index + 1..];
      }
    }
    assert hashes[..|hashes|] == hashes;
  }

  function Tagged(file: string, hashes: seq<string>): seq<Unreviewed> {
    if hashes == [] then [] else [Unreviewed(file, hashes[0])] + Tagged(file, hashes[1..])
  }

  lemma {:induction false} HashesForConcat(a: seq<Unreviewed>, b: seq<Unreviewed>, f: string)
    ensures HashesFor(a + b, f) == HashesFor(a, f) + HashesFor(b, f)
    decreases |a|
  {
    if a == [] {
      assert a + b == b;
    } else {
      assert (a + b)[1..] == a[1..] + b;
      HashesForConcat(a[1..], b, f);
    }
  }

  lemma {:induction false} TaggedHashes(file: string, hashes: seq<string>, f: string)
    ensures HashesFor(Tagged(file, hashes), f) == if f == file then multiset(hashes) else multiset{}
    decreases |hashes|
  {
    if hashes != [] {
      TaggedHashes(file, hashes[1..], f);
      assert Tagged(file, hashes)[1..] == Tagged(file, hashes[1..]);
      assert hashes == [hashes[0]] + hashes[1..];
    }
  }

  lemma TaggedAdds(errors: seq<Unreviewed>, file: string, hashes: seq<string>, f: string)
    ensures HashesFor(errors + Tagged(file, hashes), f)
         == HashesFor(errors, f) + if f == file then multiset(hashes) else multiset{}
  {
    HashesForConcat(errors, Tagged(file, hashes), f);
    TaggedHashes(file, hashes, f);
  }

  /** The errors still to be found once the files of `todo` are left. */
  ghost function Found(actual: Baseline, allowed: Baseline, todo: set<string>, file: string): multiset<string> {
    if file in todo then multiset{} else Exceptions(actual, file) - Exceptions(allowed, file)
  }

  lemma FileDone(actual: Baseline, allowed: Baseline, todo: set<string>, file: string, errors: seq<Unreviewed>,
                 extra: seq<string>)
    requires file in todo && todo <= actual.Keys
    requires multiset(extra) == multiset(actual[file]) - multiset(Hashes(allowed, file))
    requires forall f :: HashesFor(errors, f) == Found(actual, allowed, todo, f)
    ensures forall f :: HashesFor(errors + Tagged(file, extra), f) == Found(actual, allowed, todo - {file}, f)
  {
    forall f: string ensures HashesFor(errors + Tagged(file, extra), f) == Found(actual, allowed, todo - {file}, f) {
      TaggedAdds(errors, file, extra, f);
    }
  }

  /** For each file, the errors are exactly the multiset of hashes beyond the allowed ones. */
  method CompareBaseline(actual: Baseline, allowed: Baseline) returns (errors: seq<Unreviewed>)
    ensures forall file :: HashesFor(errors, file) == Exceptions(actual, file) - Exceptions(allowed, file)
  {
    errors := [];
    var todo := actual.Keys;
    while todo != {}
      invariant todo <= actual.Keys
      invariant forall file :: HashesFor(errors, file) == Found(actual, allowed, todo, file)
      decreases |todo|
    {
      var file :| file in todo;
      var extra := Beyond(actual[file], Hashes(allowed, file));
      FileDone(actual, allowed, todo, file, errors, extra);
      errors := errors + Tagged(file, extra);
      todo := todo - {file};
    }
  }

  /** There is no error exactly when the allowed baseline covers the actual one. */
  lemma NoErrorsIffWithin(errors: seq<Unreviewed>, actual: Baseline, allowed: Baseline)
    requires forall file :: HashesFor(errors, file) == Exceptions(actual, file) - Exceptions(allowed, file)
    ensures errors == [] <==> Within(actual, allowed)
  {
    NoErrors(errors);
    forall file
      ensures Exceptions(actual, file) - Exceptions(allowed, file) == multiset{} <==>
        Exceptions(actual, file) <= Exceptions(allowed, file)
    {
      NothingBeyond(Exceptions(actual, file), Exceptions(allowed, file));
    }
    if errors != [] {
      var file := errors[0].file;
      assert HashesFor(errors, file) != multiset{};
    }
  }

  lemma NothingBeyond(a: multiset<string>, b: multiset<string>)
    ensures a - b == multiset{} <==> a <= b
  {
    if a - b == multiset{} {
      forall h ensures a[h] <= b[h] { assert (a - b)[h] == 0; }
    }
  }

  lemma NoErrors(errors: seq<Unreviewed>)
    ensures errors != [] ==> HashesFor(errors, errors[0].file) != multiset{}
  {
  }

  ghost predicate Within(a: Baseline, b: Baseline) {
    forall file :: Exceptions(a, file) <= Exceptions(b, file)
  }

  datatype Commit = Commit(baseline: Baseline, calls: seq<SystemCall>)

  /** The unjustified calls are exactly the baseline, and the baseline did not grow. */
  ghost predicate Accepted(c: Commit, prior: Baseline) {
    Within(c.baseline, prior) && forall file :: Unjustified(c.calls, file) == Exceptions(c.baseline, file)
  }

  /**
   * The check of a commit: its baseline against the prior one, its calls against
   * the baseline, and the baseline against its calls for stale entries.
   */
  method Check(c: Commit, prior: Baseline) returns (ok: bool)
    ensures ok <==> Accepted(c, prior)
  {
    var actual := BaselineOf(c.calls);
    var grown := CompareBaseline(c.baseline, prior);
    NoErrorsIffWithin(grown, c.baseline, prior);
    var unreviewed := CompareBaseline(actual, c.baseline);
    NoErrorsIffWithin(unreviewed, actual, c.baseline);
    var stale := CompareBaseline(c.baseline, actual);
    NoErrorsIffWithin(stale, c.baseline, actual);
    ok := |grown| == 0 && |unreviewed| == 0 && |stale| == 0;
    AcceptedIff(c, prior, actual);
  }

  lemma AcceptedIff(c: Commit, prior: Baseline, actual: Baseline)
    requires forall file :: Exceptions(actual, file) == Unjustified(c.calls, file)
    ensures Accepted(c, prior) <==>
      Within(c.baseline, prior) && Within(actual, c.baseline) && Within(c.baseline, actual)
  {
    if Within(actual, c.baseline) && Within(c.baseline, actual) {
      forall file ensures Exceptions(actual, file) == Exceptions(c.baseline, file) {
        assert Exceptions(actual, file) <= Exceptions(c.baseline, file);
      }
    }
  }

  function Prior(first: Baseline, commits: seq<Commit>, i: nat): Baseline
    requires i < |commits|
  {
    if i == 0 then first else commits[i - 1].baseline
  }

  /** Each commit is accepted against the baseline of the one before it. */
  ghost predicate AcceptedChain(first: Baseline, commits: seq<Commit>) {
    forall i {:trigger Prior(first, commits, i)} | 0 <= i < |commits| :: Accepted(commits[i], Prior(first, commits, i))
  }

  lemma {:induction false} BaselineOnlyShrinks(first: Baseline, commits: seq<Commit>, i: nat, j: nat, file: string)
    requires AcceptedChain(first, commits) && i <= j < |commits|
    ensures Exceptions(commits[j].baseline, file) <= Exceptions(Prior(first, commits, i), file)
    decreases j
  {
    assert Accepted(commits[j], Prior(first, commits, j));
    if i < j { BaselineOnlyShrinks(first, commits, i, j - 1, file); }
  }

  lemma AcceptedAt(first: Baseline, commits: seq<Commit>, i: nat, file: string)
    requires AcceptedChain(first, commits) && i < |commits|
    ensures Unjustified(commits[i].calls, file) == Exceptions(commits[i].baseline, file)
  {
    assert Accepted(commits[i], Prior(first, commits, i));
  }

  /** Along any chain of accepted commits no file gains an unjustified call over any earlier commit. */
  lemma ExceptionsOnlyShrink(first: Baseline, commits: seq<Commit>, i: nat, j: nat, file: string)
    requires AcceptedChain(first, commits) && i < j < |commits|
    ensures Unjustified(commits[j].calls, file) <= Unjustified(commits[i].calls, file)
  {
    AcceptedAt(first, commits, i, file);
    AcceptedAt(first, commits, j, file);
    BaselineOnlyShrinks(first, commits, i + 1, j, file);
    Below(Unjustified(commits[j].calls, file), Exceptions(commits[j].baseline, file),
          Exceptions(commits[i].baseline, file), Unjustified(commits[i].calls, file));
  }

  /** Nor over the baseline the chain started from. */
  lemma NoneOverTheStart(first: Baseline, commits: seq<Commit>, j: nat, file: string)
    requires AcceptedChain(first, commits) && j < |commits|
    ensures Unjustified(commits[j].calls, file) <= Exceptions(first, file)
  {
    AcceptedAt(first, commits, j, file);
    BaselineOnlyShrinks(first, commits, 0, j, file);
  }

  lemma Below(a: multiset<string>, b: multiset<string>, c: multiset<string>, d: multiset<string>)
    requires a == b && b <= c && c == d
    ensures a <= d
  {
  }
}
