/**
 * The migration `gen-rls-migration.ts` writes: which manifest entries it
 * carries, the statements each one becomes, and what running them does to a
 * database in any prior policy state.
 */
module RlsMigration {
  import opened Common
  import opened RlsPolicy

  datatype Table = Table(enabled: bool, forced: bool, policies: map<PolicyName, Policy>, rows: map<nat, Row>)

  type Catalog = map<string, Table>

  datatype Entry = Entry(table: string, policyClass: PolicyClass)

  datatype Ddl =
    | EnableRls(table: string)
    | ForceRls(table: string)
    | DropPolicyIfExists(table: string, name: PolicyName)
    | CreatePolicy(table: string, name: PolicyName, policy: Policy)

  datatype DdlError = NoSuchTable(table: string) | PolicyExists(table: string, name: PolicyName)

  // ---- Selection ----

  datatype SelectionError = NamesNoTable | NotInManifest(tables: set<string>)

  function Tables(entries: seq<Entry>): set<string> {
    set i | 0 <= i < |entries| :: entries[i].table
  }

  function Keep(entries: seq<Entry>, only: set<string>): seq<Entry> {
    if entries == [] then []
    else (if entries[0].table in only then [entries[0]] else []) + Keep(entries[1..], only)
  }

  /** The entries a run carries. `only` is the parsed `--only=` list, absent without the flag. */
  function SelectEntries(manifest: seq<Entry>, only: Option<set<string>>): Result<seq<Entry>, SelectionError> {
    if only.None? then Ok(manifest)
    else if only.value == {} then Err(NamesNoTable)
    else if only.value <= Tables(manifest) then Ok(Keep(manifest, only.value))
    else Err(NotInManifest(only.value - Tables(manifest)))
  }

  // ---- Rendering ----

  function Widen(e: Entry): seq<Ddl> {
    var read := Compile(e.policyClass).orgWideRead;
    if read.None? then [] else [CreatePolicy(e.table, TenantOrgWideRead, Policy(ForSelect, read.value, None))]
  }

  function SharedRead(e: Entry): seq<Ddl> {
    if e.policyClass.WorkspaceNullable?
    then [CreatePolicy(e.table, TenantOrgSharedRead, Policy(ForSelect, SHARED_READ, None))]
    else []
  }

  /** Every managed policy is dropped for every table, whatever its class creates. */
  function Clears(table: string): seq<Ddl> {
    [ EnableRls(table),
      ForceRls(table),
      DropPolicyIfExists(table, TenantIsolation),
      DropPolicyIfExists(table, TenantOrgWideRead),
      DropPolicyIfExists(table, TenantOrgSharedRead) ]
  }

  function Creates(e: Entry): seq<Ddl> {
    [CreatePolicy(e.table, TenantIsolation, IsolationPolicy(e.policyClass))] + Widen(e) + SharedRead(e)
  }

  function Block(e: Entry): seq<Ddl> {
    Clears(e.table) + Creates(e)
  }

  function RenderMigration(entries: seq<Entry>): seq<Ddl> {
    if entries == [] then [] else Block(entries[0]) + RenderMigration(entries[1..])
  }

  // ---- Execution ----

  /** What a statement does to the table it names. */
  function Alter(t: Table, d: Ddl): Result<Table, DdlError> {
    match d
    case EnableRls(_) => Ok(t.(enabled := true))
    case ForceRls(_) => Ok(t.(forced := true))
    case DropPolicyIfExists(_, name) => Ok(t.(policies := t.policies - {name}))
    case CreatePolicy(_, name, policy) =>
      if name in t.policies then Err(PolicyExists(d.table, name))
      else Ok(t.(policies := t.policies[name := policy]))
  }

  function Execute(c: Catalog, d: Ddl): Result<Catalog, DdlError> {
    if d.table !in c then Err(NoSuchTable(d.table))
    else
      var r := Alter(c[d.table], d);
      if r.Err? then Err(r.error) else Ok(c[d.table := r.value])
  }

  /** A migration runs in one transaction: a failing statement leaves nothing behind. */
  function ExecuteAll(c: Catalog, ds: seq<Ddl>): Result<Catalog, DdlError> {
    if ds == [] then Ok(c)
    else
      var r := Execute(c, ds[0]);
      if r.Err? then r else ExecuteAll(r.value, ds[1..])
  }

  // ---- What a migration leaves, stated without its statements ----

  /** The class the migration gives a table; the last entry for it decides. */
  function ClassOf(entries: seq<Entry>, table: string): Option<PolicyClass> {
    if entries == [] then None
    else if ClassOf(entries[1..], table).Some? then ClassOf(entries[1..], table)
    else if entries[0].table == table then Some(entries[0].policyClass)
    else None
  }

  /** A table under forced policies: its own unmanaged ones, and exactly its class's. */
  function Migrated(t: Table, cls: PolicyClass): Table {
    Table(true, true, (t.policies - MANAGED) + ClassPolicies(cls), t.rows)
  }

  ghost predicate Leaves(c: Catalog, entries: seq<Entry>, after: Catalog) {
    && after.Keys == c.Keys
    && forall name | name in c ::
         var cls := ClassOf(entries, name);
         after[name] == if cls.Some? then Migrated(c[name], cls.value) else c[name]
  }

  lemma {:induction false} ExecuteAllConcat(c: Catalog, a: seq<Ddl>, b: seq<Ddl>)
    ensures ExecuteAll(c, a + b)
         == var r := ExecuteAll(c, a); if r.Err? then r else ExecuteAll(r.value, b)
  {
    if a == [] {
      assert a + b == b;
    } else {
      var r := Execute(c, a[0]);
      assert (a + b)[1..] == a[1..] + b;
      if r.Ok? { ExecuteAllConcat(r.value, a[1..], b); }
    }
  }

  lemma ClassPoliciesAreManaged(cls: PolicyClass)
    ensures TenantIsolation in ClassPolicies(cls) && ClassPolicies(cls).Keys <= MANAGED
    ensures ClassPolicies(cls)[TenantIsolation] == IsolationPolicy(cls)
  {
  }

  lemma Step(c: Catalog, name: string, t: Table, ds: seq<Ddl>, next: Table)
    requires ds != [] && ds[0].table == name && Alter(t, ds[0]) == Ok(next)
    ensures ExecuteAll(c[name := t], ds) == ExecuteAll(c[name := next], ds[1..])
  {
    assert c[name := t][name := next] == c[name := next];
  }

  /** The first half of a block leaves a forced table without managed policies. */
  lemma ClearsOutcome(c: Catalog, name: string, t: Table)
    ensures ExecuteAll(c[name := t], Clears(name)) == Ok(c[name := Table(true, true, t.policies - MANAGED, t.rows)])
  {
    var ds := Clears(name);
    var t2 := Table(true, true, t.policies, t.rows);
    var t3 := t2.(policies := t.policies - {TenantIsolation});
    var t4 := t2.(policies := t3.policies - {TenantOrgWideRead});
    var t5 := t2.(policies := t4.policies - {TenantOrgSharedRead});
    Step(c, name, t, ds, t.(enabled := true));
    Step(c, name, t.(enabled := true), ds[1..], t2);
    Step(c, name, t2, ds[2..], t3);
    Step(c, name, t3, ds[3..], t4);
    assert ds[4..] == [DropPolicyIfExists(name, TenantOrgSharedRead)];
    Step(c, name, t4, ds[4..], t5);
    assert t5.policies == t.policies - MANAGED;
  }

  /** Creating a policy under a name the table does not use, as the next statement. */
  lemma CreateStep(c: Catalog, name: string, t: Table, key: PolicyName, policy: Policy, rest: seq<Ddl>)
    requires key !in t.policies
    ensures ExecuteAll(c[name := t], [CreatePolicy(name, key, policy)] + rest)
         == ExecuteAll(c[name := t.(policies := t.policies[key := policy])], rest)
  {
    var ds := [CreatePolicy(name, key, policy)] + rest;
    Step(c, name, t, ds, t.(policies := t.policies[key := policy]));
    assert ds[1..] == rest;
  }

  lemma WidenOutcome(c: Catalog, e: Entry, t: Table)
    requires TenantOrgWideRead !in t.policies
    ensures ExecuteAll(c[e.table := t], Widen(e) + SharedRead(e))
         == ExecuteAll(c[e.table := t.(policies := t.policies + WidenPolicies(e.policyClass))], SharedRead(e))
  {
    var read := Compile(e.policyClass).orgWideRead;
    if read.Some? {
      var wide := Policy(ForSelect, read.value, None);
      CreateStep(c, e.table, t, TenantOrgWideRead, wide, SharedRead(e));
      assert t.policies[TenantOrgWideRead := wide] == t.policies + WidenPolicies(e.policyClass);
    } else {
      assert Widen(e) + SharedRead(e) == SharedRead(e);
      assert t.policies + WidenPolicies(e.policyClass) == t.policies;
    }
  }

  lemma SharedOutcome(c: Catalog, e: Entry, t: Table)
    requires TenantOrgSharedRead !in t.policies
    ensures ExecuteAll(c[e.table := t], SharedRead(e))
         == Ok(c[e.table := t.(policies := t.policies + SharedPolicies(e.policyClass))])
  {
    if e.policyClass.WorkspaceNullable? {
      var shared := Policy(ForSelect, SHARED_READ, None);
      assert SharedRead(e) == [CreatePolicy(e.table, TenantOrgSharedRead, shared)] + [];
      CreateStep(c, e.table, t, TenantOrgSharedRead, shared, []);
      assert t.policies[TenantOrgSharedRead := shared] == t.policies + SharedPolicies(e.policyClass);
    } else {
      assert t.policies + SharedPolicies(e.policyClass) == t.policies;
    }
  }

  lemma UnionRegroups<K, V>(m: map<K, V>, k: K, v: V, x: map<K, V>, y: map<K, V>)
    ensures m[k := v] + x + y == m + (map[k := v] + x + y)
  {
  }

  /** The second half installs the class's policies. */
  lemma CreatesOutcome(c: Catalog, e: Entry, t: Table)
    requires t.policies.Keys !! MANAGED
    ensures ExecuteAll(c[e.table := t], Creates(e))
         == Ok(c[e.table := t.(policies := t.policies + ClassPolicies(e.policyClass))])
  {
    var cls := e.policyClass;
    var rest := Widen(e) + SharedRead(e);
    assert Creates(e) == [CreatePolicy(e.table, TenantIsolation, IsolationPolicy(cls))] + rest;
    CreateStep(c, e.table, t, TenantIsolation, IsolationPolicy(cls), rest);
    var p1 := t.policies[TenantIsolation := IsolationPolicy(cls)];
    WidenOutcome(c, e, t.(policies := p1));
    SharedOutcome(c, e, t.(policies := p1 + WidenPolicies(cls)));
    UnionRegroups(t.policies, TenantIsolation, IsolationPolicy(cls), WidenPolicies(cls), SharedPolicies(cls));
  }

  /** One block, from any prior policies of its table. */
  lemma BlockOutcome(c: Catalog, e: Entry)
    requires e.table in c
    ensures ExecuteAll(c, Block(e)) == Ok(c[e.table := Migrated(c[e.table], e.policyClass)])
  {
    var t := c[e.table];
    assert c[e.table := t] == c;
    ClearsOutcome(c, e.table, t);
    CreatesOutcome(c, e, Table(true, true, t.policies - MANAGED, t.rows));
    ExecuteAllConcat(c, Clears(e.table), Creates(e));
  }

  lemma MigratedTwice(t: Table, first: PolicyClass, second: PolicyClass)
    ensures Migrated(Migrated(t, first), second) == Migrated(t, second)
  {
    ClassPoliciesAreManaged(first);
    assert Migrated(t, first).policies - MANAGED == t.policies - MANAGED;
  }

  /**
   * From any prior policy state the migration fails only on a table that does
   * not exist, never on a policy that does; a failing block reports the table.
   */
  lemma {:induction false} MigrationOutcome(c: Catalog, entries: seq<Entry>)
    ensures ExecuteAll(c, RenderMigration(entries)).Ok? <==> Tables(entries) <= c.Keys
    ensures Tables(entries) <= c.Keys ==> Leaves(c, entries, ExecuteAll(c, RenderMigration(entries)).value)
    ensures ExecuteAll(c, RenderMigration(entries)).Err? ==>
      exists name | name in Tables(entries) && name !in c ::
        ExecuteAll(c, RenderMigration(entries)).error == NoSuchTable(name)
    decreases |entries|
  {
    if entries == [] {
    } else {
      var e, rest := entries[0], entries[1..];
      assert Tables(entries) == {e.table} + Tables(rest) by {
        forall name | name in Tables(entries) ensures name in {e.table} + Tables(rest) {
          var i :| 0 <= i < |entries| && entries[i].table == name;
          if i > 0 { assert rest[i - 1].table == name; }
        }
        forall name | name in Tables(rest) ensures name in Tables(entries) {
          var i :| 0 <= i < |rest| && rest[i].table == name;
          assert entries[i + 1].table == name;
        }
        assert entries[0].table in Tables(entries);
      }
      ExecuteAllConcat(c, Block(e), RenderMigration(rest));
      if e.table !in c {
        assert Block(e)[0] == EnableRls(e.table);
        assert ExecuteAll(c, Block(e)) == Err(NoSuchTable(e.table));
      } else {
        BlockOutcome(c, e);
        var c' := c[e.table := Migrated(c[e.table], e.policyClass)];
        assert c'.Keys == c.Keys;
        MigrationOutcome(c', rest);
        if Tables(entries) <= c.Keys {
          var after := ExecuteAll(c', RenderMigration(rest)).value;
          forall name | name in c
            ensures var cls := ClassOf(entries, name);
              after[name] == if cls.Some? then Migrated(c[name], cls.value) else c[name]
          {
            if name == e.table && ClassOf(rest, name).Some? {
              MigratedTwice(c[name], e.policyClass, ClassOf(rest, name).value);
            }
          }
        }
      }
    }
  }

  lemma {:induction false} ClassOfTables(entries: seq<Entry>, name: string)
    ensures ClassOf(entries, name).Some? <==> name in Tables(entries)
    decreases |entries|
  {
    if entries != [] {
      ClassOfTables(entries[1..], name);
      if name in Tables(entries) && entries[0].table != name {
        var i :| 0 <= i < |entries| && entries[i].table == name;
        assert entries[1..][i - 1].table == name;
      }
      if name in Tables(entries[1..]) {
        var i :| 0 <= i < |entries[1..]| && entries[1..][i].table == name;
        assert entries[i + 1].table == name;
      }
    }
  }

  /** Running the migration twice is running it once. */
  lemma MigrationIdempotent(c: Catalog, entries: seq<Entry>)
    requires ExecuteAll(c, RenderMigration(entries)).Ok?
    ensures var after := ExecuteAll(c, RenderMigration(entries)).value;
      ExecuteAll(after, RenderMigration(entries)) == Ok(after)
  {
    MigrationOutcome(c, entries);
    var after := ExecuteAll(c, RenderMigration(entries)).value;
    MigrationOutcome(after, entries);
    var again := ExecuteAll(after, RenderMigration(entries)).value;
    forall name | name in c ensures again[name] == after[name] {
      var cls := ClassOf(entries, name);
      if cls.Some? { MigratedTwice(c[name], cls.value, cls.value); }
    }
    assert again == after;
  }

  lemma {:induction false} KeepTables(entries: seq<Entry>, only: set<string>, name: string)
    ensures ClassOf(Keep(entries, only), name) == if name in only then ClassOf(entries, name) else None
    decreases |entries|
  {
    if entries != [] {
      KeepTables(entries[1..], only, name);
      var kept := Keep(entries[1..], only);
      if entries[0].table in only {
        assert Keep(entries, only)[1..] == kept;
      } else {
        assert Keep(entries, only) == kept;
      }
    }
  }

  /** The tables a run is about: those `--only` names, or the whole manifest. */
  function Chosen(manifest: seq<Entry>, only: Option<set<string>>): set<string> {
    if only.Some? then only.value else Tables(manifest)
  }

  /**
   * A run with `--only` is refused unless it names at least one table and only
   * manifest tables, and the refusal names exactly the strangers. Otherwise the
   * migration resets the chosen tables to their manifest class and leaves every
   * other table as it found it.
   */
  lemma OnlyNamedTablesChange(c: Catalog, manifest: seq<Entry>, only: Option<set<string>>)
    requires Tables(manifest) <= c.Keys
    ensures var chosen := SelectEntries(manifest, only);
      && (chosen.Ok? <==> only.None? || (only.value != {} && only.value <= Tables(manifest)))
      && (chosen.Err? ==> (chosen.error == NamesNoTable <==> only == Some({})))
      && (chosen.Err? && chosen.error.NotInManifest? ==>
            forall name :: name in chosen.error.tables <==> name in only.value && name !in Tables(manifest))
    ensures SelectEntries(manifest, only).Ok? ==>
      var r := ExecuteAll(c, RenderMigration(SelectEntries(manifest, only).value));
      && r.Ok? && r.value.Keys == c.Keys
      && (forall name | name in c && name !in Chosen(manifest, only) :: r.value[name] == c[name])
      && (forall name | name in Chosen(manifest, only) :: name in c && ClassOf(manifest, name).Some?
            && r.value[name] == Migrated(c[name], ClassOf(manifest, name).value))
  {
    var r := SelectEntries(manifest, only);
    if r.Ok? {
      var chosen := Chosen(manifest, only);
      forall name ensures ClassOf(r.value, name) == if name in chosen then ClassOf(manifest, name) else None {
        ClassOfTables(manifest, name);
        if only.Some? { KeepTables(manifest, only.value, name); }
      }
      forall name | name in Tables(r.value) ensures name in c.Keys {
        ClassOfTables(r.value, name);
        ClassOfTables(manifest, name);
      }
      MigrationOutcome(c, r.value);
      forall name | name in chosen ensures ClassOf(manifest, name).Some? { ClassOfTables(manifest, name); }
    }
  }
}
