/**
 * `insertRows` of backfill-claude-telemetry.ts: insert-if-absent in chunks of
 * 200, against a store whose reads see earlier inserts.
 */
module Backfill {
  import opened Common

  const CHUNK: nat := 200

  /** A session row. `timestamp` is absent for text that is no date. */
  datatype Row = Row(sessionId: string, timestamp: Option<int>, entryUuid: string, payload: string)

  datatype Identity = Identity(session: string, millis: Option<int>, entry: string)

  function IdentityOf(r: Row): Identity {
    Identity(Lower(r.sessionId), r.timestamp, Lower(r.entryUuid))
  }

  /** Two rows are one exactly when their identifiers differ at most in letter case and their times are one. */
  lemma IdentityIff(a: Row, b: Row)
    ensures IdentityOf(a) == IdentityOf(b) <==>
      && SameButCase(a.sessionId, b.sessionId) && SameButCase(a.entryUuid, b.entryUuid)
      && a.timestamp == b.timestamp
  {
    LowerIffSame(a.sessionId, b.sessionId);
    LowerIffSame(a.entryUuid, b.entryUuid);
  }

  predicate HexDigit(c: char) { '0' <= c <= '9' || 'a' <= LowerChar(c) <= 'f' }

  /** Eight, four, four, four and twelve hexadecimal digits, joined by hyphens. */
  predicate IsUuid(s: string) {
    |s| == 36 && forall i | 0 <= i < 36 ::
      if i == 8 || i == 13 || i == 18 || i == 23 then s[i] == '-' else HexDigit(s[i])
  }

  /** A row the lookup can name: anything else throws before its chunk is sent. */
  predicate Addressable(r: Row) { IsUuid(r.sessionId) && IsUuid(r.entryUuid) && r.timestamp.Some? }

  datatype InsertError = BadIdentity | LookupFailed | InsertFailed

  /** What the server does with the requests of chunk `k`. */
  datatype Reply = Answers | LookupFails | InsertFails

  function Identities(rows: seq<Row>): set<Identity> {
    set i | 0 <= i < |rows| :: IdentityOf(rows[i])
  }

  ghost predicate Distinct(rows: seq<Row>) {
    forall i, j | 0 <= i < j < |rows| :: IdentityOf(rows[i]) != IdentityOf(rows[j])
  }

  /** The rows of `rows` whose identity is new to `known`, an identity once. */
  ghost predicate NewRows(added: seq<Row>, rows: seq<Row>, known: set<Identity>) {
    && Distinct(added)
    && Identities(added) == Identities(rows) - known
    && forall r | r in added :: r in rows
  }

  lemma IdentitiesConcat(a: seq<Row>, b: seq<Row>)
    ensures Identities(a + b) == Identities(a) + Identities(b)
  {
    forall i | 0 <= i < |a| ensures IdentityOf(a[i]) in Identities(a + b) { assert (a + b)[i] == a[i]; }
    forall i | 0 <= i < |b| ensures IdentityOf(b[i]) in Identities(a + b) { assert (a + b)[|a| + i] == b[i]; }
  }

  lemma IdentitiesUpdate(a: seq<Row>, p: nat, r: Row)
    requires p < |a| && IdentityOf(a[p]) == IdentityOf(r)
    ensures Identities(a[p := r]) == Identities(a)
  {
    var b := a[p := r];
    assert forall i | 0 <= i < |a| :: IdentityOf(b[i]) == IdentityOf(a[i]);
    forall i | 0 <= i < |a| ensures IdentityOf(a[i]) in Identities(b) { assert IdentityOf(b[i]) in Identities(b); }
  }

  lemma Known(a: seq<Row>, i: nat)
    requires i < |a|
    ensures IdentityOf(a[i]) in Identities(a)
  {
  }

  /** New rows of one batch and then of a second one are new rows of both together. */
  lemma NewRowsAppend(a: seq<Row>, b: seq<Row>, first: seq<Row>, second: seq<Row>, known: set<Identity>)
    requires NewRows(a, first, known) && NewRows(b, second, known + Identities(first))
    ensures NewRows(a + b, first + second, known)
    ensures Identities(first) <= Identities(second) && (forall r | r in first :: r in second) ==>
      NewRows(a + b, second, known)
  {
    IdentitiesConcat(a, b);
    IdentitiesConcat(first, second);
    forall i, j | 0 <= i < j < |a + b| ensures IdentityOf((a + b)[i]) != IdentityOf((a + b)[j]) {
      if i < |a| && |a| <= j {
        Known(a, i);
        Known(b, j - |a|);
      }
    }
  }

  class Store {
    var rows: seq<Row>

    constructor (rows: seq<Row>)
      ensures this.rows == rows
    {
      this.rows := rows;
    }

    /** The identities of a chunk that the store already holds. */
    method Lookup(keys: set<Identity>) returns (existing: set<Identity>)
      ensures existing == keys * Identities(rows)
    {
      existing := keys * Identities(rows);
    }

    method InsertAll(more: seq<Row>)
      modifies this
      ensures rows == old(rows) + more
    {
      rows := rows + more;
    }
  }

  function Place(rows: seq<Row>, id: Identity): (i: nat)
    ensures i <= |rows| && (i < |rows| ==> IdentityOf(rows[i]) == id)
    ensures i == |rows| <==> id !in Identities(rows)
  {
    if rows == [] then 0
    else if IdentityOf(rows[0]) == id then 0
    else
      assert forall k | 0 < k < |rows| :: rows[k] == rows[1..][k - 1];
      1 + Place(rows[1..], id)
  }

  /** The last row of that identity, if there is one. */
  function LastOf(rows: seq<Row>, id: Identity): Option<Row> {
    if rows == [] then None
    else if IdentityOf(rows[|rows| - 1]) == id then Some(rows[|rows| - 1])
    else LastOf(rows[..|rows| - 1], id)
  }

  /** `chunk` holds the last row of every identity of `rows`, and each identity once. */
  ghost predicate Deduped(chunk: seq<Row>, rows: seq<Row>) {
    && Distinct(chunk)
    && Identities(chunk) == Identities(rows)
    && forall i | 0 <= i < |chunk| :: LastOf(rows, IdentityOf(chunk[i])) == Some(chunk[i])
  }

  /** A row put in the place of its identity, or at the end. */
  function Placed(chunk: seq<Row>, r: Row): seq<Row> {
    var p := Place(chunk, IdentityOf(r));
    if p < |chunk| then chunk[p := r] else chunk + [r]
  }

  lemma PlacedIsDistinct(chunk: seq<Row>, r: Row)
    requires Distinct(chunk)
    ensures Distinct(Placed(chunk, r))
  {
    forall i | 0 <= i < |chunk| ensures IdentityOf(chunk[i]) in Identities(chunk) { Known(chunk, i); }
  }

  lemma PlacedAdds(chunk: seq<Row>, r: Row)
    ensures Identities(Placed(chunk, r)) == Identities(chunk) + {IdentityOf(r)}
  {
    var p := Place(chunk, IdentityOf(r));
    if p < |chunk| {
      Known(chunk, p);
      IdentitiesUpdate(chunk, p, r);
    } else {
      IdentitiesConcat(chunk, [r]);
      IdentityOfOne(r);
    }
  }

  lemma IdentityOfOne(r: Row)
    ensures Identities([r]) == {IdentityOf(r)}
  {
    Known([r], 0);
  }

  lemma LastOfMore(rows: seq<Row>, r: Row, id: Identity)
    ensures LastOf(rows + [r], id) == if IdentityOf(r) == id then Some(r) else LastOf(rows, id)
  {
    assert (rows + [r])[..|rows|] == rows;
  }

  /** One row more. */
  lemma DedupedGrows(chunk: seq<Row>, rows: seq<Row>, r: Row)
    requires Deduped(chunk, rows)
    ensures Deduped(Placed(chunk, r), rows + [r])
  {
    PlacedIsDistinct(chunk, r);
    PlacedAdds(chunk, r);
    IdentitiesConcat(rows, [r]);
    IdentityOfOne(r);
    LastPlaced(chunk, rows, r);
  }

  lemma LastPlaced(chunk: seq<Row>, rows: seq<Row>, r: Row)
    requires Deduped(chunk, rows)
    ensures forall i | 0 <= i < |Placed(chunk, r)| ::
      LastOf(rows + [r], IdentityOf(Placed(chunk, r)[i])) == Some(Placed(chunk, r)[i])
  {
    forall i | 0 <= i < |Placed(chunk, r)|
      ensures LastOf(rows + [r], IdentityOf(Placed(chunk, r)[i])) == Some(Placed(chunk, r)[i])
    {
      LastOfMore(rows, r, IdentityOf(Placed(chunk, r)[i]));
      if i < |chunk| { Known(chunk, i); }
    }
  }

  lemma {:induction false} LastOfIsIn(rows: seq<Row>, id: Identity)
    ensures LastOf(rows, id).Some? ==> LastOf(rows, id).value in rows
  {
    if rows != [] { LastOfIsIn(rows[..|rows| - 1], id); }
  }

  /** One row for each identity of the chunk: the last one given, in the place of the first. */
  method Dedupe(rows: seq<Row>) returns (chunk: seq<Row>)
    ensures Deduped(chunk, rows) && NewRows(chunk, rows, {})
  {
    chunk := [];
    for i := 0 to |rows|
      invariant Deduped(chunk, rows[..i])
    {
      var p := Place(chunk, IdentityOf(rows[i]));
      assert rows[..i + 1] == rows[..i] + [rows[i]];
      DedupedGrows(chunk, rows[..i], rows[i]);
      chunk := if p < |chunk| then chunk[p := rows[i]] else chunk + [rows[i]];
    }
    assert rows[..|rows|] == rows;
    forall r | r in chunk ensures r in rows { LastOfIsIn(rows, IdentityOf(r)); }
  }

  /** Letter case aside, the identity tells whether a row is addressable. */
  lemma AddressableByIdentity(a: Row, b: Row)
    requires IdentityOf(a) == IdentityOf(b) && Addressable(a)
    ensures Addressable(b)
  {
    LowerKeepsUuid(a.sessionId, b.sessionId);
    LowerKeepsUuid(a.entryUuid, b.entryUuid);
  }

  lemma LowerKeepsUuid(s: string, t: string)
    requires Lower(s) == Lower(t) && IsUuid(s)
    ensures IsUuid(t)
  {
    assert |t| == |Lower(t)| == |Lower(s)| == |s|;
    assert forall i | 0 <= i < 36 :: LowerChar(s[i]) == Lower(s)[i] == Lower(t)[i] == LowerChar(t[i]);
  }

  /** The rows of a chunk the store lacks. */
  method Missing(chunk: seq<Row>, existing: set<Identity>) returns (missing: seq<Row>)
    requires Distinct(chunk)
    ensures NewRows(missing, chunk, existing)
  {
    missing := [];
    for i := 0 to |chunk|
      invariant NewRows(missing, chunk[..i], existing)
    {
      assert chunk[..i + 1] == chunk[..i] + [chunk[i]];
      if IdentityOf(chunk[i]) !in existing {
        assert IdentityOf(chunk[i]) !in Identities(chunk[..i]);
        ghost var one := [chunk[i]];
        assert Identities(one) == {IdentityOf(chunk[i])} by { Known(one, 0); }
        NewRowsAppend(missing, one, chunk[..i], one, existing);
        missing := missing + [chunk[i]];
      } else {
        NewRowsAppend(missing, [], chunk[..i], [chunk[i]], existing);
        assert missing + [] == missing;
      }
    }
    assert chunk[..|chunk|] == chunk;
  }

  /** The chunk's keys can be built exactly when every row it stands for is addressable. */
  method AllAddressable(chunk: seq<Row>, ghost slice: seq<Row>) returns (ok: bool)
    requires Deduped(chunk, slice) && NewRows(chunk, slice, {})
    ensures ok <==> forall k | 0 <= k < |slice| :: Addressable(slice[k])
  {
    for k := 0 to |chunk|
      invariant forall m | 0 <= m < k :: Addressable(chunk[m])
    {
      if !Addressable(chunk[k]) {
        assert chunk[k] in slice;
        return false;
      }
    }
    forall k | 0 <= k < |slice| ensures Addressable(slice[k]) {
      Known(slice, k);
      var m :| 0 <= m < |chunk| && IdentityOf(chunk[m]) == IdentityOf(slice[k]);
      AddressableByIdentity(chunk[m], slice[k]);
    }
    ok := true;
  }

  function ChunkAt(rows: seq<Row>, start: nat): seq<Row>
    requires start <= |rows|
  {
    rows[start..if start + CHUNK <= |rows| then start + CHUNK else |rows|]
  }

  ghost predicate ChosenAt(rows: seq<Row>, start: nat, r: Row) {
    && start <= |rows| && start % 200 == 0
    && IdentityOf(r) !in Identities(rows[..start])
    && LastOf(rows[start..if start + 200 <= |rows| then start + 200 else |rows|], IdentityOf(r)) == Some(r)
  }

  /** The row that stands for its identity: the last one in the first chunk that has it. */
  ghost predicate Chosen(rows: seq<Row>, r: Row) {
    exists start: nat :: ChosenAt(rows, start, r)
  }

  lemma MissingAreChosen(rows: seq<Row>, start: nat, chunk: seq<Row>, missing: seq<Row>,
                         known: set<Identity>)
    requires start <= |rows| && start % CHUNK == 0 && Deduped(chunk, ChunkAt(rows, start))
    requires NewRows(missing, chunk, known + Identities(rows[..start]))
    ensures forall r | r in missing :: Chosen(rows, r)
  {
    forall r | r in missing ensures ChosenAt(rows, start, r) {
      var i :| 0 <= i < |missing| && missing[i] == r;
      Known(missing, i);
    }
  }

  /**
   * Inserts the rows whose identity the store lacks. `done` rows were processed
   * in whole chunks, and `added` is what they put into the store; a throw
   * leaves exactly that. Rows already stored are untouched.
   */
  method InsertRows(store: Store, rows: seq<Row>, reply: nat -> Reply)
    returns (r: Result<nat, InsertError>, ghost done: nat, ghost added: seq<Row>)
    modifies store
    ensures done <= |rows|
    ensures store.rows == old(store.rows) + added
    ensures NewRows(added, rows[..done], Identities(old(store.rows))) && forall x | x in added :: Chosen(rows, x)
    ensures r.Ok? ==> done == |rows| && r.value == |added| && forall row | row in rows :: Addressable(row)
    ensures r.Err? ==> done < |rows| && done % 200 == 0
    ensures r == Err(BadIdentity) ==> exists i | done <= i < |rows| && i < done + 200 :: !Addressable(rows[i])
    ensures r == Err(LookupFailed) ==> reply(done / 200) == LookupFails
    ensures r == Err(InsertFailed) ==> reply(done / 200) == InsertFails
    ensures r.Ok? ==> forall k: nat | 200 * k < |rows| :: reply(k) != LookupFails
    ensures (forall row | row in rows :: Addressable(row)) && (forall k :: reply(k) == Answers) ==> r.Ok?
  {
    var inserted := 0;
    var i := 0;
    added, done := [], 0;
    ghost var known := Identities(store.rows);
    while i < |rows|
      invariant i == done <= |rows| && (i < |rows| ==> i % CHUNK == 0)
      invariant store.rows == old(store.rows) + added && inserted == |added|
      invariant NewRows(added, rows[..done], known) && forall x | x in added :: Chosen(rows, x)
      invariant forall row | row in rows[..done] :: Addressable(row)
      invariant forall k: nat | 200 * k < i :: reply(k) != LookupFails
    {
      var end := if i + CHUNK <= |rows| then i + CHUNK else |rows|;
      var slice := rows[i..end];
      var chunk := Dedupe(slice);
      var addressable := AllAddressable(chunk, slice);
      if !addressable {
        var bad :| 0 <= bad < |slice| && !Addressable(slice[bad]);
        assert !Addressable(rows[done + bad]);
        return Err(BadIdentity), done, added;
      }
      if reply(i / CHUNK) == LookupFails {
        return Err(LookupFailed), done, added;
      }
      var existing := store.Lookup(Identities(chunk));
      var missing := Missing(chunk, existing);
      IdentitiesConcat(old(store.rows), added);
      MissingAreChosen(rows, i, chunk, missing, known);
      assert NewRows(missing, slice, known + Identities(rows[..done]));
      NewRowsAppend(added, missing, rows[..done], slice, known);
      assert rows[..end] == rows[..done] + slice;
      if |missing| > 0 {
        if reply(i / CHUNK) == InsertFails {
          return Err(InsertFailed), done, added;
        }
        store.InsertAll(missing);
        inserted := inserted + |missing|;
      }
      added := added + missing;
      i := end;
      done := end;
    }
    assert rows[..|rows|] == rows;
    r := Ok(inserted);
  }

  /**
   * A rerun over all the rows after a throw completes the work: together the
   * two runs added each identity the store lacked, once.
   */
  lemma RerunCompletes(first: seq<Row>, second: seq<Row>, rows: seq<Row>, done: nat, stored: seq<Row>)
    requires done <= |rows| && NewRows(first, rows[..done], Identities(stored))
    requires NewRows(second, rows, Identities(stored + first))
    ensures NewRows(first + second, rows, Identities(stored))
    ensures Identities(stored + first + second) == Identities(stored) + Identities(rows)
  {
    var prefix := rows[..done];
    assert rows == prefix + rows[done..];
    IdentitiesConcat(prefix, rows[done..]);
    IdentitiesConcat(stored, first);
    IdentitiesConcat(stored + first, second);
    NewRowsAppend(first, second, prefix, rows, Identities(stored));
  }
}
