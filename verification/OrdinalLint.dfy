/**
 * The frozen ordinal series of db-lint-migrations.ts: four-digit ordinals, no
 * duplicates, and no gap but the squashed range 11 to 27.
 */
module OrdinalLint {
  import opened Common

  predicate Squashed(n: int) { 11 <= n <= 27 }

  /** A file of the series: its ordinal, or none for a name the pattern rejects. */
  datatype File = File(name: string, ordinal: Option<nat>)

  predicate Ascending(s: seq<nat>) {
    forall i, j | 0 <= i < j < |s| :: s[i] < s[j]
  }

  /** Every ordinal below the highest is present or squashed. */
  ghost predicate NoGap(ordinals: seq<nat>) {
    forall n: nat, i | 0 <= i < |ordinals| && n < ordinals[i] :: n in ordinals || Squashed(n)
  }

  /** The gap loop: an error at the first ordinal that is neither present nor squashed. */
  method FindGap(ordinals: seq<nat>) returns (gap: Option<nat>)
    requires Ascending(ordinals)
    ensures gap.None? <==> NoGap(ordinals)
    ensures gap.Some? ==>
      && gap.value !in ordinals && !Squashed(gap.value) && (exists i | 0 <= i < |ordinals| :: gap.value < ordinals[i])
      && forall n: nat | n < gap.value :: n in ordinals || Squashed(n)
  {
    var expected: nat := 0;
    for i := 0 to |ordinals|
      invariant i == 0 ==> expected == 0
      invariant i > 0 ==> expected == ordinals[i - 1] + 1
      invariant forall n: nat | n < expected :: n in ordinals || Squashed(n)
    {
      var actual := ordinals[i];
      while expected < actual
        invariant expected <= actual
        invariant forall n: nat | n < expected :: n in ordinals || Squashed(n)
        invariant i > 0 ==> expected > ordinals[i - 1]
      {
        if !Squashed(expected) {
          assert forall k | 0 <= k < |ordinals| :: k < i ==> ordinals[k] < expected;
          assert forall k | i <= k < |ordinals| :: ordinals[k] >= actual;
          return Some(expected);
        }
        expected := expected + 1;
      }
      assert ordinals[i] in ordinals;
      expected := actual + 1;
    }
    gap := None;
  }

  ghost predicate Has(files: seq<File>, n: nat) {
    exists i | 0 <= i < |files| :: files[i].ordinal == Some(n)
  }

  /** Every ordinal below one of the files' is some file's, or squashed. */
  ghost predicate FilesHaveNoGap(files: seq<File>) {
    forall n: nat, i | 0 <= i < |files| && files[i].ordinal.Some? && n < files[i].ordinal.value ::
      Has(files, n) || 11 <= n <= 27
  }

  ghost predicate AllNamed(files: seq<File>) {
    forall i | 0 <= i < |files| :: files[i].ordinal.Some?
  }

  ghost predicate NoDuplicate(files: seq<File>) {
    forall i, j | 0 <= i < j < |files| && files[i].ordinal.Some? :: files[i].ordinal != files[j].ordinal
  }

  lemma OneMoreFile(files: seq<File>, f: File)
    ensures AllNamed(files + [f]) <==> AllNamed(files) && f.ordinal.Some?
    ensures NoDuplicate(files + [f]) <==> NoDuplicate(files) && (f.ordinal.Some? ==> !Has(files, f.ordinal.value))
    ensures forall n: nat :: Has(files + [f], n) <==> Has(files, n) || f.ordinal == Some(n)
  {
    var all := files + [f];
    assert forall k | 0 <= k < |files| :: all[k] == files[k];
    assert all[|files|] == f;
  }

  /** The files of each ordinal, and how many names the pattern rejects. */
  ghost predicate Grouped(files: seq<File>, byOrdinal: map<nat, seq<string>>, rejected: nat) {
    && (rejected == 0 <==> AllNamed(files))
    && (forall n: nat :: n in byOrdinal <==> Has(files, n))
    && (forall n | n in byOrdinal :: byOrdinal[n] != [])
    && (NoDuplicate(files) <==> forall n | n in byOrdinal :: |byOrdinal[n]| == 1)
  }

  lemma GroupedGrows(files: seq<File>, byOrdinal: map<nat, seq<string>>, rejected: nat, f: File)
    requires Grouped(files, byOrdinal, rejected)
    ensures f.ordinal.None? ==> Grouped(files + [f], byOrdinal, rejected + 1)
    ensures f.ordinal.Some? ==>
      var n := f.ordinal.value;
      Grouped(files + [f], byOrdinal[n := (if n in byOrdinal then byOrdinal[n] else []) + [f.name]], rejected)
  {
    OneMoreFile(files, f);
    if f.ordinal.Some? {
      var n := f.ordinal.value;
      var after := byOrdinal[n := (if n in byOrdinal then byOrdinal[n] else []) + [f.name]];
      assert forall m | m in byOrdinal && m != n :: after[m] == byOrdinal[m];
      assert n in byOrdinal ==> |after[n]| > 1;
      assert forall m | m in after :: m == n || m in byOrdinal;
      assert forall m | m in byOrdinal :: m in after;
    }
  }

  /** Groups the files by ordinal. */
  method GroupFiles(files: seq<File>) returns (byOrdinal: map<nat, seq<string>>, rejected: nat)
    ensures Grouped(files, byOrdinal, rejected)
  {
    byOrdinal, rejected := map[], 0;
    for i := 0 to |files|
      invariant Grouped(files[..i], byOrdinal, rejected)
    {
      var f := files[i];
      assert files[..i + 1] == files[..i] + [f];
      GroupedGrows(files[..i], byOrdinal, rejected, f);
      if f.ordinal.None? {
        rejected := rejected + 1;
        continue;
      }
      var n := f.ordinal.value;
      var group := if n in byOrdinal then byOrdinal[n] else [];
      byOrdinal := byOrdinal[n := group + [f.name]];
    }
    assert files[..|files|] == files;
  }

  function InsertOrdinal(n: nat, s: seq<nat>): (r: seq<nat>)
    requires Ascending(s)
    ensures Ascending(r) && forall m :: m in r <==> m == n || m in s
    ensures r != [] && (r[0] == n || (s != [] && r[0] == s[0])) && (r[0] <= n)
  {
    if s == [] then [n]
    else if n < s[0] then
      assert forall m :: m in [n] + s <==> m == n || m in s;
      [n] + s
    else if n == s[0] then s
    else
      assert s == [s[0]] + s[1..];
      var rest := InsertOrdinal(n, s[1..]);
      assert forall m | m in rest :: m > s[0];
      [s[0]] + rest
  }

  /** The ordinals of the groups, ascending, and whether some group has two files. */
  method CheckGroups(byOrdinal: map<nat, seq<string>>) returns (ordinals: seq<nat>, duplicates: nat)
    requires forall n | n in byOrdinal :: byOrdinal[n] != []
    ensures Ascending(ordinals) && forall n :: n in ordinals <==> n in byOrdinal
    ensures duplicates == 0 <==> forall n | n in byOrdinal :: |byOrdinal[n]| == 1
  {
    ordinals, duplicates := [], 0;
    var todo := byOrdinal.Keys;
    while todo != {}
      invariant todo <= byOrdinal.Keys && Ascending(ordinals)
      invariant forall n :: n in ordinals <==> n in byOrdinal.Keys - todo
      invariant duplicates == 0 <==> forall n | n in byOrdinal.Keys - todo :: |byOrdinal[n]| == 1
      decreases |todo|
    {
      var n :| n in todo;
      if |byOrdinal[n]| > 1 { duplicates := duplicates + 1; }
      ordinals := InsertOrdinal(n, ordinals);
      todo := todo - {n};
      assert n in byOrdinal.Keys - todo;
    }
  }

  /** The lint of the frozen series passes exactly when the series is clean. */
  method LintSeries(files: seq<File>) returns (ok: bool)
    ensures ok <==> AllNamed(files) && NoDuplicate(files) && FilesHaveNoGap(files)
  {
    var byOrdinal, rejected := GroupFiles(files);
    var ordinals, duplicates := CheckGroups(byOrdinal);
    var gap := FindGap(ordinals);
    ok := rejected == 0 && duplicates == 0 && gap.None?;
    assert forall n: nat :: n in ordinals <==> Has(files, n);
    GapsAgree(files, ordinals);
  }

  /** The ordinals have no gap exactly when the files have none. */
  lemma GapsAgree(files: seq<File>, ordinals: seq<nat>)
    requires forall n: nat :: n in ordinals <==> Has(files, n)
    ensures NoGap(ordinals) <==> FilesHaveNoGap(files)
  {
    forall i | 0 <= i < |files| && files[i].ordinal.Some?
      ensures exists k | 0 <= k < |ordinals| :: ordinals[k] == files[i].ordinal.value
    {
      assert Has(files, files[i].ordinal.value);
    }
    forall k | 0 <= k < |ordinals| ensures Has(files, ordinals[k]) {
      assert ordinals[k] in ordinals;
    }
  }
}
