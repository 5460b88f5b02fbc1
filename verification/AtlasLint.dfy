/**
 * db-lint-migrations.ts: the live Atlas directory. A file name carries a
 * 14-digit version; the lint refuses duplicates and versions at or before the
 * merge base's latest, and what it lets through a runner never skips.
 */
module AtlasLint {
  import opened Common
  import opened Decimal

  const VERSION_DIGITS: nat := 14

  predicate SlugChar(c: char) { 'a' <= c <= 'z' || IsDigit(c) }

  /** Lower-case words and digits joined by single underscores. */
  predicate IsSlug(s: string) {
    && s != []
    && (forall i | 0 <= i < |s| :: SlugChar(s[i]) || s[i] == '_')
    && s[0] != '_' && s[|s| - 1] != '_'
    && forall i | 0 < i < |s| :: !(s[i - 1] == '_' && s[i] == '_')
  }

  /** Fourteen digits, an underscore, a slug and `.sql`. */
  predicate WellNamed(file: string) {
    && |file| > VERSION_DIGITS + 5
    && (forall i | 0 <= i < VERSION_DIGITS :: IsDigit(file[i]))
    && file[VERSION_DIGITS] == '_'
    && file[|file| - 4..] == ".sql"
    && IsSlug(file[VERSION_DIGITS + 1..|file| - 4])
  }

  type Version = s: string | |s| == 14 && forall i | 0 <= i < 14 :: IsDigit(s[i]) witness "00000000000000"

  function VersionOf(file: string): Option<Version> {
    if WellNamed(file) then Some(file[..VERSION_DIGITS]) else None
  }

  /** How the script compares versions: as strings. */
  predicate Before(a: string, b: string) {
    b != [] && (a == [] || a[0] < b[0] || (a[0] == b[0] && Before(a[1..], b[1..])))
  }

  /** On digit strings of one length, string order is numeric order. */
  lemma {:induction false} BeforeIsNumeric(a: string, b: string)
    requires |a| == |b| && AllDigits(a) && AllDigits(b)
    ensures Before(a, b) <==> Number(a) < Number(b)
    ensures a == b <==> Number(a) == Number(b)
    decreases |a|
  {
    if a != [] {
      BeforeIsNumeric(a[1..], b[1..]);
      NumberBound(a[1..]);
      NumberBound(b[1..]);
      PlaceValue(Digit(a[0]), Digit(b[0]), Power10(|a| - 1), Number(a[1..]), Number(b[1..]));
      assert a == [a[0]] + a[1..] && b == [b[0]] + b[1..];
    }
  }

  predicate AtOrBefore(a: Version, b: Version) { a == b || Before(a, b) }

  lemma VersionOrder(a: Version, b: Version)
    ensures Before(a, b) <==> Number(a) < Number(b)
    ensures a == b <==> Number(a) == Number(b)
  {
    BeforeIsNumeric(a, b);
  }

  /** The latest version among the well-named files. */
  ghost predicate IsLatest(max: Option<Version>, files: seq<string>) {
    if max.None? then forall f | f in files :: VersionOf(f).None?
    else
      && (exists f | f in files :: VersionOf(f) == max)
      && forall f | f in files && VersionOf(f).Some? :: AtOrBefore(VersionOf(f).value, max.value)
  }

  method MaxAtlasVersion(files: seq<string>) returns (max: Option<Version>)
    ensures IsLatest(max, files)
  {
    max := None;
    for i := 0 to |files|
      invariant IsLatest(max, files[..i])
    {
      var v := VersionOf(files[i]);
      assert forall f | f in files[..i + 1] :: f in files[..i] || f == files[i];
      assert forall f | f in files[..i] :: f in files[..i + 1];
      assert files[i] in files[..i + 1];
      if v.Some? && max.Some? {
        VersionOrder(max.value, v.value);
        forall f | f in files[..i] && VersionOf(f).Some? && AtOrBefore(VersionOf(f).value, max.value)
              && Before(max.value, v.value)
          ensures AtOrBefore(VersionOf(f).value, v.value)
        {
          VersionOrder(VersionOf(f).value, max.value);
          VersionOrder(VersionOf(f).value, v.value);
        }
      }
      if v.Some? && (max.None? || Before(max.value, v.value)) {
        max := v;
      } else if v.Some? {
        VersionOrder(v.value, max.value);
      }
    }
    assert files[..|files|] == files;
  }

  // ---- The merge-base check ----

  datatype Status = Checked | Degraded

  datatype Baseline = Baseline(status: Status, errors: seq<string>, warnings: seq<string>)

  /** Added since the merge base: in the working tree and not among its files. */
  predicate Added(file: string, base: seq<string>) { file !in base }

  /** A well-named file stamped at or before some version among `files`. */
  ghost predicate NotAfter(file: string, files: seq<string>) {
    VersionOf(file).Some?
    && exists f | f in files && VersionOf(f).Some? :: AtOrBefore(VersionOf(file).value, VersionOf(f).value)
  }

  /** An added file stamped at or before the merge base's latest version. */
  ghost predicate Late(file: string, base: seq<string>) {
    Added(file, base) && NotAfter(file, base)
  }

  /** A late file that restores an old one, or an added one in order that the tip has overtaken. */
  ghost predicate Warned(file: string, base: seq<string>, tip: Option<seq<string>>, restored: set<string>) {
    && Added(file, base)
    && if NotAfter(file, base) then file in restored else tip.Some? && NotAfter(file, tip.value)
  }

  /**
   * Compares the added files with the merge base (errors) and with the branch's
   * current tip (warnings). An exact historical restoration is excused with a
   * warning. `base` is absent when git cannot answer, `tip` when the tip cannot
   * be read.
   */
  method CheckAtlasBaseline(current: seq<string>, base: Option<seq<string>>, tip: Option<seq<string>>,
                            restored: set<string>)
    returns (r: Baseline)
    ensures base.None? ==> r == Baseline(Degraded, [], [])
    ensures base.Some? ==> r.status == Checked
    ensures base.Some? ==> forall f :: f in r.errors <==> f in current && Late(f, base.value) && f !in restored
    ensures base.Some? ==> forall f :: f in r.warnings <==> f in current && Warned(f, base.value, tip, restored)
  {
    if base.None? {
      return Baseline(Degraded, [], []);
    }
    var baseMax := MaxAtlasVersion(base.value);
    var tipMax: Option<Version> := None;
    if tip.Some? {
      tipMax := MaxAtlasVersion(tip.value);
    }
    var errors, warnings := [], [];
    for i := 0 to |current|
      invariant forall f :: f in errors <==> f in current[..i] && Late(f, base.value) && f !in restored
      invariant forall f :: f in warnings <==> f in current[..i] && Warned(f, base.value, tip, restored)
    {
      var file := current[i];
      assert forall f :: f in current[..i + 1] <==> f in current[..i] || f == file;
      if file in base.value { continue; }
      var v := VersionOf(file);
      if v.None? { continue; }
      NotAfterLatest(file, base.value, baseMax);
      if tip.Some? { NotAfterLatest(file, tip.value, tipMax); }
      if baseMax.Some? && !Before(baseMax.value, v.value) {
        VersionOrder(baseMax.value, v.value);
        VersionOrder(v.value, baseMax.value);
        if file in restored {
          warnings := warnings + [file];
        } else {
          errors := errors + [file];
        }
        continue;
      }
      if baseMax.Some? { VersionOrder(v.value, baseMax.value); VersionOrder(baseMax.value, v.value); }
      if tipMax.Some? { VersionOrder(v.value, tipMax.value); VersionOrder(tipMax.value, v.value); }
      if tipMax.Some? && !Before(tipMax.value, v.value) {
        warnings := warnings + [file];
      }
    }
    assert current[..|current|] == current;
    r := Baseline(Checked, errors, warnings);
  }

  lemma NotAfterLatest(file: string, files: seq<string>, max: Option<Version>)
    requires VersionOf(file).Some? && IsLatest(max, files)
    ensures NotAfter(file, files) <==> max.Some? && AtOrBefore(VersionOf(file).value, max.value)
  {
    var v := VersionOf(file).value;
    if NotAfter(file, files) {
      var f :| f in files && VersionOf(f).Some? && AtOrBefore(v, VersionOf(f).value);
      VersionOrder(v, VersionOf(f).value);
      VersionOrder(VersionOf(f).value, max.value);
      VersionOrder(v, max.value);
    }
  }

  // ---- The whole lint ----

  ghost predicate DistinctVersions(files: seq<string>) {
    forall i, j | 0 <= i < j < |files| && VersionOf(files[i]).Some? :: VersionOf(files[i]) != VersionOf(files[j])
  }

  ghost predicate SumMatches(files: seq<string>, sum: seq<string>) {
    && (forall i, j | 0 <= i < j < |sum| :: sum[i] != sum[j])
    && forall f :: f in files <==> f in sum
  }

  predicate AllWellNamed(files: seq<string>) { forall f | f in files :: WellNamed(f) }

  /** Some file has this version. */
  ghost predicate Claims(files: seq<string>, v: Version) {
    exists k | 0 <= k < |files| :: VersionOf(files[k]) == Some(v)
  }

  ghost predicate NamesOk(files: seq<string>) { AllWellNamed(files) && DistinctVersions(files) }

  lemma OneMoreVersion(files: seq<string>, f: string)
    ensures NamesOk(files + [f]) <==> NamesOk(files) && VersionOf(f).Some? && !Claims(files, VersionOf(f).value)
    ensures forall v: Version :: Claims(files + [f], v) <==> Claims(files, v) || VersionOf(f) == Some(v)
  {
    var all := files + [f];
    assert forall k | 0 <= k < |files| :: all[k] == files[k];
    assert all[|files|] == f;
    assert forall x :: x in all <==> x in files || x == f;
  }

  /** Every name is well formed and no two files share a version. */
  method CheckNames(files: seq<string>) returns (ok: bool)
    ensures ok <==> NamesOk(files)
  {
    var errors: nat := 0;
    var byVersion: map<Version, string> := map[];
    for i := 0 to |files|
      invariant errors == 0 <==> NamesOk(files[..i])
      invariant forall v: Version :: v in byVersion <==> Claims(files[..i], v)
    {
      var v := VersionOf(files[i]);
      assert files[..i + 1] == files[..i] + [files[i]];
      OneMoreVersion(files[..i], files[i]);
      if v.None? {
        errors := errors + 1;
      } else {
        if v.value in byVersion { errors := errors + 1; }
        byVersion := byVersion[v.value := files[i]];
      }
    }
    assert files[..|files|] == files;
    ok := errors == 0;
  }

  /** atlas.sum lists each file of the directory once, and nothing else. */
  method CheckSum(files: seq<string>, sum: seq<string>) returns (ok: bool)
    ensures ok <==> SumMatches(files, sum)
  {
    var sumSet: set<string> := {};
    var repeated := false;
    for i := 0 to |sum|
      invariant sumSet == set k | 0 <= k < i :: sum[k]
      invariant repeated <==> exists a, b | 0 <= a < b < i :: sum[a] == sum[b]
    {
      if sum[i] in sumSet { repeated := true; }
      sumSet := sumSet + {sum[i]};
    }
    var missing, stale: nat := 0, 0;
    for i := 0 to |files|
      invariant missing == 0 <==> forall k | 0 <= k < i :: files[k] in sumSet
    {
      if files[i] !in sumSet { missing := missing + 1; }
    }
    var todo := sumSet;
    while todo != {}
      invariant todo <= sumSet && (stale == 0 <==> forall s | s in sumSet - todo :: s in files)
      decreases |todo|
    {
      var s :| s in todo;
      if s !in files { stale := stale + 1; }
      todo := todo - {s};
      assert s in sumSet - todo;
    }
    assert missing == 0 <==> forall f | f in files :: f in sumSet;
    assert forall s :: s in sumSet <==> s in sum;
    ok := !repeated && missing == 0 && stale == 0;
  }

  /** What a clean directory is: names, versions, atlas.sum and, given a merge base, the order. */
  ghost predicate Clean(files: seq<string>, sum: seq<string>, base: Option<seq<string>>, restored: set<string>) {
    && NamesOk(files) && SumMatches(files, sum)
    && (base.Some? ==> forall f | f in files && Late(f, base.value) :: f in restored)
  }

  /** The lint of the live directory. It passes exactly when the directory is clean. */
  method LintAtlas(files: seq<string>, sum: seq<string>, base: Option<seq<string>>, tip: Option<seq<string>>,
                   restored: set<string>)
    returns (ok: bool, status: Status, warnings: seq<string>)
    ensures status == Degraded <==> base.None?
    ensures ok <==> Clean(files, sum, base, restored)
    ensures base.Some? ==> forall f :: f in warnings <==> f in files && Warned(f, base.value, tip, restored)
  {
    var names := CheckNames(files);
    var sums := CheckSum(files, sum);
    var baseline := CheckAtlasBaseline(files, base, tip, restored);
    status, warnings := baseline.status, baseline.warnings;
    ok := names && sums && |baseline.errors| == 0;
    assert |baseline.errors| != 0 ==> baseline.errors[0] in baseline.errors;
  }

  // ---- The runner ----

  /** The files a runner applies from a directory in version order, `last` being its latest version. */
  function Run(files: seq<string>, last: Option<Version>): seq<string> {
    if files == [] then []
    else
      var v := VersionOf(files[0]);
      if v.Some? && (last.None? || Before(last.value, v.value)) then [files[0]] + Run(files[1..], v)
      else Run(files[1..], last)
  }

  ghost predicate InVersionOrder(files: seq<string>) {
    forall i, j | 0 <= i < j < |files| && VersionOf(files[i]).Some? && VersionOf(files[j]).Some? ::
      AtOrBefore(VersionOf(files[i]).value, VersionOf(files[j]).value)
  }

  function Later(last: Option<Version>, v: Version): bool { last.None? || Before(last.value, v) }

  lemma {:induction false} RunSubset(files: seq<string>, last: Option<Version>, f: string)
    requires f in Run(files, last)
    ensures f in files && VersionOf(f).Some? && Later(last, VersionOf(f).value)
    decreases |files|
  {
    var v := VersionOf(files[0]);
    if v.Some? && Later(last, v.value) {
      if f != files[0] {
        assert f in Run(files[1..], v);
        RunSubset(files[1..], v, f);
        VersionOrder(v.value, VersionOf(f).value);
        if last.Some? { VersionOrder(last.value, v.value); VersionOrder(last.value, VersionOf(f).value); }
      }
    } else {
      RunSubset(files[1..], last, f);
    }
  }

  /** In version order and with distinct versions, every file later than `last` is applied. */
  lemma {:induction false} RunApplies(files: seq<string>, last: Option<Version>, i: nat)
    requires i < |files| && InVersionOrder(files) && DistinctVersions(files)
    requires VersionOf(files[i]).Some? && Later(last, VersionOf(files[i]).value)
    ensures files[i] in Run(files, last)
    decreases |files|
  {
    var v := VersionOf(files[0]);
    var rest := files[1..];
    if i > 0 {
      assert rest[i - 1] == files[i];
      assert InVersionOrder(rest) && DistinctVersions(rest);
      if v.Some? && Later(last, v.value) {
        assert AtOrBefore(v.value, VersionOf(files[i]).value) && v != VersionOf(files[i]);
        RunApplies(rest, v, i - 1);
      } else {
        RunApplies(rest, last, i - 1);
      }
    }
  }

  /** A skipped file: added by the branch and not applied. */
  ghost predicate SkipsNone(files: seq<string>, base: seq<string>, last: Option<Version>) {
    forall f | f in files && Added(f, base) :: f in Run(files, last)
  }

  /**
   * A database at the merge base's latest version runs the branch's directory
   * in version order. It applies every added file and none of the base's own
   * exactly when the lint has no added file to refuse.
   */
  lemma RunnerSkipsNone(files: seq<string>, base: seq<string>, last: Option<Version>)
    requires IsLatest(last, base) && InVersionOrder(files)
    requires (forall f | f in files :: WellNamed(f)) && DistinctVersions(files)
    ensures SkipsNone(files, base, last) <==> forall f | f in files :: !Late(f, base)
    ensures forall f | f in Run(files, last) :: f in files && Added(f, base)
  {
    forall f | f in files && Added(f, base)
      ensures f in Run(files, last) <==> !Late(f, base)
    {
      NotAfterLatest(f, base, last);
      if last.Some? { VersionOrder(VersionOf(f).value, last.value); VersionOrder(last.value, VersionOf(f).value); }
      var i :| 0 <= i < |files| && files[i] == f;
      if f in Run(files, last) { RunSubset(files, last, f); }
      if !Late(f, base) { RunApplies(files, last, i); }
    }
    forall f | f in Run(files, last) ensures f in files && Added(f, base) {
      RunSubset(files, last, f);
      if f in base {
        VersionOrder(VersionOf(f).value, last.value);
        VersionOrder(last.value, VersionOf(f).value);
      }
    }
  }

  /** Directory listings come sorted by name. */
  ghost predicate SortedByName(files: seq<string>) {
    forall i, j | 0 <= i < j < |files| :: files[i] == files[j] || Before(files[i], files[j])
  }

  lemma {:induction false} PrefixOrder(a: string, b: string, n: nat)
    requires n <= |a| && n <= |b| && (a == b || Before(a, b))
    ensures a[..n] == b[..n] || Before(a[..n], b[..n])
    decreases n
  {
    if n > 0 && a != b && a[0] == b[0] {
      PrefixOrder(a[1..], b[1..], n - 1);
      assert a[..n] == [a[0]] + a[1..][..n - 1] && b[..n] == [b[0]] + b[1..][..n - 1];
      assert a[..n][1..] == a[1..][..n - 1] && b[..n][1..] == b[1..][..n - 1];
    }
  }

  /** Name order is version order. */
  lemma SortedIsInVersionOrder(files: seq<string>)
    requires SortedByName(files)
    ensures InVersionOrder(files)
  {
    forall i, j | 0 <= i < j < |files| && VersionOf(files[i]).Some? && VersionOf(files[j]).Some?
      ensures AtOrBefore(VersionOf(files[i]).value, VersionOf(files[j]).value)
    {
      PrefixOrder(files[i], files[j], VERSION_DIGITS);
    }
  }

  /**
   * A passing lint with a merge base and no restoration: from a database at the
   * merge base, the runner applies every added file and only added files.
   */
  lemma CleanRunSkipsNone(files: seq<string>, sum: seq<string>, base: seq<string>, last: Option<Version>)
    requires SortedByName(files) && IsLatest(last, base) && Clean(files, sum, Some(base), {})
    ensures SkipsNone(files, base, last)
    ensures forall f | f in Run(files, last) :: Added(f, base)
  {
    SortedIsInVersionOrder(files);
    RunnerSkipsNone(files, base, last);
  }
}
