/**
 * The shrink-only baseline of apps/app/knip.preprocessor.ts: reported findings
 * that the baseline lists are dropped, and the counters knip derives its exit
 * code from follow.
 */
module KnipBaseline {
  import opened Common

  type IssueType = string

  const FILES: IssueType := "files"

  /** Where a finding sits in the report: its type, its file and its key there. */
  datatype Slot = Slot(issueType: IssueType, file: string, key: string)

  // ---- Reading the baseline ----

  datatype BaselineError = DuplicateEntries(entries: seq<string>)

  /** The entries that repeat an earlier one, in order. */
  function Repeats(entries: seq<string>): seq<string> {
    if entries == [] then []
    else
      var n := |entries| - 1;
      Repeats(entries[..n]) + (if entries[n] in entries[..n] then [entries[n]] else [])
  }

  function ReadBaseline(entries: seq<string>): Result<seq<string>, BaselineError> {
    if Repeats(entries) != [] then Err(DuplicateEntries(Repeats(entries))) else Ok(entries)
  }

  /** A baseline is accepted exactly when no entry occurs twice. */
  lemma {:induction false} AcceptedIffDistinct(entries: seq<string>)
    ensures ReadBaseline(entries).Ok? <==> forall i, j | 0 <= i < j < |entries| :: entries[i] != entries[j]
    decreases |entries|
  {
    if entries != [] {
      var n := |entries| - 1;
      var rest := entries[..n];
      AcceptedIffDistinct(rest);
      assert forall i | 0 <= i < n :: rest[i] == entries[i];
      if ReadBaseline(rest).Ok? && entries[n] in rest {
        var i :| 0 <= i < n && rest[i] == entries[n];
        assert entries[i] == entries[n];
      }
    }
  }

  /** The error names exactly the entries that occur twice. */
  lemma {:induction false} RepeatsAre(entries: seq<string>, e: string)
    ensures e in Repeats(entries) <==> exists i, j | 0 <= i < j < |entries| :: entries[i] == e && entries[j] == e
    decreases |entries|
  {
    if entries != [] {
      var n := |entries| - 1;
      RepeatsAre(entries[..n], e);
      assert forall i | 0 <= i < n :: entries[..n][i] == entries[i];
      if entries[n] == e && e in entries[..n] {
        var i :| 0 <= i < n && entries[..n][i] == e;
        assert entries[i] == e && entries[n] == e;
      }
    }
  }

  // ---- Applying it ----

  function OfType(slots: set<Slot>, t: IssueType): set<Slot> {
    set s | s in slots && s.issueType == t
  }

  class Report {
    var issues: set<Slot>
    var counters: map<IssueType, int>
    var total: int

    constructor (issues: set<Slot>, counters: map<IssueType, int>, total: int)
      ensures this.issues == issues && this.counters == counters && this.total == total
    {
      this.issues, this.counters, this.total := issues, counters, total;
    }

    /** One finding fewer in its type's counter and in the total. */
    method Discount(s: Slot, ghost live: set<Slot>)
      requires Tally(counters, total, live) && s in live
      modifies this`counters, this`total
      ensures Tally(counters, total, live - {s}) && counters.Keys == old(counters).Keys
    {
      TallyDrop(counters, total, live, s);
      var next := counters[s.issueType := counters[s.issueType] - 1];
      counters := next;
      total := total - 1;
    }

    /** Stale entries count against `files`, without a row there. */
    method Charge(n: nat)
      requires FILES in counters
      modifies this`counters, this`total
      ensures counters.Keys == old(counters).Keys
      ensures forall t | t in counters :: counters[t] == old(counters[t]) + if t == FILES then n else 0
      ensures total == old(total) + n
    {
      counters := counters[FILES := counters[FILES] + n];
      total := total + n;
    }
  }

  /** The counters agree with the findings, type by type and in total. */
  ghost predicate Tally(counters: map<IssueType, int>, total: int, slots: set<Slot>) {
    && FILES in counters
    && (forall s | s in slots :: s.issueType in counters)
    && (forall t | t in counters :: counters[t] == |OfType(slots, t)|)
    && total == |slots|
  }

  /** Each finding has its own entry and each entry its finding. */
  ghost predicate OneToOne(keyOf: Slot -> string, slots: set<Slot>, entries: set<string>) {
    && (forall s | s in slots :: keyOf(s) in entries)
    && (forall a, b | a in slots && b in slots && a != b :: keyOf(a) != keyOf(b))
    && (forall e | e in entries :: exists s | s in slots :: keyOf(s) == e)
  }

  lemma OneMorePair(keyOf: Slot -> string, slots: set<Slot>, entries: set<string>, s: Slot)
    requires OneToOne(keyOf, slots, entries) && keyOf(s) !in entries
    ensures OneToOne(keyOf, slots + {s}, entries + {keyOf(s)})
  {
  }

  lemma TallyDrop(counters: map<IssueType, int>, total: int, slots: set<Slot>, s: Slot)
    requires Tally(counters, total, slots) && s in slots
    ensures Tally(counters[s.issueType := counters[s.issueType] - 1], total - 1, slots - {s})
    ensures counters[s.issueType := counters[s.issueType] - 1].Keys == counters.Keys
  {
    forall t | t in counters { OneFewer(slots, s, t); }
  }

  lemma OneFewer(slots: set<Slot>, s: Slot, t: IssueType)
    requires s in slots
    ensures |OfType(slots - {s}, t)| == |OfType(slots, t)| - if s.issueType == t then 1 else 0
  {
    if s.issueType == t {
      assert OfType(slots - {s}, t) == OfType(slots, t) - {s};
    } else {
      assert OfType(slots - {s}, t) == OfType(slots, t);
    }
  }

  /** Part-way through: what is left to look at, what is kept, what is dropped and which entries it used. */
  datatype Progress = Progress(todo: set<Slot>, kept: set<Slot>, dropped: set<Slot>, stale: set<string>)

  ghost predicate Sound(p: Progress, before: set<Slot>, baseline: set<string>, keyOf: Slot -> string) {
    && p.todo !! p.kept
    && p.todo + p.kept == before - p.dropped && p.dropped <= before
    && p.stale <= baseline && OneToOne(keyOf, p.dropped, baseline - p.stale)
    && forall s | s in p.kept :: keyOf(s) !in p.stale
  }

  /** The findings that still count. */
  function Rest(p: Progress): set<Slot> { p.todo + p.kept }

  function Dropping(p: Progress, s: Slot, key: string): Progress {
    Progress(p.todo - {s}, p.kept, p.dropped + {s}, p.stale - {key})
  }

  function Keeping(p: Progress, s: Slot): Progress {
    Progress(p.todo - {s}, p.kept + {s}, p.dropped, p.stale)
  }

  lemma DropIsSound(p: Progress, before: set<Slot>, baseline: set<string>, keyOf: Slot -> string, s: Slot)
    requires Sound(p, before, baseline, keyOf) && s in p.todo && keyOf(s) in p.stale
    ensures Sound(Dropping(p, s, keyOf(s)), before, baseline, keyOf)
    ensures Rest(Dropping(p, s, keyOf(s))) == Rest(p) - {s}
  {
    OneMorePair(keyOf, p.dropped, baseline - p.stale, s);
    assert (baseline - p.stale) + {keyOf(s)} == baseline - (p.stale - {keyOf(s)});
  }

  lemma KeepIsSound(p: Progress, before: set<Slot>, baseline: set<string>, keyOf: Slot -> string, s: Slot)
    requires Sound(p, before, baseline, keyOf) && s in p.todo && keyOf(s) !in p.stale
    ensures Sound(Keeping(p, s), before, baseline, keyOf)
    ensures Rest(Keeping(p, s)) == Rest(p)
  {
  }

  /** After one finding: dropped if its key is still in the baseline, else kept. */
  function Stepped(p: Progress, keyOf: Slot -> string, s: Slot): Progress {
    if keyOf(s) in p.stale then Dropping(p, s, keyOf(s)) else Keeping(p, s)
  }

  lemma StepIsSound(p: Progress, before: set<Slot>, baseline: set<string>, keyOf: Slot -> string, s: Slot)
    requires Sound(p, before, baseline, keyOf) && s in p.todo
    ensures Sound(Stepped(p, keyOf, s), before, baseline, keyOf)
    ensures Rest(Stepped(p, keyOf, s)) == if keyOf(s) in p.stale then Rest(p) - {s} else Rest(p)
  {
    if keyOf(s) in p.stale {
      DropIsSound(p, before, baseline, keyOf, s);
    } else {
      KeepIsSound(p, before, baseline, keyOf, s);
    }
  }

  /** Goes through the findings in whatever order they come, dropping those whose key an entry still has. */
  method DropMatched(report: Report, baseline: set<string>, keyOf: Slot -> string) returns (p: Progress)
    requires Tally(report.counters, report.total, report.issues)
    modifies report`counters, report`total
    ensures p.todo == {} && Sound(p, report.issues, baseline, keyOf)
    ensures report.counters.Keys == old(report.counters).Keys
    ensures Tally(report.counters, report.total, p.kept)
  {
    p := Progress(report.issues, {}, {}, baseline);
    assert Rest(p) == report.issues;
    while p.todo != {}
      invariant Sound(p, report.issues, baseline, keyOf)
      invariant report.counters.Keys == old(report.counters).Keys
      invariant Tally(report.counters, report.total, Rest(p))
      decreases |p.todo|
    {
      var s :| s in p.todo;
      p := Step(report, p, baseline, keyOf, s);
    }
    assert Rest(p) == p.kept;
  }

  /** One finding, discounted where it is dropped. */
  method Step(report: Report, p: Progress, ghost baseline: set<string>, keyOf: Slot -> string, s: Slot)
    returns (next: Progress)
    requires Sound(p, report.issues, baseline, keyOf) && s in p.todo && Tally(report.counters, report.total, Rest(p))
    modifies report`counters, report`total
    ensures Sound(next, report.issues, baseline, keyOf) && next.todo == p.todo - {s}
    ensures report.counters.Keys == old(report.counters).Keys
    ensures Tally(report.counters, report.total, Rest(next))
  {
    StepIsSound(p, report.issues, baseline, keyOf, s);
    if keyOf(s) in p.stale {
      report.Discount(s, Rest(p));
      next := Dropping(p, s, keyOf(s));
    } else {
      next := Keeping(p, s);
    }
  }

  /**
   * Drops every finding whose key is still in the baseline, in whatever order
   * the findings come, and returns the entries no finding used.
   */
  method ApplyBaseline(report: Report, baseline: set<string>, keyOf: Slot -> string)
    returns (stale: set<string>, ghost dropped: set<Slot>)
    requires Tally(report.counters, report.total, report.issues)
    modifies report
    ensures dropped <= old(report.issues) && report.issues == old(report.issues) - dropped
    ensures stale <= baseline && OneToOne(keyOf, dropped, baseline - stale)
    ensures forall s | s in report.issues :: keyOf(s) !in stale
    ensures report.counters.Keys == old(report.counters).Keys
    ensures forall t | t in report.counters ::
      report.counters[t] == |OfType(report.issues, t)| + if t == FILES then |stale| else 0
    ensures report.total == |report.issues| + |stale|
  {
    var p := DropMatched(report, baseline, keyOf);
    stale, dropped := p.stale, p.dropped;
    assert p.kept == report.issues - p.dropped;
    report.issues := p.kept;
    if stale != {} {
      report.Charge(|stale|);
    }
  }

  lemma {:induction false} PairsAreEqualInNumber(keyOf: Slot -> string, slots: set<Slot>, entries: set<string>)
    requires OneToOne(keyOf, slots, entries)
    ensures |slots| == |entries|
    decreases |slots|
  {
    if slots == {} {
      assert entries == {};
    } else {
      var s :| s in slots;
      forall e | e in entries - {keyOf(s)} ensures exists x | x in slots - {s} :: keyOf(x) == e {
        var x :| x in slots && keyOf(x) == e;
        assert x in slots - {s};
      }
      PairsAreEqualInNumber(keyOf, slots - {s}, entries - {keyOf(s)});
    }
  }

  /** Findings are conserved: what was reported is what is kept and what the used entries dropped. */
  lemma FindingsConserved(before: set<Slot>, after: set<Slot>, baseline: set<string>, stale: set<string>,
                          dropped: set<Slot>, keyOf: Slot -> string)
    requires dropped <= before && after == before - dropped
    requires stale <= baseline && OneToOne(keyOf, dropped, baseline - stale)
    ensures |before| == |after| + (|baseline| - |stale|)
  {
    PairsAreEqualInNumber(keyOf, dropped, baseline - stale);
    assert before == after + dropped;
    assert baseline == (baseline - stale) + stale;
  }

  /**
   * The total that decides knip's exit code is zero exactly when findings and
   * baseline entries match one to one, whatever order the findings came in and
   * even where two findings share a key.
   */
  lemma ZeroIffOneToOne(before: set<Slot>, after: set<Slot>, baseline: set<string>, stale: set<string>,
                        dropped: set<Slot>, keyOf: Slot -> string)
    requires dropped <= before && after == before - dropped
    requires stale <= baseline && OneToOne(keyOf, dropped, baseline - stale)
    requires forall s | s in after :: keyOf(s) !in stale
    ensures |after| + |stale| == 0 <==> OneToOne(keyOf, before, baseline)
  {
    if |after| + |stale| == 0 {
      assert before == dropped && baseline - stale == baseline;
    }
    if OneToOne(keyOf, before, baseline) {
      KeptWouldShareAKey(before, after, baseline, stale, dropped, keyOf);
      PairsAreEqualInNumber(keyOf, before, baseline);
      FindingsConserved(before, after, baseline, stale, dropped, keyOf);
    }
  }

  lemma KeptWouldShareAKey(before: set<Slot>, after: set<Slot>, baseline: set<string>, stale: set<string>,
                           dropped: set<Slot>, keyOf: Slot -> string)
    requires dropped <= before && after == before - dropped
    requires stale <= baseline && OneToOne(keyOf, dropped, baseline - stale)
    requires forall s | s in after :: keyOf(s) !in stale
    requires OneToOne(keyOf, before, baseline)
    ensures after == {}
  {
    forall s | s in before ensures s in dropped {
      if keyOf(s) !in stale {
        assert keyOf(s) in baseline - stale;
        var d :| d in dropped && keyOf(d) == keyOf(s);
      }
    }
  }
}
