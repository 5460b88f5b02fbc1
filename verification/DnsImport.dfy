/**
 * infra/tools/import-dns.py: the TXT quoting that survives the provider's own
 * quotes, and the grouping of exported records into record sets.
 *
 * A TXT record set's value is read as section 3.3.14 and section 5.1 of RFC
 * 1035 have it: adjacent character-strings in double quotes, blanks between.
 */
module DnsImport {
  import opened Common
  import Decimal

  const TXT_CHUNK: nat := 255

  // ---- TXT values ----

  function Chunks(value: string): seq<string>
    decreases |value|
  {
    if |value| <= TXT_CHUNK then [value] else [value[..TXT_CHUNK]] + Chunks(value[TXT_CHUNK..])
  }

  function JoinQuoted(chunks: seq<string>): string
    requires chunks != []
  {
    if |chunks| == 1 then chunks[0] else chunks[0] + ("\" \"" + JoinQuoted(chunks[1..]))
  }

  lemma ChunksNonEmpty(value: string)
    ensures Chunks(value) != []
  {
  }

  /** A short value as it is; a long one closed and reopened every 255 characters. */
  function QuoteTxt(value: string): string {
    if |value| <= TXT_CHUNK then value
    else
      ChunksNonEmpty(value);
      JoinQuoted(Chunks(value))
  }

  /** The provider wraps every value in quotes. */
  function Provided(value: string): string {
    "\"" + (QuoteTxt(value) + "\"")
  }

  /** How far the text runs before a quote or a backslash. */
  function Unquoted(s: string): (n: nat)
    ensures n <= |s|
  {
    if s == [] || s[0] == '\"' || s[0] == '\\' then 0 else 1 + Unquoted(s[1..])
  }

  function Blanks(s: string): (n: nat)
    ensures n <= |s|
  {
    if s == [] || s[0] != ' ' then 0 else 1 + Blanks(s[1..])
  }

  /** The character-strings of a record's text, without escapes. */
  function ParseStrings(s: string): Option<seq<string>>
    decreases |s|
  {
    if s == [] || s[0] != '\"' then None
    else
      var n := Unquoted(s[1..]);
      if n + 1 == |s| || s[n + 1] != '\"' then None
      else
        var rest := s[n + 2..];
        var b := Blanks(rest);
        if rest == [] then Some([s[1..n + 1]])
        else if b == 0 then None
        else
          var more := ParseStrings(rest[b..]);
          if more.None? then None else Some([s[1..n + 1]] + more.value)
  }

  predicate Quotable(v: string) {
    forall i | 0 <= i < |v| :: v[i] != '\"' && v[i] != '\\'
  }

  function Concat(pieces: seq<string>): string {
    if pieces == [] then [] else pieces[0] + Concat(pieces[1..])
  }

  lemma {:induction false} UnquotedOf(p: string, rest: string)
    requires Quotable(p) && rest != [] && rest[0] == '\"'
    ensures Unquoted(p + rest) == |p|
  {
    if p == [] {
      assert p + rest == rest;
    } else {
      assert (p + rest)[1..] == p[1..] + rest;
      UnquotedOf(p[1..], rest);
    }
  }

  /** One string is read up to its closing quote, with whatever follows left to read. */
  lemma StringParses(c: string, rest: string)
    requires Quotable(c)
    ensures ParseStrings("\"" + (c + ("\"" + rest))) ==
      if rest == [] then Some([c])
      else if Blanks(rest) == 0 then None
      else var more := ParseStrings(rest[Blanks(rest)..]); if more.None? then None else Some([c] + more.value)
  {
    var after := "\"" + rest;
    var s := "\"" + (c + after);
    assert s[1..] == c + after;
    UnquotedOf(c, after);
    assert s[1..|c| + 1] == c && s[|c| + 1] == '\"' && s[|c| + 2..] == rest;
  }

  lemma {:induction false} JoinedParses(chunks: seq<string>)
    requires chunks != [] && forall i | 0 <= i < |chunks| :: Quotable(chunks[i])
    ensures ParseStrings("\"" + (JoinQuoted(chunks) + "\"")) == Some(chunks)
    decreases |chunks|
  {
    var c := chunks[0];
    if |chunks| == 1 {
      StringParses(c, "");
      assert c + "\"" == c + ("\"" + "") && chunks == [c];
    } else {
      var next := "\"" + (JoinQuoted(chunks[1..]) + "\"");
      assert JoinQuoted(chunks) + "\"" == c + ("\"" + (" " + next));
      JoinedParses(chunks[1..]);
      StringThenRest(c, next, chunks[1..]);
      assert chunks == [c] + chunks[1..];
    }
  }

  /** One string, a blank, and strings that parse. */
  lemma StringThenRest(c: string, next: string, more: seq<string>)
    requires Quotable(c) && next != [] && next[0] == '\"' && ParseStrings(next) == Some(more)
    ensures ParseStrings("\"" + (c + ("\"" + (" " + next)))) == Some([c] + more)
  {
    var rest := " " + next;
    StringParses(c, rest);
    assert rest[1..] == next;
    assert Blanks(next) == 0 && Blanks(rest) == 1;
  }

  /** Pieces of 255 characters, the last one at most that. */
  predicate Pieces(pieces: seq<string>) {
    forall i | 0 <= i < |pieces| :: if i < |pieces| - 1 then |pieces[i]| == 255 else |pieces[i]| <= 255
  }

  lemma {:induction false} ChunksCover(v: string)
    requires Quotable(v)
    ensures Concat(Chunks(v)) == v
    ensures forall i | 0 <= i < |Chunks(v)| :: Quotable(Chunks(v)[i])
    ensures Pieces(Chunks(v))
    decreases |v|
  {
    if |v| <= TXT_CHUNK {
      assert [v][1..] == [];
    } else {
      ChunksCover(v[TXT_CHUNK..]);
      assert Chunks(v)[1..] == Chunks(v[TXT_CHUNK..]);
      assert v == v[..TXT_CHUNK] + v[TXT_CHUNK..];
    }
  }

  /**
   * A value without quotes or backslashes, once the provider has wrapped it,
   * parses as strings of at most 255 characters that concatenate back to it.
   */
  lemma TxtRoundTrip(v: string)
    requires Quotable(v)
    ensures var parsed := ParseStrings(Provided(v));
      parsed.Some? && Concat(parsed.value) == v && Pieces(parsed.value)
  {
    ChunksNonEmpty(v);
    ChunksCover(v);
    JoinedParses(Chunks(v));
  }

  // ---- The limit is in bytes; the script counts characters ----

  function Utf8Size(v: string): (n: nat)
    ensures n >= |v|
  {
    if v == [] then 0
    else (if v[0] as int < 0x80 then 1 else if v[0] as int < 0x800 then 2 else if v[0] as int < 0x10000 then 3 else 4)
         + Utf8Size(v[1..])
  }

  predicate Ascii(v: string) {
    forall i | 0 <= i < |v| :: v[i] as int < 0x80
  }

  lemma {:induction false} SizeOfAscii(v: string)
    ensures Utf8Size(v) == |v| <==> Ascii(v)
  {
    if v != [] {
      SizeOfAscii(v[1..]);
      assert v == [v[0]] + v[1..];
    }
  }

  /** The length of everything but the last chunk. */
  function FullChunks(v: string): (n: nat)
    ensures n <= |v|
    decreases |v|
  {
    if |v| <= TXT_CHUNK then 0 else TXT_CHUNK + FullChunks(v[TXT_CHUNK..])
  }

  /** Every piece is at most 255 bytes of UTF-8. */
  predicate AllFit(pieces: seq<string>) {
    forall i | 0 <= i < |pieces| :: Utf8Size(pieces[i]) <= 255
  }

  lemma AllFitCons(head: string, rest: seq<string>)
    ensures AllFit([head] + rest) <==> Utf8Size(head) <= 255 && AllFit(rest)
  {
    var all := [head] + rest;
    assert all[0] == head && forall i | 0 <= i < |rest| :: all[i + 1] == rest[i];
    assert forall i | 0 < i < |all| :: all[i] == rest[i - 1];
  }

  lemma AsciiConcat(a: string, b: string)
    ensures Ascii(a + b) <==> Ascii(a) && Ascii(b)
  {
    assert forall i | 0 <= i < |a| :: (a + b)[i] == a[i];
    assert forall i | 0 <= i < |b| :: (a + b)[|a| + i] == b[i];
  }

  /**
   * Every piece fits the 255-byte limit exactly when all but the last chunk is
   * ASCII and the last chunk is at most 255 bytes of UTF-8.
   */
  lemma {:induction false} PiecesFitInBytes(v: string)
    ensures AllFit(Chunks(v)) <==> Ascii(v[..FullChunks(v)]) && Utf8Size(v[FullChunks(v)..]) <= 255
    decreases |v|
  {
    if |v| <= TXT_CHUNK {
      assert v[0..] == v && Chunks(v)[0] == v;
    } else {
      var head, rest := v[..TXT_CHUNK], v[TXT_CHUNK..];
      var n := FullChunks(rest);
      PiecesFitInBytes(rest);
      SizeOfAscii(head);
      AllFitCons(head, Chunks(rest));
      assert v[..TXT_CHUNK + n] == head + rest[..n] && v[TXT_CHUNK + n..] == rest[n..];
      AsciiConcat(head, rest[..n]);
    }
  }

  /** A value the script passes through as it is, and that is over the limit in bytes. */
  lemma ShortValueOverLimit()
    ensures exists v: string :: Quotable(v) && |v| <= TXT_CHUNK && QuoteTxt(v) == v && Utf8Size(v) > 255
  {
    var v := seq(200, i => '\U{E9}');
    SizeAtLeast(v);
    assert Quotable(v) && QuoteTxt(v) == v;
  }

  lemma {:induction false} SizeAtLeast(v: string)
    requires forall i | 0 <= i < |v| :: v[i] as int >= 0x80
    ensures Utf8Size(v) >= 2 * |v|
  {
    if v != [] { SizeAtLeast(v[1..]); }
  }

  // ---- Grouping ----

  datatype Record = Record(rtype: string, name: string, value: string, ttl: Option<nat>, mxPriority: Option<int>)

  datatype RecordSet = RecordSet(name: string, rtype: string, ttl: nat, records: seq<string>)

  const HOSTING_TYPES: set<string> := {"ALIAS", "A", "AAAA"}
  const REWRITTEN_TYPES: set<string> := {"CAA"}

  predicate Carried(r: Record) {
    r.rtype !in HOSTING_TYPES && r.rtype !in REWRITTEN_TYPES && r.name != "*"
  }

  function Shown(name: string): string { if name == "" then "@" else name }

  function KeyOf(r: Record): string { Shown(r.name) + ("|" + r.rtype) }

  /** An absent TTL and a TTL of zero both mean 300. */
  function TtlOf(r: Record): nat {
    if r.ttl.None? || r.ttl.value == 0 then 300 else r.ttl.value
  }

  function Signed(n: int): string { if n < 0 then "-" + Decimal.Text(-n) else Decimal.Text(n) }

  function ValueOf(r: Record): string {
    if r.rtype == "MX" then Signed(r.mxPriority.GetOr(10)) + " " + r.value
    else if r.rtype == "TXT" then QuoteTxt(r.value)
    else r.value
  }

  /** The carried records of one set, in input order. */
  function SetOf(rs: seq<Record>, key: string): seq<Record> {
    if rs == [] then []
    else
      var r := rs[|rs| - 1];
      SetOf(rs[..|rs| - 1], key) + (if Carried(r) && KeyOf(r) == key then [r] else [])
  }

  function ValuesOf(rs: seq<Record>): seq<string> {
    if rs == [] then [] else ValuesOf(rs[..|rs| - 1]) + [ValueOf(rs[|rs| - 1])]
  }

  function SkippedOf(rs: seq<Record>): seq<string> {
    if rs == [] then []
    else
      var r := rs[|rs| - 1];
      SkippedOf(rs[..|rs| - 1]) + (if Carried(r) then [] else [r.rtype + " " + Shown(r.name)])
  }

  ghost predicate IsMinimum(ttl: nat, rs: seq<Record>) {
    (exists r | r in rs :: TtlOf(r) == ttl) && forall r | r in rs :: ttl <= TtlOf(r)
  }

  /** A set is its records' values in input order, under their smallest TTL. */
  ghost predicate Groups(s: RecordSet, rs: seq<Record>) {
    && rs != []
    && s.name == rs[0].name && s.rtype == rs[0].rtype
    && s.records == ValuesOf(rs)
    && IsMinimum(s.ttl, rs)
  }

  /** The sets are exactly the non-empty ones, each as its records make it. */
  ghost predicate Grouped(grouped: map<string, RecordSet>, rs: seq<Record>) {
    forall key :: if key in grouped then Groups(grouped[key], SetOf(rs, key)) else SetOf(rs, key) == []
  }

  /** `entry` with one more record. */
  function Extended(entry: RecordSet, r: Record): RecordSet {
    entry.(records := entry.records + [ValueOf(r)], ttl := if TtlOf(r) < entry.ttl then TtlOf(r) else entry.ttl)
  }

  lemma GroupGrows(rs: seq<Record>, entry: RecordSet, r: Record)
    requires if rs == [] then entry == RecordSet(r.name, r.rtype, TtlOf(r), []) else Groups(entry, rs)
    ensures Groups(Extended(entry, r), rs + [r])
  {
  }

  lemma SetGrows(done: seq<Record>, r: Record, key: string)
    ensures SetOf(done + [r], key) == if Carried(r) && KeyOf(r) == key then SetOf(done, key) + [r] else SetOf(done, key)
    ensures SkippedOf(done + [r]) ==
      if Carried(r) then SkippedOf(done) else SkippedOf(done) + [r.rtype + " " + Shown(r.name)]
  {
  }

  /** Reading one more record, carried or skipped, regroups everything read so far. */
  lemma GroupedGrows(grouped: map<string, RecordSet>, done: seq<Record>, r: Record, entry: RecordSet)
    requires Grouped(grouped, done)
    requires entry == if KeyOf(r) in grouped then grouped[KeyOf(r)] else RecordSet(r.name, r.rtype, TtlOf(r), [])
    ensures Grouped(if Carried(r) then grouped[KeyOf(r) := Extended(entry, r)] else grouped, done + [r])
  {
    forall key: string
      ensures var after := if Carried(r) then grouped[KeyOf(r) := Extended(entry, r)] else grouped;
        if key in after then Groups(after[key], SetOf(done + [r], key)) else SetOf(done + [r], key) == []
    {
      SetGrows(done, r, key);
      if Carried(r) && key == KeyOf(r) { GroupGrows(SetOf(done, key), entry, r); }
    }
  }

  method GroupRecords(rs: seq<Record>) returns (grouped: map<string, RecordSet>, skipped: seq<string>)
    ensures Grouped(grouped, rs)
    ensures skipped == SkippedOf(rs)
    ensures Total(grouped, grouped.Keys) + |skipped| == |rs|
  {
    grouped, skipped := map[], [];
    for i := 0 to |rs|
      invariant Grouped(grouped, rs[..i])
      invariant skipped == SkippedOf(rs[..i])
    {
      var r := rs[i];
      ghost var done := rs[..i];
      assert rs[..i + 1] == done + [r];
      var key := KeyOf(r);
      var entry := if key in grouped then grouped[key] else RecordSet(r.name, r.rtype, TtlOf(r), []);
      SetGrows(done, r, key);
      GroupedGrows(grouped, done, r, entry);
      ghost var next := if Carried(r) then grouped[key := Extended(entry, r)] else grouped;
      if r.rtype in HOSTING_TYPES || r.rtype in REWRITTEN_TYPES || r.name == "*" {
        skipped := skipped + [r.rtype + " " + (if r.name == "" then "@" else r.name)];
        assert grouped == next;
        continue;
      }
      var value := r.value;
      if r.rtype == "MX" {
        value := Signed(r.mxPriority.GetOr(10)) + " " + value;
      } else if r.rtype == "TXT" {
        value := QuoteTxt(value);
      }
      var ttl := if TtlOf(r) < entry.ttl then TtlOf(r) else entry.ttl;
      entry := entry.(records := entry.records + [value], ttl := ttl);
      grouped := grouped[key := entry];
      assert grouped == next;
    }
    assert rs[..|rs|] == rs;
    EveryRecordIsCarriedOrSkipped(rs, grouped);
  }

  lemma TtlIsOrderFree(a: seq<Record>, b: seq<Record>, s: nat, t: nat)
    requires multiset(a) == multiset(b) && IsMinimum(s, a) && IsMinimum(t, b)
    ensures s == t
  {
    forall r ensures r in a <==> r in b {
      assert r in a <==> r in multiset(a);
      assert r in b <==> r in multiset(b);
    }
  }

  /** A set holds each record as often as the input does. */
  lemma {:induction false} SetOfCounts(rs: seq<Record>, key: string, r: Record)
    ensures multiset(SetOf(rs, key))[r] == if Carried(r) && KeyOf(r) == key then multiset(rs)[r] else 0
    decreases |rs|
  {
    if rs != [] {
      var n := |rs| - 1;
      var last := rs[n];
      SetOfCounts(rs[..n], key, r);
      assert rs == rs[..n] + [last];
      assert SetOf(rs, key) == SetOf(rs[..n], key) + if Carried(last) && KeyOf(last) == key then [last] else [];
    }
  }

  /** One set holds the same records, whatever the order of the input. */
  lemma SetIsOrderFree(a: seq<Record>, b: seq<Record>, key: string)
    requires multiset(a) == multiset(b)
    ensures multiset(SetOf(a, key)) == multiset(SetOf(b, key))
    ensures SetOf(a, key) == [] <==> SetOf(b, key) == []
  {
    forall r: Record ensures multiset(SetOf(a, key))[r] == multiset(SetOf(b, key))[r] {
      SetOfCounts(a, key, r);
      SetOfCounts(b, key, r);
    }
    assert |multiset(SetOf(a, key))| == |SetOf(a, key)| && |multiset(SetOf(b, key))| == |SetOf(b, key)|;
  }

  /** Grouping permuted records gives the same sets, of the same records, with the same TTLs. */
  lemma GroupingIsOrderFree(a: seq<Record>, b: seq<Record>, x: map<string, RecordSet>, y: map<string, RecordSet>)
    requires multiset(a) == multiset(b) && Grouped(x, a) && Grouped(y, b)
    ensures x.Keys == y.Keys
    ensures forall key | key in x :: x[key].ttl == y[key].ttl && multiset(SetOf(a, key)) == multiset(SetOf(b, key))
  {
    forall key: string ensures key in x <==> key in y {
      SetIsOrderFree(a, b, key);
    }
    forall key | key in x ensures x[key].ttl == y[key].ttl && multiset(SetOf(a, key)) == multiset(SetOf(b, key)) {
      SetIsOrderFree(a, b, key);
      TtlIsOrderFree(SetOf(a, key), SetOf(b, key), x[key].ttl, y[key].ttl);
    }
  }

  // ---- What the values of a set mean ----

  function FirstBlank(s: string): (n: nat)
    ensures n <= |s|
  {
    if s == [] || s[0] == ' ' then 0 else 1 + FirstBlank(s[1..])
  }

  function ReadSigned(s: string): Option<int> {
    if s == [] then None
    else if Decimal.AllDigits(s) then Some(Decimal.Number(s))
    else if s[0] == '-' && |s| > 1 && Decimal.AllDigits(s[1..]) then
      var n: int := Decimal.Number(s[1..]);
      Some(-n)
    else None
  }

  /** An MX value: the preference, a blank, the exchange (section 3.3.9 of RFC 1035). */
  predicate ReadsAsMx(value: string, preference: int, exchange: string) {
    var n := FirstBlank(value);
    n < |value| && ReadSigned(value[..n]) == Some(preference) && value[n + 1..] == exchange
  }

  /** What a record's value in its set stands for. */
  ghost predicate ValueMeans(value: string, r: Record) {
    if r.rtype == "MX" then ReadsAsMx(value, if r.mxPriority.Some? then r.mxPriority.value else 10, r.value)
    else if r.rtype == "TXT" then
      Quotable(r.value) ==>
        var parsed := ParseStrings("\"" + (value + "\""));
        parsed.Some? && Concat(parsed.value) == r.value && Pieces(parsed.value)
    else value == r.value
  }

  lemma {:induction false} FirstBlankAt(s: string, rest: string)
    requires forall i | 0 <= i < |s| :: s[i] != ' '
    ensures FirstBlank(s + (" " + rest)) == |s|
    decreases |s|
  {
    if s == [] {
      assert s + (" " + rest) == " " + rest;
    } else {
      assert (s + (" " + rest))[1..] == s[1..] + (" " + rest);
      FirstBlankAt(s[1..], rest);
    }
  }

  lemma SignedReads(n: int)
    ensures ReadSigned(Signed(n)) == Some(n) && forall i | 0 <= i < |Signed(n)| :: Signed(n)[i] != ' '
  {
    var digits := Decimal.Text(if n < 0 then -n else n);
    Decimal.TextReads(if n < 0 then -n else n);
    if n < 0 { assert Signed(n)[0] == '-' && Signed(n)[1..] == digits; }
  }

  lemma ValueOfMeans(r: Record)
    ensures ValueMeans(ValueOf(r), r)
  {
    if r.rtype == "MX" {
      var p := Signed(r.mxPriority.GetOr(10));
      SignedReads(r.mxPriority.GetOr(10));
      assert ValueOf(r) == p + (" " + r.value);
      FirstBlankAt(p, r.value);
      assert ValueOf(r)[..|p|] == p && ValueOf(r)[|p| + 1..] == r.value;
    } else if r.rtype == "TXT" && Quotable(r.value) {
      TxtRoundTrip(r.value);
    }
  }

  lemma {:induction false} ValuesAt(rs: seq<Record>, i: nat)
    requires i < |rs|
    ensures |ValuesOf(rs)| == |rs| && ValuesOf(rs)[i] == ValueOf(rs[i])
    decreases |rs|
  {
    var n := |rs| - 1;
    var last := ValueOf(rs[n]);
    ValuesLength(rs);
    ValuesLength(rs[..n]);
    assert ValuesOf(rs) == ValuesOf(rs[..n]) + [last];
    if i < n { ValuesAt(rs[..n], i); }
  }

  /** The records the stack takes over or leaves behind: hosting, certificate policy and the wildcard. */
  predicate LeftBehind(r: Record) {
    r.rtype in ["ALIAS", "A", "AAAA", "CAA"] || r.name == "*"
  }

  /**
   * A set read back: its i-th value stands for its i-th record, a record of the
   * input under the set's key that is not left behind; its TTL is positive, that
   * of one of its records or 300 for one without, and no record's is smaller.
   */
  lemma SetReadsBack(grouped: map<string, RecordSet>, rs: seq<Record>, key: string, i: nat)
    requires Grouped(grouped, rs) && key in grouped && i < |SetOf(rs, key)|
    ensures var s, r := grouped[key], SetOf(rs, key)[i];
      && r in rs && KeyOf(r) == key && !LeftBehind(r)
      && |s.records| == |SetOf(rs, key)| && ValueMeans(s.records[i], r)
      && 0 < s.ttl <= (if r.ttl.Some? && r.ttl.value > 0 then r.ttl.value else 300)
      && exists x | x in rs :: KeyOf(x) == key && GivesTtl(x, s.ttl)
  {
    var s, own := grouped[key], SetOf(rs, key);
    assert Groups(s, own);
    ValuesAt(own, i);
    ValueOfMeans(own[i]);
    InItsSet(rs, key, own[i]);
    TtlMeans(s.ttl, own, own[i]);
    var x :| x in own && GivesTtl(x, s.ttl);
    InItsSet(rs, key, x);
  }

  /** The record has this TTL, or none and this is the default. */
  predicate GivesTtl(r: Record, ttl: nat) {
    r.ttl == Some(ttl) || (ttl == 300 && (r.ttl.None? || r.ttl.value == 0))
  }

  lemma TtlMeans(ttl: nat, rs: seq<Record>, r: Record)
    requires IsMinimum(ttl, rs) && r in rs
    ensures 0 < ttl <= (if r.ttl.Some? && r.ttl.value > 0 then r.ttl.value else 300)
    ensures exists x | x in rs :: GivesTtl(x, ttl)
  {
    var x :| x in rs && TtlOf(x) == ttl;
    assert GivesTtl(x, ttl) && ttl <= TtlOf(r);
  }

  /** What is skipped: the type and the shown name of every record left behind, and of no other. */
  lemma {:induction false} SkippedAre(rs: seq<Record>, text: string)
    ensures text in SkippedOf(rs) <==>
      exists r | r in rs :: LeftBehind(r) && text == r.rtype + " " + (if r.name == "" then "@" else r.name)
    decreases |rs|
  {
    if rs != [] {
      var last := rs[|rs| - 1];
      SkippedAre(rs[..|rs| - 1], text);
      assert forall r :: r in rs <==> r in rs[..|rs| - 1] || r == last;
    }
  }

  lemma {:induction false} InItsSet(rs: seq<Record>, key: string, r: Record)
    ensures r in SetOf(rs, key) <==> r in rs && KeyOf(r) == key && !LeftBehind(r)
    decreases |rs|
  {
    if rs != [] {
      InItsSet(rs[..|rs| - 1], key, r);
      assert r in rs <==> r in rs[..|rs| - 1] || r == rs[|rs| - 1];
    }
  }

  predicate NoBar(s: string) { forall i | 0 <= i < |s| :: s[i] != '|' }

  /** What follows the last bar tells where it stands. */
  lemma LastBar(a: string, x: string, b: string, y: string)
    requires NoBar(x) && NoBar(y) && a + ("|" + x) == b + ("|" + y)
    ensures |a| == |b|
  {
    var k := a + ("|" + x);
    assert k[|a|] == '|' && k[|b|] == '|';
    assert forall i | |a| < i < |k| :: k[i] == x[i - |a| - 1];
    assert forall i | |b| < i < |k| :: k[i] == y[i - |b| - 1];
  }

  predicate SameName(a: string, b: string) { a == b || (a in ["", "@"] && b in ["", "@"]) }

  /** Records share a set exactly when they share a type and a name, "" and "@" being one name. */
  lemma KeyDeterminesSet(a: Record, b: Record)
    requires NoBar(a.rtype) && NoBar(b.rtype)
    ensures KeyOf(a) == KeyOf(b) <==> a.rtype == b.rtype && SameName(a.name, b.name)
  {
    if KeyOf(a) == KeyOf(b) {
      LastBar(Shown(a.name), a.rtype, Shown(b.name), b.rtype);
      var n := |Shown(a.name)|;
      assert Shown(a.name) == KeyOf(a)[..n] && a.rtype == KeyOf(a)[n + 1..];
      assert Shown(b.name) == KeyOf(b)[..n] && b.rtype == KeyOf(b)[n + 1..];
    }
  }

  ghost function Pick(keys: set<string>): (key: string)
    requires keys != {}
    ensures key in keys
  {
    var key :| key in keys;
    key
  }

  /** The sizes of the sets named by `keys`, added up. */
  ghost function SumOf(rs: seq<Record>, keys: set<string>): nat
    decreases |keys|
  {
    if keys == {} then 0
    else
      var key := Pick(keys);
      |SetOf(rs, key)| + SumOf(rs, keys - {key})
  }

  lemma {:induction false} SumGrows(rs: seq<Record>, keys: set<string>)
    requires rs != []
    ensures SumOf(rs, keys) == SumOf(rs[..|rs| - 1], keys)
      + if Carried(rs[|rs| - 1]) && KeyOf(rs[|rs| - 1]) in keys then 1 else 0
    decreases |keys|
  {
    if keys != {} {
      SumGrows(rs, keys - {Pick(keys)});
    }
  }

  /** The values of the sets named by `keys`, counted. */
  ghost function Total(grouped: map<string, RecordSet>, keys: set<string>): nat
    requires keys <= grouped.Keys
    decreases |keys|
  {
    if keys == {} then 0
    else
      var key := Pick(keys);
      |grouped[key].records| + Total(grouped, keys - {key})
  }

  lemma {:induction false} ValuesLength(rs: seq<Record>)
    ensures |ValuesOf(rs)| == |rs|
    decreases |rs|
  {
    if rs != [] { ValuesLength(rs[..|rs| - 1]); }
  }

  lemma {:induction false} TotalIsSum(grouped: map<string, RecordSet>, rs: seq<Record>, keys: set<string>)
    requires Grouped(grouped, rs) && keys <= grouped.Keys
    ensures Total(grouped, keys) == SumOf(rs, keys)
    decreases |keys|
  {
    if keys != {} {
      var key := Pick(keys);
      assert Groups(grouped[key], SetOf(rs, key));
      ValuesLength(SetOf(rs, key));
      TotalIsSum(grouped, rs, keys - {key});
    }
  }

  lemma {:induction false} CarriedIsInItsSet(rs: seq<Record>, r: Record)
    requires r in rs && Carried(r)
    ensures r in SetOf(rs, KeyOf(r))
    decreases |rs|
  {
    if r != rs[|rs| - 1] { CarriedIsInItsSet(rs[..|rs| - 1], r); }
  }

  lemma {:induction false} SumIsAll(rs: seq<Record>, keys: set<string>)
    requires forall r | r in rs && Carried(r) :: KeyOf(r) in keys
    ensures SumOf(rs, keys) + |SkippedOf(rs)| == |rs|
    decreases |rs|
  {
    if rs == [] {
      NothingToSum(keys);
    } else {
      var rest := rs[..|rs| - 1];
      assert forall r | r in rest :: r in rs;
      SumIsAll(rest, keys);
      SumGrows(rs, keys);
      assert rs[|rs| - 1] in rs;
    }
  }

  /** Every record is carried into exactly one set or skipped: the values of the sets and the skipped ones add up. */
  lemma EveryRecordIsCarriedOrSkipped(rs: seq<Record>, grouped: map<string, RecordSet>)
    requires Grouped(grouped, rs)
    ensures Total(grouped, grouped.Keys) + |SkippedOf(rs)| == |rs|
  {
    forall r | r in rs && Carried(r) ensures KeyOf(r) in grouped.Keys { CarriedIsInItsSet(rs, r); }
    SumIsAll(rs, grouped.Keys);
    TotalIsSum(grouped, rs, grouped.Keys);
  }

  lemma {:induction false} NothingToSum(keys: set<string>)
    ensures SumOf([], keys) == 0
    decreases |keys|
  {
    if keys != {} {
      NothingToSum(keys - {Pick(keys)});
    }
  }
}
