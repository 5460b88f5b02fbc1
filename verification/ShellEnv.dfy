/**
 * `shellQuote` and `renderEnvFile` of build-env.ts, against a reader for the
 * part of the POSIX shell grammar the file uses: sections 2.2.1 (escape
 * character) and 2.2.2 (single quotes) of the Shell Command Language in
 * POSIX.1-2017.
 */
module ShellEnv {
  import opened Common

  datatype Binding = Binding(key: string, value: string)

  // ---- The writer ----

  function QuoteBody(v: string): string {
    if v == [] then []
    else (if v[0] == '\'' then "'\\''" else [v[0]]) + QuoteBody(v[1..])
  }

  function ShellQuote(v: string): string {
    "'" + (QuoteBody(v) + "'")
  }

  function Line(b: Binding): string {
    b.key + "=" + ShellQuote(b.value)
  }

  function JoinLines(lines: seq<string>): string {
    if lines == [] then ""
    else if |lines| == 1 then lines[0]
    else lines[0] + "\n" + JoinLines(lines[1..])
  }

  function RenderEnvFile(bs: seq<Binding>): string {
    JoinLines(seq(|bs|, i requires 0 <= i < |bs| => Line(bs[i]))) + "\n"
  }

  // ---- The reader ----

  predicate NameStart(c: char) { 'A' <= c <= 'Z' || 'a' <= c <= 'z' || c == '_' }

  predicate NameChar(c: char) { NameStart(c) || '0' <= c <= '9' }

  predicate IsName(k: string) {
    k != [] && NameStart(k[0]) && forall i | 0 <= i < |k| :: NameChar(k[i])
  }

  /** A value the environment can hold: no NUL. */
  predicate Storable(v: string) {
    forall i | 0 <= i < |v| :: v[i] as int != 0
  }

  /** A character with no meaning of its own outside quotes, a conservative choice. */
  predicate Plain(c: char) {
    NameChar(c) || c == '.' || c == '/' || c == ':' || c == '-' || c == '@' || c == '%' || c == ','
  }

  /** What remains of the text once a word has been read. */
  datatype Word = Word(text: string, rest: string)

  /**
   * Reads the rest of a word. Between single quotes every character but the
   * quote is itself; outside them a backslash keeps the next character, and an
   * unquoted newline (or the end) ends the word. Anything else that is special
   * is not an assignment this reader accepts.
   */
  function ReadWord(s: string, quoted: bool): Option<Word> {
    if s == [] then if quoted then None else Some(Word([], []))
    else if s[0] as int == 0 then None
    else if quoted then
      if s[0] == '\'' then ReadWord(s[1..], false) else Keep(s[0], ReadWord(s[1..], true))
    else if s[0] == '\'' then ReadWord(s[1..], true)
    else if s[0] == '\n' then Some(Word([], s))
    else if s[0] == '\\' then
      if |s| == 1 || s[1] as int == 0 then None
      else if s[1] == '\n' then ReadWord(s[2..], false)
      else Keep(s[1], ReadWord(s[2..], false))
    else if Plain(s[0]) then Keep(s[0], ReadWord(s[1..], false))
    else None
  }

  function Keep(c: char, w: Option<Word>): Option<Word> {
    if w.None? then None else Some(Word([c] + w.value.text, w.value.rest))
  }

  function NameLength(s: string): nat {
    if s == [] || !NameChar(s[0]) then 0 else 1 + NameLength(s[1..])
  }

  lemma NameLengthBound(s: string)
    ensures NameLength(s) <= |s|
  {
  }

  lemma ReadWordShrinks(s: string, quoted: bool)
    ensures ReadWord(s, quoted).Some? ==> |ReadWord(s, quoted).value.rest| <= |s|
  {
  }

  /** The assignments of a sourced file, in order; absent when a line is anything else. */
  function Source(s: string): Option<seq<Binding>>
    decreases |s|
  {
    if s == [] then Some([])
    else if s[0] == '\n' then Source(s[1..])
    else
      NameLengthBound(s);
      var n := NameLength(s);
      if n == |s| || !IsName(s[..n]) || s[n] != '=' then None
      else
        ReadWordShrinks(s[n + 1..], false);
        var w := ReadWord(s[n + 1..], false);
        if w.None? then None
        else
          var more := Source(w.value.rest);
          if more.None? then None else Some([Binding(s[..n], w.value.text)] + more.value)
  }

  // ---- Reading back what was written ----

  /** Closing the quotes, an escaped quote and reopening them read as one quote. */
  lemma EscapedQuoteReads(more: string)
    ensures ReadWord("'\\''" + more, true) == Keep('\'', ReadWord(more, true))
  {
    var s := "'\\''" + more;
    var reopened := "'" + more;
    assert s[1..][0] == '\\' && s[1..][1] == '\'';
    assert s[1..][2..] == reopened && reopened[1..] == more;
    assert ReadWord(reopened, false) == ReadWord(more, true);
    assert ReadWord(s[1..], false) == Keep('\'', ReadWord(s[1..][2..], false));
  }

  /** Inside quotes, a quoted body reads as the value it was made from. */
  lemma {:induction false} QuoteBodyReads(v: string, rest: string)
    requires Storable(v) && (rest == [] || rest[0] == '\n')
    ensures ReadWord(QuoteBody(v) + ("'" + rest), true) == Some(Word(v, rest))
  {
    var tail := "'" + rest;
    if v == [] {
      assert QuoteBody(v) + tail == tail && tail[1..] == rest;
    } else {
      var more := QuoteBody(v[1..]) + tail;
      QuoteBodyReads(v[1..], rest);
      assert v == [v[0]] + v[1..];
      if v[0] == '\'' {
        assert QuoteBody(v) + tail == "'\\''" + more;
        EscapedQuoteReads(more);
      } else {
        assert QuoteBody(v) + tail == [v[0]] + more;
        assert ([v[0]] + more)[1..] == more;
      }
    }
  }

  /** Quoting then reading gives the value back, whatever it holds but NUL. */
  lemma ShellQuoteReads(v: string, rest: string)
    requires Storable(v) && (rest == [] || rest[0] == '\n')
    ensures ReadWord(ShellQuote(v) + rest, false) == Some(Word(v, rest))
  {
    var body := QuoteBody(v) + ("'" + rest);
    assert ShellQuote(v) + rest == "'" + body;
    assert ("'" + body)[1..] == body;
    QuoteBodyReads(v, rest);
  }

  lemma {:induction false} NameLengthOf(k: string, rest: string)
    requires (forall i | 0 <= i < |k| :: NameChar(k[i])) && rest != [] && !NameChar(rest[0])
    ensures NameLength(k + rest) == |k|
  {
    if k == [] {
      assert k + rest == rest;
    } else {
      assert (k + rest)[1..] == k[1..] + rest;
      NameLengthOf(k[1..], rest);
    }
  }

  /** An assignment is read as its name and the word after the equals sign. */
  lemma AssignmentReads(key: string, value: string, w: Word)
    requires IsName(key) && ReadWord(value, false) == Some(w)
    ensures Source(key + ("=" + value))
         == var more := Source(w.rest); if more.None? then None else Some([Binding(key, w.text)] + more.value)
  {
    var s := key + ("=" + value);
    NameLengthOf(key, "=" + value);
    assert s[0] == key[0] && s[|key|] == '=';
    assert s[..|key|] == key;
    assert s[|key| + 1..] == value;
  }

  lemma LineReads(b: Binding, rest: string)
    requires IsName(b.key) && Storable(b.value) && (rest == [] || rest[0] == '\n')
    ensures Source(Line(b) + rest)
         == var more := Source(rest); if more.None? then None else Some([b] + more.value)
  {
    var value := ShellQuote(b.value) + rest;
    assert Line(b) + rest == b.key + ("=" + value);
    ShellQuoteReads(b.value, rest);
    AssignmentReads(b.key, value, Word(b.value, rest));
  }

  lemma {:induction false} JoinedReads(bs: seq<Binding>, lines: seq<string>)
    requires forall b | b in bs :: IsName(b.key) && Storable(b.value)
    requires |lines| == |bs| && forall i | 0 <= i < |bs| :: lines[i] == Line(bs[i])
    ensures Source(JoinLines(lines) + "\n") == Some(bs)
    decreases |bs|
  {
    if bs == [] {
      assert JoinLines(lines) + "\n" == "\n" && "\n"[1..] == "";
    } else if |bs| == 1 {
      LineReads(bs[0], "\n");
      assert "\n"[1..] == "" && bs == [bs[0]] + [];
    } else {
      var rest := JoinLines(lines[1..]) + "\n";
      assert JoinLines(lines) + "\n" == Line(bs[0]) + ("\n" + rest);
      LineReads(bs[0], "\n" + rest);
      assert ("\n" + rest)[1..] == rest;
      JoinedReads(bs[1..], lines[1..]);
      assert bs == [bs[0]] + bs[1..];
    }
  }

  /** Sourcing the rendered file gives exactly the bindings, in order. */
  lemma EnvFileRoundTrip(bs: seq<Binding>)
    requires forall b | b in bs :: IsName(b.key) && Storable(b.value)
    ensures Source(RenderEnvFile(bs)) == Some(bs)
  {
    JoinedReads(bs, seq(|bs|, i requires 0 <= i < |bs| => Line(bs[i])));
  }
}
