/**
 * `tapStream` of dev.ts: tee a stream to the terminal and ship its complete
 * lines, one buffer a stream, however the text is cut into chunks and however
 * the two streams' chunks interleave.
 */
module LineTap {
  datatype Stream = Stdout | Stderr

  function Other(s: Stream): Stream { if s.Stdout? then Stderr else Stdout }

  datatype Line = Line(stream: Stream, text: string)

  /** Something that happens on one of the two streams. */
  datatype Event = Data(stream: Stream, chunk: string) | End(stream: Stream)

  // ---- The lines of a text, without any notion of chunks ----

  function FirstNewline(s: string): (i: nat)
    ensures i <= |s|
  {
    if s == [] || s[0] == '\n' then 0 else 1 + FirstNewline(s[1..])
  }

  /** One trailing carriage return removed. */
  function StripCr(s: string): (r: string)
    ensures s == r + "\r" || (s == r && !(r != [] && r[|r| - 1] == '\r'))
  {
    if s != [] && s[|s| - 1] == '\r' then s[..|s| - 1] else s
  }

  /** The pieces of a text split at newlines; there is always a last one. */
  function Split(s: string): (pieces: seq<string>)
    ensures pieces != []
    decreases |s|
  {
    var i := FirstNewline(s);
    if i == |s| then [s] else [s[..i]] + Split(s[i + 1..])
  }

  function StripAll(pieces: seq<string>): seq<string> {
    if pieces == [] then [] else [StripCr(pieces[0])] + StripAll(pieces[1..])
  }

  lemma {:induction false} StripAllConcat(a: seq<string>, b: seq<string>)
    ensures StripAll(a + b) == StripAll(a) + StripAll(b)
  {
    if a == [] {
      assert a + b == b;
    } else {
      assert (a + b)[1..] == a[1..] + b;
      StripAllConcat(a[1..], b);
    }
  }

  /** Every piece but the last: the lines a newline has completed. */
  function Completed(s: string): seq<string> { StripAll(Split(s)[..|Split(s)| - 1]) }

  /** The last piece: what no newline has completed yet. */
  function Partial(s: string): string { Split(s)[|Split(s)| - 1] }

  /** The lines of a whole text: an empty last piece is no line. */
  function LinesOf(s: string): seq<string> {
    Completed(s) + (if Partial(s) == [] then [] else [StripCr(Partial(s))])
  }

  function Join(pieces: seq<string>): string {
    if pieces == [] then [] else if |pieces| == 1 then pieces[0] else pieces[0] + "\n" + Join(pieces[1..])
  }

  lemma {:induction false} FirstNewlineIsFirst(s: string)
    ensures '\n' !in s[..FirstNewline(s)] && (FirstNewline(s) < |s| ==> s[FirstNewline(s)] == '\n')
  {
    if s != [] && s[0] != '\n' {
      FirstNewlineIsFirst(s[1..]);
      assert s[..FirstNewline(s)] == [s[0]] + s[1..][..FirstNewline(s[1..])];
    }
  }

  /** Splitting loses nothing and leaves no newline in a piece. */
  lemma {:induction false} SplitIsExact(s: string)
    ensures Join(Split(s)) == s && forall p | p in Split(s) :: '\n' !in p
    decreases |s|
  {
    var i := FirstNewline(s);
    FirstNewlineIsFirst(s);
    assert s[..|s|] == s;
    if i < |s| {
      SplitIsExact(s[i + 1..]);
      assert Split(s)[1..] == Split(s[i + 1..]);
      assert s == s[..i] + "\n" + s[i + 1..];
    }
  }

  lemma {:induction false} NewlineSplits(p: string, rest: string)
    requires '\n' !in p
    ensures FirstNewline(p + "\n" + rest) == |p|
  {
    if p != [] {
      assert p[0] in p && forall c | c in p[1..] :: c in p;
      assert (p + "\n" + rest)[1..] == p[1..] + "\n" + rest;
      NewlineSplits(p[1..], rest);
    }
  }

  /** Text added to a stream completes the partial piece and continues from it. */
  lemma {:induction false} SplitExtends(s: string, t: string)
    ensures Split(s + t) == Split(s)[..|Split(s)| - 1] + Split(Partial(s) + t)
    decreases |s|
  {
    var i := FirstNewline(s);
    if i < |s| {
      FirstNewlineIsFirst(s);
      assert s + t == s[..i] + "\n" + (s[i + 1..] + t);
      NewlineSplits(s[..i], s[i + 1..] + t);
      assert (s + t)[..i] == s[..i] && (s + t)[i + 1..] == s[i + 1..] + t;
      SplitExtends(s[i + 1..], t);
    } else {
      assert Split(s)[..0] == [];
    }
  }

  lemma CompletedExtends(s: string, t: string)
    ensures Completed(s + t) == Completed(s) + Completed(Partial(s) + t)
    ensures Partial(s + t) == Partial(Partial(s) + t)
  {
    SplitExtends(s, t);
    var a, b := Split(s)[..|Split(s)| - 1], Split(Partial(s) + t);
    assert Split(s + t)[..|Split(s + t)| - 1] == a + b[..|b| - 1];
    StripAllConcat(a, b[..|b| - 1]);
  }

  /** Cutting at the first newline peels one completed line off. */
  lemma {:induction false} CompletedPeels(s: string)
    requires FirstNewline(s) < |s|
    ensures var i := FirstNewline(s);
      Completed(s) == [StripCr(s[..i])] + Completed(s[i + 1..]) && Partial(s) == Partial(s[i + 1..])
  {
    PeelFirst(s[..FirstNewline(s)], Split(s[FirstNewline(s) + 1..]));
  }

  lemma PeelFirst(first: string, rest: seq<string>)
    requires rest != []
    ensures var all := [first] + rest;
      && StripAll(all[..|all| - 1]) == [StripCr(first)] + StripAll(rest[..|rest| - 1])
      && all[|all| - 1] == rest[|rest| - 1]
  {
    var all := [first] + rest;
    assert all[..|all| - 1] == [first] + rest[..|rest| - 1];
    StripAllConcat([first], rest[..|rest| - 1]);
    assert StripAll([first]) == [StripCr(first)] + StripAll([]);
  }

  // ---- What a session should ship ----

  /** The text one stream carried. */
  function TextOf(events: seq<Event>, stream: Stream): string {
    if events == [] then []
    else
      var last := events[|events| - 1];
      TextOf(events[..|events| - 1], stream) + (if last.Data? && last.stream == stream then last.chunk else [])
  }

  predicate Ended(events: seq<Event>, stream: Stream) { End(stream) in events }

  /** A stream ends at most once and carries nothing after it ends. */
  predicate Ordered(events: seq<Event>) {
    forall i, j | 0 <= i < j < |events| && events[i].End? :: events[j].stream != events[i].stream
  }

  /** The lines of the whole text of an ended stream; the completed lines of an open one. */
  function Expected(events: seq<Event>, stream: Stream): seq<string> {
    var text := TextOf(events, stream);
    if Ended(events, stream) then LinesOf(text) else Completed(text)
  }

  lemma OneMore(past: seq<Event>, e: Event, s: Stream)
    ensures TextOf(past + [e], s) == TextOf(past, s) + (if e.Data? && e.stream == s then e.chunk else [])
    ensures Ended(past + [e], s) <==> Ended(past, s) || e == End(s)
    ensures e.stream != s ==> TextOf(past + [e], s) == TextOf(past, s) && Expected(past + [e], s) == Expected(past, s)
  {
  }

  /** What a tap holds after `past`: unless its stream has ended, the buffer is the partial line. */
  ghost predicate Agrees(past: seq<Event>, stream: Stream, terminal: string, buf: string, lines: seq<string>) {
    && terminal == TextOf(past, stream)
    && (!Ended(past, stream) ==> buf == Partial(terminal))
    && lines == Expected(past, stream)
  }

  lemma AgreesStill(past: seq<Event>, e: Event, stream: Stream, terminal: string, buf: string, lines: seq<string>)
    requires e.stream != stream && Agrees(past, stream, terminal, buf, lines)
    ensures Agrees(past + [e], stream, terminal, buf, lines)
  {
    OneMore(past, e, stream);
  }

  // ---- The tap ----

  function OfStream(lines: seq<Line>, stream: Stream): seq<string> {
    if lines == [] then []
    else
      var last := lines[|lines| - 1];
      OfStream(lines[..|lines| - 1], stream) + (if last.stream == stream then [last.text] else [])
  }

  /** What the log shipper has been handed, in order, from both streams. */
  class Shipper {
    var pushed: seq<Line>

    constructor ()
      ensures pushed == []
    {
      pushed := [];
    }

    method Push(stream: Stream, text: string)
      modifies this
      ensures pushed == old(pushed) + [Line(stream, text)]
      ensures OfStream(pushed, stream) == OfStream(old(pushed), stream) + [text]
      ensures OfStream(pushed, Other(stream)) == OfStream(old(pushed), Other(stream))
    {
      pushed := pushed + [Line(stream, text)];
      assert pushed[..|pushed| - 1] == old(pushed);
    }
  }

  class Tap {
    const stream: Stream
    const shipper: Shipper
    var buf: string
    var terminal: string

    constructor (stream: Stream, shipper: Shipper)
      ensures this.stream == stream && this.shipper == shipper && buf == [] && terminal == []
    {
      this.stream, this.shipper := stream, shipper;
      buf, terminal := [], [];
    }

    /** A chunk reaches the terminal verbatim, and the lines it completes are shipped. */
    method OnData(chunk: string)
      modifies this, shipper
      ensures terminal == old(terminal) + chunk
      ensures OfStream(shipper.pushed, stream) == OfStream(old(shipper.pushed), stream) + Completed(old(buf) + chunk)
      ensures buf == Partial(old(buf) + chunk)
      ensures OfStream(shipper.pushed, Other(stream)) == OfStream(old(shipper.pushed), Other(stream))
    {
      terminal := terminal + chunk;
      buf := buf + chunk;
      ghost var text, before := buf, OfStream(shipper.pushed, stream);
      var idx := FirstNewline(buf);
      while idx < |buf|
        invariant idx == FirstNewline(buf)
        invariant OfStream(shipper.pushed, stream) + Completed(buf) == before + Completed(text)
        invariant Partial(buf) == Partial(text) && terminal == old(terminal) + chunk
        invariant OfStream(shipper.pushed, Other(stream)) == OfStream(old(shipper.pushed), Other(stream))
        decreases |buf|
      {
        CompletedPeels(buf);
        ghost var done, line, rest := OfStream(shipper.pushed, stream), StripCr(buf[..idx]), Completed(buf[idx + 1..]);
        shipper.Push(stream, StripCr(buf[..idx]));
        buf := buf[idx + 1..];
        idx := FirstNewline(buf);
        assert (done + [line]) + rest == done + ([line] + rest);
      }
      assert Completed(buf) == [];
    }

    /** A last line without a newline is shipped when the stream ends. */
    method OnEnd()
      modifies shipper
      ensures OfStream(shipper.pushed, stream)
           == OfStream(old(shipper.pushed), stream) + (if buf == [] then [] else [StripCr(buf)])
      ensures OfStream(shipper.pushed, Other(stream)) == OfStream(old(shipper.pushed), Other(stream))
    {
      if |buf| > 0 {
        shipper.Push(stream, StripCr(buf));
      }
    }

    ghost predicate Follows(past: seq<Event>)
      reads this, shipper
    {
      Agrees(past, stream, terminal, buf, OfStream(shipper.pushed, stream))
    }

    method Handle(e: Event, ghost past: seq<Event>)
      requires e.stream == stream && !Ended(past, stream) && Follows(past)
      modifies this, shipper
      ensures Follows(past + [e])
      ensures OfStream(shipper.pushed, Other(stream)) == OfStream(old(shipper.pushed), Other(stream))
    {
      OneMore(past, e, stream);
      match e
      case Data(_, chunk) =>
        CompletedExtends(terminal, chunk);
        OnData(chunk);
      case End(_) => OnEnd();
    }
  }

  /**
   * For every cutting into chunks and every interleaving of the two streams:
   * each stream ships the lines of its text, and each terminal shows its text
   * verbatim.
   */
  method Session(events: seq<Event>) returns (shipped: seq<Line>, out: string, err: string)
    requires Ordered(events)
    ensures OfStream(shipped, Stdout) == Expected(events, Stdout)
    ensures OfStream(shipped, Stderr) == Expected(events, Stderr)
    ensures out == TextOf(events, Stdout) && err == TextOf(events, Stderr)
  {
    var shipper := new Shipper();
    var o := new Tap(Stdout, shipper);
    var e := new Tap(Stderr, shipper);
    for i := 0 to |events|
      invariant fresh(shipper) && fresh(o) && fresh(e) && o != e && o.stream == Stdout && e.stream == Stderr
      invariant o.shipper == shipper && e.shipper == shipper
      invariant Agrees(events[..i], Stdout, o.terminal, o.buf, OfStream(shipper.pushed, Stdout))
      invariant Agrees(events[..i], Stderr, e.terminal, e.buf, OfStream(shipper.pushed, Stderr))
    {
      ghost var past := events[..i];
      assert events[..i + 1] == past + [events[i]];
      if events[i].stream == Stdout {
        AgreesStill(past, events[i], Stderr, e.terminal, e.buf, OfStream(shipper.pushed, Stderr));
        o.Handle(events[i], past);
      } else {
        AgreesStill(past, events[i], Stdout, o.terminal, o.buf, OfStream(shipper.pushed, Stdout));
        e.Handle(events[i], past);
      }
    }
    assert events[..|events|] == events;
    shipped, out, err := shipper.pushed, o.terminal, e.terminal;
  }
}
