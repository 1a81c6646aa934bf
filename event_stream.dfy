/**
 * Server-sent event framing, after section 9.2 (Server-sent events) of the
 * WHATWG HTML Living Standard.
 *
 * The relay writes each message as one frame: a single `data:` field line
 * followed by the blank line that dispatches it. The decoder below is the
 * client's side of the format (section 9.2.6, "Interpreting an event stream"):
 * it is the reference against which the frames are proved to carry exactly
 * their payloads, in order.
 */
module EventStream {

  /** A value that fits on one event-stream line: it holds no CR and no LF. */
  predicate SingleLine(s: string) {
    '\n' !in s && '\r' !in s
  }

  /** The frame of one message whose data is `payload`. */
  function DataFrame(payload: string): string {
    "data: " + payload + "\n\n"
  }

  /** The frames of several messages, in order. */
  function Frames(payloads: seq<string>): seq<string> {
    if payloads == [] then [] else [DataFrame(payloads[0])] + Frames(payloads[1..])
  }

  /** The text a connection carries after the given writes, in order. */
  function Concat(writes: seq<string>): string {
    if writes == [] then "" else writes[0] + Concat(writes[1..])
  }

  // ---------------------------------------------------------------------
  // Decoder (the client's view)
  // ---------------------------------------------------------------------

  /**
   * Decoder state: the line read so far, the data buffer of the event being
   * assembled, and whether the last character was a CR (so that a following
   * LF completes a CRLF pair instead of ending an empty line).
   */
  datatype Parser = Parser(line: string, data: string, afterCR: bool)

  const Start := Parser("", "", false)

  /**
   * Splits a line at its first colon into field name and value, dropping one
   * space right after the colon. A line without a colon is a field name with
   * an empty value; a line that starts with a colon (a comment) has the empty
   * name, which no field uses.
   */
  function SplitField(line: string): (string, string) {
    if line == [] then ("", "")
    else if line[0] == ':' then
      ("", if |line| > 1 && line[1] == ' ' then line[2..] else line[1..])
    else
      var rest := SplitField(line[1..]);
      ([line[0]] + rest.0, rest.1)
  }

  /**
   * Processes the line that has just ended. A blank line dispatches the event
   * (nothing when the data buffer is empty; otherwise the buffer without its
   * final LF); a `data` field appends its value and an LF to the buffer; every
   * other field is ignored.
   */
  function EndOfLine(p: Parser): (Parser, seq<string>) {
    if p.line == "" then
      if p.data == "" then (Start, [])
      else
        var last := |p.data| - 1;
        (Start, [if p.data[last] == '\n' then p.data[..last] else p.data])
    else
      var field := SplitField(p.line);
      (Parser("", if field.0 == "data" then p.data + field.1 + "\n" else p.data, false), [])
  }

  /** One character: CR, LF and CRLF end a line; anything else extends it. */
  function Step(p: Parser, ch: char): (Parser, seq<string>) {
    if ch == '\r' then
      var ended := EndOfLine(p);
      (ended.0.(afterCR := true), ended.1)
    else if ch == '\n' then
      if p.afterCR then (p.(afterCR := false), []) else EndOfLine(p)
    else
      (Parser(p.line + [ch], p.data, false), [])
  }

  /** Feeds `s` to the decoder: the new state and the events dispatched. */
  function Feed(p: Parser, s: string): (Parser, seq<string>)
    decreases |s|
  {
    if s == [] then (p, [])
    else
      var first := Step(p, s[0]);
      var rest := Feed(first.0, s[1..]);
      (rest.0, first.1 + rest.1)
  }

  /** The data of the events a client decodes from `stream` (an unfinished event is dropped). */
  function Messages(stream: string): seq<string> {
    Feed(Start, stream).1
  }

  // ---------------------------------------------------------------------
  // Lemmas
  // ---------------------------------------------------------------------

  /** Concatenation of sequences of strings (writes, events) associates. */
  lemma Associate(a: seq<string>, b: seq<string>, c: seq<string>)
    ensures (a + b) + c == a + (b + c)
  {
  }

  /** Decoding is incremental: feeding `s + t` is feeding `s`, then `t`. */
  lemma {:induction false} FeedAppend(p: Parser, s: string, t: string)
    ensures Feed(p, s + t)
         == (Feed(Feed(p, s).0, t).0, Feed(p, s).1 + Feed(Feed(p, s).0, t).1)
    decreases |s|
  {
    if s == [] {
      assert s + t == t;
      assert Feed(p, s) == (p, []);
      var r := Feed(p, t);
      assert Feed(p, s).1 + r.1 == r.1;
    } else {
      var q, e := Step(p, s[0]).0, Step(p, s[0]).1;
      assert (s + t)[0] == s[0];
      assert (s + t)[1..] == s[1..] + t;
      assert Feed(p, s + t) == (Feed(q, s[1..] + t).0, e + Feed(q, s[1..] + t).1);
      assert Feed(p, s) == (Feed(q, s[1..]).0, e + Feed(q, s[1..]).1);
      FeedAppend(q, s[1..], t);
      var r := Feed(q, s[1..]);
      Associate(e, r.1, Feed(r.0, t).1);
    }
  }

  /** Text without line breaks only extends the current line and dispatches nothing. */
  lemma {:induction false} FeedText(p: Parser, t: string)
    requires SingleLine(t) && !p.afterCR
    ensures Feed(p, t) == (p.(line := p.line + t), [])
    decreases |t|
  {
    if t == [] {
      assert p.line + t == p.line;
      assert p.(line := p.line) == p;
    } else {
      assert t[0] in t;
      assert forall ch :: ch in t[1..] ==> ch in t;
      var q := Parser(p.line + [t[0]], p.data, false);
      assert Step(p, t[0]) == (q, []);
      FeedText(q, t[1..]);
      assert q.line + t[1..] == p.line + t;
      var events: seq<string> := [];
      assert Feed(p, t) == (Feed(q, t[1..]).0, events + Feed(q, t[1..]).1);
      assert Feed(q, t[1..]).1 == events && events + events == events;
      assert q.(line := q.line + t[1..]) == p.(line := p.line + t);
    }
  }

  /** A line `name: value`, with no colon in `name`, splits into `name` and `value`. */
  lemma {:induction false} FieldSplits(name: string, value: string)
    requires ':' !in name
    ensures SplitField(name + ": " + value) == (name, value)
    decreases |name|
  {
    var line := name + ": " + value;
    if name == [] {
      assert line == ": " + value && line[2..] == value;
    } else {
      assert line[0] == name[0] && name[0] in name;
      assert line[1..] == name[1..] + ": " + value;
      assert forall ch :: ch in name[1..] ==> ch in name;
      FieldSplits(name[1..], value);
      assert [name[0]] + name[1..] == name;
    }
  }

  /** Reading `data: s` without its line end only fills the current line. */
  lemma DataLineRead(s: string)
    requires SingleLine(s)
    ensures Feed(Start, "data: " + s) == (Parser("data: " + s, "", false), [])
  {
    var head := "data: " + s;
    assert SingleLine(head) by {
      assert forall i :: 0 <= i < |head| ==> head[i] == if i < 6 then "data: "[i] else s[i - 6];
    }
    FeedText(Start, head);
    assert Start.(line := Start.line + head) == Parser(head, "", false);
  }

  /** The end of the line `data: s` appends `s` and an LF to the empty data buffer. */
  lemma DataLineEnds(s: string)
    ensures EndOfLine(Parser("data: " + s, "", false)) == (Parser("", s + "\n", false), [])
  {
    FieldSplits("data", s);
    assert "data" + ": " + s == "data: " + s;
    assert "" + s + "\n" == s + "\n";
  }

  /** A `data:` line with a single-line value puts the value and an LF in the data buffer. */
  lemma DataLineBuffers(s: string)
    requires SingleLine(s)
    ensures Feed(Start, "data: " + s + "\n") == (Parser("", s + "\n", false), [])
  {
    var none: seq<string> := [];
    DataLineRead(s);
    DataLineEnds(s);
    FeedAppend(Start, "data: " + s, "\n");
    LineFeed(Parser("data: " + s, "", false));
    assert none + none == none;
  }

  /** A blank line dispatches the buffered data without its final LF. */
  lemma BlankLineDispatches(data: string)
    ensures Feed(Parser("", data + "\n", false), "\n") == (Start, [data])
  {
    var p := Parser("", data + "\n", false);
    assert (data + "\n")[|data|] == '\n' && (data + "\n")[..|data|] == data;
    assert EndOfLine(p) == (Start, [data]);
    LineFeed(p);
  }

  /** One frame decodes, from the start state, to exactly its payload and returns to the start state. */
  lemma FrameDecodes(s: string)
    requires SingleLine(s)
    ensures Feed(Start, DataFrame(s)) == (Start, [s])
  {
    var line := "data: " + s + "\n";
    var none: seq<string> := [];
    assert DataFrame(s) == line + "\n";
    DataLineBuffers(s);
    BlankLineDispatches(s);
    FeedAppend(Start, line, "\n");
    assert none + [s] == [s];
  }

  /** A lone LF after anything but a CR ends the current line. */
  lemma LineFeed(p: Parser)
    requires !p.afterCR
    ensures Feed(p, "\n") == EndOfLine(p)
  {
    var lf := "\n";
    assert lf[0] == '\n' && lf[1..] == [];
    var first := Step(p, lf[0]);
    assert first == EndOfLine(p);
    assert Feed(first.0, lf[1..]) == (first.0, []);
    assert first.1 + [] == first.1;
  }

  /** A run of frames decodes to exactly its payloads, in order. */
  lemma {:induction false} FramesDecode(payloads: seq<string>)
    requires forall i :: 0 <= i < |payloads| ==> SingleLine(payloads[i])
    ensures Feed(Start, Concat(Frames(payloads))) == (Start, payloads)
    ensures Messages(Concat(Frames(payloads))) == payloads
    decreases |payloads|
  {
    if payloads != [] {
      var rest := payloads[1..];
      assert forall i :: 0 <= i < |rest| ==> SingleLine(rest[i]) by {
        forall i | 0 <= i < |rest| ensures SingleLine(rest[i]) {
          assert rest[i] == payloads[i + 1];
        }
      }
      var frames := Frames(payloads);
      assert frames[0] == DataFrame(payloads[0]) && frames[1..] == Frames(rest);
      FeedAppend(Start, DataFrame(payloads[0]), Concat(Frames(rest)));
      FrameDecodes(payloads[0]);
      FramesDecode(rest);
      assert [payloads[0]] + rest == payloads;
    }
  }

  /** Frames of a concatenation are the concatenated frames. */
  lemma {:induction false} FramesAppend(a: seq<string>, b: seq<string>)
    ensures Frames(a + b) == Frames(a) + Frames(b)
    decreases |a|
  {
    if a != [] {
      assert (a + b)[0] == a[0];
      assert (a + b)[1..] == a[1..] + b;
      FramesAppend(a[1..], b);
    } else {
      assert a + b == b;
    }
  }
}
