/**
 * The SSE client registry of routes/ecg.js as values: the list of open
 * connections, what has been written to each connection, and the three things
 * that change them (a stream is opened, a stream is closed, a reading is
 * published). `Apply` is the specification the imperative registry in
 * ecg_routes.dfy is proved against; the lemmas at the end follow one
 * connection through any sequence of these steps.
 */
module Relay {
  import opened EventStream

  /** The identity of one open response stream (the `res` object of a request). */
  type ConnId = nat

  /** The data of the frame every connection is sent when it is opened. */
  const Greeting := "Conexão SSE aberta"

  /** Everything written so far, per connection, one entry per `write` call. */
  type Outbox = map<ConnId, seq<string>>

  /** What has been written to `c` (nothing, if it was never written to). */
  function Written(outbox: Outbox, c: ConnId): seq<string> {
    if c in outbox then outbox[c] else []
  }

  /** One `write(text)` on connection `c`. */
  function Append(outbox: Outbox, c: ConnId, text: string): Outbox {
    outbox[c := Written(outbox, c) + [text]]
  }

  /** A write adds its text at the end of the target's record and touches no other record. */
  lemma AppendWritten(outbox: Outbox, c: ConnId, text: string, d: ConnId)
    ensures Written(Append(outbox, c, text), d)
         == Written(outbox, d) + (if d == c then [text] else [])
  {
    if d != c {
      assert Written(outbox, d) + [] == Written(outbox, d);
    }
  }

  /** How many times `c` is listed in `s`. */
  function Count(s: seq<ConnId>, c: ConnId): nat {
    if s == [] then 0 else (if s[0] == c then 1 else 0) + Count(s[1..], c)
  }

  /** `Count` is the multiplicity of `c` in `s`. */
  lemma {:induction false} CountIsMultiplicity(s: seq<ConnId>, c: ConnId)
    ensures Count(s, c) == multiset(s)[c]
  {
    if s != [] {
      assert s == [s[0]] + s[1..];
      assert multiset(s) == multiset{s[0]} + multiset(s[1..]);
      CountIsMultiplicity(s[1..], c);
    }
  }

  /** No connection is listed twice. */
  ghost predicate Distinct(s: seq<ConnId>) {
    forall x :: multiset(s)[x] <= 1
  }

  /**
   * `s.filter(x => x !== c)`: every occurrence of `c` is dropped and every
   * other entry keeps its multiplicity.
   */
  function Without(s: seq<ConnId>, c: ConnId): (r: seq<ConnId>)
    ensures multiset(r) == multiset(s)[c := 0]
    ensures c !in r
    ensures forall x :: x in r <==> x in s && x != c
  {
    if s == [] then []
    else if s[0] == c then
      assert s == [s[0]] + s[1..];
      Without(s[1..], c)
    else
      assert s == [s[0]] + s[1..];
      [s[0]] + Without(s[1..], c)
  }

  /**
   * `targets.forEach(t => t.write(frame))`: one write of `frame` per entry of
   * `targets`, in list order.
   */
  function Deliver(outbox: Outbox, targets: seq<ConnId>, frame: string): Outbox
    decreases |targets|
  {
    if targets == [] then outbox
    else Deliver(Append(outbox, targets[0], frame), targets[1..], frame)
  }

  /** `n` copies of `frame`. */
  function Repeat(frame: string, n: nat): seq<string> {
    if n == 0 then [] else [frame] + Repeat(frame, n - 1)
  }

  // ---------------------------------------------------------------------
  // Lemmas about the registry operations
  // ---------------------------------------------------------------------

  /** Closing a connection that is not registered leaves the list as it is. */
  lemma {:induction false} WithoutAbsent(s: seq<ConnId>, c: ConnId)
    requires c !in s
    ensures Without(s, c) == s
  {
    if s != [] {
      assert s[0] != c;
      WithoutAbsent(s[1..], c);
      assert [s[0]] + s[1..] == s;
    }
  }

  /** Closing a connection twice is the same as closing it once. */
  lemma {:induction false} WithoutIdempotent(s: seq<ConnId>, c: ConnId)
    ensures Without(Without(s, c), c) == Without(s, c)
  {
    WithoutAbsent(Without(s, c), c);
  }

  /**
   * Removal works entry by entry, so the entries other than `c` keep their
   * relative order: the filtered list of `s + t` is the filtered `s`
   * followed by the filtered `t`.
   */
  lemma {:induction false} WithoutAppend(s: seq<ConnId>, t: seq<ConnId>, c: ConnId)
    ensures Without(s + t, c) == Without(s, c) + Without(t, c)
  {
    if s == [] {
      assert s + t == t;
    } else {
      assert (s + t)[0] == s[0];
      assert (s + t)[1..] == s[1..] + t;
      WithoutAppend(s[1..], t, c);
    }
  }

  /** Opening a new connection and then closing it restores the list. */
  lemma OpenThenClose(s: seq<ConnId>, c: ConnId)
    requires c !in s
    ensures Without(s + [c], c) == s
  {
    WithoutAppend(s, [c], c);
    WithoutAbsent(s, c);
    assert Without([c], c) == Without([], c);
  }

  /** Filtering keeps a list of distinct connections distinct. */
  lemma WithoutDistinct(s: seq<ConnId>, c: ConnId)
    requires Distinct(s)
    ensures Distinct(Without(s, c))
  {
    forall x ensures multiset(Without(s, c))[x] <= 1 {
      assert multiset(Without(s, c))[x] <= multiset(s)[x];
    }
  }

  /**
   * A broadcast writes the frame to each connection once per occurrence in
   * the list of targets, and nothing to any other connection.
   */
  lemma {:induction false} DeliverWrites(outbox: Outbox, targets: seq<ConnId>, frame: string, c: ConnId)
    ensures Written(Deliver(outbox, targets, frame), c)
         == Written(outbox, c) + Repeat(frame, Count(targets, c))
    decreases |targets|
  {
    if targets == [] {
      assert Written(outbox, c) + [] == Written(outbox, c);
    } else {
      var t: ConnId, rest: seq<ConnId> := targets[0], targets[1..];
      var written := Append(outbox, t, frame);
      var own: seq<string> := if t == c then [frame] else [];
      var more := Repeat(frame, Count(rest, c));
      calc {
        Written(Deliver(outbox, targets, frame), c);
        Written(Deliver(written, rest, frame), c);
        { DeliverWrites(written, rest, frame, c); }
        Written(written, c) + more;
        { AppendWritten(outbox, t, frame, c); }
        (Written(outbox, c) + own) + more;
        Written(outbox, c) + (own + more);
        { assert Count(targets, c) == |own| + Count(rest, c); }
        Written(outbox, c) + Repeat(frame, Count(targets, c));
      }
    }
  }

  /** A broadcast adds exactly its targets to the connections written to. */
  lemma {:induction false} DeliverKeys(outbox: Outbox, targets: seq<ConnId>, frame: string)
    ensures Deliver(outbox, targets, frame).Keys == outbox.Keys + (set d | d in targets)
    decreases |targets|
  {
    if targets != [] {
      var t, rest := targets[0], targets[1..];
      var written := Append(outbox, t, frame);
      calc {
        Deliver(outbox, targets, frame).Keys;
        Deliver(written, rest, frame).Keys;
        { DeliverKeys(written, rest, frame); }
        written.Keys + (set d | d in rest);
        (outbox.Keys + {t}) + (set d | d in rest);
        { assert targets == [t] + rest; }
        outbox.Keys + (set d | d in targets);
      }
    }
  }

  /** With distinct targets: exactly one frame for each target, none for anyone else. */
  lemma DeliverDistinct(outbox: Outbox, targets: seq<ConnId>, frame: string, c: ConnId)
    requires Distinct(targets)
    ensures c in targets ==> Written(Deliver(outbox, targets, frame), c) == Written(outbox, c) + [frame]
    ensures c !in targets ==> Written(Deliver(outbox, targets, frame), c) == Written(outbox, c)
  {
    DeliverWrites(outbox, targets, frame, c);
    CountIsMultiplicity(targets, c);
    assert multiset(targets)[c] <= 1;
    if c in targets {
      assert Repeat(frame, 1) == [frame];
    } else {
      assert Written(outbox, c) + [] == Written(outbox, c);
    }
  }

  // ---------------------------------------------------------------------
  // The registry as a state machine
  // ---------------------------------------------------------------------

  /** A step of the registry; `Published` carries the serialized reading. */
  datatype Action = Opened(conn: ConnId) | Closed(conn: ConnId) | Published(text: string)

  datatype State = State(clients: seq<ConnId>, outbox: Outbox)

  /** No connection open, nothing written. */
  const Initial := State([], map[])

  /**
   * One step, as the route handlers take it: an opened stream is sent the
   * greeting frame and then appended to the list; a closed stream is filtered
   * out of the list; a reading is framed and written to every listed stream.
   */
  function Apply(st: State, a: Action): State {
    match a
    case Opened(c) => State(st.clients + [c], Append(st.outbox, c, DataFrame(Greeting)))
    case Closed(c) => State(Without(st.clients, c), st.outbox)
    case Published(text) => State(st.clients, Deliver(st.outbox, st.clients, DataFrame(text)))
  }

  /** The state after the steps `h`, taken from `st` in order. */
  function RunFrom(st: State, h: seq<Action>): State
    decreases |h|
  {
    if h == [] then st else RunFrom(Apply(st, h[0]), h[1..])
  }

  /** The serialized readings published during `h`, in order. */
  function PublishedTexts(h: seq<Action>): seq<string> {
    if h == [] then []
    else (if h[0].Published? then [h[0].text] else []) + PublishedTexts(h[1..])
  }

  /** `h` opens no stream with identity `c`. */
  predicate NeverOpens(h: seq<Action>, c: ConnId) {
    forall i :: 0 <= i < |h| ==> h[i] != Opened(c)
  }

  /** `h` closes no stream with identity `c`. */
  predicate NeverCloses(h: seq<Action>, c: ConnId) {
    forall i :: 0 <= i < |h| ==> h[i] != Closed(c)
  }

  // ---------------------------------------------------------------------
  // Lemmas about runs
  // ---------------------------------------------------------------------

  /** Running `g + h` is running `g`, then `h`. */
  lemma {:induction false} RunFromAppend(st: State, g: seq<Action>, h: seq<Action>)
    ensures RunFrom(st, g + h) == RunFrom(RunFrom(st, g), h)
    decreases |g|
  {
    if g == [] {
      assert g + h == h;
    } else {
      assert (g + h)[0] == g[0];
      assert (g + h)[1..] == g[1..] + h;
      RunFromAppend(Apply(st, g[0]), g[1..], h);
    }
  }

  /** One more step at the end of a run. */
  lemma RunFromSnoc(st: State, h: seq<Action>, a: Action)
    ensures RunFrom(st, h + [a]) == Apply(RunFrom(st, h), a)
  {
    RunFromAppend(st, h, [a]);
    assert [a][1..] == [];
  }

  /** A stream that was ever opened has been written to. */
  lemma {:induction false} OpenedIsWritten(st: State, h: seq<Action>, c: ConnId)
    requires c in st.outbox || !NeverOpens(h, c)
    ensures c in RunFrom(st, h).outbox
    decreases |h|
  {
    if h != [] {
      var next := Apply(st, h[0]);
      if h[0].Published? {
        DeliverKeys(st.outbox, st.clients, DataFrame(h[0].text));
      }
      if c !in next.outbox {
        assert c !in st.outbox && h[0] != Opened(c);
        assert exists i :: 0 <= i < |h| && h[i] == Opened(c);
        var i :| 0 <= i < |h| && h[i] == Opened(c);
        assert h[1..][i - 1] == Opened(c);
      }
      OpenedIsWritten(next, h[1..], c);
    }
  }

  /** One step that neither opens nor closes `c`, taken while `c` is listed once. */
  lemma StepWhileOpen(st: State, a: Action, c: ConnId)
    requires Count(st.clients, c) == 1
    requires a != Opened(c) && a != Closed(c)
    ensures Count(Apply(st, a).clients, c) == 1
    ensures Written(Apply(st, a).outbox, c)
         == Written(st.outbox, c) + Frames(if a.Published? then [a.text] else [])
  {
    match a {
      case Opened(d) =>
        CountIsMultiplicity(st.clients, c);
        CountIsMultiplicity(st.clients + [d], c);
        assert multiset(st.clients + [d]) == multiset(st.clients) + multiset{d};
        assert Written(st.outbox, c) + [] == Written(st.outbox, c);
      case Closed(d) =>
        CountIsMultiplicity(st.clients, c);
        CountIsMultiplicity(Without(st.clients, d), c);
        assert Written(st.outbox, c) + [] == Written(st.outbox, c);
      case Published(text) =>
        DeliverWrites(st.outbox, st.clients, DataFrame(text), c);
        assert Repeat(DataFrame(text), 1) == [DataFrame(text)];
        assert Frames([text]) == [DataFrame(text)];
    }
  }

  /** One step that does not open `c`, taken while `c` is not listed. */
  lemma StepWhileClosed(st: State, a: Action, c: ConnId)
    requires c !in st.clients
    requires a != Opened(c)
    ensures c !in Apply(st, a).clients
    ensures Written(Apply(st, a).outbox, c) == Written(st.outbox, c)
    ensures c in Apply(st, a).outbox <==> c in st.outbox
  {
    if a.Published? {
      DeliverWrites(st.outbox, st.clients, DataFrame(a.text), c);
      CountIsMultiplicity(st.clients, c);
      DeliverKeys(st.outbox, st.clients, DataFrame(a.text));
      assert Written(st.outbox, c) + [] == Written(st.outbox, c);
    }
  }

  /** The steps after the first one still avoid whatever the whole run avoids. */
  lemma RestAvoids(h: seq<Action>, c: ConnId)
    requires h != []
    ensures NeverOpens(h, c) ==> NeverOpens(h[1..], c)
    ensures NeverCloses(h, c) ==> NeverCloses(h[1..], c)
  {
    assert forall i :: 0 <= i < |h[1..]| ==> h[1..][i] == h[i + 1];
  }

  /**
   * A connection that no step of a run opens has not been written to, so a
   * new response stream always meets `OpenStream`'s requirement.
   */
  lemma FreshCanOpen(h: seq<Action>, c: ConnId)
    requires NeverOpens(h, c)
    ensures c !in RunFrom(Initial, h).outbox
    ensures c !in RunFrom(Initial, h).clients
  {
    WhileClosed(Initial, h, c);
  }

  /**
   * While a stream stays open (listed exactly once, neither reopened nor
   * closed), it stays listed exactly once and receives one frame per reading
   * published, in publish order.
   */
  lemma {:induction false} WhileOpen(st: State, h: seq<Action>, c: ConnId)
    requires Count(st.clients, c) == 1
    requires NeverOpens(h, c) && NeverCloses(h, c)
    ensures Count(RunFrom(st, h).clients, c) == 1
    ensures Written(RunFrom(st, h).outbox, c) == Written(st.outbox, c) + Frames(PublishedTexts(h))
  {
    StaysListed(st, h, c);
    ReceivesPublished(st, h, c);
  }

  /** A stream listed once, neither reopened nor closed, stays listed once. */
  lemma {:induction false} StaysListed(st: State, h: seq<Action>, c: ConnId)
    requires Count(st.clients, c) == 1
    requires NeverOpens(h, c) && NeverCloses(h, c)
    ensures Count(RunFrom(st, h).clients, c) == 1
    decreases |h|
  {
    if h != [] {
      RestAvoids(h, c);
      StepWhileOpen(st, h[0], c);
      StaysListed(Apply(st, h[0]), h[1..], c);
    }
  }

  /** Such a stream receives one frame per reading published. */
  lemma {:induction false} ReceivesPublished(st: State, h: seq<Action>, c: ConnId)
    requires Count(st.clients, c) == 1
    requires NeverOpens(h, c) && NeverCloses(h, c)
    ensures Written(RunFrom(st, h).outbox, c) == Written(st.outbox, c) + Frames(PublishedTexts(h))
    decreases |h|
  {
    if h == [] {
      assert Written(st.outbox, c) + [] == Written(st.outbox, c);
    } else {
      RestAvoids(h, c);
      StepWhileOpen(st, h[0], c);
      ReceivesPublished(Apply(st, h[0]), h[1..], c);
      var now := FramesOfFirst(h);
      Associate(Written(st.outbox, c), now, Frames(PublishedTexts(h[1..])));
    }
  }


  /** The frames of the readings a run publishes: those of its first step, then those of the rest. */
  lemma FramesOfFirst(h: seq<Action>) returns (now: seq<string>)
    requires h != []
    ensures now == Frames(if h[0].Published? then [h[0].text] else [])
    ensures Frames(PublishedTexts(h)) == now + Frames(PublishedTexts(h[1..]))
  {
    var own: seq<string> := if h[0].Published? then [h[0].text] else [];
    now := Frames(own);
    FramesAppend(own, PublishedTexts(h[1..]));
  }


  /**
   * A stream that is not listed receives nothing, as long as it is not
   * opened (again): in particular a closed stream is sent no later readings.
   */
  lemma {:induction false} WhileClosed(st: State, h: seq<Action>, c: ConnId)
    requires c !in st.clients
    requires NeverOpens(h, c)
    ensures c !in RunFrom(st, h).clients
    ensures Written(RunFrom(st, h).outbox, c) == Written(st.outbox, c)
    ensures c in RunFrom(st, h).outbox <==> c in st.outbox
    decreases |h|
  {
    if h != [] {
      RestAvoids(h, c);
      StepWhileClosed(st, h[0], c);
      WhileClosed(Apply(st, h[0]), h[1..], c);
    }
  }

  /**
   * The life of one stream: whatever happens before it is opened, and
   * whatever happens after it is closed, a stream opened once receives the
   * greeting frame followed by the frames of exactly the readings published
   * while it was open, in publish order.
   */
  lemma Lifecycle(before: seq<Action>, during: seq<Action>, after: seq<Action>, c: ConnId)
    requires NeverOpens(before, c) && NeverOpens(during, c) && NeverOpens(after, c)
    requires NeverCloses(during, c)
    ensures Written(RunFrom(Initial, before + [Opened(c)] + during).outbox, c)
         == Frames([Greeting] + PublishedTexts(during))
    ensures Written(RunFrom(Initial, before + [Opened(c)] + during + [Closed(c)] + after).outbox, c)
         == Frames([Greeting] + PublishedTexts(during))
  {
    var s0 := RunFrom(Initial, before);
    WhileClosed(Initial, before, c);
    var s1 := Apply(s0, Opened(c));
    RunFromSnoc(Initial, before, Opened(c));
    assert Count(s1.clients, c) == 1 by {
      CountIsMultiplicity(s1.clients, c);
      CountIsMultiplicity(s0.clients, c);
      assert multiset(s1.clients) == multiset(s0.clients) + multiset{c};
    }
    var s2 := RunFrom(s1, during);
    RunFromAppend(Initial, before + [Opened(c)], during);
    WhileOpen(s1, during, c);
    assert Written(s1.outbox, c) == [DataFrame(Greeting)];
    FramesAppend([Greeting], PublishedTexts(during));
    assert Frames([Greeting]) == [DataFrame(Greeting)];
    var s3 := Apply(s2, Closed(c));
    RunFromSnoc(Initial, before + [Opened(c)] + during, Closed(c));
    RunFromAppend(Initial, before + [Opened(c)] + during + [Closed(c)], after);
    WhileClosed(s3, after, c);
  }

  /**
   * What a client of such a stream decodes from the bytes it received: the
   * greeting, then the serialized readings published while it was open.
   */
  lemma StreamCarriesReadings(before: seq<Action>, during: seq<Action>, c: ConnId)
    requires NeverOpens(before, c) && NeverOpens(during, c) && NeverCloses(during, c)
    requires forall i :: 0 <= i < |during| ==> during[i].Published? ==> SingleLine(during[i].text)
    ensures Messages(Concat(Written(RunFrom(Initial, before + [Opened(c)] + during).outbox, c)))
         == [Greeting] + PublishedTexts(during)
  {
    var texts := [Greeting] + PublishedTexts(during);
    var run := RunFrom(Initial, before + [Opened(c)] + during);
    assert Written(run.outbox, c) == Frames(texts) by {
      Lifecycle(before, during, [], c);
    }
    assert forall i :: 0 <= i < |texts| ==> SingleLine(texts[i]) by {
      PublishedSingleLine(during);
      assert SingleLine(Greeting);
      forall i | 0 <= i < |texts| ensures SingleLine(texts[i]) {
        if i > 0 { assert texts[i] == PublishedTexts(during)[i - 1]; }
      }
    }
    FramesDecode(texts);
  }

  /** The published texts of single-line steps are single-line. */
  lemma {:induction false} PublishedSingleLine(h: seq<Action>)
    requires forall i :: 0 <= i < |h| ==> h[i].Published? ==> SingleLine(h[i].text)
    ensures forall i :: 0 <= i < |PublishedTexts(h)| ==> SingleLine(PublishedTexts(h)[i])
    decreases |h|
  {
    if h != [] {
      var rest := h[1..];
      assert forall i :: 0 <= i < |rest| ==> rest[i].Published? ==> SingleLine(rest[i].text) by {
        assert forall i :: 0 <= i < |rest| ==> rest[i] == h[i + 1];
      }
      PublishedSingleLine(rest);
      var own := if h[0].Published? then [h[0].text] else [];
      assert PublishedTexts(h) == own + PublishedTexts(rest);
    }
  }
}
