/** The ingest body-size guard: an application wrapped in a byte counter on what it receives and
    a filter on what it sends. */
module BodyGuard {
  import opened Prelude
  import opened Asgi

  const REJECTION: seq<Outbound> := [
    Start(413, [("content-type", "text/plain; charset=utf-8"),
                ("content-length", "18"),
                ("access-control-allow-origin", "*")]),
    Body(TOO_LARGE, false)
  ]

  /** "payload too large\n" */
  const TOO_LARGE: Bytes := [112, 97, 121, 108, 111, 97, 100, 32, 116, 111, 111, 32, 108, 97, 114, 103, 101, 10]

  /** The bytes of an ASCII text. */
  function Ascii(text: string): Bytes {
    seq(|text|, i requires 0 <= i < |text| => if (text[i] as int) < 128 then text[i] as int else 63)
  }

  /** One complete 413 response in plain text, its length declared. */
  predicate IsRejection(sent: seq<Outbound>) {
    && |sent| == 2
    && sent[0].Start? && sent[0].status == 413 && ("content-length", "18") in sent[0].headers
    && ("content-type", "text/plain; charset=utf-8") in sent[0].headers
    && ("access-control-allow-origin", "*") in sent[0].headers
    && sent[1] == Body(Ascii("payload too large\n"), false) && |sent[1].body| == 18
  }

  lemma RejectionIsOne()
    ensures IsRejection(REJECTION)
  {
    assert REJECTION[0].headers[0] in REJECTION[0].headers;
    assert REJECTION[0].headers[1] in REJECTION[0].headers;
    assert REJECTION[0].headers[2] in REJECTION[0].headers;
  }

  function StartCount(batch: seq<Outbound>): nat {
    if batch == [] then 0 else (if batch[0].Start? then 1 else 0) + StartCount(batch[1..])
  }

  /** Complete 413 responses, `n` of them, and nothing else. */
  predicate AllRejections(sent: seq<Outbound>, n: nat)
    decreases n
  {
    if n == 0 then sent == [] else |sent| >= 2 && IsRejection(sent[..2]) && AllRejections(sent[2..], n - 1)
  }

  lemma {:induction false} RejectionsAreComplete(batch: seq<Outbound>)
    ensures AllRejections(Rejections(batch), StartCount(batch))
  {
    if batch != [] {
      RejectionsAreComplete(batch[1..]);
      RejectionIsOne();
      var rest := Rejections(batch[1..]);
      if batch[0].Start? {
        assert (REJECTION + rest)[..2] == REJECTION && (REJECTION + rest)[2..] == rest;
      } else {
        assert Rejections(batch) == rest;
      }
    }
  }

  /** The counter's state: body bytes seen, and whether they ever exceeded the limit. */
  datatype Gate = Gate(seen: nat, rejected: bool)

  const OPEN := Gate(0, false)

  /** What the application is given for a message, and the counter after it. */
  function Count(g: Gate, m: Inbound, maxBytes: int): (Gate, Inbound) {
    if m.Disconnect? then (g, m)
    else
      var seen := g.seen + |m.body|;
      if seen > maxBytes then (Gate(seen, true), Request([], false)) else (Gate(seen, g.rejected), m)
  }

  /** What the client is given for what the application sends. */
  function Emit(g: Gate, batch: seq<Outbound>): seq<Outbound> {
    if !g.rejected then batch else Rejections(batch)
  }

  /** One 413 response per response start, and nothing else. */
  function Rejections(batch: seq<Outbound>): seq<Outbound> {
    if batch == [] then []
    else (if batch[0].Start? then REJECTION else []) + Rejections(batch[1..])
  }

  lemma RejectionsCons(m: Outbound, rest: seq<Outbound>)
    ensures Rejections([m] + rest) == (if m.Start? then REJECTION else []) + Rejections(rest)
  {
    assert ([m] + rest)[1..] == rest;
  }

  lemma {:induction false} RejectionsAppend(a: seq<Outbound>, b: seq<Outbound>)
    ensures Rejections(a + b) == Rejections(a) + Rejections(b)
  {
    if a == [] {
      assert a + b == b;
    } else {
      RejectionsAppend(a[1..], b);
      HeadThenRest(a, b);
      RejectionsCons(a[0], a[1..] + b);
      Associates(if a[0].Start? then REJECTION else [], Rejections(a[1..]), Rejections(b));
    }
  }

  class Guard {
    const maxBytes: int
    var seen: nat
    var rejected: bool

    constructor (maxBytes: int)
      ensures this.maxBytes == maxBytes && State() == OPEN
    {
      this.maxBytes, seen, rejected := maxBytes, 0, false;
    }

    function State(): Gate
      reads this
    {
      Gate(seen, rejected)
    }

    /** `counting_receive`, given the message that the server delivered. */
    method CountingReceive(message: Inbound) returns (given: Inbound)
      modifies this
      ensures (State(), given) == Count(old(State()), message, maxBytes)
    {
      if message.Request? {
        seen := seen + |message.body|;
        if seen > maxBytes {
          rejected := true;
          return Request([], false);
        }
      }
      return message;
    }

    /** `guarded_send`, for a run of messages: what reaches the server's `send`. */
    method GuardedSend(batch: seq<Outbound>) returns (emitted: seq<Outbound>)
      ensures emitted == Emit(State(), batch)
    {
      emitted := [];
      for i := 0 to |batch|
        invariant emitted == Emit(State(), batch[..i])
      {
        assert batch[..i+1] == batch[..i] + [batch[i]];
        RejectionsAppend(batch[..i], [batch[i]]);
        if rejected {
          if batch[i].Start? {
            emitted := emitted + REJECTION;
          }
        } else {
          emitted := emitted + [batch[i]];
        }
      }
      assert batch[..|batch|] == batch;
    }
  }

  /** A header as the fast path reads it: its name and, where `int()` accepts it, its value. */
  datatype Header = Header(name: string, value: Option<int>)

  /** The fast path's verdict: only the first Content-Length counts, and a malformed one is no
      reason to reject. */
  ghost predicate DeclaresTooMuch(headers: seq<Header>, maxBytes: int) {
    exists i :: 0 <= i < |headers| && headers[i].name == "content-length"
                && headers[i].value.Some? && headers[i].value.value > maxBytes
                && forall j :: 0 <= j < i ==> headers[j].name != "content-length"
  }

  /** A declared length decides by itself, at the limit still in favour of the request. */
  lemma DeclaredLengthDecides(headers: seq<Header>, maxBytes: int, i: nat)
    requires i < |headers| && headers[i].name == "content-length"
    requires forall j :: 0 <= j < i ==> headers[j].name != "content-length"
    ensures DeclaresTooMuch(headers, maxBytes) <==> headers[i].value.Some? && maxBytes < headers[i].value.value
  {
  }

  method FastPath(headers: seq<Header>, maxBytes: int) returns (reject: bool)
    ensures reject == DeclaresTooMuch(headers, maxBytes)
  {
    for i := 0 to |headers|
      invariant forall j :: 0 <= j < i ==> headers[j].name != "content-length"
    {
      if headers[i].name == "content-length" {
        return headers[i].value.Some? && headers[i].value.value > maxBytes;
      }
    }
    return false;
  }

  /** The application as the server sees it behind the guard. */
  function Wrap<S>(app: App<S>, maxBytes: int): App<(S, Gate)> {
    (st: (S, Gate)) =>
      match app(st.0)
      case Receive(resume) =>
        Receive((m: Inbound) => (resume(Count(st.1, m, maxBytes).1), Count(st.1, m, maxBytes).0))
      case Send(batch, next) => Send(Emit(st.1, batch), (next, st.1))
      case Return => Return
      case Raise => Raise
  }

  /** `__call__` on a guarded path, for the first `steps` actions of the application. */
  method Call<S>(headers: seq<Header>, app: App<S>, s0: S, input: seq<Inbound>, maxBytes: int, steps: nat)
    returns (run: Run)
    ensures DeclaresTooMuch(headers, maxBytes) ==>
              run.ending == Returned && ReadCount(run.events) == 0 && IsRejection(Written(run.events))
    ensures !DeclaresTooMuch(headers, maxBytes) ==> run == Execute(Wrap(app, maxBytes), (s0, OPEN), input, steps)
  {
    RejectionIsOne();
    assert Written([Wrote(REJECTION)]) == REJECTION + [];
    var reject := FastPath(headers, maxBytes);
    if reject {
      return Run([Wrote(REJECTION)], Returned);
    }
    var guard := new Guard(maxBytes);
    var s, rest, left := s0, input, steps;
    var events: seq<Event> := [];
    while left > 0
      invariant guard.maxBytes == maxBytes && fresh(guard)
      invariant Execute(Wrap(app, maxBytes), (s0, OPEN), input, steps) ==
                PrependAll(events, Execute(Wrap(app, maxBytes), (s, guard.State()), rest, left))
    {
      match app(s) {
        case Return => return Run(events, Returned);
        case Raise => return Run(events, Raised);
        case Send(batch, next) =>
          var emitted := guard.GuardedSend(batch);
          PrependStep(events, Wrote(emitted), Execute(Wrap(app, maxBytes), (next, guard.State()), rest, left - 1));
          events, s := events + [Wrote(emitted)], next;
        case Receive(resume) =>
          if rest == [] {
            return Run(events, Blocked);
          }
          var given := guard.CountingReceive(rest[0]);
          PrependStep(events, Read(rest[0]),
                      Execute(Wrap(app, maxBytes), (resume(given), guard.State()), rest[1..], left - 1));
          events, s, rest := events + [Read(rest[0])], resume(given), rest[1..];
      }
      left := left - 1;
    }
    return Run(events, Unfinished);
  }

  /* ---------- The guard as two stream transducers ---------- */

  /** The stream the application reads when the server delivers `input`. */
  function Counted(g: Gate, input: seq<Inbound>, maxBytes: int): (r: seq<Inbound>)
    ensures |r| == |input|
    decreases input
  {
    if input == [] then []
    else
      var (g', m) := Count(g, input[0], maxBytes);
      [m] + Counted(g', input[1..], maxBytes)
  }

  /** A run of the application on its own stream, as it looks from outside the guard. */
  function Outside(g: Gate, events: seq<Event>, input: seq<Inbound>, maxBytes: int): seq<Event>
    requires ReadsFit(events, input)
    decreases |events|
  {
    if events == [] then []
    else
      match events[0]
      case Wrote(batch) => [Wrote(Emit(g, batch))] + Outside(g, events[1..], input, maxBytes)
      case Read(_) => [Read(input[0])] + Outside(Count(g, input[0], maxBytes).0, events[1..], input[1..], maxBytes)
  }

  /** The events read no more messages than the stream has. */
  predicate ReadsFit(events: seq<Event>, input: seq<Inbound>)
    decreases |events|
  {
    || events == []
    || (events[0].Wrote? && ReadsFit(events[1..], input))
    || (events[0].Read? && input != [] && ReadsFit(events[1..], input[1..]))
  }

  lemma {:induction false} ExecuteReadsFit<S>(app: App<S>, s: S, input: seq<Inbound>, steps: nat)
    ensures ReadsFit(Execute(app, s, input, steps).events, input)
    decreases steps
  {
    if steps > 0 {
      match app(s)
      case Send(batch, next) =>
        ExecuteReadsFit(app, next, input, steps - 1);
        var rest := Execute(app, next, input, steps - 1);
        assert ([Wrote(batch)] + rest.events)[1..] == rest.events;
      case Receive(resume) =>
        if input != [] {
          ExecuteReadsFit(app, resume(input[0]), input[1..], steps - 1);
          var rest := Execute(app, resume(input[0]), input[1..], steps - 1);
          assert ([Read(input[0])] + rest.events)[1..] == rest.events;
        }
      case _ =>
    }
  }

  lemma {:induction false} FitsByLength(events: seq<Event>, a: seq<Inbound>, b: seq<Inbound>)
    requires ReadsFit(events, a) && |a| == |b|
    ensures ReadsFit(events, b)
    decreases |events|
  {
    if events != [] {
      if events[0].Wrote? {
        FitsByLength(events[1..], a, b);
      } else {
        FitsByLength(events[1..], a[1..], b[1..]);
      }
    }
  }

  /** Behind the guard any application runs exactly as it would, alone, on the counted stream: the
      same actions in the same order with the same end, and only the messages on the outside
      differ, in the way `Outside` says. */
  lemma {:induction false} GuardIsTransducer<S>(app: App<S>, s: S, g: Gate, input: seq<Inbound>,
                                             maxBytes: int, steps: nat)
    ensures var inner := Execute(app, s, Counted(g, input, maxBytes), steps);
            && ReadsFit(inner.events, input)
            && Execute(Wrap(app, maxBytes), (s, g), input, steps)
               == Run(Outside(g, inner.events, input, maxBytes), inner.ending)
    decreases steps
  {
    var counted := Counted(g, input, maxBytes);
    var inner := Execute(app, s, counted, steps);
    ExecuteReadsFit(app, s, counted, steps);
    FitsByLength(inner.events, counted, input);
    if steps > 0 {
      match app(s)
      case Send(batch, next) =>
        GuardIsTransducer(app, next, g, input, maxBytes, steps - 1);
        var rest := Execute(app, next, counted, steps - 1);
        assert ([Wrote(batch)] + rest.events)[1..] == rest.events;
      case Receive(resume) =>
        if input != [] {
          var (g', m) := Count(g, input[0], maxBytes);
          assert counted[1..] == Counted(g', input[1..], maxBytes);
          GuardIsTransducer(app, resume(m), g', input[1..], maxBytes, steps - 1);
          var rest := Execute(app, resume(m), counted[1..], steps - 1);
          assert ([Read(m)] + rest.events)[1..] == rest.events;
        }
      case _ =>
    }
  }

  /* ---------- What the application is handed ---------- */

  /** Message by message: unchanged while the bytes so far fit, and once they do not, every request
      message is empty and final. */
  lemma {:induction false} CountedAt(g: Gate, input: seq<Inbound>, maxBytes: int, k: nat)
    requires k < |input|
    ensures Counted(g, input, maxBytes)[k] ==
            if input[k].Request? && g.seen + |BodyOf(input[..k+1])| > maxBytes then Request([], false) else input[k]
    decreases input
  {
    var (g', _) := Count(g, input[0], maxBytes);
    assert input[..k+1][1..] == input[1..][..k];
    if k > 0 {
      CountedAt(g', input[1..], maxBytes, k - 1);
    }
  }

  /** The application never gets more than the limit, however the body is chunked. */
  lemma {:induction false} HandedAtMostLimit(g: Gate, input: seq<Inbound>, maxBytes: nat)
    ensures |BodyOf(Counted(g, input, maxBytes))| <= if g.seen <= maxBytes then maxBytes - g.seen else 0
    decreases input
  {
    if input != [] {
      var (g', m) := Count(g, input[0], maxBytes);
      HandedAtMostLimit(g', input[1..], maxBytes);
      assert Counted(g, input, maxBytes)[1..] == Counted(g', input[1..], maxBytes);
    }
  }

  /* ---------- What the client is handed ---------- */

  lemma {:induction false} FittingUnchanged(g: Gate, events: seq<Event>, input: seq<Inbound>, maxBytes: int)
    requires !g.rejected && g.seen + |BodyOf(input)| <= maxBytes
    requires ReadsFit(events, Counted(g, input, maxBytes)) && ReadsFit(events, input)
    requires MatchReads(events, input)
    ensures Counted(g, input, maxBytes) == input
    ensures Outside(g, events, input, maxBytes) == events
    decreases |input| + |events|
  {
    forall k | 0 <= k < |input| ensures Counted(g, input, maxBytes)[k] == input[k] {
      CountedAt(g, input, maxBytes, k);
      assert input == input[..k+1] + input[k+1..];
      BodyOfAppend(input[..k+1], input[k+1..]);
    }
    if events != [] {
      if events[0].Wrote? {
        FittingUnchanged(g, events[1..], input, maxBytes);
      } else {
        var (g', m) := Count(g, input[0], maxBytes);
        FitsByLength(events[1..], input[1..], Counted(g', input[1..], maxBytes));
        FittingUnchanged(g', events[1..], input[1..], maxBytes);
      }
    }
  }

  /** What the events read is the beginning of the stream. */
  predicate MatchReads(events: seq<Event>, input: seq<Inbound>)
    requires ReadsFit(events, input)
    decreases |events|
  {
    || events == []
    || (events[0].Wrote? && MatchReads(events[1..], input))
    || (events[0].Read? && events[0].message == input[0] && MatchReads(events[1..], input[1..]))
  }

  lemma {:induction false} ExecuteMatchesReads<S>(app: App<S>, s: S, input: seq<Inbound>, steps: nat)
    ensures ReadsFit(Execute(app, s, input, steps).events, input)
    ensures MatchReads(Execute(app, s, input, steps).events, input)
    decreases steps
  {
    ExecuteReadsFit(app, s, input, steps);
    if steps > 0 {
      match app(s)
      case Send(batch, next) =>
        ExecuteMatchesReads(app, next, input, steps - 1);
        var rest := Execute(app, next, input, steps - 1);
        assert ([Wrote(batch)] + rest.events)[1..] == rest.events;
      case Receive(resume) =>
        if input != [] {
          ExecuteMatchesReads(app, resume(input[0]), input[1..], steps - 1);
          var rest := Execute(app, resume(input[0]), input[1..], steps - 1);
          assert ([Read(input[0])] + rest.events)[1..] == rest.events;
        }
      case _ =>
    }
  }

  /** A body that fits: application and client cannot tell that the guard is there. */
  lemma FittingBodyIsUntouched<S>(app: App<S>, s: S, input: seq<Inbound>, maxBytes: int, steps: nat)
    requires |BodyOf(input)| <= maxBytes
    ensures Execute(Wrap(app, maxBytes), (s, OPEN), input, steps) == Execute(app, s, input, steps)
  {
    ExecuteMatchesReads(app, s, input, steps);
    FitsByLength(Execute(app, s, input, steps).events, input, Counted(OPEN, input, maxBytes));
    FittingUnchanged(OPEN, Execute(app, s, input, steps).events, input, maxBytes);
    GuardIsTransducer(app, s, OPEN, input, maxBytes, steps);
  }

  /** Once rejected, always rejected: the client gets one 413 for each response start. */
  lemma {:induction false} RejectedForGood(g: Gate, events: seq<Event>, input: seq<Inbound>, maxBytes: int)
    requires g.rejected && ReadsFit(events, input)
    ensures Written(Outside(g, events, input, maxBytes)) == Rejections(Written(events))
    decreases |events|
  {
    if events != [] {
      match events[0]
      case Wrote(batch) =>
        RejectedForGood(g, events[1..], input, maxBytes);
        WrittenCons(Wrote(Emit(g, batch)), Outside(g, events[1..], input, maxBytes));
        RejectionsAppend(batch, Written(events[1..]));
      case Read(_) =>
        var g' := Count(g, input[0], maxBytes).0;
        RejectedForGood(g', events[1..], input[1..], maxBytes);
        WrittenCons(Read(input[0]), Outside(g', events[1..], input[1..], maxBytes));
    }
  }

  /** The read that overflows the counter rejects everything after it. */
  lemma RejectedFromRead(g: Gate, events: seq<Event>, input: seq<Inbound>, maxBytes: int)
    requires ReadsFit(events, input) && events != [] && events[0].Read?
    requires Count(g, input[0], maxBytes).0.rejected
    ensures Written(Outside(g, events, input, maxBytes)) == Rejections(Written(events))
  {
    var g' := Count(g, input[0], maxBytes).0;
    RejectedForGood(g', events[1..], input[1..], maxBytes);
    WrittenCons(Read(input[0]), Outside(g', events[1..], input[1..], maxBytes));
  }

  /** The first `k` events read no more than the limit, and the next one, if any, reads what is too
      much. */
  predicate OverflowsAfter(g: Gate, events: seq<Event>, input: seq<Inbound>, maxBytes: int, k: nat) {
    && !g.rejected && g.seen <= maxBytes && k <= |events|
    && var n := ReadCount(events[..k]);
       && n <= |input| && g.seen + |BodyOf(input[..n])| <= maxBytes
       && (k < |events| ==> events[k].Read? && n < |input| && g.seen + |BodyOf(input[..n+1])| > maxBytes)
  }

  lemma BodyShifts(input: seq<Inbound>, n: nat)
    requires n < |input|
    ensures BodyOf(input[..n+1]) == ChunkOf(input[0]) + BodyOf(input[1..][..n])
  {
    assert input[..n+1][1..] == input[1..][..n];
  }

  lemma OverflowShifts(g: Gate, events: seq<Event>, input: seq<Inbound>, maxBytes: int, k: nat)
    requires OverflowsAfter(g, events, input, maxBytes, k) && k > 0
    ensures events[0].Wrote? ==> OverflowsAfter(g, events[1..], input, maxBytes, k - 1)
    ensures events[0].Read? ==>
              input != [] && OverflowsAfter(Count(g, input[0], maxBytes).0, events[1..], input[1..], maxBytes, k - 1)
  {
    assert events[..k][1..] == events[1..][..k-1];
    if events[0].Read? {
      var n := ReadCount(events[1..][..k-1]);
      BodyShifts(input, n);
      if k < |events| {
        BodyShifts(input, n + 1);
      }
    }
  }

  lemma OverflowsNow(g: Gate, events: seq<Event>, input: seq<Inbound>, maxBytes: int)
    requires OverflowsAfter(g, events, input, maxBytes, 0) && events != []
    ensures events[0].Read? && input != [] && Count(g, input[0], maxBytes).0.rejected
  {
    assert events[..0] == [] && input[..1][1..] == [];
  }

  /** The client's side of any run: what the application sent before the bytes it had read exceeded
      the limit reaches the client unchanged, what it sent afterwards is replaced by one complete 413
      response per response start. `k` is the number of events before the overflow. */
  lemma ClientSees(g: Gate, events: seq<Event>, input: seq<Inbound>, maxBytes: int, k: nat)
    requires ReadsFit(events, input) && OverflowsAfter(g, events, input, maxBytes, k)
    ensures var (seen, before) := (Written(Outside(g, events, input, maxBytes)), Written(events[..k]));
            before <= seen && AllRejections(seen[|before|..], StartCount(Written(events[k..])))
  {
    SplitAtOverflow(g, events, input, maxBytes, k);
    RejectionsAreComplete(Written(events[k..]));
  }

  lemma {:induction false} SplitAtOverflow(g: Gate, events: seq<Event>, input: seq<Inbound>, maxBytes: int, k: nat)
    requires ReadsFit(events, input) && OverflowsAfter(g, events, input, maxBytes, k)
    ensures Written(Outside(g, events, input, maxBytes)) == Written(events[..k]) + Rejections(Written(events[k..]))
    decreases |events|
  {
    if k == 0 {
      assert events[..0] == [] && events[0..] == events;
      if events != [] {
        OverflowsNow(g, events, input, maxBytes);
        RejectedFromRead(g, events, input, maxBytes);
      }
    } else {
      var rest := events[1..];
      assert events[..k][1..] == rest[..k-1] && events[k..] == rest[k-1..];
      OverflowShifts(g, events, input, maxBytes, k);
      if events[0].Wrote? {
        SplitAtOverflow(g, rest, input, maxBytes, k - 1);
        WrittenCons(Wrote(Emit(g, events[0].batch)), Outside(g, rest, input, maxBytes));
      } else {
        var g' := Count(g, input[0], maxBytes).0;
        SplitAtOverflow(g', rest, input[1..], maxBytes, k - 1);
        WrittenCons(Read(input[0]), Outside(g', rest, input[1..], maxBytes));
      }
    }
  }

  /** No response start among these messages. */
  predicate NoStart(batch: seq<Outbound>) {
    forall i :: 0 <= i < |batch| ==> !batch[i].Start?
  }

  lemma {:induction false} NoStartNoRejection(batch: seq<Outbound>)
    requires NoStart(batch)
    ensures Rejections(batch) == []
  {
    if batch != [] {
      NoStartNoRejection(batch[1..]);
    }
  }

  lemma SingleStart(sent: seq<Outbound>, i: nat)
    requires i < |sent| && sent[i].Start? && NoStart(sent[..i]) && NoStart(sent[i+1..])
    ensures Rejections(sent) == REJECTION
  {
    assert sent == sent[..i] + sent[i..];
    RejectionsAppend(sent[..i], sent[i..]);
    NoStartNoRejection(sent[..i]);
    StartThenNone(sent[i], sent[i+1..]);
    assert sent[i..] == [sent[i]] + sent[i+1..];
  }

  lemma StartThenNone(m: Outbound, rest: seq<Outbound>)
    requires m.Start? && NoStart(rest)
    ensures Rejections([m] + rest) == REJECTION
  {
    NoStartNoRejection(rest);
    assert ([m] + rest)[1..] == rest;
  }

  /** An application that sends nothing until it has read past the limit, and then starts one
      response, makes the client see exactly one 413 start and one body message. */
  lemma OneRejection<S>(app: App<S>, s: S, input: seq<Inbound>, maxBytes: nat, steps: nat, k: nat, i: nat)
    requires var events := Execute(app, s, Counted(OPEN, input, maxBytes), steps).events;
             && k < |events| && events[k].Read?
             && Written(events[..k]) == []
             && ReadCount(events[..k]) < |input|
             && |BodyOf(input[..ReadCount(events[..k])])| <= maxBytes < |BodyOf(input[..ReadCount(events[..k]) + 1])|
             && i < |Written(events[k..])| && Written(events[k..])[i].Start?
             && NoStart(Written(events[k..])[..i]) && NoStart(Written(events[k..])[i+1..])
    ensures Written(Execute(Wrap(app, maxBytes), (s, OPEN), input, steps).events) == REJECTION
    ensures IsRejection(Written(Execute(Wrap(app, maxBytes), (s, OPEN), input, steps).events))
  {
    RejectionIsOne();
    var events := Execute(app, s, Counted(OPEN, input, maxBytes), steps).events;
    var sent := Written(events[k..]);
    GuardIsTransducer(app, s, OPEN, input, maxBytes, steps);
    SplitAtOverflow(OPEN, events, input, maxBytes, k);
    SingleStart(sent, i);
  }
}
