/** HTTP over ASGI: messages as the "HTTP & WebSocket ASGI Message Format" specification names
    them, deterministic applications, and what a connection looks like from both of its ends. */
module Asgi {
  import opened Prelude

  type byte = b: int | 0 <= b < 256
  type Bytes = seq<byte>

  /** `http.request`, or anything else the server may deliver (`http.disconnect`). */
  datatype Inbound = Request(body: Bytes, moreBody: bool) | Disconnect

  datatype Outbound =
    | Start(status: int, headers: seq<(string, string)>)
    | Body(body: Bytes, moreBody: bool)
    | Other(kind: string)

  /** What an application does next; `Send` stands for some `send` calls in a row. */
  datatype Action<S> =
    | Receive(resume: Inbound -> S)
    | Send(batch: seq<Outbound>, next: S)
    | Return
    | Raise

  type App<!S> = S -> Action<S>

  datatype Event = Read(message: Inbound) | Wrote(batch: seq<Outbound>)

  /** `Blocked`: awaiting a message that the stream does not deliver. */
  datatype Ending = Returned | Raised | Blocked | Unfinished

  datatype Run = Run(events: seq<Event>, ending: Ending)

  function Prepend(e: Event, r: Run): Run {
    Run([e] + r.events, r.ending)
  }

  function PrependAll(es: seq<Event>, r: Run): Run {
    Run(es + r.events, r.ending)
  }

  lemma PrependStep(es: seq<Event>, e: Event, r: Run)
    ensures PrependAll(es, Prepend(e, r)) == PrependAll(es + [e], r)
  {
    assert es + ([e] + r.events) == es + [e] + r.events;
  }

  /** The first `steps` actions of an application connected directly to the server. */
  function Execute<S>(app: App<S>, s: S, input: seq<Inbound>, steps: nat): Run
    decreases steps
  {
    if steps == 0 then Run([], Unfinished)
    else
      match app(s)
      case Return => Run([], Returned)
      case Raise => Run([], Raised)
      case Send(batch, next) => Prepend(Wrote(batch), Execute(app, next, input, steps - 1))
      case Receive(resume) =>
        if input == [] then Run([], Blocked)
        else Prepend(Read(input[0]), Execute(app, resume(input[0]), input[1..], steps - 1))
  }

  lemma AfterSend<S>(es: seq<Event>, app: App<S>, s: S, batch: seq<Outbound>, next: S, input: seq<Inbound>, steps: nat)
    requires steps > 0 && app(s) == Send(batch, next)
    ensures PrependAll(es, Execute(app, s, input, steps)) ==
            PrependAll(es + [Wrote(batch)], Execute(app, next, input, steps - 1))
  {
    PrependStep(es, Wrote(batch), Execute(app, next, input, steps - 1));
  }

  lemma AfterReceive<S>(es: seq<Event>, app: App<S>, s: S, resume: Inbound -> S, input: seq<Inbound>, steps: nat)
    requires steps > 0 && app(s) == Receive(resume) && input != []
    ensures PrependAll(es, Execute(app, s, input, steps)) ==
            PrependAll(es + [Read(input[0])], Execute(app, resume(input[0]), input[1..], steps - 1))
  {
    PrependStep(es, Read(input[0]), Execute(app, resume(input[0]), input[1..], steps - 1));
  }

  lemma AtStop(es: seq<Event>, ending: Ending)
    ensures PrependAll(es, Run([], ending)) == Run(es, ending)
  {
  }

  /** What the client is sent. */
  function Written(events: seq<Event>): seq<Outbound> {
    if events == [] then []
    else if events[0].Wrote? then events[0].batch + Written(events[1..])
    else Written(events[1..])
  }

  lemma WrittenCons(e: Event, rest: seq<Event>)
    ensures Written([e] + rest) == (if e.Wrote? then e.batch else []) + Written(rest)
  {
    assert ([e] + rest)[1..] == rest;
  }

  lemma {:induction false} WrittenAppend(a: seq<Event>, b: seq<Event>)
    ensures Written(a + b) == Written(a) + Written(b)
  {
    if a == [] {
      assert a + b == b;
    } else {
      WrittenAppend(a[1..], b);
      HeadThenRest(a, b);
      WrittenCons(a[0], a[1..] + b);
      Associates(if a[0].Wrote? then a[0].batch else [], Written(a[1..]), Written(b));
    }
  }

  lemma WrittenGrows(events: seq<Event>, e: Event)
    ensures Written(events + [e]) == if e.Wrote? then Written(events) + e.batch else Written(events)
  {
    WrittenAppend(events, [e]);
    if e.Wrote? {
      assert Written([e]) == e.batch + [];
    }
  }

  function ReadCount(events: seq<Event>): nat {
    if events == [] then 0
    else (if events[0].Read? then 1 else 0) + ReadCount(events[1..])
  }

  lemma {:induction false} ReadCountGrows(events: seq<Event>, e: Event)
    ensures ReadCount(events + [e]) == ReadCount(events) + if e.Read? then 1 else 0
  {
    if events == [] {
      assert events + [e] == [e];
    } else {
      ReadCountGrows(events[1..], e);
      assert (events + [e])[1..] == events[1..] + [e];
    }
  }

  function ChunkOf(m: Inbound): Bytes {
    if m.Request? then m.body else []
  }

  /** All body bytes of a request stream. */
  function BodyOf(input: seq<Inbound>): Bytes {
    if input == [] then [] else ChunkOf(input[0]) + BodyOf(input[1..])
  }

  lemma BodyOfCons(m: Inbound, rest: seq<Inbound>)
    ensures BodyOf([m] + rest) == ChunkOf(m) + BodyOf(rest)
  {
    assert ([m] + rest)[1..] == rest;
  }

  lemma {:induction false} BodyOfAppend(a: seq<Inbound>, b: seq<Inbound>)
    ensures BodyOf(a + b) == BodyOf(a) + BodyOf(b)
  {
    if a == [] {
      assert a + b == b;
    } else {
      BodyOfAppend(a[1..], b);
      HeadThenRest(a, b);
      BodyOfCons(a[0], a[1..] + b);
      Associates(ChunkOf(a[0]), BodyOf(a[1..]), BodyOf(b));
    }
  }

  function ResponseChunk(m: Outbound): Bytes {
    if m.Body? then m.body else []
  }

  /** All body bytes of a response. */
  function ResponseBody(sent: seq<Outbound>): Bytes {
    if sent == [] then [] else ResponseBody(sent[..|sent|-1]) + ResponseChunk(sent[|sent|-1])
  }
}
