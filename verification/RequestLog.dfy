/** The request/response capture middleware: it reads part of the request body before the
    application starts, replays it, and copies what passes through into bounded buffers. */
module RequestLog {
  import opened Prelude
  import opened Asgi
  import BodyGuard

  /** The first `n` bytes, or all of them. */
  function Capped(b: Bytes, n: nat): Bytes {
    if |b| <= n then b else b[..n]
  }

  predicate BuffersFirst(verb: string) {
    verb == "POST" || verb == "PUT" || verb == "PATCH" || verb == "DELETE"
  }

  /** How many messages the pre-read takes, having taken `total` body bytes so far; None when it
      waits for a message that the stream does not deliver. */
  function PreRead(input: seq<Inbound>, maxBytes: nat, total: nat): Option<nat>
    decreases input
  {
    if input == [] then None
    else if Final(input[0]) || total + |ChunkOf(input[0])| > maxBytes then Some(1)
    else After(1, PreRead(input[1..], maxBytes, total + |ChunkOf(input[0])|))
  }

  function After(taken: nat, more: Option<nat>): Option<nat> {
    if more.None? then None else Some(taken + more.value)
  }

  lemma PreReadGoesOn(taken: nat, ahead: seq<Inbound>, maxBytes: nat, total: nat)
    requires ahead != [] && !Final(ahead[0]) && total + |ChunkOf(ahead[0])| <= maxBytes
    ensures After(taken, PreRead(ahead, maxBytes, total)) ==
            After(taken + 1, PreRead(ahead[1..], maxBytes, total + |ChunkOf(ahead[0])|))
  {
  }

  /** Nothing more of the request comes after this message. */
  predicate Final(m: Inbound) {
    m.Disconnect? || !m.moreBody
  }

  /** The pre-read may stop at message `i`: it is final, or with it the bytes exceed the cap. */
  predicate Suffices(input: seq<Inbound>, maxBytes: nat, total: nat, i: nat)
    requires i < |input|
  {
    Final(input[i]) || total + |BodyOf(input[..i+1])| > maxBytes
  }

  lemma BodyGrows(input: seq<Inbound>, k: nat)
    requires k < |input|
    ensures BodyOf(input[..k+1]) == BodyOf(input[..k]) + ChunkOf(input[k])
  {
    assert input[..k+1] == input[..k] + [input[k]];
    BodyOfAppend(input[..k], [input[k]]);
    assert BodyOf([input[k]]) == ChunkOf(input[k]) + BodyOf([]);
  }

  /** The pre-read stops at the first message that suffices: never past the chunk which crosses the
      cap, and it blocks only if no message suffices. */
  lemma {:induction false} PreReadStopsAtFirst(input: seq<Inbound>, maxBytes: nat, total: nat)
    ensures match PreRead(input, maxBytes, total)
            case None => forall i :: 0 <= i < |input| ==> !Suffices(input, maxBytes, total, i)
            case Some(n) =>
              && 1 <= n <= |input| && Suffices(input, maxBytes, total, n - 1)
              && forall i :: 0 <= i < n - 1 ==> !Suffices(input, maxBytes, total, i)
    decreases input
  {
    if input != [] {
      var more := total + |ChunkOf(input[0])|;
      BodyGrows(input, 0);
      assert input[..0] == [];
      PreReadStopsAtFirst(input[1..], maxBytes, more);
      assert Suffices(input, maxBytes, total, 0) == (Final(input[0]) || more > maxBytes);
      forall i | 1 <= i < |input|
        ensures Suffices(input, maxBytes, total, i) == Suffices(input[1..], maxBytes, more, i - 1)
      {
        assert input[..i+1][1..] == input[1..][..i];
      }
    }
  }

  /** `_absorb`: append, never past the cap and its sentinel byte. */
  function Absorb(buffer: Bytes, chunk: Bytes, maxBytes: nat): Bytes {
    if chunk != [] && |buffer| <= maxBytes
    then buffer + (if |chunk| <= maxBytes + 1 - |buffer| then chunk else chunk[..maxBytes + 1 - |buffer|])
    else buffer
  }

  lemma AbsorbKeepsCapped(all: Bytes, chunk: Bytes, maxBytes: nat)
    ensures Absorb(Capped(all, maxBytes + 1), chunk, maxBytes) == Capped(all + chunk, maxBytes + 1)
  {
  }

  function LastStatus(sent: seq<Outbound>): int {
    if sent == [] then 500
    else if sent[|sent|-1].Start? then sent[|sent|-1].status
    else LastStatus(sent[..|sent|-1])
  }

  /** The last response start among these messages. */
  ghost predicate LastStart(sent: seq<Outbound>, i: nat) {
    i < |sent| && sent[i].Start? && forall j :: i < j < |sent| ==> !sent[j].Start?
  }

  /** The status is 500 until a response starts, and then that of the last start. */
  ghost predicate StatusIs(sent: seq<Outbound>, status: int) {
    && ((forall i :: 0 <= i < |sent| ==> !sent[i].Start?) ==> status == 500)
    && forall i: nat :: LastStart(sent, i) ==> status == sent[i].status
  }

  lemma {:induction false} LastStatusIs(sent: seq<Outbound>)
    ensures StatusIs(sent, LastStatus(sent))
  {
    if sent != [] && !sent[|sent|-1].Start? {
      var before := sent[..|sent|-1];
      LastStatusIs(before);
      forall i: nat | LastStart(sent, i) ensures LastStart(before, i) {
      }
    }
  }

  /** Message `i` is the first that is final or with which the body exceeds the cap. */
  ghost predicate FirstEnough(input: seq<Inbound>, maxBytes: nat, i: nat) {
    && i < |input|
    && (input[i].Disconnect? || !input[i].moreBody || |BodyOf(input[..i+1])| > maxBytes)
    && forall j :: 0 <= j < i ==> input[j].Request? && input[j].moreBody && |BodyOf(input[..j+1])| <= maxBytes
  }

  lemma PreReadIsFirstEnough(input: seq<Inbound>, maxBytes: nat)
    ensures match PreRead(input, maxBytes, 0)
            case None => forall i: nat :: !FirstEnough(input, maxBytes, i)
            case Some(n) => forall i: nat :: FirstEnough(input, maxBytes, i) <==> i == n - 1
  {
    PreReadStopsAtFirst(input, maxBytes, 0);
    if PreRead(input, maxBytes, 0).Some? {
      var last := PreRead(input, maxBytes, 0).value - 1;
      assert FirstEnough(input, maxBytes, last) by {
        forall j | 0 <= j < last
          ensures input[j].Request? && input[j].moreBody && |BodyOf(input[..j+1])| <= maxBytes
        {
          assert !Suffices(input, maxBytes, 0, j);
        }
        assert Suffices(input, maxBytes, 0, last);
      }
      forall i: nat | FirstEnough(input, maxBytes, i) ensures i == last {
        assert Suffices(input, maxBytes, 0, i) && Suffices(input, maxBytes, 0, last);
      }
    } else {
      forall i: nat | FirstEnough(input, maxBytes, i) ensures false {
        assert Suffices(input, maxBytes, 0, i);
      }
    }
  }

  function Larger(a: nat, b: nat): nat {
    if a < b then b else a
  }

  /** How much of the stream a call with pre-read has received by the end of `run`: everything up to the
      first message that is enough, and beyond that what the application read. Without such a message
      it has received everything, and waits. */
  ghost predicate TakesEnough(input: seq<Inbound>, maxBytes: nat, run: Run, received: seq<Inbound>) {
    && (forall i: nat :: FirstEnough(input, maxBytes, i) ==> |received| == Larger(i + 1, ReadCount(run.events)))
    && ((forall i: nat :: !FirstEnough(input, maxBytes, i)) ==> run == Run([], Blocked) && received == input)
  }

  lemma SettledTakesEnough(input: seq<Inbound>, maxBytes: nat, run: Run, received: seq<Inbound>)
    requires PreRead(input, maxBytes, 0).Some?
    requires |received| == Larger(PreRead(input, maxBytes, 0).value, ReadCount(run.events))
    ensures TakesEnough(input, maxBytes, run, received)
  {
    PreReadIsFirstEnough(input, maxBytes);
    assert FirstEnough(input, maxBytes, PreRead(input, maxBytes, 0).value - 1);
  }

  lemma BlockedTakesAll(input: seq<Inbound>, maxBytes: nat)
    requires PreRead(input, maxBytes, 0).None?
    ensures TakesEnough(input, maxBytes, Run([], Blocked), input)
  {
    PreReadIsFirstEnough(input, maxBytes);
  }

  class Connection {
    const maxBytes: nat
    ghost const input: seq<Inbound>     // everything the server will ever deliver
    var incoming: seq<Inbound>          // not yet received from the server
    var outgoing: seq<Outbound>         // sent to the client
    var prebuffered: seq<Inbound>
    var replayed: nat
    var req: Bytes
    var res: Bytes
    var status: int

    /** Messages that the application has not read yet: the rest of the replay, then the live
        stream. */
    function Pending(): seq<Inbound>
      requires replayed <= |prebuffered|
      reads this
    {
      prebuffered[replayed..] + incoming
    }

    /** Messages taken from the server, by the pre-read or live. */
    ghost function Received(): seq<Inbound>
      requires |incoming| <= |input|
      reads this
    {
      input[..|input| - |incoming|]
    }

    /** The application has been given `n` messages, first those of the pre-read. */
    ghost predicate HasGiven(n: nat)
      reads this
    {
      && |incoming| <= |input| && |Received()| == Larger(|prebuffered|, n)
      && replayed == if n < |prebuffered| then n else |prebuffered|
    }

    /** The buffers hold exactly the first cap + 1 bytes of what passed in either direction. */
    ghost predicate Valid()
      reads this
    {
      && replayed <= |prebuffered|
      && |incoming| <= |input|
      && incoming == input[|input| - |incoming|..]
      && req == Capped(BodyOf(Received()), maxBytes + 1)
      && res == Capped(ResponseBody(outgoing), maxBytes + 1)
      && status == LastStatus(outgoing)
    }

    constructor (maxBytes: nat, input: seq<Inbound>)
      ensures Valid() && this.maxBytes == maxBytes && this.input == input
      ensures incoming == input && outgoing == [] && prebuffered == [] && replayed == 0
    {
      this.maxBytes, this.input, incoming, outgoing := maxBytes, input, input, [];
      prebuffered, replayed, req, res, status := [], 0, [], [], 500;
    }

    /** One live `receive()`, absorbed. */
    method Live() returns (message: Inbound)
      requires Valid() && incoming != []
      modifies this`incoming, this`req
      ensures Valid() && message == old(incoming)[0] && incoming == old(incoming)[1..]
    {
      message := incoming[0];
      BodyGrows(input, |input| - |incoming|);
      AbsorbKeepsCapped(BodyOf(Received()), ChunkOf(message), maxBytes);
      incoming := incoming[1..];
      if message.Request? {
        req := Absorb(req, message.body, maxBytes);
      }
    }

    /** One live `receive()`, kept for the replay. */
    method Hold() returns (message: Inbound)
      requires Valid() && incoming != []
      modifies this`incoming, this`req, this`prebuffered
      ensures Valid() && message == old(incoming)[0] && incoming == old(incoming)[1..]
      ensures prebuffered == old(prebuffered) + [message]
    {
      message := Live();
      prebuffered := prebuffered + [message];
    }

    /** The pre-read before the application starts; `settled` is false when it blocks. */
    method PreBuffer() returns (settled: bool)
      requires Valid() && prebuffered == [] && replayed == 0 && incoming == input
      modifies this`incoming, this`req, this`prebuffered
      ensures Valid() && Pending() == input
      ensures settled == PreRead(input, maxBytes, 0).Some?
      ensures settled ==> |prebuffered| == PreRead(input, maxBytes, 0).value
      ensures |Received()| == |prebuffered| && (!settled ==> incoming == [])
    {
      var total: nat := 0;
      while true
        invariant Valid() && |prebuffered| + |incoming| == |input|
        invariant prebuffered == input[..|prebuffered|]
        invariant PreRead(input, maxBytes, 0) == After(|prebuffered|, PreRead(incoming, maxBytes, total))
        decreases |incoming|
      {
        if incoming == [] {
          return false;
        }
        ghost var taken, ahead, before := |prebuffered|, incoming, total;
        var message := Hold();
        if !message.Request? {
          return true;
        }
        total := total + |message.body|;
        if !message.moreBody || total > maxBytes {
          return true;
        }
        PreReadGoesOn(taken, ahead, maxBytes, before);
      }
    }

    /** `capturing_receive`, for the message after the first `n`: replay first, then the live stream. */
    method CapturingReceive(ghost n: nat) returns (message: Inbound)
      requires Valid() && Pending() != [] && HasGiven(n)
      modifies this`incoming, this`req, this`replayed
      ensures Valid() && message == old(Pending())[0] && Pending() == old(Pending())[1..]
      ensures HasGiven(n + 1)
    {
      if replayed < |prebuffered| {
        message := prebuffered[replayed];
        replayed := replayed + 1;
      } else {
        message := Live();
      }
    }

    /** `capturing_send`. */
    method CapturingSend(message: Outbound)
      requires Valid()
      modifies this`outgoing, this`res, this`status
      ensures Valid() && outgoing == old(outgoing) + [message]
    {
      AbsorbKeepsCapped(ResponseBody(outgoing), ResponseChunk(message), maxBytes);
      if message.Start? {
        status := message.status;
      } else if message.Body? {
        res := Absorb(res, message.body, maxBytes);
      }
      outgoing := outgoing + [message];
      assert outgoing[..|outgoing|-1] == old(outgoing);
    }

    method CapturingSendAll(batch: seq<Outbound>)
      requires Valid()
      modifies this`outgoing, this`res, this`status
      ensures Valid() && outgoing == old(outgoing) + batch
    {
      for i := 0 to |batch|
        invariant Valid() && outgoing == old(outgoing) + batch[..i]
      {
        CapturingSend(batch[i]);
        assert batch[..i+1] == batch[..i] + [batch[i]];
      }
      assert batch[..|batch|] == batch;
    }

    /** After these events: what was sent, what is still to be read, and how much was given. */
    ghost predicate Stands(events: seq<Event>, pending: seq<Inbound>)
      reads this
    {
      Valid() && outgoing == Written(events) && Pending() == pending && HasGiven(ReadCount(events))
    }

    method GiveNext(ghost events: seq<Event>, ghost pending: seq<Inbound>) returns (message: Inbound)
      requires Stands(events, pending) && pending != []
      modifies this`incoming, this`req, this`replayed
      ensures message == pending[0] && Stands(events + [Read(message)], pending[1..])
    {
      message := CapturingReceive(ReadCount(events));
      WrittenGrows(events, Read(message));
      ReadCountGrows(events, Read(message));
    }

    method SendOn(batch: seq<Outbound>, ghost events: seq<Event>, ghost pending: seq<Inbound>)
      requires Stands(events, pending)
      modifies this`outgoing, this`res, this`status
      ensures Stands(events + [Wrote(batch)], pending)
    {
      CapturingSendAll(batch);
      WrittenGrows(events, Wrote(batch));
      ReadCountGrows(events, Wrote(batch));
    }
  }

  /** The run of an application behind the middleware: nothing at all while the pre-read blocks, and
      otherwise just what the application does on its own. */
  function Logged<S>(verb: string, maxBytes: nat, app: App<S>, s: S, input: seq<Inbound>, steps: nat): Run {
    if BuffersFirst(verb) && PreRead(input, maxBytes, 0).None? then Run([], Blocked)
    else Execute(app, s, input, steps)
  }

  /** `__call__`, for the first `steps` actions of the application: what the application reads and
      what the client is sent is `Logged`, and at every stop the two buffers hold exactly the first
      cap + 1 body bytes of what was received and of what was sent. How much was received is settled
      too: for the four methods with a body everything up to the first message that is enough, read by
      the application or not, and beyond that, as for other methods, just what the application read. */
  method Call<S>(verb: string, maxBytes: nat, app: App<S>, s0: S, input: seq<Inbound>, steps: nat)
    returns (run: Run, conn: Connection)
    ensures run == Logged(verb, maxBytes, app, s0, input, steps)
    ensures conn.Valid() && conn.maxBytes == maxBytes && conn.input == input
    ensures conn.outgoing == Written(run.events)
    ensures verb in {"POST", "PUT", "PATCH", "DELETE"} ==> TakesEnough(input, maxBytes, run, conn.Received())
    ensures verb !in {"POST", "PUT", "PATCH", "DELETE"} ==> |conn.Received()| == ReadCount(run.events)
    ensures StatusIs(conn.outgoing, conn.status)
  {
    conn := new Connection(maxBytes, input);
    assert conn.Pending() == input;
    if BuffersFirst(verb) {
      var settled := conn.PreBuffer();
      if !settled {
        assert conn.Received() == input;
        BlockedTakesAll(input, maxBytes);
        return Run([], Blocked), conn;
      }
    }
    run := Serve(conn, app, s0, steps);
    LastStatusIs(conn.outgoing);
    if BuffersFirst(verb) {
      SettledTakesEnough(input, maxBytes, run, conn.Received());
    }
  }

  /** The application's run over the connection, wherever its body is replayed from. */
  method Serve<S>(conn: Connection, app: App<S>, s0: S, steps: nat) returns (run: Run)
    requires conn.Valid() && conn.outgoing == []
    requires conn.HasGiven(0)
    modifies conn`incoming, conn`outgoing, conn`replayed, conn`req, conn`res, conn`status
    ensures conn.Valid() && conn.outgoing == Written(run.events)
    ensures |conn.Received()| == Larger(|conn.prebuffered|, ReadCount(run.events))
    ensures run == Execute(app, s0, old(conn.Pending()), steps)
  {
    var s, left := s0, steps;
    var events: seq<Event> := [];
    ghost var pending := conn.Pending();
    while left > 0
      invariant conn.Stands(events, pending)
      invariant Execute(app, s0, old(conn.Pending()), steps) == PrependAll(events, Execute(app, s, pending, left))
    {
      match app(s) {
        case Return =>
          AtStop(events, Returned);
          return Run(events, Returned);
        case Raise =>
          AtStop(events, Raised);
          return Run(events, Raised);
        case Send(batch, next) =>
          conn.SendOn(batch, events, pending);
          AfterSend(events, app, s, batch, next, pending, left);
          events, s := events + [Wrote(batch)], next;
        case Receive(resume) =>
          if conn.Pending() == [] {
            AtStop(events, Blocked);
            return Run(events, Blocked);
          }
          var message := conn.GiveNext(events, pending);
          AfterReceive(events, app, s, resume, pending, left);
          events, s, pending := events + [Read(message)], resume(message), pending[1..];
      }
      left := left - 1;
    }
    AtStop(events, Unfinished);
    run := Run(events, Unfinished);
  }

  /** The capture is a beginning of what passed, up to and including one byte beyond the cap. */
  lemma CapturedIsBeginning(conn: Connection)
    requires conn.Valid()
    ensures conn.req <= BodyOf(conn.Received()) && conn.res <= ResponseBody(conn.outgoing)
    ensures |conn.req| == Smaller(|BodyOf(conn.Received())|, conn.maxBytes + 1)
    ensures |conn.res| == Smaller(|ResponseBody(conn.outgoing)|, conn.maxBytes + 1)
  {
  }

  function Smaller(a: nat, b: nat): nat {
    if a < b then a else b
  }

  /** The buffer outgrows the cap exactly when more than the cap went by, which is how truncation is
      told from its length alone. */
  lemma LengthTellsTruncation(all: Bytes, maxBytes: nat)
    ensures |Capped(all, maxBytes + 1)| > maxBytes <==> |all| > maxBytes
    ensures |all| <= maxBytes ==> Capped(all, maxBytes + 1) == all
  {
  }

  /** The pre-read buffers at most the cap plus the one chunk that crossed it. */
  lemma PreReadIsBounded(input: seq<Inbound>, maxBytes: nat)
    requires PreRead(input, maxBytes, 0).Some?
    ensures var n := PreRead(input, maxBytes, 0).value;
            1 <= n <= |input| && |BodyOf(input[..n])| <= maxBytes + |ChunkOf(input[n-1])|
  {
    PreReadStopsAtFirst(input, maxBytes, 0);
    var n := PreRead(input, maxBytes, 0).value;
    BodyGrows(input, n - 1);
    if n > 1 {
      assert !Suffices(input, maxBytes, 0, n - 2);
    } else {
      assert input[..0] == [];
    }
  }

  /** The whole request, or more than the cap of it, arrives. */
  ghost predicate Arrives(input: seq<Inbound>, maxBytes: nat) {
    exists i :: 0 <= i < |input| && Suffices(input, maxBytes, 0, i)
  }

  /** An application that answers without reading anything, whatever its state. */
  function Eager<S>(s: S): Action<S> {
    Send([Start(204, [])], s)
  }

  /** The middleware is invisible, to every application over any state and to its client, exactly
      when the method is not pre-read or enough of the request arrives. Short of that a client which
      stalls mid-body gets no answer even from an application that would have answered at once. */
  lemma InvisibleIffRequestArrives<S>(verb: string, maxBytes: nat, input: seq<Inbound>, some: S)
    ensures (forall app: App<S>, s: S, steps: nat ::
               Logged(verb, maxBytes, app, s, input, steps) == Execute(app, s, input, steps))
            <==> !BuffersFirst(verb) || Arrives(input, maxBytes)
  {
    PreReadStopsAtFirst(input, maxBytes, 0);
    if BuffersFirst(verb) && !Arrives(input, maxBytes) {
      assert Logged(verb, maxBytes, Eager, some, input, 1) != Execute(Eager, some, input, 1);
    }
  }

  /** With the body guard inside: behind both middlewares an application runs as it would alone on
      the counted stream, and the client sees what the guard alone would show it. */
  lemma LoggerOutsideGuard<S>(verb: string, logCap: nat, bodyLimit: int, app: App<S>, s: S,
                              input: seq<Inbound>, steps: nat)
    requires !BuffersFirst(verb) || Arrives(input, logCap)
    ensures var inner := Execute(app, s, BodyGuard.Counted(BodyGuard.OPEN, input, bodyLimit), steps);
            && BodyGuard.ReadsFit(inner.events, input)
            && Logged(verb, logCap, BodyGuard.Wrap(app, bodyLimit), (s, BodyGuard.OPEN), input, steps)
               == Run(BodyGuard.Outside(BodyGuard.OPEN, inner.events, input, bodyLimit), inner.ending)
  {
    PreReadStopsAtFirst(input, logCap, 0);
    BodyGuard.GuardIsTransducer(app, s, BodyGuard.OPEN, input, bodyLimit, steps);
  }
}
