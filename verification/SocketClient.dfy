/** One request of the socket client: daemon/client.ts, lines 116-168. */
module SocketClient {
  import opened Text
  import opened Framing

  datatype Outcome = Response(line: Bytes) | TooLarge | HungUp | SocketError | TimedOut

  datatype Event = Data(chunk: Bytes) | Close | Error | Timer

  datatype Exchange = Exchange(buffer: Bytes, responseBytes: nat, settled: Option<Outcome>)

  const SENT := Exchange([], 0, None)

  /** `finish`: only its first call settles the promise. */
  function Finished(x: Exchange, outcome: Outcome): Exchange {
    if x.settled.Some? then x else x.(settled := Some(outcome))
  }

  function AfterEvent(max: nat, x: Exchange, e: Event): Exchange {
    match e
    case Close => Finished(x, HungUp)
    case Error => Finished(x, SocketError)
    case Timer => Finished(x, TimedOut)
    case Data(chunk) =>
      var fragment := if NEWLINE in chunk then chunk[..FirstNewline(chunk)] else chunk;
      var counted := x.(responseBytes := x.responseBytes + |fragment| + if NEWLINE in chunk then 1 else 0);
      if counted.responseBytes > max then Finished(counted, TooLarge)
      else
        var kept := counted.(buffer := x.buffer + fragment);
        if NEWLINE in chunk then Finished(kept, Response(kept.buffer)) else kept
  }

  function AfterEvents(max: nat, events: seq<Event>): Exchange {
    if events == [] then SENT else AfterEvent(max, AfterEvents(max, events[..|events| - 1]), events[|events| - 1])
  }

  /** The text of the data events. */
  function Received(events: seq<Event>): Bytes {
    if events == [] then []
    else Received(events[..|events| - 1]) + if events[|events| - 1].Data? then events[|events| - 1].chunk else []
  }

  /** What the received text alone decides. */
  function Decided(max: nat, received: Bytes): Option<Outcome> {
    if NEWLINE in received then
      var k := FirstNewline(received);
      Some(if k + 1 <= max then Response(received[..k]) else TooLarge)
    else if |received| > max then Some(TooLarge)
    else None
  }

  lemma FirstNewlineUnique(bytes: Bytes, k: nat)
    requires k < |bytes| && bytes[k] == NEWLINE && NEWLINE !in bytes[..k]
    ensures FirstNewline(bytes) == k
  {
    var j := FirstNewline(bytes);
    assert forall i | 0 <= i < k :: bytes[i] in bytes[..k];
    assert forall i | 0 <= i < j :: bytes[i] in bytes[..j];
  }

  ghost predicate Unsettled(max: nat, x: Exchange, received: Bytes) {
    x == Exchange(received, |received|, None) && Decided(max, received) == None
  }

  /** One more data event settles exactly what the text so far decides. */
  lemma DataDecides(max: nat, x: Exchange, received: Bytes, chunk: Bytes)
    requires Unsettled(max, x, received)
    ensures var y := AfterEvent(max, x, Data(chunk));
            && y.settled == Decided(max, received + chunk)
            && (y.settled == None ==> Unsettled(max, y, received + chunk))
  {
    if NEWLINE in chunk {
      var k := FirstNewline(chunk);
      assert (received + chunk)[..|received| + k] == received + chunk[..k];
      FirstNewlineUnique(received + chunk, |received| + k);
    }
  }

  lemma DecidedForGood(max: nat, received: Bytes, chunk: Bytes)
    requires Decided(max, received).Some?
    ensures Decided(max, received + chunk) == Decided(max, received)
  {
    if NEWLINE in received {
      var k := FirstNewline(received);
      assert (received + chunk)[..k] == received[..k];
      FirstNewlineUnique(received + chunk, k);
    } else if NEWLINE in chunk {
      var k := FirstNewline(chunk);
      assert (received + chunk)[..|received| + k] == received + chunk[..k];
      FirstNewlineUnique(received + chunk, |received| + k);
    }
  }

  /** The event that settles a request if its data so far do not. */
  function Interruption(e: Event): Option<Outcome> {
    match e
    case Data(_) => None
    case Close => Some(HungUp)
    case Error => Some(SocketError)
    case Timer => Some(TimedOut)
  }

  /** The outcome a run of events ought to have: the text decides, unless the request is cut off first. */
  function Outcomes(max: nat, events: seq<Event>): Option<Outcome> {
    if events == [] then None
    else
      var n := |events| - 1;
      var before := Outcomes(max, events[..n]);
      if before.Some? then before
      else if events[n].Data? then Decided(max, Received(events)) else Interruption(events[n])
  }

  lemma {:induction false} RunSettles(max: nat, events: seq<Event>)
    ensures AfterEvents(max, events).settled == Outcomes(max, events)
    ensures Outcomes(max, events) == None ==> Unsettled(max, AfterEvents(max, events), Received(events))
  {
    if events != [] {
      var n := |events| - 1;
      RunSettles(max, events[..n]);
      var x, received := AfterEvents(max, events[..n]), Received(events[..n]);
      if x.settled == None && events[n].Data? {
        DataDecides(max, x, received, events[n].chunk);
      }
    }
  }

  /**
   * Chunk independence: with nothing but data, the outcome depends on the text alone. The first
   * line is returned exactly when it and its newline fit the cap.
   */
  lemma {:induction false} BytesDecide(max: nat, events: seq<Event>)
    requires forall i | 0 <= i < |events| :: events[i].Data?
    ensures AfterEvents(max, events).settled == Decided(max, Received(events))
  {
    RunSettles(max, events);
    if events != [] {
      var n := |events| - 1;
      BytesDecide(max, events[..n]);
      RunSettles(max, events[..n]);
      if Outcomes(max, events[..n]).Some? {
        DecidedForGood(max, Received(events[..n]), events[n].chunk);
      }
    }
  }

  /** A settled request never changes its mind, whatever events follow. */
  lemma {:induction false} SettledOnce(max: nat, events: seq<Event>, later: seq<Event>)
    requires AfterEvents(max, events).settled.Some?
    ensures AfterEvents(max, events + later).settled == AfterEvents(max, events).settled
  {
    if later == [] {
      EmptyIsUnit(events);
    } else {
      SettledOnce(max, events, later[..|later| - 1]);
      assert (events + later)[..|events + later| - 1] == events + later[..|later| - 1];
    }
  }

  /** What cuts off a request that is still open, and how it then ends. */
  lemma CutOff(max: nat, events: seq<Event>)
    requires AfterEvents(max, events).settled == None
    ensures AfterEvents(max, events + [Close]).settled == Some(HungUp)
    ensures AfterEvents(max, events + [Error]).settled == Some(SocketError)
    ensures AfterEvents(max, events + [Timer]).settled == Some(TimedOut)
  {
    OneMoreEvent(max, events, Close);
    OneMoreEvent(max, events, Error);
    OneMoreEvent(max, events, Timer);
    hide AfterEvents;
  }

  lemma OneMoreEvent(max: nat, events: seq<Event>, e: Event)
    ensures AfterEvents(max, events + [e]) == AfterEvent(max, AfterEvents(max, events), e)
  {
    hide AfterEvent;
    assert (events + [e])[..|events|] == events;
  }

  /** The framing of the servers, with no line called blank. */
  function Unskipping(max: nat): Config {
    Config(max, _ => false)
  }

  lemma FirstItem(max: nat, line: Bytes, after: Bytes)
    requires NEWLINE !in line
    ensures var due := Due(Unskipping(max), line + [NEWLINE] + after);
            due != [] && due[0] == if |line| + 1 <= max then Request(line) else Oversized
  {
    hide Due;
    DueClosed(Unskipping(max), line, after);
  }

  /** The client decides exactly the first item the servers' framers would report. */
  lemma ClientReadsFirstItem(max: nat, received: Bytes)
    ensures var due := Due(Unskipping(max), received);
            match Decided(max, received)
            case None => due == []
            case Some(Response(line)) => due != [] && due[0] == Request(line)
            case Some(_) => due != [] && due[0] == Oversized
  {
    hide Due, Unskipping;
    if NEWLINE in received {
      var k := FirstNewline(received);
      FirstItem(max, received[..k], received[k + 1..]);
      assert received == received[..k] + [NEWLINE] + received[k + 1..];
    } else {
      DueOpen(Unskipping(max), received);
      UnskippingMax(max);
    }
  }

  lemma UnskippingMax(max: nat)
    ensures Unskipping(max).max == max
  {
  }

  class Request {
    const maxResponseBytes: nat
    var buffer: Bytes
    var responseBytes: nat
    var settled: Option<Outcome>

    ghost function State(): Exchange
      reads this
    {
      Exchange(buffer, responseBytes, settled)
    }

    constructor (maxResponseBytes: nat)
      ensures this.maxResponseBytes == maxResponseBytes && State() == SENT
    {
      this.maxResponseBytes := maxResponseBytes;
      buffer, responseBytes, settled := [], 0, None;
    }

    method Finish(outcome: Outcome)
      modifies this
      ensures State() == Finished(old(State()), outcome)
    {
      if settled.Some? {
        return;
      }
      settled := Some(outcome);
    }

    method OnEvent(e: Event)
      modifies this
      ensures State() == AfterEvent(maxResponseBytes, old(State()), e)
    {
      match e
      case Close => Finish(HungUp);
      case Error => Finish(SocketError);
      case Timer => Finish(TimedOut);
      case Data(text) =>
        var fragment := if NEWLINE in text then text[..FirstNewline(text)] else text;
        responseBytes := responseBytes + |fragment| + if NEWLINE in text then 1 else 0;
        if responseBytes > maxResponseBytes {
          Finish(TooLarge);
          return;
        }
        buffer := buffer + fragment;
        if NEWLINE !in text {
          return;
        }
        Finish(Response(buffer));
    }
  }
}
