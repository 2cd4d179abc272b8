/** Requests to the webview and their completions: src/bridge.rs, lines 44-140. */
module AgentBridge {
  import opened Text

  /** What a completion carries to the waiting request. */
  datatype BridgeResult = Success(value: string) | Failure(code: Option<string>, message: string)

  /** Values are JSON texts. */
  datatype Response = Response(id: string, result: Option<string>, error: Option<string>, code: Option<string>)

  function ToResult(r: Response): BridgeResult {
    if r.error.Some? then Failure(r.code, r.error.value)
    else Success(if r.result.Some? then r.result.value else "null")
  }

  datatype Answer = Delivered(result: BridgeResult) | EmitError | TimedOut | Disconnected

  /** Where the thread of a request is: its id made, entered in the map, waiting, about to clean up, or back. */
  datatype Phase = Created | Inserted | Receiving | EmitFailed | Expired | Returned(answer: Answer)

  /** `taker` is the completion that took the request's sender out of the map, if one did. */
  datatype Request = Request(id: string, phase: Phase, channel: seq<BridgeResult>, taker: Option<nat>)

  /** A call of `complete`: holding the sender it took for request `target`, or over with its result. */
  datatype Completion = Completion(response: Response, target: Option<nat>, done: Option<bool>)

  /** The map holds, for an id, the sender of the request with that number. */
  datatype Bridge = Bridge(pending: map<string, nat>, nextId: nat, requests: seq<Request>, completions: seq<Completion>)

  const IDLE := Bridge(map[], 0, [], [])

  /** One uninterrupted step of some thread. */
  datatype Event = Begin(suffix: string) | Insert(i: nat) | Emit(i: nat, ok: bool) | CleanUp(i: nat)
                 | Receive(i: nat) | Expire(i: nat) | Take(response: Response) | Send(c: nat)

  function IdText(n: nat, suffix: string): string {
    "bridge-" + Decimal(n) + "-" + suffix
  }

  /** The first dash after the prefix ends the number. */
  lemma NumberEndsAtDash(n: nat, suffix: string)
    ensures var t, k := IdText(n, suffix)[7..], |Decimal(n)|;
            k < |t| && t[k] == '-' && t[..k] == Decimal(n) && forall i | 0 <= i < k :: t[i] != '-'
  {
    hide Decimal;
    assert IdText(n, suffix)[7..] == Decimal(n) + "-" + suffix;
    assert forall i | 0 <= i < |Decimal(n)| :: (Decimal(n) + "-" + suffix)[i] == Decimal(n)[i];
  }

  lemma IdTextInjective(n1: nat, s1: string, n2: nat, s2: string)
    requires IdText(n1, s1) == IdText(n2, s2)
    ensures n1 == n2
  {
    hide Decimal, IdText;
    NumberEndsAtDash(n1, s1);
    NumberEndsAtDash(n2, s2);
    DecimalInjective(n1, n2);
  }

  function WithPhase(b: Bridge, i: nat, phase: Phase): Bridge
    requires i < |b.requests|
  {
    b.(requests := b.requests[i := b.requests[i].(phase := phase)])
  }

  predicate HasPhase(b: Bridge, i: nat, phase: Phase) {
    i < |b.requests| && b.requests[i].phase == phase
  }

  /** Whether a sender for request `i` still exists anywhere. */
  predicate SenderAlive(b: Bridge, i: nat) {
    (exists id :: id in b.pending && b.pending[id] == i)
    || exists c :: 0 <= c < |b.completions| && b.completions[c].target == Some(i) && b.completions[c].done == None
  }

  function Step(b: Bridge, e: Event): Bridge {
    match e
    case Begin(suffix) =>
      b.(nextId := b.nextId + 1, requests := b.requests + [Request(IdText(b.nextId, suffix), Created, [], None)])
    case Insert(i) =>
      if HasPhase(b, i, Created) then WithPhase(b.(pending := b.pending[b.requests[i].id := i]), i, Inserted) else b
    case Emit(i, ok) =>
      if HasPhase(b, i, Inserted) then WithPhase(b, i, if ok then Receiving else EmitFailed) else b
    case CleanUp(i) =>
      if HasPhase(b, i, EmitFailed) || HasPhase(b, i, Expired) then
        var answer := if b.requests[i].phase == EmitFailed then EmitError else TimedOut;
        WithPhase(b.(pending := b.pending - {b.requests[i].id}), i, Returned(answer))
      else b
    case Receive(i) =>
      if !HasPhase(b, i, Receiving) then b
      else if b.requests[i].channel != [] then WithPhase(b, i, Returned(Delivered(b.requests[i].channel[0])))
      else if !SenderAlive(b, i) then WithPhase(b, i, Returned(Disconnected))
      else b
    case Expire(i) =>
      if HasPhase(b, i, Receiving) && b.requests[i].channel == [] then WithPhase(b, i, Expired) else b
    case Take(response) =>
      var c := |b.completions|;
      if response.id !in b.pending || b.pending[response.id] >= |b.requests| then
        b.(completions := b.completions + [Completion(response, None, Some(false))])
      else
        var i := b.pending[response.id];
        b.(pending := b.pending - {response.id},
           requests := b.requests[i := b.requests[i].(taker := Some(c))],
           completions := b.completions + [Completion(response, Some(i), None)])
    case Send(c) =>
      if c >= |b.completions| || b.completions[c].done.Some? || b.completions[c].target.None?
         || b.completions[c].target.value >= |b.requests| then b
      else
        var i := b.completions[c].target.value;
        var r, heard := b.requests[i], !b.requests[i].phase.Returned?;
        var channel := if heard then r.channel + [ToResult(b.completions[c].response)] else r.channel;
        b.(requests := b.requests[i := r.(channel := channel)],
           completions := b.completions[c := b.completions[c].(done := Some(heard))])
  }

  function Run(events: seq<Event>): Bridge {
    if events == [] then IDLE else Step(Run(events[..|events| - 1]), events[|events| - 1])
  }

  // ---------------------------------------------------------------- what every step keeps

  ghost predicate HasNumber(id: string, n: nat) {
    exists suffix :: id == IdText(n, suffix)
  }

  ghost predicate Numbered(b: Bridge) {
    && b.nextId == |b.requests|
    && (forall i | 0 <= i < |b.requests| :: HasNumber(b.requests[i].id, i))
  }

  /** A map entry is the sender of a request still under way that no completion has touched. */
  ghost predicate PendingOk(b: Bridge) {
    forall id | id in b.pending ::
      && b.pending[id] < |b.requests|
      && b.requests[b.pending[id]].id == id
      && b.requests[b.pending[id]].taker == None
      && b.requests[b.pending[id]].phase in {Inserted, Receiving, EmitFailed, Expired}
  }

  ghost predicate RequestOk(b: Bridge, i: nat)
    requires i < |b.requests|
  {
    var r := b.requests[i];
    && r.phase != Returned(Disconnected)
    && (r.phase == Created ==> r.taker == None)
    && match r.taker
       case None =>
         && r.channel == []
         && (!r.phase.Created? && !r.phase.Returned? ==> r.id in b.pending && b.pending[r.id] == i)
         && (r.phase.Returned? ==> r.phase.answer in {EmitError, TimedOut})
       case Some(c) =>
         && c < |b.completions|
         && b.completions[c].target == Some(i)
         && b.completions[c].response.id == r.id
         && match b.completions[c].done
            case None => r.channel == [] && (r.phase.Returned? ==> r.phase.answer in {EmitError, TimedOut})
            case Some(heard) =>
              && (!r.phase.Returned? ==> heard)
              && (heard ==> r.channel == [ToResult(b.completions[c].response)])
              && (r.phase.Returned? && r.phase.answer.Delivered? ==>
                  heard && r.phase.answer.result == ToResult(b.completions[c].response))
  }

  ghost predicate CompletionOk(b: Bridge, c: nat)
    requires c < |b.completions|
  {
    match b.completions[c].target
    case None => b.completions[c].done == Some(false)
    case Some(i) => i < |b.requests| && b.requests[i].taker == Some(c)
  }

  ghost predicate Inv(b: Bridge) {
    && Numbered(b) && PendingOk(b)
    && (forall i | 0 <= i < |b.requests| :: RequestOk(b, i))
    && (forall c | 0 <= c < |b.completions| :: CompletionOk(b, c))
  }

  lemma IdsApart(b: Bridge, i: nat, j: nat)
    requires Numbered(b) && i < |b.requests| && j < |b.requests| && b.requests[i].id == b.requests[j].id
    ensures i == j
  {
    hide IdText;
    assert HasNumber(b.requests[i].id, i) && HasNumber(b.requests[j].id, j);
    var s1 :| b.requests[i].id == IdText(i, s1);
    var s2 :| b.requests[j].id == IdText(j, s2);
    IdTextInjective(i, s1, j, s2);
  }

  lemma AllIdsApart(b: Bridge)
    requires Numbered(b)
    ensures forall i, j | 0 <= i < |b.requests| && 0 <= j < |b.requests| && b.requests[i].id == b.requests[j].id ::
              i == j
  {
    hide Numbered;
    forall i, j | 0 <= i < |b.requests| && 0 <= j < |b.requests| && b.requests[i].id == b.requests[j].id
      ensures i == j
    {
      IdsApart(b, i, j);
    }
  }

  lemma SameIds(b: Bridge, later: Bridge)
    requires Numbered(b) && later.nextId == b.nextId && |later.requests| == |b.requests|
    requires forall i | 0 <= i < |b.requests| :: later.requests[i].id == b.requests[i].id
    ensures Numbered(later)
  {
    hide HasNumber;
  }

  lemma BeginKeeps(b: Bridge, suffix: string)
    requires Inv(b)
    ensures Inv(Step(b, Begin(suffix)))
  {
    var later := Step(b, Begin(suffix));
    assert HasNumber(IdText(b.nextId, suffix), b.nextId);
    hide IdText, HasNumber;
    forall i | 0 <= i < |later.requests| ensures RequestOk(later, i) {
      assert i < |b.requests| ==> RequestOk(b, i) && later.requests[i] == b.requests[i];
    }
    forall c | 0 <= c < |b.completions| ensures CompletionOk(later, c) {
      assert CompletionOk(b, c);
    }
  }

  /** A step that moves one request on, and at most its own map entry, need only keep these two right. */
  lemma OneMoved(b: Bridge, later: Bridge, i: nat)
    requires Inv(b) && i < |b.requests| == |later.requests|
    requires later.completions == b.completions && later.nextId == b.nextId
    requires later.requests == b.requests[i := later.requests[i]]
    requires later.requests[i].id == b.requests[i].id && later.requests[i].taker == b.requests[i].taker
    requires forall id | id != b.requests[i].id ::
               (id in later.pending <==> id in b.pending) && (id in b.pending ==> later.pending[id] == b.pending[id])
    requires RequestOk(later, i) && PendingOk(later)
    ensures Inv(later)
  {
    AllIdsApart(b);
    SameIds(b, later);
    hide Numbered, PendingOk, ToResult;
    forall k | 0 <= k < |b.requests| ensures RequestOk(later, k) {
      assert RequestOk(b, k);
    }
    forall c | 0 <= c < |b.completions| ensures CompletionOk(later, c) {
      assert CompletionOk(b, c);
    }
  }

  /** A step of a request's own thread that only changes its phase. */
  lemma PhaseKeeps(b: Bridge, i: nat, phase: Phase)
    requires Inv(b) && i < |b.requests| && b.requests[i].phase in {Inserted, Receiving}
    requires phase in {Receiving, EmitFailed, Expired}
    ensures Inv(WithPhase(b, i, phase))
  {
    hide Numbered, ToResult, IdText;
    assert RequestOk(b, i);
    OneMoved(b, WithPhase(b, i, phase), i);
  }

  lemma InsertKeeps(b: Bridge, i: nat)
    requires Inv(b)
    ensures Inv(Step(b, Insert(i)))
  {
    AllIdsApart(b);
    hide Numbered, ToResult, IdText, SenderAlive;
    if HasPhase(b, i, Created) {
      assert RequestOk(b, i);
      OneMoved(b, Step(b, Insert(i)), i);
    }
  }

  lemma CleanUpKeeps(b: Bridge, i: nat)
    requires Inv(b)
    ensures Inv(Step(b, CleanUp(i)))
  {
    AllIdsApart(b);
    hide Numbered, ToResult, IdText, SenderAlive;
    if HasPhase(b, i, EmitFailed) || HasPhase(b, i, Expired) {
      assert RequestOk(b, i);
      OneMoved(b, Step(b, CleanUp(i)), i);
    }
  }

  /** The steps of a request's own thread, but for its receive. */
  lemma ThreadStepKeeps(b: Bridge, e: Event)
    requires Inv(b) && (e.Insert? || e.Emit? || e.CleanUp? || e.Expire?)
    ensures Inv(Step(b, e))
  {
    hide Inv;
    match e
    case Insert(i) => InsertKeeps(b, i);
    case CleanUp(i) => CleanUpKeeps(b, i);
    case Emit(i, ok) =>
      if HasPhase(b, i, Inserted) {
        PhaseKeeps(b, i, if ok then Receiving else EmitFailed);
      }
    case Expire(i) =>
      if HasPhase(b, i, Receiving) && b.requests[i].channel == [] {
        PhaseKeeps(b, i, Expired);
      }
  }

  lemma ReceiveKeeps(b: Bridge, i: nat)
    requires Inv(b)
    ensures Inv(Step(b, Receive(i)))
  {
    AllIdsApart(b);
    hide Numbered;
    var later := Step(b, Receive(i));
    if later != b {
      assert RequestOk(b, i);
      assert b.requests[i].channel == [] ==> SenderAlive(b, i);
      OneMoved(b, later, i);
    }
  }

  lemma TakeNothingKeeps(b: Bridge, response: Response)
    requires Inv(b) && response.id !in b.pending
    ensures Inv(Step(b, Take(response)))
  {
    hide Numbered, ToResult;
    var later := Step(b, Take(response));
    SameIds(b, later);
    forall k | 0 <= k < |b.requests| ensures RequestOk(later, k) {
      assert RequestOk(b, k);
    }
    forall c | 0 <= c < |later.completions| ensures CompletionOk(later, c) {
      assert c < |b.completions| ==> CompletionOk(b, c) && later.completions[c] == b.completions[c];
    }
  }

  lemma TakeKeeps(b: Bridge, response: Response)
    requires Inv(b) && response.id in b.pending
    ensures Inv(Step(b, Take(response)))
  {
    AllIdsApart(b);
    var later := Step(b, Take(response));
    SameIds(b, later);
    hide Numbered, ToResult;
    assert RequestOk(b, b.pending[response.id]);
    forall k | 0 <= k < |b.requests| ensures RequestOk(later, k) {
      assert RequestOk(b, k);
    }
    forall c | 0 <= c < |later.completions| ensures CompletionOk(later, c) {
      assert c < |b.completions| ==> CompletionOk(b, c) && later.completions[c] == b.completions[c];
    }
  }

  lemma SendKeeps(b: Bridge, c: nat)
    requires Inv(b)
    ensures Inv(Step(b, Send(c)))
  {
    var later := Step(b, Send(c));
    SameIds(b, later);
    assert c < |b.completions| ==> CompletionOk(b, c);
    forall k | 0 <= k < |b.requests| ensures RequestOk(later, k) {
      assert RequestOk(b, k);
    }
    forall d | 0 <= d < |b.completions| ensures CompletionOk(later, d) {
      assert CompletionOk(b, d);
    }
  }

  lemma {:induction false} RunKeeps(events: seq<Event>)
    ensures Inv(Run(events))
  {
    if events != [] {
      hide Inv, Step;
      var b, e := Run(events[..|events| - 1]), events[|events| - 1];
      RunKeeps(events[..|events| - 1]);
      match e
      case Begin(suffix) => BeginKeeps(b, suffix);
      case Receive(i) => ReceiveKeeps(b, i);
      case Take(response) =>
        if response.id in b.pending {
          TakeKeeps(b, response);
        } else {
          TakeNothingKeeps(b, response);
        }
      case Send(c) => SendKeeps(b, c);
      case _ => ThreadStepKeeps(b, e);
    }
  }

  // ---------------------------------------------------------------- what that means

  /** The result says what the response says: its error with the code, or else its value, null if it has none. */
  predicate Carries(result: BridgeResult, response: Response) {
    && (response.error.Some? ==> result == Failure(response.code, response.error.value))
    && (response.error.None? && response.result.Some? ==> result == Success(response.result.value))
    && (response.error.None? && response.result.None? ==> result == Success("null"))
  }

  /**
   * In every interleaving: a request that is back left no map entry behind; if it got a result,
   * that was submitted under its own id, by the one completion of that id that returned true; and
   * it never found its channel disconnected.
   */
  lemma RequestsGetTheirOwnResult(events: seq<Event>, i: nat)
    requires i < |Run(events).requests| && Run(events).requests[i].phase.Returned?
    ensures var b := Run(events);
            var r := b.requests[i];
            && r.id !in b.pending
            && r.phase.answer != Disconnected
            && (r.phase.answer.Delivered? ==>
                exists c :: 0 <= c < |b.completions| && b.completions[c].response.id == r.id
                  && b.completions[c].done == Some(true)
                  && Carries(r.phase.answer.result, b.completions[c].response))
  {
    hide Run;
    RunKeeps(events);
    var b := Run(events);
    assert RequestOk(b, i);
    if b.requests[i].id in b.pending {
      AllIdsApart(b);
    }
  }

  /** `complete` returns true at most once per id, however often and whenever it is called. */
  lemma CompletesOncePerId(events: seq<Event>, c: nat, d: nat)
    requires c < |Run(events).completions| && d < |Run(events).completions|
    requires Run(events).completions[c].done == Some(true) && Run(events).completions[d].done == Some(true)
    requires Run(events).completions[c].response.id == Run(events).completions[d].response.id
    ensures c == d
  {
    hide Run;
    RunKeeps(events);
    var b := Run(events);
    AllIdsApart(b);
    hide Numbered;
    assert CompletionOk(b, c) && CompletionOk(b, d);
    assert RequestOk(b, b.completions[c].target.value) && RequestOk(b, b.completions[d].target.value);
  }

  /** No two requests share an id, whatever the random suffixes are. */
  lemma IdsAreFresh(events: seq<Event>, i: nat, j: nat)
    requires i < j < |Run(events).requests|
    ensures Run(events).requests[i].id != Run(events).requests[j].id
  {
    hide Run;
    RunKeeps(events);
    if Run(events).requests[i].id == Run(events).requests[j].id {
      IdsApart(Run(events), i, j);
    }
  }

  lemma RunOne(events: seq<Event>, e: Event)
    ensures Run(events + [e]) == Step(Run(events), e)
  {
    assert (events + [e])[..|events|] == events;
  }

  // ---------------------------------------------------------------- why a request gave up

  /** At step `n` the emit of request `i` came back. */
  ghost predicate EmitTook(events: seq<Event>, n: nat, i: nat, ok: bool) {
    n < |events| && events[n] == Emit(i, ok) && HasPhase(Run(events[..n]), i, Inserted)
  }

  /** At step `n` the deadline of request `i` struck, with nothing in its channel. */
  ghost predicate DeadlineStruck(events: seq<Event>, n: nat, i: nat) {
    && n < |events| && events[n] == Expire(i) && HasPhase(Run(events[..n]), i, Receiving)
    && Run(events[..n]).requests[i].channel == []
  }

  predicate EmitWentWrong(b: Bridge, i: nat) {
    i < |b.requests| && b.requests[i].phase in {EmitFailed, Returned(EmitError)}
  }

  predicate RanOutOfTime(b: Bridge, i: nat) {
    i < |b.requests| && b.requests[i].phase in {Expired, Returned(TimedOut)}
  }

  lemma StepGivesUp(b: Bridge, e: Event, i: nat)
    ensures EmitWentWrong(Step(b, e), i) <==> EmitWentWrong(b, i) || (e == Emit(i, false) && HasPhase(b, i, Inserted))
    ensures RanOutOfTime(Step(b, e), i)
            <==> RanOutOfTime(b, i) || (e == Expire(i) && HasPhase(b, i, Receiving) && b.requests[i].channel == [])
  {
    hide IdText, SenderAlive, ToResult;
  }

  lemma SamePast(events: seq<Event>, e: Event, n: nat, i: nat)
    ensures n < |events| ==> (EmitTook(events + [e], n, i, false) <==> EmitTook(events, n, i, false))
    ensures n < |events| ==> (DeadlineStruck(events + [e], n, i) <==> DeadlineStruck(events, n, i))
    ensures (events + [e])[..|events|] == events && (events + [e])[|events|] == e
  {
    hide Run;
    assert n < |events| ==> (events + [e])[..n] == events[..n] && (events + [e])[n] == events[n];
  }

  /** A request fails with the error of the emit iff that failed, and times out iff its deadline struck. */
  lemma {:induction false} GaveUpIff(events: seq<Event>, i: nat)
    ensures EmitWentWrong(Run(events), i) <==> exists n: nat :: EmitTook(events, n, i, false)
    ensures RanOutOfTime(Run(events), i) <==> exists n: nat :: DeadlineStruck(events, n, i)
  {
    hide Run, Step, HasPhase, EmitWentWrong, RanOutOfTime;
    if events == [] {
      RunNone();
      NobodyGivesUp(i);
    } else {
      var before, e := events[..|events| - 1], events[|events| - 1];
      LastApart(events);
      GaveUpIff(before, i);
      RunOne(before, e);
      StepGivesUp(Run(before), e, i);
      forall n: nat ensures n < |before| ==>
          && (EmitTook(events, n, i, false) <==> EmitTook(before, n, i, false))
          && (DeadlineStruck(events, n, i) <==> DeadlineStruck(before, n, i)) {
        SamePast(before, e, n, i);
      }
      SamePast(before, e, 0, i);
      if EmitTook(before + [e], |before|, i, false) || DeadlineStruck(before + [e], |before|, i) {
        assert e.Emit? || e.Expire?;
      }
    }
  }

  lemma NobodyGivesUp(i: nat)
    ensures !EmitWentWrong(IDLE, i) && !RanOutOfTime(IDLE, i)
  {
  }

  // ---------------------------------------------------------------- when a sent result arrives

  /** The outcome of the first emit of request `i` among these events. */
  function FirstEmit(events: seq<Event>, i: nat): Option<bool> {
    if events == [] then None
    else
      var before, last := FirstEmit(events[..|events| - 1], i), events[|events| - 1];
      if before.None? && last.Emit? && last.i == i then Some(last.ok) else before
  }

  lemma FirstEmitOne(events: seq<Event>, e: Event, i: nat)
    ensures FirstEmit(events + [e], i)
         == if FirstEmit(events, i).None? && e.Emit? && e.i == i then Some(e.ok) else FirstEmit(events, i)
  {
    assert (events + [e])[..|events|] == events;
  }

  /** The phase of a request at the sending of its result, and its first emit after that, if any, get it the result. */
  predicate InTime(phase: Phase, emit: Option<bool>) {
    phase == Receiving || (phase == Inserted && emit == Some(true))
  }

  /** Request `i`, whose only result `x` was sent by completion `c`, is where these two facts have brought it. */
  ghost predicate Fated(b: Bridge, i: nat, c: nat, x: BridgeResult, phase: Phase, emit: Option<bool>) {
    && i < |b.requests| && c < |b.completions|
    && b.requests[i].taker == Some(c) && b.completions[c].done.Some?
    && var r := b.requests[i];
       if InTime(phase, emit) then
         (r.phase == Receiving && r.channel == [x]) || r.phase == Returned(Delivered(x))
       else if phase == Inserted && emit == None then
         r.phase == Inserted && r.channel == [x]
       else
         r.phase in {EmitFailed, Expired, Returned(EmitError), Returned(TimedOut)}
  }

  lemma SendFates(b: Bridge, i: nat, c: nat)
    requires Inv(b) && c < |b.completions| && b.completions[c].done == None && b.completions[c].target == Some(i)
    ensures i < |b.requests|
    ensures Fated(Step(b, Send(c)), i, c, ToResult(b.completions[c].response), b.requests[i].phase, None)
    ensures Step(b, Send(c)).completions[c].done == Some(!b.requests[i].phase.Returned?)
  {
    assert CompletionOk(b, c);
    assert RequestOk(b, i);
  }

  /** No second result can come, so an answer in the channel outlasts the deadline, and no answer comes later. */
  lemma StepKeepsFate(b: Bridge, e: Event, i: nat, c: nat, x: BridgeResult, phase: Phase, emit: Option<bool>)
    requires Inv(b) && Fated(b, i, c, x, phase, emit)
    ensures Fated(Step(b, e), i, c, x, phase, if emit.None? && e.Emit? && e.i == i then Some(e.ok) else emit)
  {
    hide Numbered, IdText, SenderAlive;
    assert e.Send? && e.c < |b.completions| ==> CompletionOk(b, e.c);
    assert e.Take? && e.response.id in b.pending ==> b.pending[e.response.id] != i;
  }

  lemma {:induction false} RunKeepsFate(
      first: seq<Event>, rest: seq<Event>, i: nat, c: nat, x: BridgeResult, phase: Phase)
    requires Fated(Run(first), i, c, x, phase, None)
    ensures Fated(Run(first + rest), i, c, x, phase, FirstEmit(rest, i))
  {
    hide Run, Step, Inv, Fated, FirstEmit;
    if rest == [] {
      assert first + rest == first;
      NoEmit(i);
    } else {
      var before, e := rest[..|rest| - 1], rest[|rest| - 1];
      LastApart(rest);
      RunKeepsFate(first, before, i, c, x, phase);
      RunKeeps(first + before);
      StepKeepsFate(Run(first + before), e, i, c, x, phase, FirstEmit(before, i));
      Assoc(first, before, [e]);
      RunOne(first + before, e);
      FirstEmitOne(before, e, i);
    }
  }

  lemma NoEmit(i: nat)
    ensures FirstEmit([], i) == None
  {
  }

  /**
   * For every send of a taken result: the completion returns true iff the request is not back yet,
   * and the request comes back with the result iff it is already waiting when the send happens, or
   * is about to emit and that then succeeds. A request past its deadline loses it, and one whose
   * result was taken before the deadline but sent after it does too.
   */
  lemma SentIsDeliveredIff(events: seq<Event>, n: nat, c: nat, i: nat)
    requires n < |events| && events[n] == Send(c)
    requires var sent := Run(events[..n]);
             c < |sent.completions| && sent.completions[c].done == None && sent.completions[c].target == Some(i)
    requires i < |Run(events).requests| && Run(events).requests[i].phase.Returned?
    ensures var sent, now := Run(events[..n]), Run(events);
            && i < |sent.requests| && c < |now.completions|
            && now.completions[c].done == Some(!sent.requests[i].phase.Returned?)
            && (now.requests[i].phase.answer.Delivered? <==>
                InTime(sent.requests[i].phase, FirstEmit(events[n + 1..], i)))
            && (now.requests[i].phase.answer.Delivered? ==>
                Carries(now.requests[i].phase.answer.result, sent.completions[c].response))
  {
    hide Run, Step, Inv, FirstEmit;
    var first, rest := events[..n], events[n + 1..];
    var sent := Run(first);
    RunKeeps(first);
    SendFates(sent, i, c);
    RunOne(first, Send(c));
    assert first + [Send(c)] == events[..n + 1] && events[..n + 1] + rest == events;
    RunKeepsFate(first + [Send(c)], rest, i, c, ToResult(sent.completions[c].response), sent.requests[i].phase);
    RunKeepsDone(first + [Send(c)], rest, c);
  }

  lemma {:induction false} RunKeepsDone(first: seq<Event>, rest: seq<Event>, c: nat)
    requires c < |Run(first).completions| && Run(first).completions[c].done.Some?
    ensures c < |Run(first + rest).completions|
    ensures Run(first + rest).completions[c] == Run(first).completions[c]
  {
    hide Run;
    if rest == [] {
      assert first + rest == first;
    } else {
      var before, e := rest[..|rest| - 1], rest[|rest| - 1];
      LastApart(rest);
      RunKeepsDone(first, before, c);
      Assoc(first, before, [e]);
      RunOne(first + before, e);
    }
  }

  // ---------------------------------------------------------------- an accepted result

  /** A completion told true reached its request: as its result, unless that was already giving up. */
  lemma AcceptedIsDeliveredOrTooLate(events: seq<Event>, c: nat)
    requires c < |Run(events).completions| && Run(events).completions[c].done == Some(true)
    ensures var b := Run(events);
            var completion := b.completions[c];
            && completion.target.Some? && completion.target.value < |b.requests|
            && var r := b.requests[completion.target.value];
            && r.id == completion.response.id
            && (r.phase.Returned? ==>
                || r.phase.answer in {TimedOut, EmitError}
                || (r.phase.answer.Delivered? && Carries(r.phase.answer.result, completion.response)))
  {
    hide Run;
    RunKeeps(events);
    var b := Run(events);
    assert CompletionOk(b, c);
    assert RequestOk(b, b.completions[c].target.value);
  }

  /** Too late does happen: a result accepted between the deadline and the clean-up is lost. */
  lemma AcceptedButTimedOut(answer: Response)
    requires answer.id == IdText(0, "")
    ensures var b := Run([Begin(""), Insert(0), Emit(0, true), Expire(0), Take(answer), Send(0), CleanUp(0)]);
            && |b.completions| == 1 && b.completions[0].done == Some(true)
            && |b.requests| == 1 && b.requests[0].phase == Returned(TimedOut)
  {
    hide Run, IdText;
    RunNone();
    var none: seq<Event> := [];
    var e1 := none + [Begin("")];
    var e2, e3 := e1 + [Insert(0)], e1 + [Insert(0)] + [Emit(0, true)];
    var e4, e5 := e3 + [Expire(0)], e3 + [Expire(0)] + [Take(answer)];
    var e6, e7 := e5 + [Send(0)], e5 + [Send(0)] + [CleanUp(0)];
    RunOne(none, Begin(""));
    RunOne(e1, Insert(0));
    RunOne(e2, Emit(0, true));
    assert Run(e3) == Bridge(map[IdText(0, "") := 0], 1, [Request(IdText(0, ""), Receiving, [], None)], []);
    RunOne(e3, Expire(0));
    RunOne(e4, Take(answer));
    assert Run(e5) == Bridge(map[], 1, [Request(IdText(0, ""), Expired, [], Some(0))],
                             [Completion(answer, Some(0), None)]);
    RunOne(e5, Send(0));
    RunOne(e6, CleanUp(0));
    assert e7 == [Begin(""), Insert(0), Emit(0, true), Expire(0), Take(answer), Send(0), CleanUp(0)];
  }

  lemma RunNone()
    ensures Run([]) == IDLE
  {
  }

  lemma InsertedIs(b: Bridge, i: nat)
    requires Inv(b) && HasPhase(b, i, Created)
    ensures Step(b, Insert(i)) == WithPhase(b.(pending := b.pending[b.requests[i].id := i]), i, Inserted)
    ensures b.requests[i].channel == []
  {
    assert RequestOk(b, i);
  }

  /** Left to itself, a request gets what is submitted for it. */
  lemma UndisturbedRequest(events: seq<Event>, i: nat, response: Response)
    requires HasPhase(Run(events), i, Created) && response.id == Run(events).requests[i].id
    ensures var b, c := Run(events), |Run(events).completions|;
            var waiting := Step(Step(b, Insert(i)), Emit(i, true));
            var received := Step(Step(Step(waiting, Take(response)), Send(c)), Receive(i));
            && i < |received.requests| && c < |received.completions|
            && received.requests[i].phase.Returned? && received.requests[i].phase.answer.Delivered?
            && Carries(received.requests[i].phase.answer.result, response)
            && response.id !in received.pending && received.completions[c].done == Some(true)
  {
    hide Run;
    RunKeeps(events);
    InsertedIs(Run(events), i);
    hide Inv, SenderAlive, IdText;
  }

  /** With a failing emit it fails, with nothing submitted in time it times out, and it leaves no entry. */
  lemma UnansweredRequest(events: seq<Event>, i: nat)
    requires HasPhase(Run(events), i, Created)
    ensures var b := Run(events);
            var failed := Step(Step(Step(b, Insert(i)), Emit(i, false)), CleanUp(i));
            var late := Step(Step(Step(Step(b, Insert(i)), Emit(i, true)), Expire(i)), CleanUp(i));
            && HasPhase(failed, i, Returned(EmitError)) && b.requests[i].id !in failed.pending
            && HasPhase(late, i, Returned(TimedOut)) && b.requests[i].id !in late.pending
  {
    hide Run;
    RunKeeps(events);
    InsertedIs(Run(events), i);
    hide Inv, SenderAlive, IdText;
  }

  /** Without a sender left a receive would find its channel disconnected; with one, or a result, it does not. */
  lemma DisconnectedIffNoSender(b: Bridge, i: nat)
    requires HasPhase(b, i, Receiving)
    ensures HasPhase(Step(b, Receive(i)), i, Returned(Disconnected)) <==>
              && b.requests[i].channel == []
              && (forall id | id in b.pending :: b.pending[id] != i)
              && forall c | 0 <= c < |b.completions| && b.completions[c].done == None ::
                   b.completions[c].target != Some(i)
  {
  }

  /** A completion for an id that no request awaits returns false, and disturbs nobody. */
  lemma UnknownIdIsRefused(events: seq<Event>, response: Response)
    requires response.id !in Run(events).pending
    ensures var b, later := Run(events), Step(Run(events), Take(response));
            && later.completions == b.completions + [Completion(response, None, Some(false))]
            && later.pending == b.pending && later.requests == b.requests
  {
    hide Run;
  }

  // ---------------------------------------------------------------- the object

  /** Map, counter and channels in place; every method is one critical section, channel operation or thread step. */
  class BridgeState {
    var pending: map<string, nat>
    var nextId: nat
    var requests: seq<Request>
    var completions: seq<Completion>

    function State(): Bridge
      reads this
    {
      Bridge(pending, nextId, requests, completions)
    }

    constructor ()
      ensures State() == IDLE
    {
      pending, nextId, requests, completions := map[], 0, [], [];
    }

    method SetPhase(i: nat, phase: Phase)
      requires i < |requests|
      modifies this`requests
      ensures State() == WithPhase(old(State()), i, phase)
    {
      requests := requests[i := requests[i].(phase := phase)];
    }

    /** `fetch_add` and the id made from it. */
    method Begin(suffix: string) returns (id: string)
      modifies this
      ensures State() == Step(old(State()), Event.Begin(suffix))
      ensures id == State().requests[|State().requests| - 1].id
    {
      id := IdText(nextId, suffix);
      nextId := nextId + 1;
      requests := requests + [Request(id, Created, [], None)];
    }

    method InsertPending(i: nat)
      requires i < |requests| && requests[i].phase == Created
      modifies this
      ensures State() == Step(old(State()), Insert(i))
    {
      pending := pending[requests[i].id := i];
      SetPhase(i, Inserted);
    }

    /** `emit_to` has returned. */
    method Emitted(i: nat, ok: bool)
      requires i < |requests| && requests[i].phase == Inserted
      modifies this
      ensures State() == Step(old(State()), Emit(i, ok))
    {
      if ok {
        SetPhase(i, Receiving);
      } else {
        SetPhase(i, EmitFailed);
      }
    }

    method RemovePending(id: string) returns (sender: Option<nat>)
      modifies this`pending
      ensures sender == if id in old(pending) then Some(old(pending)[id]) else None
      ensures pending == old(pending) - {id}
    {
      if id !in pending {
        return None;
      }
      sender := Some(pending[id]);
      pending := pending - {id};
    }

    /** The two error paths of `request_webview`. */
    method GiveUp(i: nat)
      requires i < |requests| && requests[i].phase in {EmitFailed, Expired}
      modifies this
      ensures State() == Step(old(State()), CleanUp(i))
    {
      var _ := RemovePending(requests[i].id);
      if requests[i].phase == EmitFailed {
        SetPhase(i, Returned(EmitError));
      } else {
        SetPhase(i, Returned(TimedOut));
      }
    }

    /** `recv_timeout` before its deadline: a result, a disconnected channel, or still blocked. */
    method Receive(i: nat)
      requires i < |requests| && requests[i].phase == Receiving
      modifies this
      ensures State() == Step(old(State()), Event.Receive(i))
    {
      if requests[i].channel != [] {
        SetPhase(i, Returned(Delivered(requests[i].channel[0])));
      } else if !SenderAlive(State(), i) {
        SetPhase(i, Returned(Disconnected));
      }
    }

    /** `recv_timeout` at its deadline, with an empty channel. */
    method Expire(i: nat)
      requires i < |requests| && requests[i].phase == Receiving && requests[i].channel == []
      modifies this
      ensures State() == Step(old(State()), Event.Expire(i))
    {
      SetPhase(i, Expired);
    }

    /** The first half of `complete`: only one caller gets an id's sender. */
    method TakeSender(response: Response) returns (c: nat)
      requires forall id | id in pending :: pending[id] < |requests|
      modifies this
      ensures State() == Step(old(State()), Take(response))
      ensures c == |old(State()).completions|
    {
      c := |completions|;
      var sender := RemovePending(response.id);
      if sender.None? {
        completions := completions + [Completion(response, None, Some(false))];
      } else {
        requests := requests[sender.value := requests[sender.value].(taker := Some(c))];
        completions := completions + [Completion(response, sender, None)];
      }
    }

    /** The second half: `sender.send` succeeds iff the request still holds its receiver. */
    method SendResult(c: nat) returns (ok: bool)
      requires c < |completions| && completions[c].done == None
      requires completions[c].target.Some? && completions[c].target.value < |requests|
      modifies this
      ensures State() == Step(old(State()), Send(c))
      ensures State().completions[c].done == Some(ok)
    {
      var i := completions[c].target.value;
      ok := !requests[i].phase.Returned?;
      if ok {
        var result := if completions[c].response.error.Some?
                      then Failure(completions[c].response.code, completions[c].response.error.value)
                      else Success(if completions[c].response.result.Some?
                                   then completions[c].response.result.value else "null");
        requests := requests[i := requests[i].(channel := requests[i].channel + [result])];
      }
      completions := completions[c := completions[c].(done := Some(ok))];
    }
  }
}
