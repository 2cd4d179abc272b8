/**
 * Bridge responses before direct invokes: guest-js/bridge-gate.ts, with handleBridgeRequest of
 * guest-js/instrumentation.ts (lines 678-699) and invokeAgentCommand of guest-js/index.ts (lines 507-510).
 */
module BridgeGate {
  import opened Text

  /**
   * The module's variables. Gates are promises, numbered as created; `resolved` are the resolved
   * ones. `released` are the tokens' flags, one token per deferral.
   */
  datatype Gate = Gate(active: int, gate: Option<nat>, created: nat, resolved: set<nat>, released: seq<bool>)

  const QUIET := Gate(0, None, 0, {}, [])

  function Deferred(g: Gate): Gate {
    var gated := if g.gate.Some? then g else g.(gate := Some(g.created), created := g.created + 1);
    gated.(active := g.active + 1, released := g.released + [false])
  }

  function Released(g: Gate, token: nat): Gate
    requires token < |g.released|
  {
    if g.released[token] then g
    else
      var fewer := g.(released := g.released[token := true], active := g.active - 1);
      if fewer.active == 0 && g.gate.Some? then fewer.(gate := None, resolved := g.resolved + {g.gate.value})
      else if fewer.active == 0 then fewer.(gate := None)
      else fewer
  }

  function Held(released: seq<bool>): nat {
    if released == [] then 0
    else Held(released[..|released| - 1]) + if released[|released| - 1] then 0 else 1
  }

  /** The gate exists exactly while some token is held; every gate but the present one is open. */
  ghost predicate GateInv(g: Gate) {
    && g.active == Held(g.released)
    && (g.gate.Some? <==> g.active > 0)
    && (g.gate.Some? ==> g.gate.value < g.created)
    && (forall n: nat :: n in g.resolved <==> n < g.created && g.gate != Some(n))
  }

  lemma {:induction false} HeldUpdate(released: seq<bool>, token: nat)
    requires token < |released| && !released[token]
    ensures Held(released[token := true]) == Held(released) - 1
  {
    var n := |released| - 1;
    if token < n {
      HeldUpdate(released[..n], token);
      assert released[token := true][..n] == released[..n][token := true];
    } else {
      assert released[token := true][..n] == released[..n];
    }
  }

  lemma {:induction false} NoneHeld(released: seq<bool>)
    ensures Held(released) == 0 <==> forall i | 0 <= i < |released| :: released[i]
  {
    if released != [] {
      NoneHeld(released[..|released| - 1]);
    }
  }

  lemma DeferKeeps(g: Gate)
    requires GateInv(g)
    ensures GateInv(Deferred(g))
    ensures Deferred(g).released == g.released + [false] && Deferred(g).gate.Some?
  {
    assert (g.released + [false])[..|g.released|] == g.released;
  }

  lemma ReleaseKeeps(g: Gate, token: nat)
    requires GateInv(g) && token < |g.released|
    ensures GateInv(Released(g, token))
    ensures Released(g, token).released == g.released[token := true]
    ensures Released(Released(g, token), token) == Released(g, token)
  {
    if !g.released[token] {
      HeldUpdate(g.released, token);
    }
  }

  // ---------------------------------------------------------------- requests and direct invokes

  /** A bridge request: running its method, awaiting its response call, awaiting the error response, or past both. */
  datatype Handling = Executing | Responding | RespondingError | Settled

  /** A direct invoke: the gate it awaits, the requests being handled when it began, and whether it was issued. */
  datatype Invoke = Invoke(gate: Option<nat>, begunDuring: set<nat>, issued: bool)

  /** Request number `i` holds token number `i`. */
  datatype Page = Page(gate: Gate, requests: seq<Handling>, invokes: seq<Invoke>)

  datatype Event = Arrive | Executed(i: nat, ok: bool) | Responded(i: nat, ok: bool) | Release(i: nat)
                 | BeginInvoke | Issue(w: nat)

  const LOADED := Page(QUIET, [], [])

  /** The requests whose `finally` has not released their token yet. */
  function BeingHandled(p: Page): set<nat> {
    set i | 0 <= i < |p.gate.released| && !p.gate.released[i]
  }

  predicate MayIssue(p: Page, w: nat) {
    w < |p.invokes| && (p.invokes[w].gate.Some? ==> p.invokes[w].gate.value in p.gate.resolved)
  }

  function Step(p: Page, e: Event): Page {
    match e
    case Arrive => p.(gate := Deferred(p.gate), requests := p.requests + [Executing])
    case Executed(i, ok) =>
      if i < |p.requests| && p.requests[i] == Executing then
        p.(requests := p.requests[i := if ok then Responding else RespondingError])
      else p
    case Responded(i, ok) =>
      if i < |p.requests| && p.requests[i] == Responding then
        p.(requests := p.requests[i := if ok then Settled else RespondingError])
      else if i < |p.requests| && p.requests[i] == RespondingError then
        p.(requests := p.requests[i := Settled])
      else p
    case Release(i) =>
      if i < |p.requests| && p.requests[i] == Settled && i < |p.gate.released| then p.(gate := Released(p.gate, i))
      else p
    case BeginInvoke => p.(invokes := p.invokes + [Invoke(p.gate.gate, BeingHandled(p), false)])
    case Issue(w) => if MayIssue(p, w) then p.(invokes := p.invokes[w := p.invokes[w].(issued := true)]) else p
  }

  function Run(events: seq<Event>): Page {
    if events == [] then LOADED else Step(Run(events[..|events| - 1]), events[|events| - 1])
  }

  ghost predicate InvokeOk(p: Page, v: Invoke) {
    && (forall i | i in v.begunDuring :: i < |p.gate.released|)
    && match v.gate
       case None => v.begunDuring == {}
       case Some(n) =>
         && n < p.gate.created
         && (n in p.gate.resolved ==> forall i | i in v.begunDuring :: p.gate.released[i])
         && (v.issued ==> n in p.gate.resolved)
  }

  ghost predicate Inv(p: Page) {
    && GateInv(p.gate)
    && |p.requests| == |p.gate.released|
    && (forall i | 0 <= i < |p.requests| && p.gate.released[i] :: p.requests[i] == Settled)
    && (forall w | 0 <= w < |p.invokes| :: InvokeOk(p, p.invokes[w]))
  }

  lemma ArriveKeeps(p: Page)
    requires Inv(p)
    ensures Inv(Step(p, Arrive))
  {
    DeferKeeps(p.gate);
    var later := Step(p, Arrive);
    forall w | 0 <= w < |p.invokes| ensures InvokeOk(later, p.invokes[w]) {
      assert InvokeOk(p, p.invokes[w]);
    }
    hide GateInv, InvokeOk;
  }

  lemma ReleaseStepKeeps(p: Page, i: nat)
    requires Inv(p)
    ensures Inv(Step(p, Release(i)))
  {
    if i < |p.requests| && p.requests[i] == Settled {
      ReleaseKeeps(p.gate, i);
      var later := Step(p, Release(i));
      NoneHeld(later.gate.released);
      forall w | 0 <= w < |p.invokes| ensures InvokeOk(later, p.invokes[w]) {
        assert InvokeOk(p, p.invokes[w]);
      }
      hide InvokeOk;
    }
  }

  lemma BeginKeeps(p: Page)
    requires Inv(p)
    ensures Inv(Step(p, BeginInvoke))
  {
    NoneHeld(p.gate.released);
    assert p.gate.gate.None? ==> BeingHandled(p) == {};
    assert forall w | 0 <= w < |p.invokes| :: InvokeOk(p, p.invokes[w]);
  }

  lemma IssueKeeps(p: Page, w: nat)
    requires Inv(p)
    ensures Inv(Step(p, Issue(w)))
  {
    hide GateInv;
    assert forall v | 0 <= v < |p.invokes| :: InvokeOk(p, p.invokes[v]);
  }

  /** Requests may move on as long as those with a released token stay settled. */
  lemma ProgressKeeps(p: Page, requests: seq<Handling>)
    requires Inv(p) && |requests| == |p.requests|
    requires forall i | 0 <= i < |requests| && p.gate.released[i] :: requests[i] == Settled
    ensures Inv(p.(requests := requests))
  {
    hide GateInv;
    forall w | 0 <= w < |p.invokes| ensures InvokeOk(p.(requests := requests), p.invokes[w]) {
      assert InvokeOk(p, p.invokes[w]);
    }
  }

  lemma StepKeeps(p: Page, e: Event)
    requires Inv(p)
    ensures Inv(Step(p, e))
  {
    hide GateInv, InvokeOk;
    match e
    case Arrive => ArriveKeeps(p);
    case Release(i) => ReleaseStepKeeps(p, i);
    case BeginInvoke => BeginKeeps(p);
    case Issue(w) => IssueKeeps(p, w);
    case Executed(i, _) => ProgressKeeps(p, Step(p, e).requests);
    case Responded(i, _) => ProgressKeeps(p, Step(p, e).requests);
  }

  lemma {:induction false} RunKeeps(events: seq<Event>)
    ensures Inv(Run(events))
  {
    if events != [] {
      hide Inv, Step;
      RunKeeps(events[..|events| - 1]);
      StepKeeps(Run(events[..|events| - 1]), events[|events| - 1]);
    }
  }

  /**
   * In every interleaving, a direct invoke begun while a bridge request was being handled is issued
   * only once that request's response call has settled. (A prefix of a run is a run, so what holds
   * after any run held before.)
   */
  lemma ResponseBeforeInvoke(events: seq<Event>, w: nat, i: nat)
    requires w < |Run(events).invokes| && Run(events).invokes[w].issued
    requires i in Run(events).invokes[w].begunDuring
    ensures i < |Run(events).requests| && Run(events).requests[i] == Settled
  {
    hide Run;
    RunKeeps(events);
    assert InvokeOk(Run(events), Run(events).invokes[w]);
  }

  /** The gate exists exactly while a token is held, and once none is, every waiting invoke may go. */
  lemma GateIffHeld(events: seq<Event>)
    ensures var p := Run(events);
            && p.gate.active == Held(p.gate.released)
            && (p.gate.gate.Some? <==> exists i :: 0 <= i < |p.gate.released| && !p.gate.released[i])
            && ((forall i | 0 <= i < |p.gate.released| :: p.gate.released[i]) ==>
                forall w | 0 <= w < |p.invokes| :: MayIssue(p, w))
  {
    hide Run;
    RunKeeps(events);
    var p := Run(events);
    NoneHeld(p.gate.released);
    assert forall w | 0 <= w < |p.invokes| :: InvokeOk(p, p.invokes[w]);
  }

  // ---------------------------------------------------------------- and that everything does go on

  /**
   * A request whose method or response call fails makes an error response call; however they end,
   * it is past them after three steps, and then drops its token.
   */
  lemma RequestGoesOn(p: Page, i: nat, ok: bool, sent: bool, reported: bool)
    requires Inv(p) && i < |p.requests|
    ensures var past := Step(Step(Step(p, Executed(i, ok)), Responded(i, sent)), Responded(i, reported));
            past.requests == p.requests[i := Settled] && past.gate == p.gate && past.invokes == p.invokes
    ensures p.requests[i] == Responding ==>
              Step(p, Responded(i, sent)).requests[i] == if sent then Settled else RespondingError
    ensures p.requests[i] == Executing ==>
              Step(p, Executed(i, ok)).requests[i] == if ok then Responding else RespondingError
    ensures p.requests[i] == Settled ==> Step(p, Release(i)).gate.released == p.gate.released[i := true]
    ensures Step(p, Arrive).requests == p.requests + [Executing]
            && Step(p, Arrive).gate.released == p.gate.released + [false]
  {
    hide GateInv, InvokeOk;
    if p.requests[i] == Settled && !p.gate.released[i] {
      assert Step(p, Release(i)).gate == Released(p.gate, i);
    }
  }

  /** An invoke begun while no request holds a token may go at once, and then does. */
  lemma InvokeGoes(events: seq<Event>)
    ensures var p := Run(events);
            var w, begun := |p.invokes|, Step(p, BeginInvoke);
            && |begun.invokes| == w + 1
            && begun.invokes[w].begunDuring == (set i | 0 <= i < |p.gate.released| && !p.gate.released[i])
            && ((forall i | 0 <= i < |p.gate.released| :: p.gate.released[i]) ==>
                MayIssue(begun, w) && Step(begun, Issue(w)).invokes[w].issued)
    ensures var p := Run(events);
            forall w | 0 <= w < |p.invokes| && MayIssue(p, w) :: Step(p, Issue(w)).invokes[w].issued
  {
    hide Run;
    RunKeeps(events);
    var p := Run(events);
    NoneHeld(p.gate.released);
  }

  // ---------------------------------------------------------------- the object

  class BridgeGateState {
    var activeBridgeResponses: int
    var gate: Option<nat>
    var created: nat
    var resolved: set<nat>
    var released: seq<bool>

    ghost function State(): Gate
      reads this
    {
      Gate(activeBridgeResponses, gate, created, resolved, released)
    }

    constructor ()
      ensures State() == QUIET
    {
      activeBridgeResponses, gate, created, resolved, released := 0, None, 0, {}, [];
    }

    /** The returned token stands for the release closure. */
    method DeferDirectAgentInvokes() returns (token: nat)
      modifies this
      ensures State() == Deferred(old(State())) && token == |old(released)|
    {
      if gate.None? {
        gate := Some(created);
        created := created + 1;
      }
      activeBridgeResponses := activeBridgeResponses + 1;
      token := |released|;
      released := released + [false];
    }

    method ReleaseToken(token: nat)
      requires token < |released|
      modifies this
      ensures State() == Released(old(State()), token)
    {
      if released[token] {
        return;
      }
      released := released[token := true];
      activeBridgeResponses := activeBridgeResponses - 1;
      if activeBridgeResponses == 0 {
        var currentGate := gate;
        gate := None;
        if currentGate.Some? {
          resolved := resolved + {currentGate.value};
        }
      }
    }
  }
}
