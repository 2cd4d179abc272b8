/** Waiting for one actionable match: guest-js/locator-action.ts. */
module Locator {
  import opened Text
  import opened RefSearch

  const DEFAULT_TIMEOUT_MS := 1000

  datatype Inspected = Inspected(ref: string, states: set<string>)

  datatype Value = NoValue | Chars(text: string) | Flag(on: bool)

  datatype ActParams = ActParams(action: string, value: Value, hasLocator: bool, timeoutMs: Option<int>)

  datatype Error = InvalidParams | Detached(ref: string) | Ambiguous | ActionTimeout
                 | NotActionable(ref: string) | NotFound | StableFailed

  datatype Outcome = NoTarget | Target(found: Inspected) | Failed(error: Error)

  /** The outcome of `stable` for a match: it held still, it moved, or the check threw. */
  datatype Stability = Still | Moved | Threw

  /**
   * What one poll meets: the refs of the snapshot it takes, which of them match, their states, the
   * elements still in the document, whether a match holds still, and the two clock readings after
   * it, the second one past the sleep if there was one.
   */
  datatype Poll = Poll(refs: seq<Binding>, matches: Binding -> bool, states: Binding -> set<string>,
                       connected: set<nat>, stability: Stability, checked: int, resumed: int)

  predicate ValidAction(p: ActParams) {
    && (p.action in {"fill", "type", "press", "select"} ==> p.value.Chars?)
    && (p.action == "check" ==> !p.value.Chars?)
  }

  predicate IsActionable(m: Inspected, action: string) {
    "hidden" !in m.states
    && (action in {"click", "fill", "type", "press", "select", "check"} ==> "disabled" !in m.states)
  }

  function Inspect(p: Poll, b: Binding): Inspected {
    Inspected(b.0, p.states(b))
  }

  /** `find` with a limit of two. */
  function Find(p: Poll): Result<seq<Binding>, Binding> {
    Found(p.refs, Some(2), p.matches, p.connected)
  }

  /** What a poll decides, if anything. */
  function Decision(p: Poll, action: string): Option<Outcome> {
    match Find(p)
    case Err(b) => Some(Failed(Detached(b.0)))
    case Ok(found) =>
      if |found| > 1 then Some(Failed(Ambiguous))
      else if |found| == 0 || !IsActionable(Inspect(p, found[0]), action) then None
      else
        match p.stability
        case Still => Some(Target(Inspect(p, found[0])))
        case Moved => None
        case Threw => Some(Failed(StableFailed))
  }

  /** A target is the one match among all refs of the snapshot, whatever the limit cut off the search. */
  lemma TargetIffOnlyMatch(p: Poll, action: string)
    ensures var all := Filtered(p.refs, p.matches);
            var early := Filtered(p.refs[..FirstDetached(p.refs, p.connected)], p.matches);
            && (Decision(p, action).Some? && Decision(p, action).value.Target? <==>
                (forall b | b in p.refs :: b.1 in p.connected)
                && |all| == 1 && "hidden" !in p.states(all[0]) && p.stability == Still
                && !("disabled" in p.states(all[0])
                     && action in {"click", "fill", "type", "press", "select", "check"}))
            && (Decision(p, action).Some? && Decision(p, action).value.Target? ==>
                Decision(p, action) == Some(Target(Inspected(all[0].0, p.states(all[0])))))
            && (Decision(p, action) == Some(Failed(Ambiguous)) <==> |early| >= 2)
  {
    hide Filtered;
    var k := FirstDetached(p.refs, p.connected);
    assert p.refs[..|p.refs|] == p.refs;
    assert k < |p.refs| ==> p.refs[k] in p.refs;
    assert k == |p.refs| ==> forall b | b in p.refs :: b.1 in p.connected;
  }

  /** The one match a poll found, if it found just one. */
  function Single(p: Poll): Option<Inspected> {
    match Find(p)
    case Err(_) => None
    case Ok(found) => if |found| == 1 then Some(Inspect(p, found[0])) else None
  }

  /** A poll that found its one match actionable, but moving. */
  predicate Unstable(p: Poll, action: string) {
    Single(p).Some? && IsActionable(Single(p).value, action) && p.stability == Moved
  }

  predicate MetUnstable(polls: seq<Poll>, action: string) {
    exists i :: 0 <= i < |polls| && Unstable(polls[i], action)
  }

  function LastSingle(polls: seq<Poll>): Option<Inspected> {
    if polls == [] then None
    else if Single(polls[|polls| - 1]).Some? then Single(polls[|polls| - 1])
    else LastSingle(polls[..|polls| - 1])
  }

  /** Why time ran out after polls that decided nothing. */
  function Exhausted(polls: seq<Poll>, action: string): Error {
    if MetUnstable(polls, action) then ActionTimeout
    else match LastSingle(polls)
      case Some(m) => NotActionable(m.ref)
      case None => NotFound
  }

  function Budget(p: ActParams): nat {
    var timeout := if p.timeoutMs.Some? then p.timeoutMs.value else DEFAULT_TIMEOUT_MS;
    if timeout < 0 then 0 else timeout
  }

  // ---------------------------------------------------------------- the clock

  function LastReading(polls: seq<Poll>, start: int): int {
    if polls == [] then start else polls[|polls| - 1].resumed
  }

  /** The clock never ran backwards, and each sleep lasted at least its 25 milliseconds. */
  ghost predicate ClockRan(polls: seq<Poll>, start: int, deadline: int) {
    forall i | 0 <= i < |polls| ::
      && LastReading(polls[..i], start) <= polls[i].checked <= polls[i].resumed
      && (polls[i].checked < deadline ==> polls[i].checked + 25 <= polls[i].resumed)
  }

  /** The most polls a budget allows: one, or one per 25 milliseconds begun. */
  function MostPolls(budget: nat): nat {
    if budget == 0 then 1 else (budget + 24) / 25
  }

  /** Polls that left time over used 25 milliseconds each. */
  lemma {:induction false} PollsTakeTime(polls: seq<Poll>, start: int, budget: nat)
    requires ClockRan(polls, start, start + budget)
    requires forall i | 0 <= i < |polls| :: polls[i].resumed < start + budget
    ensures start + 25 * |polls| <= LastReading(polls, start)
    ensures |polls| < MostPolls(budget)
  {
    if polls != [] {
      var before, p := polls[..|polls| - 1], polls[|polls| - 1];
      forall i | 0 <= i < |before| ensures before[..i] == polls[..i] {
      }
      PollsTakeTime(before, start, budget);
      assert LastReading(before, start) <= p.checked && p.checked + 25 <= p.resumed;
    }
  }

  lemma ClockRanBefore(polls: seq<Poll>, n: nat, start: int, deadline: int)
    requires n <= |polls| && ClockRan(polls, start, deadline)
    ensures ClockRan(polls[..n], start, deadline)
  {
    forall i | 0 <= i < n ensures polls[..n][..i] == polls[..i] {
    }
  }

  // ---------------------------------------------------------------- the loop

  predicate Undecided(p: Poll, action: string, deadline: int) {
    Decision(p, action) == None && p.resumed < deadline
  }

  /**
   * The polling loop over what its polls meet, with the number of polls it used and no outcome if
   * it would go on. For any clock, the first poll to decide anything does decide; otherwise time
   * has run out, and the error follows from what the polls met. If the clock runs as clocks do,
   * the budget bounds the number of polls.
   */
  method LocateActionable(p: ActParams, start: int, polls: seq<Poll>) returns (outcome: Option<Outcome>, count: nat)
    ensures var refused := || (p.action in {"fill", "type", "press", "select"} && !p.value.Chars?)
                           || (p.action == "check" && p.value.Chars?)
                           || (!p.hasLocator && p.action != "press");
            var budget := if p.timeoutMs.None? then 1000 else if p.timeoutMs.value < 0 then 0 else p.timeoutMs.value;
            if refused then outcome == Some(Failed(InvalidParams)) && count == 0
            else if !p.hasLocator then outcome == Some(NoTarget) && count == 0
            else
              && count <= |polls|
              && match outcome
                 case None =>
                   count == |polls| && forall i | 0 <= i < count :: Undecided(polls[i], p.action, start + budget)
                 case Some(o) =>
                   && count >= 1
                   && (forall i | 0 <= i < count - 1 :: Undecided(polls[i], p.action, start + budget))
                   && match Decision(polls[count - 1], p.action)
                      case Some(decided) => o == decided
                      case None => polls[count - 1].resumed >= start + budget
                                   && o == Failed(Exhausted(polls[..count], p.action))
    ensures ClockRan(polls, start, start + Budget(p)) ==>
              count <= MostPolls(Budget(p)) && (|polls| >= MostPolls(Budget(p)) ==> outcome.Some?)
  {
    hide IsActionable, ClockRan, MostPolls, Found, Exhausted, LastSingle, MetUnstable;
    count := 0;
    if !ValidAction(p) {
      return Some(Failed(InvalidParams)), 0;
    }
    if !p.hasLocator {
      if p.action == "press" {
        return Some(NoTarget), 0;
      }
      return Some(Failed(InvalidParams)), 0;
    }

    var deadline := start + Budget(p);
    var blocked: Option<Inspected> := None;
    var unstable := false;
    NoneMet(p.action);
    while count < |polls|
      invariant count <= |polls|
      invariant forall i | 0 <= i < count :: Undecided(polls[i], p.action, deadline)
      invariant blocked == LastSingle(polls[..count])
      invariant unstable == MetUnstable(polls[..count], p.action)
    {
      UsedTime(polls, count, start, Budget(p));
      var poll := polls[count];
      assert polls[..count + 1] == polls[..count] + [poll];
      LastSingleOne(polls[..count], poll);
      MetUnstableOne(polls[..count], poll, p.action);
      count := count + 1;
      var found := FindRefs(poll.refs, Finite(2.0), poll.matches, poll.connected);
      if found.Err? {
        return Some(Failed(Detached(found.error.0))), count;
      }
      if |found.value| > 1 {
        return Some(Failed(Ambiguous)), count;
      }
      if |found.value| == 1 {
        var target := Inspect(poll, found.value[0]);
        blocked := Some(target);
        if IsActionable(target, p.action) {
          match poll.stability {
            case Still => return Some(Target(target)), count;
            case Threw => return Some(Failed(StableFailed)), count;
            case Moved =>
          }
          unstable := true;
        }
      }
      if poll.resumed >= deadline {
        var error := if unstable then ActionTimeout
                     else if blocked.Some? then NotActionable(blocked.value.ref) else NotFound;
        ExhaustedIs(polls[..count], p.action);
        return Some(Failed(error)), count;
      }
    }
    UsedTime(polls, count, start, Budget(p));
    outcome := None;
  }

  lemma NoneMet(action: string)
    ensures LastSingle([]) == None && !MetUnstable([], action)
  {
  }

  lemma MetUnstableOne(polls: seq<Poll>, p: Poll, action: string)
    ensures MetUnstable(polls + [p], action) <==> MetUnstable(polls, action) || Unstable(p, action)
  {
    assert (polls + [p])[|polls|] == p;
    forall i | 0 <= i < |polls| ensures (polls + [p])[i] == polls[i] {
    }
  }

  lemma LastSingleOne(polls: seq<Poll>, p: Poll)
    ensures LastSingle(polls + [p]) == if Single(p).Some? then Single(p) else LastSingle(polls)
  {
    assert (polls + [p])[..|polls|] == polls;
  }

  lemma ExhaustedIs(polls: seq<Poll>, action: string)
    ensures Exhausted(polls, action)
         == if MetUnstable(polls, action) then ActionTimeout
            else if LastSingle(polls).Some? then NotActionable(LastSingle(polls).value.ref) else NotFound
  {
  }

  lemma UndecidedFinds(p: Poll, action: string)
    requires Decision(p, action) == None
    ensures var all := Filtered(p.refs, p.matches);
            && |all| <= 1
            && Single(p) == (if all == [] then None else Some(Inspected(all[0].0, p.states(all[0]))))
            && (Unstable(p, action) <==>
                all != [] && "hidden" !in p.states(all[0])
                && !("disabled" in p.states(all[0])
                     && action in {"click", "fill", "type", "press", "select", "check"}))
  {
    hide Filtered;
    assert p.refs[..|p.refs|] == p.refs;
  }

  /** The last poll that found just one match, at `i`, if there is one. */
  lemma {:induction false} LastSingleIs(polls: seq<Poll>) returns (i: nat)
    ensures LastSingle(polls) == None ==> forall j | 0 <= j < |polls| :: Single(polls[j]) == None
    ensures LastSingle(polls).Some? ==> i < |polls| && Single(polls[i]) == LastSingle(polls)
    ensures LastSingle(polls).Some? ==> forall j | i < j < |polls| :: Single(polls[j]) == None
  {
    i := 0;
    if polls == [] {
      NoneMet("");
    } else {
      hide Single, LastSingle;
      var before, p := polls[..|polls| - 1], polls[|polls| - 1];
      LastApart(polls);
      LastSingleOne(before, p);
      if Single(p).Some? {
        i := |before|;
      } else {
        i := LastSingleIs(before);
        forall j | 0 <= j < |before| ensures before[j] == polls[j] {
        }
      }
    }
  }

  /**
   * What the error after time ran out means: some poll's match could have been acted on but moved;
   * or else some poll had a match, and it is the last one; or no poll had any.
   */
  lemma OutOfTimeMeans(polls: seq<Poll>, action: string)
    requires forall i | 0 <= i < |polls| :: Decision(polls[i], action) == None
    ensures Exhausted(polls, action) == ActionTimeout <==>
              exists i :: 0 <= i < |polls| && var all := Filtered(polls[i].refs, polls[i].matches);
                all != [] && "hidden" !in polls[i].states(all[0])
                && !("disabled" in polls[i].states(all[0])
                     && action in {"click", "fill", "type", "press", "select", "check"})
    ensures Exhausted(polls, action) == NotFound <==>
              forall i | 0 <= i < |polls| :: Filtered(polls[i].refs, polls[i].matches) == []
    ensures Exhausted(polls, action) in {ActionTimeout, NotFound} ||
              exists i :: 0 <= i < |polls| && Filtered(polls[i].refs, polls[i].matches) != []
                && Exhausted(polls, action) == NotActionable(Filtered(polls[i].refs, polls[i].matches)[0].0)
                && forall j | i < j < |polls| :: Filtered(polls[j].refs, polls[j].matches) == []
  {
    hide Filtered, Single, Unstable, Decision, LastSingle;
    forall i | 0 <= i < |polls| ensures
      var all := Filtered(polls[i].refs, polls[i].matches);
      && Single(polls[i]) == (if all == [] then None else Some(Inspected(all[0].0, polls[i].states(all[0]))))
      && (Unstable(polls[i], action) <==>
          all != [] && "hidden" !in polls[i].states(all[0])
          && !("disabled" in polls[i].states(all[0])
               && action in {"click", "fill", "type", "press", "select", "check"}))
    {
      UndecidedFinds(polls[i], action);
    }
    var last := LastSingleIs(polls);
  }

  lemma UsedTime(polls: seq<Poll>, count: nat, start: int, budget: nat)
    requires count <= |polls| && forall i | 0 <= i < count :: polls[i].resumed < start + budget
    ensures ClockRan(polls, start, start + budget) ==> count < MostPolls(budget)
  {
    if ClockRan(polls, start, start + budget) {
      ClockRanBefore(polls, count, start, start + budget);
      PollsTakeTime(polls[..count], start, budget);
    }
  }
}
