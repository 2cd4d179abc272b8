/**
 * What a follower of a capture buffer misses, though its consumer cannot see it:
 * guest-js/capture-buffer.ts, lines 16-37, and daemon/connect.ts, lines 159-182.
 */
module FollowLoss {
  import opened Text
  import opened Ring
  import opened CaptureBuffers

  /** How many entries of the history are retained no more. */
  function Gone<T>(b: Buffer<T>): nat {
    if |b.entries| <= b.last then b.last - |b.entries| else 0
  }

  /** These events neither evict nor clear any of the `unread` newest entries, nor of those they push. */
  predicate Spares<T>(events: seq<Event<T>>, unread: nat, capacity: int) {
    events == [] ||
    match events[0]
    case Push(_) => unread + 1 <= capacity && Spares(events[1..], unread + 1, capacity)
    case Read(p) => (Accepted(p) && p.clear ==> unread == 0) && Spares(events[1..], unread, capacity)
  }

  /**
   * Every answered poll finds all it has not read: `lost` says that something of that is gone
   * already, others must spare the `unread` entries, and a clear by the poll itself must leave
   * none behind its limit, unless no poll is answered after it.
   */
  predicate Unharmed<T>(turns: seq<seq<Event<T>>>, cursor: nat, unread: nat, lost: bool,
                        limit: Option<int>, clear: bool, capacity: int)
    decreases |turns|
  {
    if turns == [] || !Accepted(CaptureParams(Some(cursor), limit, clear)) then true
    else
      var found := unread + |PushedValues(turns[0])|;
      var left: nat := if limit.Some? && limit.value < found then found - limit.value else 0;
      && !lost && Spares(turns[0], unread, capacity)
      && Unharmed(turns[1..], cursor + found - left, left, clear && left > 0, limit, clear, capacity)
  }

  lemma {:induction false} SparedIffRetained<T>(b: Buffer<T>, history: seq<T>, events: seq<Event<T>>, cursor: nat)
    requires Inv(b, history) && cursor <= b.last
    ensures var now := ApplyAll(b, events);
            && now.last == b.last + |PushedValues(events)| && now.capacity == b.capacity
            && (Gone(now) <= cursor <==> Gone(b) <= cursor && Spares(events, b.last - cursor, b.capacity))
    decreases |events|
  {
    hide Answer, Numbering, EndOf;
    if events != [] {
      match events[0]
      case Push(value) =>
        PushKeeps(b, history, value);
        SparedIffRetained(Pushed(b, value), history + [value], events[1..], cursor);
      case Read(p) =>
        ReadKeeps(b, history, p);
        RefusedIffUnacceptable(b, p);
        SparedIffRetained(AfterRead(b, p), history, events[1..], cursor);
    }
  }

  /** What a poll that is answered leaves to the next one. */
  lemma PollLeaves<T>(now: Buffer<T>, history: seq<T>, p: CaptureParams)
    requires Inv(now, history) && Accepted(p) && p.since.Some? && 0 <= p.since.value <= now.last
    ensures var next, r := AfterRead(now, p), Answer(now, p);
            && r.Ok? && Inv(next, history) && next.last == now.last && next.capacity == now.capacity
            && Gone(next) == (if p.clear then now.last else Gone(now))
            && (r.value.dropped <==> p.since.value < Gone(now))
            && p.since.value <= r.value.cursor <= now.last
            && (p.since.value >= Gone(now) ==>
                var found := now.last - p.since.value;
                var left := if p.limit.Some? && p.limit.value < found then found - p.limit.value else 0;
                r.value.cursor == now.last - left)
  {
    hide Answer, Numbering, EndOf;
    RefusedIffUnacceptable(now, p);
    ReadKeeps(now, history, p);
    LastIsLength(now, history);
    AnswerIsPieceOfHistory(now, history, p);
  }

  lemma NoPollDropped<T>(b: Buffer<T>, cursor: nat, limit: Option<int>, clear: bool, turns: seq<seq<Event<T>>>)
    requires turns != [] && Accepted(CaptureParams(Some(cursor), limit, clear))
    ensures var now, p := ApplyAll(b, turns[0]), CaptureParams(Some(cursor), limit, clear);
            && Answer(now, p).Ok?
            && var r := Answer(now, p).value;
               NoneDropped(Follow(b, cursor, limit, clear, turns))
               <==> !r.dropped && NoneDropped(Follow(AfterRead(now, p), r.cursor, limit, clear, turns[1..]))
  {
    hide Answer, AfterRead, ApplyAll;
    var now, p := ApplyAll(b, turns[0]), CaptureParams(Some(cursor), limit, clear);
    RefusedIffUnacceptable(now, p);
    var r := Answer(now, p).value;
    var later := Follow(AfterRead(now, p), r.cursor, limit, clear, turns[1..]);
    assert Follow(b, cursor, limit, clear, turns) == [r] + later;
    assert ([r] + later)[0] == r && forall k | 0 <= k < |later| :: ([r] + later)[k + 1] == later[k];
  }

  lemma {:induction false} NothingDroppedIffUnharmed<T>(
      b: Buffer<T>, history: seq<T>, cursor: nat, limit: Option<int>, clear: bool, turns: seq<seq<Event<T>>>)
    requires Inv(b, history) && cursor <= b.last
    ensures NoneDropped(Follow(b, cursor, limit, clear, turns))
            <==> Unharmed(turns, cursor, b.last - cursor, cursor < Gone(b), limit, clear, b.capacity)
    decreases |turns|
  {
    hide Inv, Answer, ApplyAll, AfterRead, PushedValues, Spares, NoneDropped, Follow, Accepted, Gone;
    var p := CaptureParams(Some(cursor), limit, clear);
    if turns == [] || !Accepted(p) {
      FollowStops(b, cursor, limit, clear, turns);
    } else {
      var now, grown := ApplyAll(b, turns[0]), history + PushedValues(turns[0]);
      ApplyAllKeeps(b, history, turns[0]);
      SparedIffRetained(b, history, turns[0], cursor);
      PollLeaves(now, grown, p);
      NoPollDropped(b, cursor, limit, clear, turns);
      var r := Answer(now, p).value;
      if !r.dropped {
        NothingDroppedIffUnharmed(AfterRead(now, p), grown, r.cursor, limit, clear, turns[1..]);
      }
    }
  }

  lemma FollowStops<T>(b: Buffer<T>, cursor: nat, limit: Option<int>, clear: bool, turns: seq<seq<Event<T>>>)
    requires turns == [] || !Accepted(CaptureParams(Some(cursor), limit, clear))
    ensures NoneDropped(Follow(b, cursor, limit, clear, turns))
  {
    hide Answer, ApplyAll, AfterRead;
    if turns != [] {
      RefusedIffUnacceptable(ApplyAll(b, turns[0]), CaptureParams(Some(cursor), limit, clear));
    }
  }

  /**
   * The batches a consumer gets are the whole history up to the loop's cursor exactly when nobody
   * evicted or cleared an entry the loop had not read: a condition on what happened before each
   * poll and on the capacity, of which the consumer sees nothing.
   */
  lemma ConsumerCompleteIffUnharmed<T>(b: Buffer<T>, history: seq<T>, start: nat, limit: Option<int>, clear: bool,
                                       turns: seq<seq<Event<T>>>)
    requires Inv(b, history) && start <= b.last
    ensures var answers := Follow(b, start, limit, clear, turns);
            var pushed, end := history + AllPushed(turns), LastCursor(answers, start);
            && start <= end <= |pushed|
            && (Concat(Yields(answers)) == pushed[start..end] <==>
                Unharmed(turns, start, b.last - start, start < Gone(b), limit, clear, b.capacity))
  {
    hide Inv, Follow, AllPushed, Yields, Unharmed;
    ConsumerCompleteIffNothingDropped(b, history, start, limit, clear, turns);
    NothingDroppedIffUnharmed(b, history, start, limit, clear, turns);
    var answers := Follow(b, start, limit, clear, turns);
    assert forall k | 0 <= k < |answers| :: answers[k] in answers;
  }

  /** A follower that starts caught up and sets no limit only needs each turn of others to spare its own pushes. */
  lemma {:induction false} UnharmedWithoutLimit<T>(
      turns: seq<seq<Event<T>>>, cursor: nat, clear: bool, capacity: int)
    requires cursor + |AllPushed(turns)| <= MAX_SAFE_INTEGER
    ensures Unharmed(turns, cursor, 0, false, None, clear, capacity)
            <==> forall k | 0 <= k < |turns| :: Spares(turns[k], 0, capacity)
  {
    hide Spares, PushedValues;
    if turns != [] {
      UnharmedWithoutLimit(turns[1..], cursor + |PushedValues(turns[0])|, clear, capacity);
      assert forall k | 0 <= k < |turns[1..]| :: turns[1..][k] == turns[k + 1];
      assert turns == [turns[0]] + turns[1..];
    }
  }

  /** What one poll without a limit yields: everything retained after the cursor, as one batch. */
  lemma OnePoll<T>(b: Buffer<T>, history: seq<T>, cursor: nat, turn: seq<Event<T>>)
    requires Inv(b, history) && cursor <= b.last && cursor <= MAX_SAFE_INTEGER
    ensures var now, grown := ApplyAll(b, turn), history + PushedValues(turn);
            var from, answers := Start(Gone(now), cursor), Follow(b, cursor, None, false, [turn]);
            && from <= |grown| && LastCursor(answers, cursor) == |grown|
            && Yields(answers) == if from < |grown| then [grown[from..]] else []
  {
    hide Inv, Answer, ApplyAll, PushedValues, AfterRead;
    var now, grown := ApplyAll(b, turn), history + PushedValues(turn);
    var p := CaptureParams(Some(cursor), None, false);
    ApplyAllKeeps(b, history, turn);
    SparedIffRetained(b, history, turn, cursor);
    OldestRetained(now, grown);
    AnswerIsPieceOfHistory(now, grown, p);
    var r := Answer(now, p).value;
    assert [turn][1..] == [];
    assert Follow(b, cursor, None, false, [turn]) == [r];
    YieldsOne(r);
    var from := Start(Gone(now), cursor);
    assert r.entries == grown[from..|grown|] == grown[from..];
  }

  lemma YieldsOne<T>(r: CaptureResult<T>)
    ensures Yields([r]) == if r.entries == [] then [] else [r.entries]
    ensures LastCursor([r], 0) == r.cursor
  {
    assert [r][1..] == [];
  }

  function Pushes<T>(values: seq<T>): seq<Event<T>> {
    if values == [] then [] else [Push(values[0])] + Pushes(values[1..])
  }

  /** A buffer that is pushed into keeps what fits. */
  lemma {:induction false} PushesKeepWhatFits<T>(b: Buffer<T>, history: seq<T>, values: seq<T>)
    requires Inv(b, history) && b.capacity >= 0
    ensures PushedValues(Pushes(values)) == values
    ensures var now, wanted := ApplyAll(b, Pushes(values)), |b.entries| + |values|;
            |now.entries| == (if wanted > b.capacity then b.capacity else wanted) && now.last == b.last + |values|
    decreases |values|
  {
    hide Numbering, EndOf;
    if values != [] {
      PushKeeps(b, history, values[0]);
      PushesKeepWhatFits(Pushed(b, values[0]), history + [values[0]], values[1..]);
      FirstApart(values);
      assert Pushes(values)[1..] == Pushes(values[1..]);
    }
  }

  lemma NewBuffer<T>(capacity: int)
    requires capacity >= 0
    ensures Inv(Created<T>(capacity), [])
  {
  }

  /** One poll of a new buffer after these pushes. */
  lemma PollAfterPushes<T>(capacity: int, values: seq<T>)
    requires capacity >= 1 && values != []
    ensures var answers := Follow(Created<T>(capacity), 0, None, false, [Pushes(values)]);
            var gone := if |values| > capacity then |values| - capacity else 0;
            Yields(answers) == [values[gone..]] && LastCursor(answers, 0) == |values|
  {
    hide Follow, Yields, LastCursor, ApplyAll, PushedValues, Pushes, Inv;
    NewBuffer<T>(capacity);
    PushesKeepWhatFits(Created<T>(capacity), [], values);
    OnePoll(Created<T>(capacity), [], 0, Pushes(values));
    EmptyIsUnit(values);
    var now := ApplyAll(Created<T>(capacity), Pushes(values));
    assert Start(Gone(now), 0) == (if |values| > capacity then |values| - capacity else 0) < |values|;
    hide Gone, Start;
  }

  /**
   * Two runs a consumer cannot tell apart, for any capacity: in the first more was pushed before the
   * poll than the buffer holds, in the second only what it holds.
   */
  lemma ConsumerCannotTell<T>(capacity: int, values: seq<T>)
    requires 1 <= capacity < |values|
    ensures var held := values[|values| - capacity..];
            var missed := Follow(Created<T>(capacity), 0, None, false, [Pushes(values)]);
            var whole := Follow(Created<T>(capacity), 0, None, false, [Pushes(held)]);
            && Yields(missed) == [held] == Yields(whole)
            && LastCursor(missed, 0) == |values| && LastCursor(whole, 0) == |held| < |values|
  {
    hide Follow, Yields, LastCursor;
    var held := values[|values| - capacity..];
    PollAfterPushes(capacity, values);
    PollAfterPushes(capacity, held);
    assert held[0..] == held;
  }
}
