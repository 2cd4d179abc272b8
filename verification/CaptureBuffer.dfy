/**
 * The bounded capture log and the loop that follows it:
 * guest-js/capture-buffer.ts, and daemon/connect.ts, lines 154-201.
 */
module CaptureBuffers {
  import opened Text
  import opened Ring

  datatype Buffer<T> = Buffer(entries: seq<Numbered<T>>, last: nat, capacity: int)

  datatype CaptureParams = CaptureParams(since: Option<int>, limit: Option<int>, clear: bool)

  datatype CaptureResult<T> = CaptureResult(entries: seq<T>, cursor: nat, dropped: bool)

  datatype CaptureError = InvalidSince | InvalidLimit

  const MAX_SAFE_INTEGER := 0x1F_FFFF_FFFF_FFFF

  function Created<T>(capacity: int): Buffer<T> {
    Buffer([], 0, capacity)
  }

  function Pushed<T>(b: Buffer<T>, value: T): Buffer<T> {
    b.(entries := Shifted(b.entries, Numbered(b.last + 1, value), b.capacity), last := b.last + 1)
  }

  function Values<T>(entries: seq<Numbered<T>>): seq<T> {
    seq(|entries|, i requires 0 <= i < |entries| => entries[i].value)
  }

  /** `available.slice(0, limit)`, or all of it without a limit. */
  function Selected<T>(available: seq<Numbered<T>>, limit: Option<int>): seq<Numbered<T>>
    requires limit.Some? ==> limit.value >= 1
  {
    if limit.Some? && limit.value < |available| then available[..limit.value] else available
  }

  function Oldest<T>(b: Buffer<T>): nat {
    if b.entries != [] then b.entries[0].number else b.last + 1
  }

  function Answer<T>(b: Buffer<T>, p: CaptureParams): Result<CaptureResult<T>, CaptureError> {
    if p.since.Some? && !(0 <= p.since.value <= MAX_SAFE_INTEGER) then Err(InvalidSince)
    else if p.limit.Some? && !(1 <= p.limit.value <= MAX_SAFE_INTEGER) then Err(InvalidLimit)
    else
      var since: nat := if p.since.Some? then p.since.value else 0;
      var available := After(b.entries, since);
      var selected := Selected(available, p.limit);
      var cursor := if selected != [] then selected[|selected| - 1].number
                    else if available == [] then b.last else since;
      Ok(CaptureResult(Values(selected), cursor, since < b.last && since + 1 < Oldest(b)))
  }

  /** A read that is answered and asks for it empties the buffer; a refused one changes nothing. */
  function AfterRead<T>(b: Buffer<T>, p: CaptureParams): Buffer<T> {
    if Answer(b, p).Ok? && p.clear then b.(entries := []) else b
  }

  // ---------------------------------------------------------------- the unbounded history

  function Numbering<T>(history: seq<T>): seq<Numbered<T>> {
    seq(|history|, i requires 0 <= i < |history| => Numbered(i + 1, history[i]))
  }

  /** The buffer holds the newest part of everything ever pushed, within its capacity. */
  ghost predicate Inv<T>(b: Buffer<T>, history: seq<T>) {
    && b.last == |history|
    && EndOf(b.entries, Numbering(history))
    && |b.entries| <= if b.capacity < 0 then 0 else b.capacity
  }

  lemma PushKeeps<T>(b: Buffer<T>, history: seq<T>, value: T)
    requires Inv(b, history)
    ensures Inv(Pushed(b, value), history + [value])
  {
    ShiftedIsEnd(b.entries, Numbering(history), Numbered(b.last + 1, value), b.capacity);
    assert Numbering(history + [value]) == Numbering(history) + [Numbered(b.last + 1, value)];
  }

  lemma ReadKeeps<T>(b: Buffer<T>, history: seq<T>, p: CaptureParams)
    requires Inv(b, history)
    ensures Inv(AfterRead(b, p), history)
  {
    hide Answer;
  }

  lemma LastIsLength<T>(b: Buffer<T>, history: seq<T>)
    requires Inv(b, history)
    ensures b.last == |history|
  {
  }

  lemma OldestRetained<T>(b: Buffer<T>, history: seq<T>)
    requires Inv(b, history)
    ensures |b.entries| <= b.last == |history| && Oldest(b) == b.last - |b.entries| + 1
  {
  }

  lemma NumberingIsConsecutive<T>(history: seq<T>)
    ensures Consecutive(Numbering(history)) && |Numbering(history)| == |history|
  {
  }

  lemma AfterNumbering<T>(b: Buffer<T>, history: seq<T>, since: nat)
    requires Inv(b, history) && since <= b.last
    ensures After(b.entries, since) == Numbering(history)[Start(b.last - |b.entries|, since)..]
  {
    hide After, Numbering, EndOf;
    OldestRetained(b, history);
    NumberingIsConsecutive(history);
    AfterInWindow(b.entries, Numbering(history), since);
  }

  /** Where an answer starts and stops in the history. */
  function Stop(from: nat, limit: Option<int>, last: nat): nat
    requires from <= last && (limit.Some? ==> limit.value >= 1)
  {
    if limit.Some? && limit.value < last - from then from + limit.value else last
  }

  predicate Accepted(p: CaptureParams) {
    && (p.since.Some? ==> 0 <= p.since.value <= MAX_SAFE_INTEGER)
    && (p.limit.Some? ==> 1 <= p.limit.value <= MAX_SAFE_INTEGER)
  }

  /** What a limit selects from the end of the history that starts after number `from`. */
  lemma SelectedPiece<T>(history: seq<T>, from: nat, limit: Option<int>)
    requires from <= |history| && (limit.Some? ==> limit.value >= 1)
    ensures var available := Numbering(history)[from..];
            var selected, to := Selected(available, limit), Stop(from, limit, |history|);
            && Values(selected) == history[from..to]
            && (selected == [] <==> available == [])
            && (selected == [] ==> to == |history|)
            && (selected != [] ==> selected[|selected| - 1].number == to)
  {
    var all, to := Numbering(history), Stop(from, limit, |history|);
    var selected := Selected(all[from..], limit);
    assert selected == all[from..to];
    assert |Values(selected)| == to - from;
    assert forall i | 0 <= i < to - from :: Values(selected)[i] == history[from..to][i];
  }

  /**
   * An answer is one contiguous piece of the history. It begins at the reader's cursor unless the
   * buffer no longer reaches back that far, which is exactly what `dropped` says, and it ends at
   * the returned cursor: at the limit or at the newest entry.
   */
  lemma AnswerIsPieceOfHistory<T>(b: Buffer<T>, history: seq<T>, p: CaptureParams)
    requires Inv(b, history) && Accepted(p)
    requires p.since.Some? ==> p.since.value <= b.last
    ensures var since: nat := if p.since.Some? then p.since.value else 0;
            var gone := b.last - |b.entries|;
            var from := Start(gone, since);
            var to := Stop(from, p.limit, b.last);
            Answer(b, p) == Ok(CaptureResult(history[from..to], to, since < gone))
  {
    hide After, Values, Selected, Numbering, EndOf, Inv, Oldest;
    var since: nat := if p.since.Some? then p.since.value else 0;
    LastIsLength(b, history);
    OldestRetained(b, history);
    AfterNumbering(b, history, since);
    SelectedPiece(history, Start(b.last - |b.entries|, since), p.limit);
  }

  lemma RefusedIffUnacceptable<T>(b: Buffer<T>, p: CaptureParams)
    ensures Answer(b, p).Ok? <==> Accepted(p)
  {
    hide After, Values;
  }

  /** Which refusal it is: an unsafe or negative cursor is seen before an unsafe limit or one below 1. */
  lemma RefusalNamesCulprit<T>(b: Buffer<T>, p: CaptureParams)
    ensures Answer(b, p) == Err(InvalidSince) <==>
              p.since.Some? && (p.since.value < 0 || p.since.value > 9007199254740991)
    ensures Answer(b, p) == Err(InvalidLimit) <==>
              && (p.since.Some? ==> 0 <= p.since.value <= 9007199254740991)
              && p.limit.Some? && (p.limit.value < 1 || p.limit.value > 9007199254740991)
  {
    hide After, Values;
    assert MAX_SAFE_INTEGER == 9007199254740991;
  }

  /** A cursor not issued yet gets nothing and no warning, and is taken back to the newest entry. */
  lemma FutureCursorIsReset<T>(b: Buffer<T>, history: seq<T>, p: CaptureParams)
    requires Inv(b, history) && Accepted(p) && p.since.Some? && p.since.value > b.last
    ensures Answer(b, p) == Ok(CaptureResult([], b.last, false))
  {
    hide After;
    AfterInWindow(b.entries, Numbering(history), p.since.value);
    assert Values(After(b.entries, p.since.value)) == [];
  }

  /**
   * A clear forgets everything up to it, and says so: whoever was behind then reads nothing but the
   * flag. A read that does not clear, or is refused, forgets nothing.
   */
  lemma ClearIsReported<T>(b: Buffer<T>, history: seq<T>, p: CaptureParams, q: CaptureParams)
    requires Inv(b, history) && Accepted(q) && q.since.Some? && q.since.value <= b.last
    ensures Accepted(p) && p.clear ==>
              Answer(AfterRead(b, p), q) == Ok(CaptureResult([], b.last, q.since.value < b.last))
    ensures !Accepted(p) || !p.clear ==> Answer(AfterRead(b, p), q) == Answer(b, q)
  {
    hide Answer, Inv;
    RefusedIffUnacceptable(b, p);
    ReadKeeps(b, history, p);
    LastIsLength(b, history);
    if Accepted(p) && p.clear {
      AnswerIsPieceOfHistory(AfterRead(b, p), history, q);
      assert history[b.last..b.last] == [];
    }
  }

  // ---------------------------------------------------------------- following

  /** What anyone may do to the buffer between two polls. */
  datatype Event<T> = Push(value: T) | Read(params: CaptureParams)

  function Apply<T>(b: Buffer<T>, e: Event<T>): Buffer<T> {
    match e
    case Push(value) => Pushed(b, value)
    case Read(p) => AfterRead(b, p)
  }

  function ApplyAll<T>(b: Buffer<T>, events: seq<Event<T>>): Buffer<T>
    decreases |events|
  {
    if events == [] then b else ApplyAll(Apply(b, events[0]), events[1..])
  }

  function PushedValues<T>(events: seq<Event<T>>): seq<T> {
    if events == [] then []
    else (if events[0].Push? then [events[0].value] else []) + PushedValues(events[1..])
  }

  lemma {:induction false} ApplyAllKeeps<T>(b: Buffer<T>, history: seq<T>, events: seq<Event<T>>)
    requires Inv(b, history)
    ensures Inv(ApplyAll(b, events), history + PushedValues(events))
    decreases |events|
  {
    hide Inv, AfterRead, Pushed;
    if events == [] {
      assert history + [] == history;
    } else {
      var e := events[0];
      var one := if e.Push? then [e.value] else [];
      match e {
        case Push(value) => PushKeeps(b, history, value);
        case Read(p) => ReadKeeps(b, history, p); assert history + one == history;
      }
      ApplyAllKeeps(Apply(b, e), history + one, events[1..]);
      assert history + (one + PushedValues(events[1..])) == history + one + PushedValues(events[1..]);
    }
  }

  /** The answers a follower gets, passing each cursor back, until one poll is refused. */
  function Follow<T>(b: Buffer<T>, cursor: nat, limit: Option<int>, clear: bool, turns: seq<seq<Event<T>>>)
    : seq<CaptureResult<T>>
    decreases |turns|
  {
    if turns == [] then []
    else
      var now := ApplyAll(b, turns[0]);
      var p := CaptureParams(Some(cursor), limit, clear);
      match Answer(now, p)
      case Err(_) => []
      case Ok(r) => [r] + Follow(AfterRead(now, p), r.cursor, limit, clear, turns[1..])
  }

  function AllPushed<T>(turns: seq<seq<Event<T>>>): seq<T> {
    if turns == [] then [] else PushedValues(turns[0]) + AllPushed(turns[1..])
  }

  /** The answers cut the history from `start` on into pieces, with a gap before exactly the `dropped` ones. */
  ghost predicate Tiles<T>(answers: seq<CaptureResult<T>>, start: nat, history: seq<T>) {
    if answers == [] then start <= |history|
    else
      var r := answers[0];
      && start + |r.entries| <= r.cursor <= |history|
      && r.entries == history[r.cursor - |r.entries|..r.cursor]
      && (r.dropped <==> start < r.cursor - |r.entries|)
      && Tiles(answers[1..], r.cursor, history)
  }

  lemma AnswerTile<T>(b: Buffer<T>, history: seq<T>, later: seq<T>, p: CaptureParams, r: CaptureResult<T>)
    requires Inv(b, history) && Answer(b, p) == Ok(r)
    requires p.since.Some? && 0 <= p.since.value <= b.last
    ensures var start := p.since.value;
            && start + |r.entries| <= r.cursor <= |history|
            && r.entries == (history + later)[r.cursor - |r.entries|..r.cursor]
            && (r.dropped <==> start < r.cursor - |r.entries|)
  {
    hide Answer;
    RefusedIffUnacceptable(b, p);
    AnswerIsPieceOfHistory(b, history, p);
    LastIsLength(b, history);
    OldestRetained(b, history);
    var from := Start(b.last - |b.entries|, p.since.value);
    hide Inv, Start;
    assert r.entries == history[from..r.cursor] && |r.entries| == r.cursor - from;
    assert (history + later)[from..r.cursor] == history[from..r.cursor];
  }

  /** No silent loss: whatever others push, read, limit or clear between the polls. */
  lemma {:induction false} FollowTiles<T>(b: Buffer<T>, history: seq<T>, cursor: nat, limit: Option<int>, clear: bool,
                                          turns: seq<seq<Event<T>>>)
    requires Inv(b, history) && cursor <= b.last
    ensures Tiles(Follow(b, cursor, limit, clear, turns), cursor, history + AllPushed(turns))
    decreases |turns|
  {
    hide Inv, Answer, AfterRead, ApplyAll, PushedValues;
    LastIsLength(b, history);
    if turns != [] {
      var now, grown := ApplyAll(b, turns[0]), history + PushedValues(turns[0]);
      var later := AllPushed(turns[1..]);
      assert history + AllPushed(turns) == grown + later;
      ApplyAllKeeps(b, history, turns[0]);
      LastIsLength(now, grown);
      var p := CaptureParams(Some(cursor), limit, clear);
      var answer := Answer(now, p);
      if answer.Ok? {
        AnswerTile(now, grown, later, p, answer.value);
        ReadKeeps(now, grown, p);
        LastIsLength(AfterRead(now, p), grown);
        FollowTiles(AfterRead(now, p), grown, answer.value.cursor, limit, clear, turns[1..]);
      }
    }
  }

  /** While cursors stay in range there is an answer for every turn, and without a limit the last one is up to date. */
  lemma {:induction false} FollowAnswersEveryTurn<T>(
      b: Buffer<T>, history: seq<T>, cursor: nat, limit: Option<int>, clear: bool, turns: seq<seq<Event<T>>>)
    requires Inv(b, history) && cursor <= b.last
    requires |history + AllPushed(turns)| <= 9007199254740991
    requires limit.Some? ==> 1 <= limit.value <= 9007199254740991
    ensures |Follow(b, cursor, limit, clear, turns)| == |turns|
    ensures limit == None && turns != [] ==>
              LastCursor(Follow(b, cursor, limit, clear, turns), cursor) == |history + AllPushed(turns)|
    decreases |turns|
  {
    hide Inv, Answer, AfterRead, ApplyAll, PushedValues;
    if turns != [] {
      var now, grown := ApplyAll(b, turns[0]), history + PushedValues(turns[0]);
      var p := CaptureParams(Some(cursor), limit, clear);
      LastIsLength(b, history);
      ApplyAllKeeps(b, history, turns[0]);
      LastIsLength(now, grown);
      assert MAX_SAFE_INTEGER == 9007199254740991;
      AnswerIsPieceOfHistory(now, grown, p);
      ReadKeeps(now, grown, p);
      LastIsLength(AfterRead(now, p), grown);
      var r := Answer(now, p).value;
      Assoc(history, PushedValues(turns[0]), AllPushed(turns[1..]));
      var later := Follow(AfterRead(now, p), r.cursor, limit, clear, turns[1..]);
      FollowAnswersEveryTurn(AfterRead(now, p), grown, r.cursor, limit, clear, turns[1..]);
      assert Follow(b, cursor, limit, clear, turns) == [r] + later;
      assert ([r] + later)[1..] == later;
      if turns[1..] == [] {
        EmptyIsUnit(grown);
      }
    }
  }

  function Delivered<T>(answers: seq<CaptureResult<T>>): seq<T> {
    if answers == [] then [] else answers[0].entries + Delivered(answers[1..])
  }

  function LastCursor<T>(answers: seq<CaptureResult<T>>, start: nat): nat {
    if answers == [] then start else LastCursor(answers[1..], answers[0].cursor)
  }

  /** The history numbers of one answer's entries. */
  function PieceNumbers<T>(r: CaptureResult<T>): seq<nat>
    requires |r.entries| <= r.cursor
  {
    seq(|r.entries|, i requires 0 <= i < |r.entries| => r.cursor - |r.entries| + i + 1)
  }

  /** The history numbers of the delivered entries. */
  function Numbers<T>(answers: seq<CaptureResult<T>>): seq<nat>
    requires forall r | r in answers :: |r.entries| <= r.cursor
  {
    if answers == [] then [] else PieceNumbers(answers[0]) + Numbers(answers[1..])
  }

  /** The first answer of a tiling, apart from the later ones. */
  lemma TilesFirst<T>(answers: seq<CaptureResult<T>>, start: nat, history: seq<T>)
    requires answers != [] && Tiles(answers, start, history)
    ensures var r, later := answers[0], answers[1..];
            && start + |r.entries| <= r.cursor <= |history|
            && r.entries == history[r.cursor - |r.entries|..r.cursor]
            && (r.dropped <==> start < r.cursor - |r.entries|)
            && Tiles(later, r.cursor, history)
            && Delivered(answers) == r.entries + Delivered(later)
            && LastCursor(answers, start) == LastCursor(later, r.cursor)
  {
  }

  lemma {:induction false} TilesFit<T>(answers: seq<CaptureResult<T>>, start: nat, history: seq<T>)
    requires Tiles(answers, start, history)
    ensures forall r | r in answers :: |r.entries| <= r.cursor
    ensures start <= LastCursor(answers, start) <= |history|
  {
    if answers != [] {
      TilesFit(answers[1..], answers[0].cursor, history);
    }
  }

  /** Delivery is a strictly increasing subsequence of the history: no repeat, no reordering, no foreign entry. */
  lemma {:induction false} DeliveredIsSubsequence<T>(answers: seq<CaptureResult<T>>, start: nat, history: seq<T>)
    requires Tiles(answers, start, history)
    requires forall r | r in answers :: |r.entries| <= r.cursor
    ensures |Numbers(answers)| == |Delivered(answers)|
    ensures forall i | 0 <= i < |Numbers(answers)| ::
              start < Numbers(answers)[i] <= |history| && Delivered(answers)[i] == history[Numbers(answers)[i] - 1]
    ensures forall i, j | 0 <= i < j < |Numbers(answers)| :: Numbers(answers)[i] < Numbers(answers)[j]
  {
    if answers != [] {
      DeliveredIsSubsequence(answers[1..], answers[0].cursor, history);
    }
  }

  /** Number `n` lies in the gap before an answer that said `dropped`. */
  predicate Reported<T>(answers: seq<CaptureResult<T>>, start: nat, n: nat) {
    answers != [] &&
    var r := answers[0];
    (r.dropped && start < n <= r.cursor - |r.entries|) || Reported(answers[1..], r.cursor, n)
  }

  /** Every number passed over was either delivered or lies in a reported gap, and never both. */
  lemma {:induction false} SkippedIsReported<T>(answers: seq<CaptureResult<T>>, start: nat, history: seq<T>, n: nat)
    requires Tiles(answers, start, history)
    requires forall r | r in answers :: |r.entries| <= r.cursor
    ensures start < n <= LastCursor(answers, start) <==> n in Numbers(answers) || Reported(answers, start, n)
    ensures !(n in Numbers(answers) && Reported(answers, start, n))
  {
    if answers != [] {
      var r, later := answers[0], answers[1..];
      TilesFit(later, r.cursor, history);
      SkippedIsReported(later, r.cursor, history, n);
      NumbersOfFirst(answers, n);
    }
  }

  lemma NumbersOfFirst<T>(answers: seq<CaptureResult<T>>, n: nat)
    requires answers != []
    requires forall r | r in answers :: |r.entries| <= r.cursor
    ensures var r := answers[0];
            n in Numbers(answers) <==> r.cursor - |r.entries| < n <= r.cursor || n in Numbers(answers[1..])
  {
    hide PieceNumbers;
    PieceHas(answers[0], n);
  }

  lemma PieceHas<T>(r: CaptureResult<T>, n: nat)
    requires |r.entries| <= r.cursor
    ensures n in PieceNumbers(r) <==> r.cursor - |r.entries| < n <= r.cursor
  {
    if r.cursor - |r.entries| < n <= r.cursor {
      assert PieceNumbers(r)[n - (r.cursor - |r.entries|) - 1] == n;
    }
  }

  predicate NoneDropped<T>(answers: seq<CaptureResult<T>>) {
    forall k | 0 <= k < |answers| :: !answers[k].dropped
  }

  lemma NoneDroppedFirst<T>(answers: seq<CaptureResult<T>>)
    requires answers != []
    ensures NoneDropped(answers) <==> !answers[0].dropped && NoneDropped(answers[1..])
  {
    assert forall k | 0 < k < |answers| :: answers[k] == answers[1..][k - 1];
  }

  /** A piece and what follows it make up a stretch of the history exactly if each is its part of it. */
  lemma PieceAndRest<T>(piece: seq<T>, rest: seq<T>, history: seq<T>, start: nat, end: nat)
    requires start <= end <= |history| && start + |piece| <= end
    ensures var mid := start + |piece|;
            piece + rest == history[start..end] <==> piece == history[start..mid] && rest == history[mid..end]
  {
    var whole := history[start..end];
    assert whole[..|piece|] == history[start..start + |piece|] && whole[|piece|..] == history[start + |piece|..end];
    assert whole == whole[..|piece|] + whole[|piece|..];
    if piece + rest == whole {
      assert piece == (piece + rest)[..|piece|] && rest == (piece + rest)[|piece|..];
    }
  }

  /** The follower's concatenation is the whole history from its start exactly when no read dropped anything. */
  lemma {:induction false} CompleteIffNothingDropped<T>(answers: seq<CaptureResult<T>>, start: nat, history: seq<T>)
    requires Tiles(answers, start, history)
    requires start <= LastCursor(answers, start) <= |history|
    ensures |Delivered(answers)| <= LastCursor(answers, start) - start
    ensures Delivered(answers) == history[start..LastCursor(answers, start)] <==> NoneDropped(answers)
  {
    if answers != [] {
      hide NoneDropped, Tiles, Delivered, LastCursor;
      TilesFirst(answers, start, history);
      var r, later := answers[0], answers[1..];
      TilesFit(later, r.cursor, history);
      CompleteIffNothingDropped(later, r.cursor, history);
      PieceAndRest(r.entries, Delivered(later), history, start, LastCursor(answers, start));
      NoneDroppedFirst(answers);
    } else {
      assert history[start..start] == [];
    }
  }

  // ---------------------------------------------------------------- the object and the loop

  class CaptureBuffer<T> {
    const capacity: int
    var entries: seq<Numbered<T>>
    var last: nat

    ghost function State(): Buffer<T>
      reads this
    {
      Buffer(entries, last, capacity)
    }

    constructor (capacity: int := 500)
      ensures State() == Created(capacity)
    {
      this.capacity := capacity;
      entries, last := [], 0;
    }

    method Push(value: T)
      modifies this
      ensures State() == Pushed(old(State()), value)
    {
      last := last + 1;
      entries := entries + [Numbered(last, value)];
      if |entries| > capacity {
        entries := entries[1..];
      }
    }

    method Read(p: CaptureParams) returns (answer: Result<CaptureResult<T>, CaptureError>)
      modifies this
      ensures answer == Answer(old(State()), p)
      ensures State() == AfterRead(old(State()), p)
    {
      if p.since.Some? && !(0 <= p.since.value <= MAX_SAFE_INTEGER) {
        return Err(InvalidSince);
      }
      if p.limit.Some? && !(1 <= p.limit.value <= MAX_SAFE_INTEGER) {
        return Err(InvalidLimit);
      }
      var since: nat := if p.since.Some? then p.since.value else 0;
      var available := After(entries, since);
      var selected := Selected(available, p.limit);
      var oldest := if |entries| > 0 then entries[0].number else last + 1;
      var dropped := since < last && since + 1 < oldest;
      var cursor := if |selected| > 0 then selected[|selected| - 1].number
                    else if |available| == 0 then last else since;
      var values := Values(selected);
      if p.clear {
        entries := [];
      }
      answer := Ok(CaptureResult(values, cursor, dropped));
    }

    /** One turn of some other user of the buffer. */
    method Perform(e: Event<T>)
      modifies this
      ensures State() == Apply(old(State()), e)
    {
      match e
      case Push(value) => Push(value);
      case Read(p) => var _ := Read(p);
    }
  }

  /** The batches a consumer of `pollFollow` sees: the answers' entries, empty ones left out, flags left out. */
  function Yields<T>(answers: seq<CaptureResult<T>>): seq<seq<T>> {
    if answers == [] then []
    else (if answers[0].entries == [] then [] else [answers[0].entries]) + Yields(answers[1..])
  }

  function Concat<T>(batches: seq<seq<T>>): seq<T> {
    if batches == [] then [] else batches[0] + Concat(batches[1..])
  }

  /** Leaving out empty batches loses no entry; what the consumer cannot see is the `dropped` flags. */
  lemma {:induction false} YieldsDeliver<T>(answers: seq<CaptureResult<T>>)
    ensures Concat(Yields(answers)) == Delivered(answers)
  {
    if answers != [] {
      YieldsDeliver(answers[1..]);
      if answers[0].entries != [] {
        assert Yields(answers)[1..] == Yields(answers[1..]);
      } else {
        assert Yields(answers) == Yields(answers[1..]);
      }
    }
  }

  /** What a consumer of the loop has is the whole history up to its cursor exactly when no poll said `dropped`. */
  lemma ConsumerCompleteIffNothingDropped<T>(b: Buffer<T>, history: seq<T>, start: nat, limit: Option<int>, clear: bool,
                                             turns: seq<seq<Event<T>>>)
    requires Inv(b, history) && start <= b.last
    ensures var answers := Follow(b, start, limit, clear, turns);
            var pushed, end := history + AllPushed(turns), LastCursor(answers, start);
            && start <= end <= |pushed|
            && (Concat(Yields(answers)) == pushed[start..end] <==> forall r | r in answers :: !r.dropped)
  {
    hide Inv, Follow, Tiles, AllPushed, Delivered, Yields;
    var answers, pushed := Follow(b, start, limit, clear, turns), history + AllPushed(turns);
    FollowTiles(b, history, start, limit, clear, turns);
    TilesFit(answers, start, pushed);
    CompleteIffNothingDropped(answers, start, pushed);
    YieldsDeliver(answers);
    assert forall k | 0 <= k < |answers| :: answers[k] in answers;
  }

  /** A turn of others. */
  method PerformAll<T>(buffer: CaptureBuffer<T>, events: seq<Event<T>>)
    modifies buffer
    ensures buffer.State() == ApplyAll(old(buffer.State()), events)
  {
    hide Apply;
    for k := 0 to |events|
      invariant ApplyAll(buffer.State(), events[k..]) == ApplyAll(old(buffer.State()), events)
    {
      assert events[k..][0] == events[k] && events[k..][1..] == events[k + 1..];
      buffer.Perform(events[k]);
    }
  }

  /** The polling loop; `turns` are what others do to the buffer before each poll. */
  method PollFollow<T>(buffer: CaptureBuffer<T>, start: nat, limit: Option<int>, clear: bool, turns: seq<seq<Event<T>>>)
    returns (out: seq<seq<T>>)
    modifies buffer
    ensures out == Yields(Follow(old(buffer.State()), start, limit, clear, turns))
  {
    hide Answer, AfterRead, ApplyAll, Follow, Yields;
    var cursor := start;
    out := [];
    assert turns[0..] == turns;
    EmptyIsUnit(Yields(Follow(buffer.State(), start, limit, clear, turns)));
    for i := 0 to |turns|
      invariant out + Yields(Follow(buffer.State(), cursor, limit, clear, turns[i..]))
                == Yields(Follow(old(buffer.State()), start, limit, clear, turns))
    {
      ghost var before, earlier := buffer.State(), cursor;
      PerformAll(buffer, turns[i]);
      var answer := buffer.Read(CaptureParams(Some(cursor), limit, clear));
      FollowOne(before, earlier, limit, clear, turns, i);
      EmptyIsUnit(out);
      if answer.Err? {
        return;
      }
      cursor := answer.value.cursor;
      ghost var later := Yields(Follow(buffer.State(), cursor, limit, clear, turns[i + 1..]));
      EmptyIsUnit(later);
      if |answer.value.entries| > 0 {
        Assoc(out, [answer.value.entries], later);
        out := out + [answer.value.entries];
      }
    }
    FollowNone(buffer.State(), cursor, limit, clear, turns[|turns|..]);
    EmptyIsUnit(out);
  }

  lemma FollowNone<T>(b: Buffer<T>, cursor: nat, limit: Option<int>, clear: bool, turns: seq<seq<Event<T>>>)
    requires turns == []
    ensures Yields(Follow(b, cursor, limit, clear, turns)) == []
  {
  }

  lemma FollowOne<T>(b: Buffer<T>, cursor: nat, limit: Option<int>, clear: bool, turns: seq<seq<Event<T>>>, i: nat)
    requires i < |turns|
    ensures var now := ApplyAll(b, turns[i]);
            var p := CaptureParams(Some(cursor), limit, clear);
            Yields(Follow(b, cursor, limit, clear, turns[i..])) ==
            match Answer(now, p)
            case Err(_) => []
            case Ok(r) => (if r.entries == [] then [] else [r.entries])
                          + Yields(Follow(AfterRead(now, p), r.cursor, limit, clear, turns[i + 1..]))
  {
    hide Answer, AfterRead, ApplyAll;
    assert turns[i..][0] == turns[i] && turns[i..][1..] == turns[i + 1..];
  }
}
