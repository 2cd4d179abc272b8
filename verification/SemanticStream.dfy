/** The diff stream over successive tree texts: guest-js/semantic-stream.ts, lines 25-123. */
module SemanticStreams {
  import opened Text
  import opened LineDiff
  import opened Ring

  datatype Diff = Diff(added: seq<Line>, removed: seq<Line>)

  type Frame = Numbered<Diff>

  datatype StreamResult = StreamResult(frames: seq<Frame>, cursor: nat, snapshot: Option<string>, dropped: bool)

  datatype Stream = Stream(bufferSize: int, lastText: string, lastLines: seq<Line>,
                           frames: seq<Frame>, last: nat, started: bool)

  const DEFAULT_BUFFER_SIZE := 256

  function Created(bufferSize: Option<int>): (s: Stream)
    ensures s.bufferSize >= 1 && Unstarted(s)
    ensures bufferSize == None ==> s.bufferSize == 256
    ensures bufferSize.Some? && bufferSize.value >= 1 ==> s.bufferSize == bufferSize.value
  {
    var size := if bufferSize.Some? then bufferSize.value else DEFAULT_BUFFER_SIZE;
    Stream(if size < 1 then 1 else size, "", [], [], 0, false)
  }

  predicate Unstarted(s: Stream) {
    !s.started && s.frames == [] && s.last == 0
  }

  function Primed(s: Stream, text: string): Stream {
    s.(lastText := text, lastLines := SplitLines(text), started := true)
  }

  /** The frame a tick over `text` appends, if any. */
  function Emitted(s: Stream, text: string): seq<Frame> {
    var next := SplitLines(text);
    var added, removed := Added(s.lastLines, next), Removed(s.lastLines, next);
    if !s.started || text == s.lastText || (added == [] && removed == []) then []
    else [Numbered(s.last + 1, Diff(added, removed))]
  }

  function Ticked(s: Stream, text: string): Stream {
    var t := Primed(s, text);
    if s.started && text == s.lastText then s
    else if Emitted(s, text) == [] then t
    else t.(frames := Shifted(s.frames, Emitted(s, text)[0], s.bufferSize), last := s.last + 1)
  }

  function Pulled(s: Stream, since: Option<nat>, lean: bool): (r: StreamResult)
    ensures r.dropped || since.None? || !lean <==> r.snapshot.Some?
  {
    var cursor := if since.Some? then since.value else 0;
    var oldest := if s.frames != [] then s.frames[0].number else 0;
    var dropped := cursor < s.last && cursor + 1 < oldest;
    StreamResult(After(s.frames, cursor), s.last,
                 if !lean || since.None? || dropped then Some(s.lastText) else None, dropped)
  }

  // ---------------------------------------------------------------- the unbounded history

  /** The lines held after the first frames of `log` are applied to `base`. */
  ghost function Replayed(base: multiset<Line>, log: seq<Frame>): multiset<Line> {
    if log == [] then base
    else
      var f := log[|log| - 1];
      Replayed(base, log[..|log| - 1]) - multiset(f.value.removed) + multiset(f.value.added)
  }

  /** The stream as a bounded window on everything it ever emitted since its baseline. */
  ghost predicate Inv(s: Stream, base: multiset<Line>, log: seq<Frame>) {
    && s.started && s.bufferSize >= 1
    && s.lastLines == SplitLines(s.lastText)
    && s.last == |log| && Consecutive(log)
    && |s.frames| == (if |log| < s.bufferSize then |log| else s.bufferSize)
    && EndOf(s.frames, log)
    && Replayed(base, log) == LineBag(s.lastText)
  }

  lemma PrimeStarts(s: Stream, text: string)
    requires Unstarted(s) && s.bufferSize >= 1
    ensures Inv(Primed(s, text), LineBag(text), [])
    ensures Ticked(s, text) == Primed(s, text)
  {
  }

  lemma ReplayOne(base: multiset<Line>, log: seq<Frame>, f: Frame)
    ensures Replayed(base, log + [f]) == Replayed(base, log) - multiset(f.value.removed) + multiset(f.value.added)
  {
    assert (log + [f])[..|log|] == log;
  }

  /** A tick is silent exactly on a reordering, and otherwise its frame bridges the two texts. */
  lemma TickBridges(s: Stream, text: string)
    requires s.started && s.lastLines == SplitLines(s.lastText)
    ensures Emitted(s, text) == [] <==> LineBag(text) == LineBag(s.lastText)
    ensures Emitted(s, text) != [] ==>
              var f := Emitted(s, text)[0];
              && Emitted(s, text) == [f] && f.number == s.last + 1
              && Bridges(LineBag(s.lastText), multiset(f.value.added), multiset(f.value.removed), LineBag(text))
              && multiset(f.value.added) !! multiset(f.value.removed)
              && f.value == Diff(Added(s.lastLines, SplitLines(text)), Removed(s.lastLines, SplitLines(text)))
  {
    SilentIffReordered(s.lastLines, SplitLines(text));
    DiffIsLeast(s.lastLines, SplitLines(text));
  }

  lemma FrameKeeps(s: Stream, base: multiset<Line>, log: seq<Frame>, text: string, f: Frame)
    requires Inv(s, base, log) && text != s.lastText
    requires Emitted(s, text) == [f] && f.number == s.last + 1
    requires Bridges(LineBag(s.lastText), multiset(f.value.added), multiset(f.value.removed), LineBag(text))
    ensures Inv(Ticked(s, text), base, log + [f])
  {
    hide Emitted, SplitLines, Replayed;
    ConsecutiveOne(log, f);
    ReplayOne(base, log, f);
    ShiftedIsEnd(s.frames, log, f, s.bufferSize);
  }

  lemma SilenceKeeps(s: Stream, base: multiset<Line>, log: seq<Frame>, text: string)
    requires Inv(s, base, log) && Emitted(s, text) == []
    requires LineBag(text) == LineBag(s.lastText)
    ensures Inv(Ticked(s, text), base, log)
  {
    hide Emitted, SplitLines, Replayed;
  }

  /** Every tick keeps the window on the history, whatever text it finds. */
  lemma TickKeeps(s: Stream, base: multiset<Line>, log: seq<Frame>, text: string)
    requires Inv(s, base, log)
    ensures Inv(Ticked(s, text), base, log + Emitted(s, text))
  {
    hide Added, Removed, SplitLines, Ticked, Replayed;
    TickBridges(s, text);
    if Emitted(s, text) == [] {
      SilenceKeeps(s, base, log, text);
      assert log + [] == log;
    } else {
      FrameKeeps(s, base, log, text, Emitted(s, text)[0]);
    }
  }

  /** A pull is the retained part of the history after the cursor; `dropped` tells exactly of a lost part. */
  lemma PullIsRetainedHistory(s: Stream, base: multiset<Line>, log: seq<Frame>, since: Option<nat>, lean: bool)
    requires Inv(s, base, log)
    requires since.Some? ==> since.value <= s.last
    ensures var cursor := if since.Some? then since.value else 0;
            var evicted := |log| - |s.frames|;
            var r := Pulled(s, since, lean);
            && (r.dropped <==> cursor < evicted)
            && r.frames == log[Start(evicted, cursor)..]
            && r.cursor == |log|
            && (r.frames == [] <==> cursor == |log|)
            && (r.snapshot == Some(s.lastText) || (r.snapshot == None && lean && since.Some? && !r.dropped))
  {
    AfterInWindow(s.frames, log, if since.Some? then since.value else 0);
  }

  /** A cursor the stream has not issued yet gets nothing, no warning, and the current cursor back. */
  lemma FutureCursorIsReset(s: Stream, base: multiset<Line>, log: seq<Frame>, cursor: nat)
    requires Inv(s, base, log) && cursor > s.last
    ensures Pulled(s, Some(cursor), true) == StreamResult([], s.last, None, false)
  {
    AfterInWindow(s.frames, log, cursor);
  }

  function TickAll(s: Stream, texts: seq<string>): Stream
    decreases |texts|
  {
    if texts == [] then s else TickAll(Ticked(s, texts[0]), texts[1..])
  }

  function EmittedAll(s: Stream, texts: seq<string>): seq<Frame>
    decreases |texts|
  {
    if texts == [] then [] else Emitted(s, texts[0]) + EmittedAll(Ticked(s, texts[0]), texts[1..])
  }

  function TextAfter(text: string, texts: seq<string>): string {
    if texts == [] then text else texts[|texts| - 1]
  }

  lemma {:induction false} TickAllKeeps(s: Stream, base: multiset<Line>, log: seq<Frame>, texts: seq<string>)
    requires Inv(s, base, log)
    ensures Inv(TickAll(s, texts), base, log + EmittedAll(s, texts))
    ensures TickAll(s, texts).lastText == TextAfter(s.lastText, texts)
    decreases |texts|
  {
    hide Inv, Emitted;
    if texts == [] {
      assert log + [] == log;
    } else {
      TickKeeps(s, base, log, texts[0]);
      var t := Ticked(s, texts[0]);
      var first, later := Emitted(s, texts[0]), EmittedAll(t, texts[1..]);
      TickAllKeeps(t, base, log + first, texts[1..]);
      assert log + (first + later) == log + first + later;
    }
  }

  // ---------------------------------------------------------------- long polls

  /** The stream with its parked waits: ids still waiting, and ids resolved so far in order. */
  datatype Polls = Polls(stream: Stream, waiters: seq<nat>, issued: nat, resolved: seq<nat>)

  datatype PollEvent = Tick(text: string) | Wait(since: Option<nat>, timeoutMs: nat, lean: bool) | Timeout(id: nat)

  function Without(ids: seq<nat>, id: nat): seq<nat> {
    if ids == [] then []
    else
      var n := |ids| - 1;
      Without(ids[..n], id) + if ids[n] == id then [] else [ids[n]]
  }

  /** `done`: the first call settles the wait and takes it off the list, later ones do nothing. */
  function Done(p: Polls, id: nat): Polls {
    if id in p.resolved then p
    else p.(waiters := Without(p.waiters, id), resolved := p.resolved + [id])
  }

  function Parks(p: Polls, since: Option<nat>, timeoutMs: nat, lean: bool): bool {
    Pulled(p.stream, since, lean).frames == [] && timeoutMs > 0
  }

  function PollStep(p: Polls, e: PollEvent): Polls {
    match e
    case Tick(text) =>
      var ticked := p.(stream := Ticked(p.stream, text));
      if Emitted(p.stream, text) == [] then ticked
      else ticked.(waiters := [], resolved := p.resolved + p.waiters)
    case Wait(since, timeoutMs, lean) =>
      if Parks(p, since, timeoutMs, lean) then p.(waiters := p.waiters + [p.issued], issued := p.issued + 1) else p
    case Timeout(id) =>
      if id < p.issued then Done(p, id) else p
  }

  function PollRun(p: Polls, events: seq<PollEvent>): Polls
    decreases |events|
  {
    if events == [] then p else PollRun(PollStep(p, events[0]), events[1..])
  }

  predicate Distinct(ids: seq<nat>) {
    forall i, j | 0 <= i < j < |ids| :: ids[i] != ids[j]
  }

  /** Every wait that ever parked is either still listed or resolved: one of the two, and once. */
  ghost predicate Accounted(waiters: seq<nat>, issued: nat, resolved: seq<nat>) {
    && Distinct(waiters) && Distinct(resolved)
    && (forall id | id in waiters :: id !in resolved)
    && (forall id: nat :: id < issued <==> id in waiters || id in resolved)
  }

  ghost predicate PollsInv(p: Polls) {
    Accounted(p.waiters, p.issued, p.resolved)
  }

  lemma {:induction false} WithoutIs(ids: seq<nat>, id: nat)
    requires Distinct(ids)
    ensures forall x :: x in Without(ids, id) <==> x in ids && x != id
    ensures Distinct(Without(ids, id))
  {
    if ids != [] {
      var n := |ids| - 1;
      WithoutIs(ids[..n], id);
      assert forall x :: x in ids <==> x in ids[..n] || x == ids[n];
      assert ids[n] !in ids[..n];
    }
  }

  lemma DistinctAppend(a: seq<nat>, b: seq<nat>)
    requires Distinct(a) && Distinct(b) && forall x | x in b :: x !in a
    ensures Distinct(a + b)
    ensures forall x :: x in a + b <==> x in a || x in b
  {
    forall i, j | 0 <= i < j < |a + b| ensures (a + b)[i] != (a + b)[j] {
      assert j >= |a| ==> (a + b)[j] in b;
    }
  }

  lemma PollStepKeeps(p: Polls, e: PollEvent)
    requires PollsInv(p)
    ensures PollsInv(PollStep(p, e))
    ensures p.stream.last <= PollStep(p, e).stream.last && p.issued <= PollStep(p, e).issued
    ensures forall id | id in p.resolved :: id in PollStep(p, e).resolved
    ensures forall id | id in p.waiters :: id in PollStep(p, e).waiters
              <==> PollStep(p, e).stream.last == p.stream.last && e != Timeout(id)
  {
    hide Added, Removed, Pulled;
    match e
    case Tick(_) => DistinctAppend(p.resolved, p.waiters);
    case Wait(_, _, _) => DistinctAppend(p.waiters, [p.issued]);
    case Timeout(id) =>
      if id < p.issued && id !in p.resolved {
        WithoutIs(p.waiters, id);
        DistinctAppend(p.resolved, [id]);
      }
  }

  lemma {:induction false} PollRunKeeps(p: Polls, events: seq<PollEvent>)
    requires PollsInv(p)
    ensures PollsInv(PollRun(p, events))
    ensures p.stream.last <= PollRun(p, events).stream.last && p.issued <= PollRun(p, events).issued
    ensures forall id | id in p.resolved :: id in PollRun(p, events).resolved
    decreases |events|
  {
    if events != [] {
      PollStepKeeps(p, events[0]);
      PollRunKeeps(PollStep(p, events[0]), events[1..]);
    }
  }

  /** No lost wakeups: a parked wait stays parked exactly while no frame is appended and its timer has not fired. */
  lemma {:induction false} ParkedUntilFrameOrTimeout(p: Polls, events: seq<PollEvent>, id: nat)
    requires PollsInv(p) && id in p.waiters
    ensures var q := PollRun(p, events);
            && (id in q.waiters <==> q.stream.last == p.stream.last && Timeout(id) !in events)
            && (id in q.resolved <==> id !in q.waiters)
    decreases |events|
  {
    hide PollStep;
    PollRunKeeps(p, events);
    if events != [] {
      var e, later := events[0], events[1..];
      var q := PollStep(p, e);
      PollStepKeeps(p, e);
      PollRunKeeps(q, later);
      assert events == [e] + later;
      if id in q.waiters {
        ParkedUntilFrameOrTimeout(q, later, id);
      }
    }
  }

  lemma InvLength(s: Stream, base: multiset<Line>, log: seq<Frame>)
    requires Inv(s, base, log)
    ensures s.last == |log|
  {
  }

  /** A wait parks exactly if it may take time and its cursor is current; it is then listed last. */
  lemma WaitParksIff(p: Polls, base: multiset<Line>, log: seq<Frame>, since: Option<nat>, timeoutMs: nat, lean: bool)
    requires Inv(p.stream, base, log)
    requires since.Some? ==> since.value <= |log|
    ensures var cursor := if since.Some? then since.value else 0;
            var later := PollStep(p, Wait(since, timeoutMs, lean));
            later == if timeoutMs > 0 && cursor == |log|
                     then p.(waiters := p.waiters + [p.issued], issued := p.issued + 1) else p
  {
    hide Pulled, Inv, Start;
    InvLength(p.stream, base, log);
    PullIsRetainedHistory(p.stream, base, log, since, lean);
  }

  /** A resumed wait is answered without frames exactly when none was appended since it asked. */
  lemma EmptyAnswerIffQuiet(s: Stream, base: multiset<Line>, log: seq<Frame>,
                            since: Option<nat>, lean: bool, window: seq<string>)
    requires Inv(s, base, log)
    requires since.Some? ==> since.value <= s.last
    requires Pulled(s, since, lean).frames == []
    ensures Pulled(TickAll(s, window), since, lean).frames == [] <==> EmittedAll(s, window) == []
  {
    hide Inv, Pulled, TickAll, EmittedAll, Start;
    TickAllKeeps(s, base, log, window);
    InvLength(s, base, log);
    InvLength(TickAll(s, window), base, log + EmittedAll(s, window));
    PullIsRetainedHistory(s, base, log, since, lean);
    PullIsRetainedHistory(TickAll(s, window), base, log + EmittedAll(s, window), since, lean);
  }

  // ---------------------------------------------------------------- the object

  class SemanticStream {
    const bufferSize: int
    var lastText: string
    var lastLines: seq<Line>
    var frames: seq<Frame>
    var last: nat
    var started: bool
    var waiters: seq<nat>
    var issued: nat
    var resolved: seq<nat>

    ghost function State(): Stream
      reads this
    {
      Stream(bufferSize, lastText, lastLines, frames, last, started)
    }

    ghost function Parked(): Polls
      reads this
    {
      Polls(State(), waiters, issued, resolved)
    }

    /** The stream an answer is read from: one that was never primed is primed first. */
    ghost function Ready(text: string): Polls
      reads this
    {
      if started then Parked() else Parked().(stream := Primed(State(), text))
    }

    constructor (bufferSize: Option<int> := None)
      ensures Parked() == Polls(Created(bufferSize), [], 0, [])
    {
      var size := if bufferSize.Some? then bufferSize.value else DEFAULT_BUFFER_SIZE;
      this.bufferSize := if size < 1 then 1 else size;
      lastText, lastLines, frames, last, started := "", [], [], 0, false;
      waiters, issued, resolved := [], 0, [];
    }

    /** `text` is what the capture callback returns. */
    method Prime(text: string)
      modifies this
      ensures Parked() == old(Parked()).(stream := Primed(old(State()), text))
    {
      lastText := text;
      lastLines := SplitLines(lastText);
      started := true;
    }

    method Tick(text: string)
      requires Accounted(waiters, issued, resolved)
      modifies this
      ensures Parked() == PollStep(old(Parked()), PollEvent.Tick(text))
    {
      hide Added, Removed, SplitLines, Accounted;
      if !started {
        Prime(text);
        return;
      }
      if text == lastText {
        return;
      }
      var nextLines := SplitLines(text);
      var added, removed := DiffLines(lastLines, nextLines);
      lastText := text;
      lastLines := nextLines;
      if |added| == 0 && |removed| == 0 {
        return;
      }
      last := last + 1;
      frames := frames + [Numbered(last, Diff(added, removed))];
      if |frames| > bufferSize {
        frames := frames[1..];
      }
      Wake();
    }

    /** `text` is what the capture callback would return, read only by a stream not yet primed. */
    method Pull(text: string, since: Option<nat>, lean: bool) returns (result: StreamResult)
      modifies this
      ensures Parked() == old(Ready(text))
      ensures result == Pulled(State(), since, lean)
    {
      if !started {
        Prime(text);
      }
      var cursor := if since.Some? then since.value else 0;
      var oldest := if |frames| > 0 then frames[0].number else 0;
      var dropped := cursor < last && cursor + 1 < oldest;
      result := StreamResult(After(frames, cursor), last,
                             if !lean || since.None? || dropped then Some(lastText) else None, dropped);
    }

    /** The turn of `wait` up to its await: an answer, or a parked wait that answers with a later `Pull`. */
    method BeginWait(text: string, since: Option<nat>, timeoutMs: nat, lean: bool)
      returns (answer: Option<StreamResult>)
      modifies this
      ensures Parked() == PollStep(old(Ready(text)), Wait(since, timeoutMs, lean))
      ensures answer == if Parks(old(Ready(text)), since, timeoutMs, lean) then None
                        else Some(Pulled(State(), since, lean))
    {
      var immediate := Pull(text, since, lean);
      if |immediate.frames| > 0 || timeoutMs <= 0 {
        return Some(immediate);
      }
      waiters := waiters + [issued];
      issued := issued + 1;
      return None;
    }

    /** Called by `Wake` and by the timer; the flag `settled` of wait `id` is `id in resolved`. */
    method Settle(id: nat)
      modifies this
      ensures Parked() == Done(old(Parked()), id)
    {
      if id in resolved {
        return;
      }
      resolved := resolved + [id];
      waiters := Without(waiters, id);
    }

    method Wake()
      requires Accounted(waiters, issued, resolved)
      modifies this
      ensures Parked() == old(Parked()).(waiters := [], resolved := old(resolved) + old(waiters))
    {
      var pending := waiters;
      waiters := [];
      for i := 0 to |pending|
        invariant Parked() == old(Parked()).(waiters := [], resolved := old(resolved) + pending[..i])
      {
        Settle(pending[i]);
      }
      assert pending[..|pending|] == pending;
    }
  }
}
