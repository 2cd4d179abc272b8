/** The line log written by `streamDiffs` (bin/tauri-agent.ts, lines 650-687) and a reader replaying it. */
module StreamDiffs {
  import opened Text
  import opened LineDiff
  import opened Ring
  import opened SemanticStreams

  /** One line of the log: a snapshot (first or resync) or a change frame. */
  datatype LogLine = Snapshot(text: string, cursor: nat) | Change(frame: Frame)

  /** What the first poll writes: the snapshot if it came with one, then every frame. */
  function FirstLines(r: StreamResult): seq<LogLine> {
    (if r.snapshot.Some? then [Snapshot(r.snapshot.value, r.cursor)] else []) + Changes(r.frames)
  }

  /** What a later poll writes: a resync snapshot if frames were lost, else the frames. */
  function LaterLines(r: StreamResult): seq<LogLine>
    requires r.dropped ==> r.snapshot.Some?
  {
    if r.dropped then [Snapshot(r.snapshot.value, r.cursor)] else Changes(r.frames)
  }

  function Changes(frames: seq<Frame>): seq<LogLine> {
    seq(|frames|, i requires 0 <= i < |frames| => Change(frames[i]))
  }

  /** What is written of an answer: the snapshot it comes with, first or alone, and each frame once and in order. */
  lemma LinesAreTheAnswer(r: StreamResult)
    requires r.dropped ==> r.snapshot.Some?
    ensures var first, n := FirstLines(r), if r.snapshot.Some? then 1 else 0;
            && |first| == n + |r.frames|
            && (r.snapshot.Some? ==> first[0] == Snapshot(r.snapshot.value, r.cursor))
            && forall k | 0 <= k < |r.frames| :: first[n + k] == Change(r.frames[k])
    ensures r.dropped ==> LaterLines(r) == [Snapshot(r.snapshot.value, r.cursor)]
    ensures !r.dropped ==>
              && |LaterLines(r)| == |r.frames|
              && forall k | 0 <= k < |r.frames| :: LaterLines(r)[k] == Change(r.frames[k])
  {
  }

  // ---------------------------------------------------------------- the reader

  /** The lines held, and the number of the newest change they include. */
  datatype Reader = Reader(view: multiset<Line>, last: nat)

  ghost function Read(r: Reader, line: LogLine): Reader {
    match line
    case Snapshot(text, cursor) => Reader(LineBag(text), cursor)
    case Change(f) =>
      if f.number > r.last then Reader(r.view - multiset(f.value.removed) + multiset(f.value.added), f.number) else r
  }

  ghost function ReadAll(r: Reader, lines: seq<LogLine>): Reader {
    if lines == [] then r else Read(ReadAll(r, lines[..|lines| - 1]), lines[|lines| - 1])
  }

  lemma ReadLast(r: Reader, lines: seq<LogLine>, line: LogLine)
    ensures ReadAll(r, lines + [line]) == Read(ReadAll(r, lines), line)
  {
    assert (lines + [line])[..|lines|] == lines;
  }

  lemma {:induction false} ReadAppend(r: Reader, a: seq<LogLine>, b: seq<LogLine>)
    ensures ReadAll(r, a + b) == ReadAll(ReadAll(r, a), b)
  {
    if b == [] {
      EmptyIsUnit(a);
    } else {
      hide ReadAll, Read;
      var c, line := b[..|b| - 1], b[|b| - 1];
      ReadAppend(r, a, c);
      LastApart(b);
      Assoc(a, c, [line]);
      ReadLast(r, a + c, line);
      ReadLast(ReadAll(r, a), c, line);
    }
  }

  /** A reader that replayed the history up to its number. */
  ghost predicate InStep(r: Reader, base: multiset<Line>, log: seq<Frame>) {
    r.last <= |log| && r.view == Replayed(base, log[..r.last])
  }

  /** The change numbered `to`, read by a reader that has everything before it. */
  lemma ReadNext(r: Reader, base: multiset<Line>, log: seq<Frame>, to: nat)
    requires Consecutive(log) && InStep(r, base, log) && 0 < to <= |log| && to - 1 <= r.last
    ensures Read(r, Change(log[to - 1])) == if to <= r.last then r else Reader(Replayed(base, log[..to]), to)
  {
    hide Replayed, LineBag;
    if to > r.last {
      ReplayOne(base, log[..r.last], log[r.last]);
      assert log[..r.last] + [log[r.last]] == log[..to];
    }
  }

  lemma ChangesOne(log: seq<Frame>, from: nat, to: nat)
    requires from < to <= |log|
    ensures Changes(log[from..to]) == Changes(log[from..to - 1]) + [Change(log[to - 1])]
  {
  }

  /** Change lines from the retained history: those already seen are skipped, the others applied in order. */
  lemma {:induction false} ReadChanges(r: Reader, base: multiset<Line>, log: seq<Frame>, from: nat, to: nat)
    requires Consecutive(log) && InStep(r, base, log) && from <= to <= |log|
    requires from <= r.last
    ensures ReadAll(r, Changes(log[from..to])) ==
            if to <= r.last then r else Reader(Replayed(base, log[..to]), to)
  {
    hide Replayed, Consecutive, LineBag, Read, Changes;
    if from == to {
      NoChanges(r, log[from..to]);
    } else {
      ReadChanges(r, base, log, from, to - 1);
      ChangesOne(log, from, to);
      ReadAppend(r, Changes(log[from..to - 1]), [Change(log[to - 1])]);
      var before := ReadAll(r, Changes(log[from..to - 1]));
      ReadOne(before, Change(log[to - 1]));
      ReadNext(before, base, log, to);
    }
  }

  lemma NoChanges(r: Reader, frames: seq<Frame>)
    requires frames == []
    ensures ReadAll(r, Changes(frames)) == r
  {
  }

  lemma ReadToEnd(r: Reader, base: multiset<Line>, log: seq<Frame>, from: nat)
    requires Consecutive(log) && InStep(r, base, log) && from <= r.last
    ensures ReadAll(r, Changes(log[from..])) == Reader(Replayed(base, log), |log|)
  {
    hide Replayed, ReadAll, Changes, Consecutive;
    ReadChanges(r, base, log, from, |log|);
    assert log[from..|log|] == log[from..] && log[..|log|] == log;
  }

  /** What any poll writes brings a reader at the poll's cursor up to the stream's current text. */
  lemma LaterLinesCatchUp(r: Reader, s: Stream, base: multiset<Line>, log: seq<Frame>)
    requires Inv(s, base, log) && InStep(r, base, log)
    ensures ReadAll(r, LaterLines(Pulled(s, Some(r.last), true))) == Reader(LineBag(s.lastText), s.last)
  {
    hide Replayed, LineBag, After;
    PullIsRetainedHistory(s, base, log, Some(r.last), true);
    if !Pulled(s, Some(r.last), true).dropped {
      ReadToEnd(r, base, log, r.last);
    } else {
      ReadOne(r, Snapshot(s.lastText, s.last));
    }
  }

  lemma ReadOne(r: Reader, line: LogLine)
    ensures ReadAll(r, [line]) == Read(r, line)
  {
    assert [line][..0] == [];
  }

  lemma SnapshotThenChanges(r: Reader, s: Stream, base: multiset<Line>, log: seq<Frame>, from: nat)
    requires Inv(s, base, log) && from <= |log|
    ensures ReadAll(r, [Snapshot(s.lastText, s.last)] + Changes(log[from..])) == Reader(LineBag(s.lastText), s.last)
  {
    hide LineBag, Replayed, Changes;
    assert log[..|log|] == log;
    var line := Snapshot(s.lastText, s.last);
    ReadAppend(r, [line], Changes(log[from..]));
    ReadOne(r, line);
    ReadToEnd(Read(r, line), base, log, from);
  }

  /** The first poll does so for any reader when it asks for everything, and else for one at its cursor. */
  lemma FirstLinesCatchUp(r: Reader, s: Stream, base: multiset<Line>, log: seq<Frame>, since: Option<nat>)
    requires Inv(s, base, log)
    requires since.Some? ==> since.value == r.last && InStep(r, base, log)
    ensures ReadAll(r, FirstLines(Pulled(s, since, true))) == Reader(LineBag(s.lastText), s.last)
  {
    hide After, LineBag, Replayed, Changes, Pulled;
    var p := Pulled(s, since, true);
    PullIsRetainedHistory(s, base, log, since, true);
    if p.snapshot.Some? {
      SnapshotThenChanges(r, s, base, log, |log| - |p.frames|);
    } else {
      ReadToEnd(r, base, log, r.last);
      var none: seq<LogLine> := [];
      assert none + Changes(p.frames) == Changes(p.frames);
    }
  }

  /**
   * Priming a stream that already runs: a reader in step then comes to hold the new text's lines
   * exactly if it is so far behind that it gets a snapshot, or if the text only reorders lines.
   */
  lemma PrimedReaderCatchesUpIff(r: Reader, s: Stream, base: multiset<Line>, log: seq<Frame>, text: string)
    requires Inv(s, base, log) && InStep(r, base, log)
    ensures ReadAll(r, LaterLines(Pulled(Primed(s, text), Some(r.last), true))).view == LineBag(text)
            <==> r.last < |log| - |s.frames| || LineBag(text) == LineBag(s.lastText)
  {
    hide Replayed, LineBag, After, Changes, ReadAll;
    PullIsRetainedHistory(s, base, log, Some(r.last), true);
    if r.last < |log| - |s.frames| {
      ReadOne(r, Snapshot(text, s.last));
    } else {
      ReadToEnd(r, base, log, r.last);
    }
  }

  /** So it is for new streams only: this reader, in step with "a", is not told of "b". */
  lemma PrimingAgainMisleads()
    ensures var s, r := Primed(Created(None), "a"), Reader(LineBag("a"), 0);
            && Inv(s, LineBag("a"), []) && InStep(r, LineBag("a"), [])
            && ReadAll(r, LaterLines(Pulled(Primed(s, "b"), Some(0), true))).view != LineBag("b")
  {
    hide LineBag, Pulled, ReadAll, Primed, LaterLines;
    var s, r := Primed(Created(None), "a"), Reader(LineBag("a"), 0);
    PrimeStarts(Created(None), "a");
    CreatedText("a");
    PrimedReaderCatchesUpIff(r, s, LineBag("a"), [], "b");
    OneLineApart();
  }

  lemma CreatedText(text: string)
    ensures Primed(Created(None), text).lastText == text
  {
  }

  lemma OneLineApart()
    ensures LineBag("a") != LineBag("b")
  {
    CutOpen("a", '\n');
    CutOpen("b", '\n');
    assert "a" in LineBag("a") && "a" !in LineBag("b");
  }

  // ---------------------------------------------------------------- whole runs

  /** How long one poll may park: `waitMs` is at least 1, and so is what a deadline leaves of it. */
  function Budget(waitMs: Option<int>, timeoutMs: Option<int>, elapsed: int): (budget: nat)
    ensures budget >= 1
    ensures timeoutMs.Some? && elapsed < timeoutMs.value ==> elapsed + budget <= timeoutMs.value
    ensures var wanted := if waitMs.None? then 1000 else if waitMs.value < 1 then 1 else waitMs.value;
            budget <= wanted && (timeoutMs.None? || elapsed + wanted <= timeoutMs.value ==> budget == wanted)
  {
    var wanted := if waitMs.None? then 1000 else if waitMs.value < 1 then 1 else waitMs.value;
    if timeoutMs.None? || wanted <= timeoutMs.value - elapsed then wanted
    else if timeoutMs.value - elapsed < 1 then 1 else timeoutMs.value - elapsed
  }

  /**
   * One later poll: the time at the check before it, the texts the ticks find before it asks, the
   * time when its budget is set, and the texts they find while it is parked.
   */
  datatype Turn = Turn(checked: int, before: seq<string>, elapsed: int, during: seq<string>)

  /** The polls made before the check that ends the loop, if one does. */
  function InTime(timeoutMs: Option<int>, turns: seq<Turn>): seq<Turn> {
    if turns == [] || (timeoutMs.Some? && turns[0].checked >= timeoutMs.value) then []
    else [turns[0]] + InTime(timeoutMs, turns[1..])
  }

  /** Those are all up to the first that is at or past the deadline, and all if none is. */
  lemma {:induction false} InTimeMeans(timeoutMs: Option<int>, turns: seq<Turn>)
    ensures var n := |InTime(timeoutMs, turns)|;
            && InTime(timeoutMs, turns) <= turns
            && (timeoutMs.None? ==> n == |turns|)
            && (timeoutMs.Some? ==> forall i | 0 <= i < n :: turns[i].checked < timeoutMs.value)
            && (timeoutMs.Some? && n < |turns| ==> turns[n].checked >= timeoutMs.value)
  {
    if turns != [] {
      InTimeMeans(timeoutMs, turns[1..]);
    }
  }

  /** The texts found up to the poll's answer: a poll that finds frames is answered at once. */
  function Found(s: Stream, cursor: nat, turn: Turn): seq<string> {
    turn.before
    + if Pulled(TickAll(s, turn.before), Some(cursor), true).frames == [] then turn.during else []
  }

  function DiffLog(s: Stream, cursor: nat, turns: seq<Turn>): seq<LogLine>
    decreases |turns|
  {
    if turns == [] then []
    else
      var t := TickAll(s, Found(s, cursor, turns[0]));
      var r := Pulled(t, Some(cursor), true);
      LaterLines(r) + DiffLog(t, r.cursor, turns[1..])
  }

  function FullLog(s: Stream, since: Option<nat>, turns: seq<Turn>): seq<LogLine> {
    var r := Pulled(s, since, true);
    FirstLines(r) + DiffLog(s, r.cursor, turns)
  }

  /** Every text found up to the last poll's answer. */
  function AllFound(s: Stream, cursor: nat, turns: seq<Turn>): seq<string>
    decreases |turns|
  {
    if turns == [] then []
    else
      var t := TickAll(s, Found(s, cursor, turns[0]));
      Found(s, cursor, turns[0]) + AllFound(t, Pulled(t, Some(cursor), true).cursor, turns[1..])
  }

  lemma TextAfterAppend(text: string, a: seq<string>, b: seq<string>)
    ensures TextAfter(text, a + b) == TextAfter(TextAfter(text, a), b)
  {
  }

  lemma {:induction false} DiffLogReplays(r: Reader, s: Stream, base: multiset<Line>, log: seq<Frame>,
                                          turns: seq<Turn>)
    requires Inv(s, base, log)
    requires r == Reader(LineBag(s.lastText), s.last)
    ensures ReadAll(r, DiffLog(s, r.last, turns)).view == LineBag(TextAfter(s.lastText, AllFound(s, r.last, turns)))
    decreases |turns|
  {
    hide LineBag, Pulled, TickAll, EmittedAll, TextAfter, Found;
    if turns != [] {
      var found := Found(s, r.last, turns[0]);
      var t, grown := TickAll(s, found), log + EmittedAll(s, found);
      TickAllKeeps(s, base, log, found);
      assert grown[..r.last] == log;
      LaterLinesCatchUp(r, t, base, grown);
      var answer := Pulled(t, Some(r.last), true);
      PullIsRetainedHistory(t, base, grown, Some(r.last), true);
      var caughtUp := ReadAll(r, LaterLines(answer));
      DiffLogReplays(caughtUp, t, base, grown, turns[1..]);
      ReadAppend(r, LaterLines(answer), DiffLog(t, answer.cursor, turns[1..]));
      TextAfterAppend(s.lastText, found, AllFound(t, answer.cursor, turns[1..]));
    } else {
      NoneFound(s);
    }
  }

  lemma NoneFound(s: Stream)
    ensures TextAfter(s.lastText, []) == s.lastText
  {
  }

  /**
   * End-to-end replay. Whatever texts the ticks find before and during the polls, whichever polls
   * are parked, and however many frames the window evicts, a reader of the log so far holds the
   * lines of the text captured last. A run stops after any poll, so this says it of every poll.
   */
  lemma LogReplaysCurrentText(r: Reader, s: Stream, base: multiset<Line>, log: seq<Frame>,
                              since: Option<nat>, turns: seq<Turn>)
    requires Inv(s, base, log)
    requires since.Some? ==> since.value == r.last && InStep(r, base, log)
    ensures ReadAll(r, FullLog(s, since, turns)).view == LineBag(TextAfter(s.lastText, AllFound(s, s.last, turns)))
  {
    hide LineBag, Pulled, AllFound, TextAfter;
    var first := Pulled(s, since, true);
    FirstLinesCatchUp(r, s, base, log, since);
    PullIsRetainedHistory(s, base, log, since, true);
    DiffLogReplays(ReadAll(r, FirstLines(first)), s, base, log, turns);
    ReadAppend(r, FirstLines(first), DiffLog(s, first.cursor, turns));
  }

  lemma {:induction false} TickAllAppend(s: Stream, a: seq<string>, b: seq<string>)
    ensures TickAll(s, a + b) == TickAll(TickAll(s, a), b)
    ensures EmittedAll(s, a + b) == EmittedAll(s, a) + EmittedAll(TickAll(s, a), b)
    decreases |a|
  {
    if a == [] {
      EmptyIsUnit(b);
      EmptyIsUnit(EmittedAll(s, b));
    } else {
      hide TickAll, EmittedAll, Ticked, Emitted;
      var text, later := a[0], a[1..];
      TickAllAppend(Ticked(s, text), later, b);
      FirstApart(a);
      Assoc([text], later, b);
      TickFirst(s, text, later);
      TickFirst(s, text, later + b);
      var t := Ticked(s, text);
      Assoc(Emitted(s, text), EmittedAll(t, later), EmittedAll(TickAll(t, later), b));
    }
  }

  lemma TickFirst(s: Stream, text: string, later: seq<string>)
    ensures TickAll(s, [text] + later) == TickAll(Ticked(s, text), later)
    ensures EmittedAll(s, [text] + later) == Emitted(s, text) + EmittedAll(Ticked(s, text), later)
  {
    assert ([text] + later)[1..] == later;
    hide Ticked, Emitted;
  }

  /** A poll at the current cursor writes nothing exactly if no frame appears before it or while it may park. */
  lemma PollSilentIffQuiet(s: Stream, base: multiset<Line>, log: seq<Frame>, turn: Turn)
    requires Inv(s, base, log)
    ensures DiffLog(s, s.last, [turn]) == [] <==> EmittedAll(s, turn.before + turn.during) == []
  {
    hide TickAll, EmittedAll, Pulled, Inv, LaterLines, DiffLog;
    var found := Found(s, s.last, turn);
    PullEmptyIffQuiet(s, base, log, turn.before);
    PullEmptyIffQuiet(s, base, log, found);
    TickAllAppend(s, turn.before, turn.during);
    EmptyIsUnit(turn.before);
    DiffLogOfOne(s, s.last, turn);
  }

  /** Nothing to write from a cursor that was current before these ticks. */
  lemma PullEmptyIffQuiet(s: Stream, base: multiset<Line>, log: seq<Frame>, texts: seq<string>)
    requires Inv(s, base, log)
    ensures var r := Pulled(TickAll(s, texts), Some(s.last), true);
            && (r.frames == [] <==> EmittedAll(s, texts) == [])
            && (LaterLines(r) == [] <==> r.frames == [])
  {
    hide TickAll, EmittedAll, Pulled, Inv, Start;
    TickAllKeeps(s, base, log, texts);
    var t, grown := TickAll(s, texts), log + EmittedAll(s, texts);
    InvLength(s, base, log);
    InvLength(t, base, grown);
    PullIsRetainedHistory(t, base, grown, Some(s.last), true);
  }

  lemma DiffLogOfOne(s: Stream, cursor: nat, turn: Turn)
    ensures DiffLog(s, cursor, [turn]) == LaterLines(Pulled(TickAll(s, Found(s, cursor, turn)), Some(cursor), true))
  {
    hide Pulled, TickAll, Found, LaterLines;
    var none: seq<Turn> := [];
    EmptyIsUnit([turn]);
    DiffLogFirst(s, cursor, turn, none);
    EmptyIsUnit(LaterLines(Pulled(TickAll(s, Found(s, cursor, turn)), Some(cursor), true)));
  }

  lemma DiffLogFirst(s: Stream, cursor: nat, turn: Turn, later: seq<Turn>)
    ensures var t := TickAll(s, Found(s, cursor, turn));
            var r := Pulled(t, Some(cursor), true);
            DiffLog(s, cursor, [turn] + later) == LaterLines(r) + DiffLog(t, r.cursor, later)
  {
    hide Pulled, TickAll, Found, LaterLines;
    assert ([turn] + later)[1..] == later;
  }

  lemma InTimeFrom(timeoutMs: Option<int>, turns: seq<Turn>, i: nat)
    requires i <= |turns|
    ensures InTime(timeoutMs, turns[i..])
         == if i == |turns| || (timeoutMs.Some? && turns[i].checked >= timeoutMs.value) then []
            else [turns[i]] + InTime(timeoutMs, turns[i + 1..])
  {
    assert i < |turns| ==> turns[i..][1..] == turns[i + 1..];
  }

  /** The loop itself, against a live stream. */
  method StreamDiffs(stream: SemanticStream, since: Option<nat>, waitMs: Option<int>, timeoutMs: Option<int>,
                     turns: seq<Turn>) returns (out: seq<LogLine>)
    requires stream.started
    requires Accounted(stream.waiters, stream.issued, stream.resolved)
    modifies stream
    ensures out == FullLog(old(stream.State()), since, InTime(timeoutMs, turns))
  {
    hide Pulled, TickAll, Accounted, DiffLog, Changes, Found, InTime;
    var base := stream.BeginWait("", since, 0, true);
    assert stream.State() == old(stream.State());
    PollStepKeeps(old(stream.Parked()), Wait(since, 0, true));
    var result := base.value;
    out := [];
    if result.snapshot.Some? {
      out := out + [Snapshot(result.snapshot.value, result.cursor)];
    }
    out := out + Changes(result.frames);
    var cursor := result.cursor;
    ghost var log := FullLog(old(stream.State()), since, InTime(timeoutMs, turns));
    assert turns[0..] == turns;
    for i := 0 to |turns|
      invariant stream.started && Accounted(stream.waiters, stream.issued, stream.resolved)
      invariant out + DiffLog(stream.State(), cursor, InTime(timeoutMs, turns[i..])) == log
    {
      InTimeFrom(timeoutMs, turns, i);
      if timeoutMs.Some? && turns[i].checked >= timeoutMs.value {
        NoMoreTurns(stream.State(), cursor);
        EmptyIsUnit(out);
        return;
      }
      DiffLogFirst(stream.State(), cursor, turns[i], InTime(timeoutMs, turns[i + 1..]));
      result := Poll(stream, cursor, Budget(waitMs, timeoutMs, turns[i].elapsed), turns[i]);
      ghost var later := DiffLog(stream.State(), result.cursor, InTime(timeoutMs, turns[i + 1..]));
      Assoc(out, LaterLines(result), later);
      if result.dropped {
        out := out + [Snapshot(result.snapshot.value, result.cursor)];
      } else {
        out := out + Changes(result.frames);
      }
      cursor := result.cursor;
    }
    InTimeFrom(timeoutMs, turns, |turns|);
    NoMoreTurns(stream.State(), cursor);
    EmptyIsUnit(out);
  }

  lemma NoMoreTurns(s: Stream, cursor: nat)
    ensures DiffLog(s, cursor, []) == []
  {
  }

  /** One later poll: answered at once, or parked until a frame or its timer settles it and then pulled again. */
  method Poll(stream: SemanticStream, cursor: nat, budget: nat, turn: Turn) returns (result: StreamResult)
    requires stream.started && Accounted(stream.waiters, stream.issued, stream.resolved)
    requires budget >= 1
    modifies stream
    ensures stream.State() == TickAll(old(stream.State()), Found(old(stream.State()), cursor, turn))
    ensures result == Pulled(stream.State(), Some(cursor), true)
    ensures stream.started && Accounted(stream.waiters, stream.issued, stream.resolved)
  {
    hide Pulled, TickAll, EmittedAll, Accounted;
    Ticks(stream, turn.before);
    TickAllAppend(old(stream.State()), turn.before, turn.during);
    EmptyIsUnit(turn.before);
    ghost var asked := stream.Parked();
    PollStepKeeps(asked, Wait(Some(cursor), budget, true));
    var answer := stream.BeginWait("", Some(cursor), budget, true);
    if answer.Some? {
      return answer.value;
    }
    var id := stream.issued - 1;
    Ticks(stream, turn.during);
    ghost var woken := stream.Parked();
    PollStepKeeps(woken, Timeout(id));
    stream.Settle(id);
    result := stream.Pull("", Some(cursor), true);
  }

  method Ticks(stream: SemanticStream, texts: seq<string>)
    requires stream.started && Accounted(stream.waiters, stream.issued, stream.resolved)
    modifies stream
    ensures stream.State() == TickAll(old(stream.State()), texts)
    ensures stream.started && Accounted(stream.waiters, stream.issued, stream.resolved)
    ensures stream.issued == old(stream.issued)
  {
    for i := 0 to |texts|
      invariant stream.started && Accounted(stream.waiters, stream.issued, stream.resolved)
      invariant TickAll(stream.State(), texts[i..]) == TickAll(old(stream.State()), texts)
      invariant stream.issued == old(stream.issued)
    {
      assert texts[i..][0] == texts[i] && texts[i..][1..] == texts[i + 1..];
      PollStepKeeps(stream.Parked(), PollEvent.Tick(texts[i]));
      stream.Tick(texts[i]);
    }
  }
}
