/** The inline server's line reader and the loop around it: src/server.rs, lines 321-420. */
module RustServer {
  import opened Text
  import opened Framing

  /** The read that gives no bytes: at the end of the stream, failing, or silent past the read timeout. */
  datatype End = Closed | Broken | TimedOut

  /** What a buffered reader has still to give up to such a read: the unread part of each read, none empty. */
  datatype Source = Source(chunks: seq<Bytes>, end: End)

  ghost predicate Readable(src: Source) {
    forall i | 0 <= i < |src.chunks| :: src.chunks[i] != []
  }

  function Unread(src: Source): Bytes {
    Flatten(src.chunks)
  }

  datatype LineRead = Line | Eof | TooLong | Timeout

  lemma FlattenFirst(chunks: seq<Bytes>)
    requires chunks != []
    ensures Flatten(chunks) == chunks[0] + Flatten(chunks[1..])
  {
    FirstApart(chunks);
    FlattenAppend([chunks[0]], chunks[1..]);
    assert Flatten([chunks[0]]) == [] + chunks[0];
    EmptyIsUnit(chunks[0]);
  }

  /** `consume(n)` after a `fill_buf` that gave the first chunk. */
  function Consumed(src: Source, n: nat): Source
    requires src.chunks != [] && n <= |src.chunks[0]|
  {
    if n == |src.chunks[0]| then src.(chunks := src.chunks[1..])
    else src.(chunks := [src.chunks[0][n..]] + src.chunks[1..])
  }

  lemma ConsumedIs(src: Source, n: nat)
    requires src.chunks != [] && n <= |src.chunks[0]| && Readable(src)
    ensures Readable(Consumed(src, n))
    ensures src.chunks[0][..n] + Unread(Consumed(src, n)) == Unread(src)
  {
    hide Flatten;
    FlattenFirst(src.chunks);
    var after := Consumed(src, n);
    if n < |src.chunks[0]| {
      FlattenFirst(after.chunks);
      assert after.chunks[1..] == src.chunks[1..];
    }
    assert src.chunks[0] == src.chunks[0][..n] + src.chunks[0][n..];
    Assoc(src.chunks[0][..n], src.chunks[0][n..], Flatten(src.chunks[1..]));
  }

  /** Reads up to and including the next newline, or until the line is too long or the stream stops. */
  method ReadCappedLine(src: Source, max: nat) returns (result: LineRead, buf: Bytes, after: Source)
    requires Readable(src)
    ensures Readable(after) && after.end == src.end
    ensures buf + Unread(after) == Unread(src)
    ensures buf != [] ==> NEWLINE !in buf[..|buf| - 1]
    ensures result == TooLong <==> |buf| > max
    ensures result == Line ==> buf != [] && (NEWLINE in buf || (Unread(after) == [] && src.end != TimedOut))
    ensures result == Eof ==> Unread(src) == [] && src.end != TimedOut
    ensures result == Timeout ==> NEWLINE !in Unread(src) && src.end == TimedOut && Unread(after) == []
  {
    after, buf := src, [];
    while true
      invariant Readable(after) && after.end == src.end
      invariant buf + Unread(after) == Unread(src)
      invariant NEWLINE !in buf && |buf| <= max
      decreases |after.chunks|
    {
      if after.chunks == [] {
        assert buf + [] == buf;
        if after.end == TimedOut {
          return Timeout, buf, after;
        }
        return if |buf| == 0 then Eof else Line, buf, after;
      }
      var available := after.chunks[0];
      var n := if NEWLINE in available then FirstNewline(available) + 1 else |available|;
      ConsumedIs(after, n);
      ghost var before := buf;
      Assoc(before, available[..n], Unread(Consumed(after, n)));
      buf := buf + available[..n];
      after := Consumed(after, n);
      assert buf[..|buf| - 1] == before + available[..n - 1];
      if NEWLINE in available {
        assert buf[|buf| - 1] == NEWLINE;
        return if |buf| > max then TooLong else Line, buf, after;
      }
      if |buf| > max {
        return TooLong, buf, after;
      }
    }
  }

  /** The requests served from a stream of these bytes: only a last line without a newline is treated apart. */
  function Served(cfg: Config, bytes: Bytes, end: End): seq<Item> {
    var due := UpToOversized(Due(cfg, bytes));
    var rest := Cut(bytes, NEWLINE).rest;
    if Oversized in due || end == TimedOut || rest == [] || cfg.blank(rest) then due else due + [Request(rest)]
  }

  lemma {:induction false} OversizedKept(items: seq<Item>)
    ensures Oversized in UpToOversized(items) <==> Oversized in items
  {
    if items != [] {
      OversizedKept(items[1..]);
    }
  }

  lemma ServedLine(cfg: Config, line: Bytes, bytes: Bytes, end: End)
    requires NEWLINE !in line
    ensures Served(cfg, line + [NEWLINE] + bytes, end) ==
            if |line| + 1 > cfg.max then [Oversized] else Items(cfg, line) + Served(cfg, bytes, end)
  {
    hide Due, Cut;
    DueClosed(cfg, line, bytes);
    CutClose(line, bytes, NEWLINE);
    UpToPrefix(Items(cfg, line), Due(cfg, bytes));
    OversizedKept(Due(cfg, bytes));
    OversizedKept(Due(cfg, line + [NEWLINE] + bytes));
  }

  lemma ServedTail(cfg: Config, rest: Bytes, end: End)
    requires NEWLINE !in rest
    ensures Served(cfg, rest, end) ==
            if |rest| > cfg.max then [Oversized]
            else if end == TimedOut || rest == [] || cfg.blank(rest) then [] else [Request(rest)]
  {
    hide Cut;
    CutOpen(rest, NEWLINE);
    assert AllItems(cfg, []) == [];
  }

  lemma ServedTooLong(cfg: Config, line: Bytes, bytes: Bytes, end: End)
    requires line != [] && NEWLINE !in line[..|line| - 1] && |line| > cfg.max
    ensures Served(cfg, line + bytes, end) == [Oversized]
  {
    var n := |line| - 1;
    if line[n] == NEWLINE {
      ServedLine(cfg, line[..n], bytes, end);
      assert line + bytes == line[..n] + [NEWLINE] + bytes;
    } else if NEWLINE in bytes {
      var k := FirstNewline(bytes);
      ServedLine(cfg, line + bytes[..k], bytes[k + 1..], end);
      AtNewline(line, bytes);
    } else {
      ServedTail(cfg, line + bytes, end);
    }
  }

  /** A stream is one or more sources in turn: reading may go on after a read that failed. */
  ghost predicate AllReadable(srcs: seq<Source>) {
    forall i | 0 <= i < |srcs| :: Readable(srcs[i])
  }

  /** A read that fails inside a line ends that line, and the loop goes on; at a line's start it ends the loop. */
  predicate GoesOn(cfg: Config, src: Source) {
    && src.end != TimedOut
    && Oversized !in Due(cfg, Unread(src))
    && Cut(Unread(src), NEWLINE).rest != []
  }

  function ServedAll(cfg: Config, srcs: seq<Source>): seq<Item>
    requires srcs != []
  {
    Served(cfg, Unread(srcs[0]), srcs[0].end)
    + if GoesOn(cfg, srcs[0]) && |srcs| > 1 then ServedAll(cfg, srcs[1..]) else []
  }

  lemma OneSource(cfg: Config, src: Source)
    ensures ServedAll(cfg, [src]) == Served(cfg, Unread(src), src.end)
  {
    EmptyIsUnit(Served(cfg, Unread(src), src.end));
  }

  lemma ServedAfterLine(cfg: Config, bytes: Bytes, more: Bytes, end: End)
    requires var rest := Cut(bytes, NEWLINE).rest; rest != [] && |rest| + 1 <= cfg.max
    requires Oversized !in Due(cfg, bytes)
    ensures var whole := bytes + [NEWLINE] + more;
            && Served(cfg, whole, end) == Served(cfg, bytes, Closed) + Served(cfg, more, end)
            && (Oversized in Due(cfg, whole) <==> Oversized in Due(cfg, more))
            && Cut(whole, NEWLINE).rest == Cut(more, NEWLINE).rest
  {
    hide Cut, AllItems;
    var cut := Cut(bytes, NEWLINE);
    var tail := [NEWLINE] + more;
    RestIsOpen(bytes, NEWLINE);
    Assoc(bytes, [NEWLINE], more);
    Assoc(cut.rest, [NEWLINE], more);
    CutAppend(bytes, tail, NEWLINE);
    CutClose(cut.rest, more, NEWLINE);
    DueAppend(cfg, bytes, tail);
    DueClosed(cfg, cut.rest, more);
    hide Due, UpToOversized;
    var closed := AllItems(cfg, cut.closed);
    assert Due(cfg, bytes) == closed by { OpenDue(cfg, bytes); }
    var own := Items(cfg, cut.rest);
    Assoc(closed, own, Due(cfg, more));
    UpToPrefix(closed + own, Due(cfg, more));
    UpToPrefix(closed, []);
    EmptyIsUnit(closed);
    OversizedKept(Due(cfg, more));
    OversizedKept(Due(cfg, bytes + tail));
    OversizedKept(closed);
    assert UpToOversized([]) == [] by { NothingUp(); }
    Assoc(closed, own, UpToOversized(Due(cfg, more)));
    EmptyIsUnit(closed + own + UpToOversized(Due(cfg, more)));
    Assoc(closed + own, UpToOversized(Due(cfg, more)), [Request(Cut(more, NEWLINE).rest)]);
  }

  lemma NothingUp()
    ensures UpToOversized([]) == []
  {
  }

  lemma OpenDue(cfg: Config, bytes: Bytes)
    requires Oversized !in Due(cfg, bytes)
    ensures Due(cfg, bytes) == AllItems(cfg, Cut(bytes, NEWLINE).closed)
  {
    EmptyIsUnit(AllItems(cfg, Cut(bytes, NEWLINE).closed));
  }

  /** Both in one, with a newline between them. */
  function Joined(src: Source, next: Source): Source {
    Source([Unread(src) + [NEWLINE] + Unread(next)], next.end)
  }

  lemma JoinedServes(cfg: Config, src: Source, next: Source)
    requires src.end != TimedOut && Oversized !in Due(cfg, Unread(src))
    requires var rest := Cut(Unread(src), NEWLINE).rest; rest != [] && |rest| + 1 <= cfg.max
    ensures GoesOn(cfg, src) && (GoesOn(cfg, Joined(src, next)) <==> GoesOn(cfg, next))
    ensures Served(cfg, Unread(Joined(src, next)), Joined(src, next).end)
         == Served(cfg, Unread(src), src.end) + Served(cfg, Unread(next), next.end)
  {
    ServedAfterLine(cfg, Unread(src), Unread(next), next.end);
    ServedEnds(cfg, Unread(src), src.end);
    OneChunk(Unread(src) + [NEWLINE] + Unread(next), next.end);
    hide Served, Due, Cut, Unread;
  }

  /** A read that fails inside a line acts as a newline there, and what follows is served as if nothing had happened. */
  lemma FailureInsideLineActsAsNewline(cfg: Config, src: Source, next: Source, later: seq<Source>)
    requires src.end != TimedOut && Oversized !in Due(cfg, Unread(src))
    requires var rest := Cut(Unread(src), NEWLINE).rest; rest != [] && |rest| + 1 <= cfg.max
    ensures ServedAll(cfg, [src] + ([next] + later)) == ServedAll(cfg, [Joined(src, next)] + later)
  {
    JoinedServes(cfg, src, next);
    hide Served, Due, Cut, Unread, ServedAll, GoesOn, Joined;
    ServedAllFirst(cfg, src, [next] + later);
    ServedAllFirst(cfg, next, later);
    ServedAllFirst(cfg, Joined(src, next), later);
    var more := if GoesOn(cfg, next) && later != [] then ServedAll(cfg, later) else [];
    Assoc(Served(cfg, Unread(src), src.end), Served(cfg, Unread(next), next.end), more);
  }

  lemma OneChunk(bytes: Bytes, end: End)
    ensures Unread(Source([bytes], end)) == bytes
  {
    assert Flatten([bytes]) == Flatten([]) + bytes;
    EmptyIsUnit(bytes);
  }

  lemma ServedAllFirst(cfg: Config, src: Source, later: seq<Source>)
    ensures ServedAll(cfg, [src] + later)
         == Served(cfg, Unread(src), src.end) + if GoesOn(cfg, src) && later != [] then ServedAll(cfg, later) else []
  {
    hide Served, GoesOn, Unread;
    assert ([src] + later)[1..] == later;
  }

  lemma ServedEnds(cfg: Config, bytes: Bytes, end: End)
    requires end != TimedOut
    ensures Served(cfg, bytes, end) == Served(cfg, bytes, Closed)
  {
  }

  /** At the start of a line, after a timeout and after an oversized line the connection ends. */
  lemma OtherwiseItEnds(cfg: Config, src: Source, later: seq<Source>)
    requires Cut(Unread(src), NEWLINE).rest == [] || src.end == TimedOut || Oversized in Due(cfg, Unread(src))
    ensures ServedAll(cfg, [src] + later) == Served(cfg, Unread(src), src.end)
  {
    hide Served, Due, Cut, Unread;
    EmptyIsUnit(Served(cfg, Unread(src), src.end));
  }

  /** What is still to be served from here: the rest of this source, and the later ones. */
  function StillServed(cfg: Config, rest: Source, later: seq<Source>): seq<Item> {
    ServedAll(cfg, [rest] + later)
  }

  lemma GoesOnAfterLine(cfg: Config, line: Bytes, src: Source, after: Source)
    requires NEWLINE !in line && |line| + 1 <= cfg.max && src.end == after.end
    requires Unread(src) == line + [NEWLINE] + Unread(after)
    ensures GoesOn(cfg, src) <==> GoesOn(cfg, after)
  {
    hide Due, Cut, Unread;
    DueClosed(cfg, line, Unread(after));
    CutClose(line, Unread(after), NEWLINE);
  }

  /** A line that was closed, or a piece of one that a failing read or the end of the stream cut off. */
  lemma StillServedLine(cfg: Config, line: Bytes, src: Source, after: Source, later: seq<Source>)
    requires NEWLINE !in line && |line| + 1 <= cfg.max && src.end == after.end
    requires Unread(src) == line + [NEWLINE] + Unread(after)
    ensures StillServed(cfg, src, later) == Items(cfg, line) + StillServed(cfg, after, later)
  {
    hide Served, GoesOn, Unread, Items;
    GoesOnAfterLine(cfg, line, src, after);
    ServedLine(cfg, line, Unread(after), src.end);
    var more := if GoesOn(cfg, src) && later != [] then ServedAll(cfg, later) else [];
    assert ([src] + later)[1..] == later && ([after] + later)[1..] == later;
    Assoc(Items(cfg, line), Served(cfg, Unread(after), after.end), more);
  }

  lemma StillServedPiece(cfg: Config, piece: Bytes, src: Source, later: seq<Source>)
    requires NEWLINE !in piece && piece == Unread(src) != [] && |piece| <= cfg.max && src.end != TimedOut
    ensures StillServed(cfg, src, later)
         == (if cfg.blank(piece) then [] else [Request(piece)]) + if later == [] then [] else ServedAll(cfg, later)
  {
    ServedTail(cfg, piece, src.end);
    CutOpen(piece, NEWLINE);
    DueOpen(cfg, piece);
    hide Due, Cut, Served, Unread;
    assert ([src] + later)[1..] == later;
  }

  lemma StillServedNothing(cfg: Config, src: Source, later: seq<Source>)
    requires NEWLINE !in Unread(src)
    requires src.end == TimedOut ==> |Unread(src)| <= cfg.max
    requires src.end != TimedOut ==> Unread(src) == []
    ensures StillServed(cfg, src, later) == []
  {
    ServedTail(cfg, Unread(src), src.end);
    CutOpen(Unread(src), NEWLINE);
    hide Due, Cut, Served;
  }

  lemma StillServedTooLong(cfg: Config, line: Bytes, src: Source, after: Source, later: seq<Source>)
    requires line != [] && NEWLINE !in line[..|line| - 1] && |line| > cfg.max
    requires Unread(src) == line + Unread(after)
    ensures StillServed(cfg, src, later) == [Oversized]
  {
    ServedTooLong(cfg, line, Unread(after), src.end);
    hide Due, Cut, Unread;
    var due := UpToOversized(Due(cfg, Unread(src)));
    var served := Served(cfg, Unread(src), src.end);
    OversizedKept(Due(cfg, Unread(src)));
    assert served == due || served == due + [Request(Cut(Unread(src), NEWLINE).rest)];
    assert served[|served| - 1] == Oversized;
    hide UpToOversized;
    assert Oversized in due;
    EmptyIsUnit(served);
  }

  /**
   * The connection loop. What it serves is a function of the bytes and of where reads fail or end,
   * and a beginning of that if the loop is shut down before some line or some write fails.
   */
  method HandleStream(cfg: Config, srcs: seq<Source>, shutdown: nat -> bool, writeFails: nat -> bool)
    returns (out: seq<Item>)
    requires srcs != [] && AllReadable(srcs)
    ensures out <= ServedAll(cfg, srcs)
    ensures (forall i: nat :: !shutdown(i) && !writeFails(i)) ==> out == ServedAll(cfg, srcs)
  {
    hide ServedAll, Unread, GoesOn;
    out := [];
    var rest, later := srcs[0], srcs[1..];
    var lines := 0;
    FirstApart(srcs);
    EmptyIsUnit(ServedAll(cfg, srcs));
    while !shutdown(lines)
      invariant Readable(rest) && AllReadable(later)
      invariant out + StillServed(cfg, rest, later) == ServedAll(cfg, srcs)
      decreases |later|, |Unread(rest)|
    {
      var result, buf, after := ReadCappedLine(rest, cfg.max);
      lines := lines + 1;
      match result
      case Eof =>
        StillServedNothing(cfg, rest, later);
        return;
      case Timeout =>
        StillServedNothing(cfg, rest, later);
        return;
      case TooLong =>
        StillServedTooLong(cfg, buf, rest, after, later);
        out := out + [Oversized];
        return;
      case Line =>
        var line := if buf[|buf| - 1] == NEWLINE then buf[..|buf| - 1] else buf;
        var served := if cfg.blank(line) then [] else [Request(line)];
        if NEWLINE in buf {
          assert buf == line + [NEWLINE];
          StillServedLine(cfg, line, rest, after, later);
          rest := after;
        } else {
          StillServedPiece(cfg, buf, rest, later);
          if later == [] {
            rest := after;
            StillServedNothing(cfg, rest, later);
          } else {
            FirstApart(later);
            rest, later := later[0], later[1..];
          }
        }
        Assoc(out, served, StillServed(cfg, rest, later));
        out := out + served;
        if !cfg.blank(line) && writeFails(lines) {
          return;
        }
    }
  }
}
