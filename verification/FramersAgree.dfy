/** The four independently written line framers compute one function of the bytes. */
module FramersAgree {
  import opened Text
  import opened Framing
  import opened Utf8
  import opened Decoding
  import LineSocket
  import McpStdio
  import RustServer
  import SocketClient

  /** A connection that only receives data. */
  function DataEvents(chunks: seq<Bytes>): seq<LineSocket.Event> {
    seq(|chunks|, i requires 0 <= i < |chunks| => LineSocket.Data(chunks[i]))
  }

  lemma {:induction false} DataOnly(cfg: Config, chunks: seq<Bytes>)
    ensures !LineSocket.Run(cfg, DataEvents(chunks)).closed
    ensures LineSocket.Heard(cfg, DataEvents(chunks)) == Flatten(chunks)
  {
    if chunks != [] {
      var n := |chunks| - 1;
      DataOnly(cfg, chunks[..n]);
      assert DataEvents(chunks)[..n] == DataEvents(chunks[..n]);
      StaysOpen(cfg, LineSocket.Run(cfg, DataEvents(chunks[..n])), chunks[n]);
    }
  }

  lemma StaysOpen(cfg: Config, c: LineSocket.Conn, chunk: Bytes)
    requires !c.closed
    ensures !LineSocket.AfterData(cfg, c, chunk).closed
  {
    if c.accepting {
      var cut := Cut(c.buffer + chunk, NEWLINE);
      LineSocket.LinesOnlyAdd(cfg, c.(buffer := cut.rest), cut.closed);
    }
  }

  /** A request of the client that is only answered, not cut off. */
  function AnswerEvents(chunks: seq<Bytes>): seq<SocketClient.Event> {
    seq(|chunks|, i requires 0 <= i < |chunks| => SocketClient.Data(chunks[i]))
  }

  lemma {:induction false} AnswerOnly(chunks: seq<Bytes>)
    ensures SocketClient.Received(AnswerEvents(chunks)) == Flatten(chunks)
  {
    if chunks != [] {
      var n := |chunks| - 1;
      AnswerOnly(chunks[..n]);
      assert AnswerEvents(chunks)[..n] == AnswerEvents(chunks[..n]);
    }
  }

  /** What the client's request comes to if it is answered with these items. */
  function FirstOutcome(items: seq<Item>): Option<SocketClient.Outcome> {
    if items == [] then None
    else
      match items[0]
      case Request(line) => Some(SocketClient.Response(line))
      case Oversized => Some(SocketClient.TooLarge)
  }

  /** The unclosed last line, which only the Rust server serves, and only if the stream ends. */
  function LastLine(cfg: Config, items: seq<Item>, rest: Bytes, end: RustServer.End): seq<Item> {
    if Oversized in items || end == RustServer.TimedOut || rest == [] || cfg.blank(rest) then [] else [Request(rest)]
  }

  // ---------------------------------------------------------------- each of the four

  lemma McpPutsOutDue(cfg: Config, chunks: seq<Bytes>)
    ensures McpStdio.AfterChunks(cfg, Delivered(chunks)).out == Due(cfg, TextOf(Flatten(chunks)))
  {
    DeliveredIsText(chunks);
    McpStdio.OutputIsDue(cfg, Delivered(chunks));
  }

  lemma DaemonTakesOnDue(cfg: Config, chunks: seq<Bytes>)
    ensures LineSocket.Works(LineSocket.Run(cfg, DataEvents(Delivered(chunks))).tasks)
         == UpToOversized(Due(cfg, TextOf(Flatten(chunks))))
  {
    hide LineSocket.Run, LineSocket.Works, LineSocket.Heard, Due, UpToOversized;
    DeliveredIsText(chunks);
    DataOnly(cfg, Delivered(chunks));
    LineSocket.WorkIsDue(cfg, DataEvents(Delivered(chunks)));
  }

  lemma ClientSettlesByDue(max: nat, chunks: seq<Bytes>)
    ensures SocketClient.AfterEvents(max, AnswerEvents(Delivered(chunks))).settled
         == FirstOutcome(Due(SocketClient.Unskipping(max), TextOf(Flatten(chunks))))
  {
    hide SocketClient.AfterEvents, SocketClient.Unskipping, Due;
    DeliveredIsText(chunks);
    AnswerOnly(Delivered(chunks));
    SocketClient.BytesDecide(max, AnswerEvents(Delivered(chunks)));
    SocketClient.ClientReadsFirstItem(max, TextOf(Flatten(chunks)));
  }

  lemma ServesAtLeast(cfg: Config, text: Bytes, more: Bytes, end: RustServer.End)
    ensures UpToOversized(Due(cfg, text)) <= RustServer.Served(cfg, text + more, end)
  {
    hide Due, UpToOversized, Cut;
    DueGrows(cfg, text, more);
    var before, after := Due(cfg, text), Due(cfg, text + more);
    UpToPrefix(before, after[|before|..]);
    assert before + after[|before|..] == after;
    LineSocket.NoOversized(before);
  }

  lemma RustServesDue(cfg: Config, bytes: Bytes, end: RustServer.End)
    ensures var items, served := Due(cfg, bytes), RustServer.Served(cfg, bytes, end);
            served == UpToOversized(items) + LastLine(cfg, items, Cut(bytes, NEWLINE).rest, end)
  {
    hide Due, UpToOversized, Cut;
    RustServer.OversizedKept(Due(cfg, bytes));
    EmptyIsUnit(UpToOversized(Due(cfg, bytes)));
  }

  /**
   * Chunk independence and agreement. One byte stream is chunked in any way for each of the four.
   * The daemon takes on exactly the items the MCP server puts out up to the first oversized line,
   * and the client settles with the first item of an MCP server that skips no blank line, whatever
   * the bytes are. The Rust server, which reads bytes, serves at least what the daemon takes on
   * while the text delivered is a prefix of the bytes, as for any text cut anywhere
   * (`TextOfCut`), and exactly that and the last line while it is all of them.
   */
  lemma FramersAgreeOn(cfg: Config, daemon: seq<Bytes>, mcp: seq<Bytes>, client: seq<Bytes>, rust: RustServer.Source)
    requires Flatten(daemon) == Flatten(mcp) == Flatten(client) == RustServer.Unread(rust)
    ensures var bytes := RustServer.Unread(rust);
            var items := McpStdio.AfterChunks(cfg, Delivered(mcp)).out;
            var unskipped := McpStdio.AfterChunks(SocketClient.Unskipping(cfg.max), Delivered(mcp)).out;
            var served := RustServer.ServedAll(cfg, [rust]);
            && LineSocket.Works(LineSocket.Run(cfg, DataEvents(Delivered(daemon))).tasks) == UpToOversized(items)
            && SocketClient.AfterEvents(cfg.max, AnswerEvents(Delivered(client))).settled == FirstOutcome(unskipped)
            && (TextOf(bytes) <= bytes ==> UpToOversized(items) <= served)
            && (TextOf(bytes) == bytes ==>
                served == UpToOversized(items) + LastLine(cfg, items, Cut(bytes, NEWLINE).rest, rust.end))
  {
    hide LineSocket.Run, LineSocket.Works, McpStdio.AfterChunks, Due, UpToOversized, Cut, TextOf,
      Delivered, SocketClient.AfterEvents, SocketClient.Unskipping, RustServer.Served, RustServer.ServedAll,
      LastLine, FirstOutcome;
    RustServer.OneSource(cfg, rust);
    McpPutsOutDue(cfg, mcp);
    McpPutsOutDue(SocketClient.Unskipping(cfg.max), mcp);
    DaemonTakesOnDue(cfg, daemon);
    ClientSettlesByDue(cfg.max, client);
    var bytes := RustServer.Unread(rust);
    var text := TextOf(bytes);
    RustServesDue(cfg, bytes, rust.end);
    if text <= bytes {
      ServesAtLeast(cfg, text, bytes[|text|..], rust.end);
      assert text + bytes[|text|..] == bytes;
    }
  }

  // ---------------------------------------------------------------- bytes that are no text

  const BROKEN: Bytes := [0xFF, 0xFF, NEWLINE]

  lemma ReplacementBytes()
    ensures EncodeOne(REPLACEMENT) == [0xEF, 0xBF, 0xBD] && EncodeOne(10) == [NEWLINE]
  {
  }

  lemma FeedSingle(b: Byte)
    requires b == 0xFF || b == NEWLINE
    ensures FeedAll(START, [b]) == Progress(START, [if b == 0xFF then REPLACEMENT else b])
  {
    FeedNone(START);
    FeedOne(START, [], b);
    assert [] + [b] == [b];
  }

  lemma TextOfBroken()
    ensures TextOf(BROKEN) == [0xEF, 0xBF, 0xBD, 0xEF, 0xBF, 0xBD, NEWLINE]
  {
    hide FeedAll, Encode, EncodeOne;
    FeedSingle(0xFF);
    FeedSingle(NEWLINE);
    FeedAppend(START, [0xFF], [0xFF]);
    FeedAppend(START, [0xFF] + [0xFF], [NEWLINE]);
    assert BROKEN == [0xFF] + [0xFF] + [NEWLINE];
    EncodeAppend([REPLACEMENT] + [REPLACEMENT], [10]);
    EncodeAppend([REPLACEMENT], [REPLACEMENT]);
    EncodeSingle(REPLACEMENT);
    EncodeSingle(10);
    ReplacementBytes();
  }

  /** Why agreement needs text: these two bytes and a newline fit a limit of three, their decoding does not. */
  lemma BrokenBytesDisagree(end: RustServer.End)
    ensures var cfg := SocketClient.Unskipping(3);
            && RustServer.Served(cfg, BROKEN, end) == [Request([0xFF, 0xFF])]
            && McpStdio.AfterChunks(cfg, Delivered([BROKEN])).out == [Oversized]
  {
    hide Due, Cut, McpStdio.AfterChunks, TextOf, Delivered, RustServer.Served;
    var cfg := SocketClient.Unskipping(3);
    var line, decoded: Bytes := [0xFF, 0xFF], [0xEF, 0xBF, 0xBD, 0xEF, 0xBF, 0xBD];
    var none: Bytes := [];
    TextOfBroken();
    McpPutsOutDue(cfg, [BROKEN]);
    FlattenOne([], BROKEN);
    EmptyIsUnit(BROKEN);
    assert [] + [BROKEN] == [BROKEN];
    DueClosed(cfg, decoded, none);
    DueOpen(cfg, none);
    assert decoded + [NEWLINE] + none == TextOf(BROKEN);
    RustServer.ServedLine(cfg, line, none, end);
    RustServer.ServedTail(cfg, none, end);
    assert line + [NEWLINE] + none == BROKEN;
  }
}
