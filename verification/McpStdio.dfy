/** The MCP stdio framer, which reports an oversized line and resumes: mcp/stdio.ts, lines 5-44. */
module McpStdio {
  import opened Text
  import opened Framing

  datatype Framer = Framer(buffer: Bytes, discarding: bool, out: seq<Item>)

  const IDLE := Framer([], false, [])

  function AfterText(cfg: Config, f: Framer, text: Bytes): Framer {
    var cut := Cut(f.buffer + text, NEWLINE);
    var out := f.out + AllItems(cfg, cut.closed);
    if |cut.rest| > cfg.max then Framer([], true, out + [Oversized]) else Framer(cut.rest, false, out)
  }

  function AfterChunk(cfg: Config, f: Framer, chunk: Bytes): Framer {
    if !f.discarding then AfterText(cfg, f, chunk)
    else if NEWLINE !in chunk then f
    else AfterText(cfg, f.(discarding := false), chunk[FirstNewline(chunk) + 1..])
  }

  function AfterChunks(cfg: Config, chunks: seq<Bytes>): Framer {
    if chunks == [] then IDLE else AfterChunk(cfg, AfterChunks(cfg, chunks[..|chunks| - 1]), chunks[|chunks| - 1])
  }

  /** The framer has put out exactly what is due, and remembers what the next bytes may still change. */
  ghost predicate Inv(cfg: Config, f: Framer, received: Bytes) {
    var rest := Cut(received, NEWLINE).rest;
    && f.out == Due(cfg, received)
    && (f.discarding <==> |rest| > cfg.max)
    && f.buffer == if f.discarding then [] else rest
  }

  lemma TextKeeps(cfg: Config, f: Framer, received: Bytes, text: Bytes)
    requires Inv(cfg, f, received) && !f.discarding
    ensures Inv(cfg, AfterText(cfg, f, text), received + text)
  {
    hide Cut, AllItems;
    CutAppend(received, text, NEWLINE);
    DueAppend(cfg, received, text);
  }

  /** A discarded line's end: from there the framer is as if it had just started after that line. */
  lemma ResumeKeeps(cfg: Config, f: Framer, received: Bytes, chunk: Bytes)
    requires Inv(cfg, f, received) && f.discarding && NEWLINE in chunk
    ensures Inv(cfg, AfterChunk(cfg, f, chunk), received + chunk)
  {
    hide Inv, AfterText;
    var k := FirstNewline(chunk);
    var resumed := f.(discarding := false);
    var before := received + chunk[..k] + [NEWLINE];
    LineEndKeeps(cfg, f, received, chunk[..k]);
    TextKeeps(cfg, resumed, before, chunk[k + 1..]);
    AtNewline(received, chunk);
  }

  lemma LineEndKeeps(cfg: Config, f: Framer, received: Bytes, tail: Bytes)
    requires Inv(cfg, f, received) && f.discarding && NEWLINE !in tail
    ensures Inv(cfg, f.(discarding := false), received + tail + [NEWLINE])
  {
    var rest := Cut(received, NEWLINE).rest;
    RestIsOpen(received, NEWLINE);
    hide Cut, AllItems;
    CutAppend(received, tail + [NEWLINE], NEWLINE);
    CutEnd(rest + tail, NEWLINE);
    DueAppend(cfg, received, tail + [NEWLINE]);
    DueClosed(cfg, rest + tail, []);
    DueOpen(cfg, []);
    Assoc(rest, tail, [NEWLINE]);
    Assoc(received, tail, [NEWLINE]);
    EmptyIsUnit(rest + tail + [NEWLINE]);
  }

  lemma DiscardKeeps(cfg: Config, f: Framer, received: Bytes, chunk: Bytes)
    requires Inv(cfg, f, received) && f.discarding && NEWLINE !in chunk
    ensures Inv(cfg, f, received + chunk)
  {
    var rest := Cut(received, NEWLINE).rest;
    RestIsOpen(received, NEWLINE);
    hide Cut, AllItems;
    CutAppend(received, chunk, NEWLINE);
    CutOpen(rest + chunk, NEWLINE);
    DueAppend(cfg, received, chunk);
    DueOpen(cfg, rest + chunk);
  }

  lemma ChunkKeeps(cfg: Config, f: Framer, received: Bytes, chunk: Bytes)
    requires Inv(cfg, f, received)
    ensures Inv(cfg, AfterChunk(cfg, f, chunk), received + chunk)
  {
    hide Inv, AfterText;
    if !f.discarding {
      TextKeeps(cfg, f, received, chunk);
    } else if NEWLINE in chunk {
      ResumeKeeps(cfg, f, received, chunk);
    } else {
      DiscardKeeps(cfg, f, received, chunk);
    }
  }

  lemma {:induction false} ChunksKeep(cfg: Config, chunks: seq<Bytes>)
    ensures Inv(cfg, AfterChunks(cfg, chunks), Flatten(chunks))
  {
    hide AfterChunk;
    if chunks != [] {
      hide Inv;
      ChunksKeep(cfg, chunks[..|chunks| - 1]);
      var before := chunks[..|chunks| - 1];
      ChunkKeeps(cfg, AfterChunks(cfg, before), Flatten(before), chunks[|chunks| - 1]);
    }
  }

  /** Chunk independence: the output is a function of the text delivered, and that function is `Due`. */
  lemma OutputIsDue(cfg: Config, chunks: seq<Bytes>)
    ensures AfterChunks(cfg, chunks).out == Due(cfg, Flatten(chunks))
  {
    ChunksKeep(cfg, chunks);
  }

  class Server {
    const cfg: Config
    var buffer: Bytes
    var discardingOversizedLine: bool
    var out: seq<Item>

    ghost function State(): Framer
      reads this
    {
      Framer(buffer, discardingOversizedLine, out)
    }

    constructor (cfg: Config)
      ensures this.cfg == cfg && State() == IDLE
    {
      this.cfg := cfg;
      buffer, discardingOversizedLine, out := [], false, [];
    }

    method OnData(chunk: Bytes)
      modifies this
      ensures State() == AfterChunk(cfg, old(State()), chunk)
    {
      hide Cut, AllItems;
      var text := chunk;
      if discardingOversizedLine {
        if NEWLINE !in chunk {
          return;
        }
        discardingOversizedLine := false;
        text := chunk[FirstNewline(chunk) + 1..];
      }
      buffer := buffer + text;
      var lines := Cut(buffer, NEWLINE).closed;
      buffer := Cut(buffer, NEWLINE).rest;
      NoItems(cfg);
      assert lines[..0] == [];
      for i := 0 to |lines|
        modifies this`out
        invariant out == old(out) + AllItems(cfg, lines[..i])
      {
        var line := lines[i];
        AllItemsOne(cfg, lines[..i], line);
        assert lines[..i] + [line] == lines[..i + 1];
        if |line| + 1 > cfg.max {
          out := out + [Oversized];
        } else if !cfg.blank(line) {
          out := out + [Request(line)];
        }
      }
      assert lines[..|lines|] == lines;
      if |buffer| > cfg.max {
        buffer := [];
        discardingOversizedLine := true;
        out := out + [Oversized];
      }
    }
  }
}
