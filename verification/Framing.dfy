/**
 * What every line framer of the repository computes from the bytes it is given, however they are
 * chunked. The TypeScript framers are given text; it stands here as its UTF-8 bytes, which is what
 * they measure.
 */
module Framing {
  import opened Text

  const NEWLINE: Byte := 10

  /** A request line, or the report of a line longer than the limit. */
  datatype Item = Request(line: Bytes) | Oversized

  /** `max` is the limit on a line with its newline; blank lines are skipped. */
  datatype Config = Config(max: nat, blank: Bytes -> bool)

  function Items(cfg: Config, line: Bytes): seq<Item> {
    if |line| + 1 > cfg.max then [Oversized]
    else if cfg.blank(line) then []
    else [Request(line)]
  }

  function AllItems(cfg: Config, lines: seq<Bytes>): seq<Item> {
    if lines == [] then [] else AllItems(cfg, lines[..|lines| - 1]) + Items(cfg, lines[|lines| - 1])
  }

  /** An unfinished line is reported as soon as it alone exceeds the limit. */
  function Unfinished(cfg: Config, rest: Bytes): seq<Item> {
    if |rest| > cfg.max then [Oversized] else []
  }

  /** The requests and reports due for the bytes received so far. */
  function Due(cfg: Config, received: Bytes): seq<Item> {
    var cut := Cut(received, NEWLINE);
    AllItems(cfg, cut.closed) + Unfinished(cfg, cut.rest)
  }

  /** For a framer that gives up at the first oversized line. */
  function UpToOversized(items: seq<Item>): seq<Item> {
    if items == [] then []
    else if items[0] == Oversized then [Oversized]
    else [items[0]] + UpToOversized(items[1..])
  }

  function Flatten(chunks: seq<Bytes>): Bytes {
    if chunks == [] then [] else Flatten(chunks[..|chunks| - 1]) + chunks[|chunks| - 1]
  }

  lemma AllItemsOne(cfg: Config, lines: seq<Bytes>, line: Bytes)
    ensures AllItems(cfg, lines + [line]) == AllItems(cfg, lines) + Items(cfg, line)
  {
    assert (lines + [line])[..|lines|] == lines;
  }

  lemma {:induction false} AllItemsAppend(cfg: Config, a: seq<Bytes>, b: seq<Bytes>)
    ensures AllItems(cfg, a + b) == AllItems(cfg, a) + AllItems(cfg, b)
  {
    if b == [] {
      EmptyIsUnit(a);
      EmptyIsUnit(AllItems(cfg, a));
    } else {
      hide AllItems, Items;
      var c, line := b[..|b| - 1], b[|b| - 1];
      AllItemsAppend(cfg, a, c);
      AllItemsOne(cfg, a + c, line);
      AllItemsOne(cfg, c, line);
      LastApart(b);
      Assoc(a, c, [line]);
      Assoc(AllItems(cfg, a), AllItems(cfg, c), Items(cfg, line));
    }
  }

  lemma DueAppend(cfg: Config, received: Bytes, chunk: Bytes)
    ensures var cut := Cut(received, NEWLINE);
            Due(cfg, received + chunk) == AllItems(cfg, cut.closed) + Due(cfg, cut.rest + chunk)
  {
    hide AllItems, Cut;
    var cut := Cut(received, NEWLINE);
    var next := Cut(cut.rest + chunk, NEWLINE);
    CutAppend(received, chunk, NEWLINE);
    AllItemsAppend(cfg, cut.closed, next.closed);
  }

  lemma DueOpen(cfg: Config, line: Bytes)
    requires NEWLINE !in line
    ensures Due(cfg, line) == Unfinished(cfg, line)
  {
    CutOpen(line, NEWLINE);
  }

  lemma DueClosed(cfg: Config, line: Bytes, after: Bytes)
    requires NEWLINE !in line
    ensures Due(cfg, line + [NEWLINE] + after) == Items(cfg, line) + Due(cfg, after)
  {
    hide AllItems, Cut, Items;
    CutClose(line, after, NEWLINE);
    var later := Cut(after, NEWLINE);
    AllItemsAppend(cfg, [line], later.closed);
    AllItemsOne(cfg, [], line);
    assert AllItems(cfg, []) == [] by { NoItems(cfg); }
    assert [] + [line] == [line];
  }

  lemma NoItems(cfg: Config)
    ensures AllItems(cfg, []) == []
  {
  }

  /** What is due stays due, in the same order: more bytes only add to it. */
  lemma DueGrows(cfg: Config, received: Bytes, chunk: Bytes)
    ensures Due(cfg, received) <= Due(cfg, received + chunk)
  {
    hide AllItems, Cut, Items;
    var cut := Cut(received, NEWLINE);
    DueAppend(cfg, received, chunk);
    RestIsOpen(received, NEWLINE);
    UnfinishedGrows(cfg, cut.rest, chunk);
  }

  lemma UnfinishedGrows(cfg: Config, rest: Bytes, chunk: Bytes)
    requires NEWLINE !in rest
    ensures Unfinished(cfg, rest) <= Due(cfg, rest + chunk)
  {
    hide Due, Cut;
    if |rest| > cfg.max {
      if NEWLINE in chunk {
        var k := FirstNewline(chunk);
        DueClosed(cfg, rest + chunk[..k], chunk[k + 1..]);
        AtNewline(rest, chunk);
      } else {
        DueOpen(cfg, rest + chunk);
      }
    }
  }

  /** `chunk.indexOf('\n')` for a chunk that has one. */
  function FirstNewline(chunk: Bytes): (k: nat)
    requires NEWLINE in chunk
    ensures k < |chunk| && chunk[k] == NEWLINE && NEWLINE !in chunk[..k]
  {
    if chunk[0] == NEWLINE then 0 else 1 + FirstNewline(chunk[1..])
  }

  lemma AtNewline(before: Bytes, chunk: Bytes)
    requires NEWLINE in chunk
    ensures var k := FirstNewline(chunk);
            before + chunk == before + chunk[..k] + [NEWLINE] + chunk[k + 1..]
  {
  }

  lemma {:induction false} FlattenAppend(a: seq<Bytes>, b: seq<Bytes>)
    ensures Flatten(a + b) == Flatten(a) + Flatten(b)
  {
    if b == [] {
      EmptyIsUnit(a);
      EmptyIsUnit(Flatten(a));
    } else {
      var c, chunk := b[..|b| - 1], b[|b| - 1];
      FlattenAppend(a, c);
      assert (a + b)[..|a + b| - 1] == a + c;
      Assoc(Flatten(a), Flatten(c), chunk);
    }
  }

  lemma {:induction false} UpToPrefix(a: seq<Item>, b: seq<Item>)
    ensures UpToOversized(a + b) == if Oversized in a then UpToOversized(a) else a + UpToOversized(b)
  {
    if a == [] {
      EmptyIsUnit(b);
      EmptyIsUnit(UpToOversized(b));
    } else {
      hide UpToOversized;
      var item, later := a[0], a[1..];
      FirstApart(a);
      UpToPrefix(later, b);
      UpToFirst(item, later);
      UpToFirst(item, later + b);
      Assoc([item], later, b);
      Assoc([item], later, UpToOversized(b));
    }
  }

  lemma UpToFirst(item: Item, later: seq<Item>)
    ensures UpToOversized([item] + later) == if item == Oversized then [Oversized] else [item] + UpToOversized(later)
  {
    assert ([item] + later)[1..] == later;
  }

  /** Increasing places, each with the item of its line, and none missing. */
  ghost predicate Itemize(cfg: Config, lines: seq<Bytes>, items: seq<Item>, places: seq<nat>) {
    && |places| == |items|
    && (forall k | 0 <= k < |places| :: places[k] < |lines| &&
          items[k] == if |lines[places[k]]| + 1 > cfg.max then Oversized else Request(lines[places[k]]))
    && (forall k, l | 0 <= k < l < |places| :: places[k] < places[l])
    && (forall i | 0 <= i < |lines| :: i in places <==> |lines[i]| + 1 > cfg.max || !cfg.blank(lines[i]))
  }

  lemma ItemizeOne(cfg: Config, lines: seq<Bytes>, items: seq<Item>, places: seq<nat>, line: Bytes)
    requires Itemize(cfg, lines, items, places)
    ensures var more := if Items(cfg, line) == [] then [] else [|lines|];
            Itemize(cfg, lines + [line], items + Items(cfg, line), places + more)
  {
    var all := lines + [line];
    assert forall i | 0 <= i < |lines| :: all[i] == lines[i];
    assert all[|lines|] == line;
    if Items(cfg, line) == [] {
      EmptyIsUnit(places);
      EmptyIsUnit(items);
    } else {
      var grown := places + [|lines|];
      assert grown[|places|] == |lines|;
      assert forall i :: i in grown <==> i in places || i == |lines|;
    }
  }

  lemma {:induction false} AllItemsMean(cfg: Config, lines: seq<Bytes>) returns (places: seq<nat>)
    ensures Itemize(cfg, lines, AllItems(cfg, lines), places)
  {
    if lines == [] {
      places := [];
    } else {
      hide Itemize, AllItems, Items;
      var before, line := lines[..|lines| - 1], lines[|lines| - 1];
      places := AllItemsMean(cfg, before);
      LastApart(lines);
      AllItemsOne(cfg, before, line);
      ItemizeOne(cfg, before, AllItems(cfg, before), places, line);
      places := places + if Items(cfg, line) == [] then [] else [|before|];
    }
  }

  /**
   * What is due, said of the bytes split at newlines: each closed piece that is too long with its
   * newline is reported, each other one that is not blank is a request, and an unclosed last piece
   * is reported once it is too long by itself. `places` are the pieces with an item, in order.
   */
  lemma DueMeans(cfg: Config, received: Bytes) returns (places: seq<nat>)
    ensures var pieces, due := Split(received, 10), Due(cfg, received);
            var n := |pieces| - 1;
            && |places| == |due|
            && (forall k | 0 <= k < |places| :: places[k] <= n &&
                  due[k] == if places[k] == n || |pieces[places[k]]| + 1 > cfg.max then Oversized
                            else Request(pieces[places[k]]))
            && (forall k, l | 0 <= k < l < |places| :: places[k] < places[l])
            && (forall i | 0 <= i < n :: i in places <==> |pieces[i]| + 1 > cfg.max || !cfg.blank(pieces[i]))
            && (n in places <==> |pieces[n]| > cfg.max)
  {
    hide Cut, AllItems;
    var cut := Cut(received, NEWLINE);
    var closed := AllItemsMean(cfg, cut.closed);
    places := closed + if |cut.rest| > cfg.max then [|cut.closed|] else [];
    var pieces := Split(received, 10);
    assert pieces == cut.closed + [cut.rest];
    assert forall i | 0 <= i < |cut.closed| :: pieces[i] == cut.closed[i];
    assert forall i | 0 <= i < |cut.closed| :: i in places <==> i in closed;
  }

  /** Up to the first oversized line, and with it: all items, or a beginning that ends with the only oversized one. */
  lemma {:induction false} UpToMeans(items: seq<Item>) returns (n: nat)
    ensures n <= |items| && UpToOversized(items) == items[..n]
    ensures Oversized !in items ==> n == |items|
    ensures Oversized in items ==> n > 0 && items[n - 1] == Oversized && Oversized !in items[..n - 1]
  {
    if items == [] || items[0] == Oversized {
      n := if items == [] then 0 else 1;
    } else {
      hide UpToOversized;
      var later := items[1..];
      var m := UpToMeans(later);
      n := m + 1;
      FirstApart(items);
      UpToFirst(items[0], later);
      assert items[..n] == [items[0]] + later[..m];
      if Oversized in items {
        assert items[..n - 1] == [items[0]] + later[..m - 1];
      }
    }
  }

  /** After an oversized line nothing that follows changes what such a framer reports. */
  lemma GivenUpForGood(cfg: Config, received: Bytes, chunk: Bytes)
    requires Oversized in Due(cfg, received)
    ensures UpToOversized(Due(cfg, received + chunk)) == UpToOversized(Due(cfg, received))
  {
    hide Due, UpToOversized;
    DueGrows(cfg, received, chunk);
    var before, after := Due(cfg, received), Due(cfg, received + chunk);
    UpToPrefix(before, after[|before|..]);
    assert before + after[|before|..] == after;
  }
}
