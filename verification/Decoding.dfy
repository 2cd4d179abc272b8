/**
 * What a stream with `setEncoding('utf8')` passes on: mcp/stdio.ts, line 13, daemon/server.ts,
 * line 79, and daemon/client.ts, line 144. An unfinished character waits for its last byte, and
 * bytes that are no character become U+FFFD.
 */
module Decoding {
  import opened Text
  import opened Utf8
  import opened Framing

  /** The text passed on for these bytes, as its own UTF-8 bytes. */
  function TextOf(bytes: Bytes): Bytes {
    Encode(FeedAll(START, bytes).out)
  }

  /** The text of each data event; a chunk that completes no character gives no event. */
  function Delivered(chunks: seq<Bytes>): seq<Bytes> {
    if chunks == [] then []
    else
      var before := chunks[..|chunks| - 1];
      var text := FeedAll(FeedAll(START, Flatten(before)).state, chunks[|chunks| - 1]).out;
      Delivered(before) + if text == [] then [] else [Encode(text)]
  }

  lemma DeliveredOne(before: seq<Bytes>, chunk: Bytes)
    ensures var text := FeedAll(FeedAll(START, Flatten(before)).state, chunk).out;
            Delivered(before + [chunk]) == Delivered(before) + if text == [] then [] else [Encode(text)]
  {
    hide Flatten, FeedAll, Encode;
    assert (before + [chunk])[..|before|] == before;
  }

  lemma FlattenOne(chunks: seq<Bytes>, chunk: Bytes)
    ensures Flatten(chunks + [chunk]) == Flatten(chunks) + chunk
  {
    assert (chunks + [chunk])[..|chunks|] == chunks;
  }

  lemma NoChunks()
    ensures Delivered([]) == [] && Flatten([]) == [] && TextOf([]) == []
  {
  }

  /** However bytes are chunked, the events carry the text of all of them, in order. */
  lemma {:induction false} DeliveredIsText(chunks: seq<Bytes>)
    ensures Flatten(Delivered(chunks)) == TextOf(Flatten(chunks))
  {
    hide Delivered, TextOf, Flatten;
    if chunks == [] {
      NoChunks();
    } else {
      var before, chunk := chunks[..|chunks| - 1], chunks[|chunks| - 1];
      DeliveredIsText(before);
      LastApart(chunks);
      ChunkPassedOn(before, chunk);
    }
  }

  lemma ChunkPassedOn(before: seq<Bytes>, chunk: Bytes)
    requires Flatten(Delivered(before)) == TextOf(Flatten(before))
    ensures Flatten(Delivered(before + [chunk])) == TextOf(Flatten(before + [chunk]))
  {
    hide Delivered, Flatten, FeedAll, Encode;
    FlattenOne(before, chunk);
    FeedAppend(START, Flatten(before), chunk);
    DeliveredOne(before, chunk);
    var read := FeedAll(START, Flatten(before));
    var text := FeedAll(read.state, chunk).out;
    EncodeAppend(read.out, text);
    if text == [] {
      EmptyIsUnit(Delivered(before));
      EmptyIsUnit(read.out);
    } else {
      FlattenOne(Delivered(before), Encode(text));
    }
  }

  /** The bytes received are themselves the text delivered exactly if they are whole characters. */
  lemma TextOfIsSameIff(bytes: Bytes)
    ensures TextOf(bytes) == bytes <==> exists text :: Encode(text) == bytes
  {
    hide FeedAll, Encode;
    if text :| Encode(text) == bytes {
      FeedText(text);
      EncodeScalars(text);
    }
  }

  /** Of a text cut after any byte, its whole characters are passed on. */
  lemma TextOfCut(text: seq<CodePoint>, c: CodePoint, k: nat)
    requires k < |EncodeOne(c)|
    ensures TextOf(Encode(text) + EncodeOne(c)[..k]) == Encode(text)
  {
    hide FeedAll, EncodeOne, Encode, Partial;
    FeedText(text);
    EncodeScalars(text);
    EmptyIsUnit(Scalars(text));
    FeedAppend(START, Encode(text), EncodeOne(c)[..k]);
    if k == 0 {
      FeedNone(START);
      assert EncodeOne(c)[..0] == [];
    } else {
      FeedPart(c, k);
    }
  }
}
