/** The stream over the tree: guest-js/instrumentation.ts, lines 306-328. */
module QuietTick {
  import opened Text
  import opened LineDiff
  import opened SemanticStreams
  import opened SemanticTree
  import opened RefRegistry
  import opened Snapshots

  /**
   * The stream captures the whole document in compact mode. A tick over a document that did not
   * change since the last one emits no frame and leaves the stream as it was, whatever scoped,
   * verbose or repeated snapshots of anything came in between.
   */
  lemma UnchangedDocumentIsQuiet(stream: Stream, s: Surface, body: Element, between: seq<Request>)
    requires Sound(s.reg)
    requires stream.started && stream.lastText == Taken(s, Request(Root(body), false)).text
    ensures var capture := Request(Root(body), false);
            var later := AfterAll(AfterSnapshot(s, capture), between);
            var text := Taken(later, capture).text;
            Emitted(stream, text) == [] && Ticked(stream, text) == stream
  {
    hide Taken, AfterSnapshot, AfterAll, Sound, Added, Removed;
    UnchangedDocumentDrawsTheSame(s, Request(Root(body), false), between);
  }
}
