/**
 * The retained-detail maps beside the network and IPC capture lists:
 * guest-js/instrumentation.ts, lines 598-612, 883-930, 999-1019, 1069-1080, 1130-1139 and 1194-1211.
 */
module DetailIndex {
  import opened Text
  import opened OrderedMap
  import opened Ring
  import opened CaptureBuffers

  const MAX_CAPTURE_ENTRIES := 1000

  /** What was captured; the IPC list has only the last kind, the network list only the others. */
  datatype Kind = Fetch | Xhr | WebSocket | Ipc

  function Prefix(kind: Kind): string {
    match kind
    case Fetch => "fetch-"
    case Xhr => "xhr-"
    case WebSocket => "ws-"
    case Ipc => "ipc-"
  }

  function CaptureId(kind: Kind, n: nat): string {
    Prefix(kind) + Decimal(n)
  }

  lemma CaptureIdText(n: nat)
    ensures CaptureId(Fetch, n) == "fetch-" + Decimal(n) && CaptureId(Xhr, n) == "xhr-" + Decimal(n)
    ensures CaptureId(WebSocket, n) == "ws-" + Decimal(n) && CaptureId(Ipc, n) == "ipc-" + Decimal(n)
  {
  }

  /** One counter numbers every kind, and no two numbers give the same id whatever their kinds. */
  lemma CaptureIdInjective(k1: Kind, n1: nat, k2: Kind, n2: nat)
    requires CaptureId(k1, n1) == CaptureId(k2, n2)
    ensures k1 == k2 && n1 == n2
  {
    hide Decimal;
    var p1, p2 := Prefix(k1), Prefix(k2);
    assert (p1 + Decimal(n1))[0] == p1[0] && (p2 + Decimal(n2))[0] == p2[0];
    assert k1 == k2;
    assert (p1 + Decimal(n1))[|p1|..] == Decimal(n1) && (p1 + Decimal(n2))[|p1|..] == Decimal(n2);
    DecimalInjective(n1, n2);
  }

  type Details<D> = Entries<D>

  function SetCapped<D>(details: Details<D>, key: string, value: D): Details<D> {
    var grown := Set(details, key, value);
    if |grown| > MAX_CAPTURE_ENTRIES then grown[1..] else grown
  }

  // ---------------------------------------------------------------- the list, the map and the counter

  /** A capture list (of entry ids), its detail map, and the id counter they share. */
  datatype Captures<D> = Captures(list: Buffer<string>, details: Details<D>, counter: nat)

  datatype Call<D> = Capture(kind: Kind, detail: D) | List(params: CaptureParams)

  function NoCaptures<D>(): Captures<D> {
    Captures(Created(MAX_CAPTURE_ENTRIES), [], 0)
  }

  function Step<D>(c: Captures<D>, call: Call<D>): Captures<D> {
    match call
    case Capture(kind, detail) =>
      var id := CaptureId(kind, c.counter + 1);
      Captures(Pushed(c.list, id), SetCapped(c.details, id, detail), c.counter + 1)
    case List(p) =>
      if Answer(c.list, p).Ok? then Captures(AfterRead(c.list, p), if p.clear then [] else c.details, c.counter) else c
  }

  function Run<D>(c: Captures<D>, calls: seq<Call<D>>): Captures<D> {
    if calls == [] then c else Step(Run(c, calls[..|calls| - 1]), calls[|calls| - 1])
  }

  function Listed(list: Buffer<string>): seq<string> {
    Values(list.entries)
  }

  ghost predicate HasNumber(id: string, n: nat) {
    exists kind :: id == CaptureId(kind, n)
  }

  /** Everything captured so far was numbered by the counter. */
  ghost predicate FromCounter<D>(given: Details<D>) {
    forall i | 0 <= i < |given| :: HasNumber(given[i].0, i + 1)
  }

  /** List and map hold the same newest part of everything captured, in the same order. */
  ghost predicate Agree<D>(c: Captures<D>, given: Details<D>) {
    && c.list.capacity == MAX_CAPTURE_ENTRIES
    && CaptureBuffers.Inv(c.list, Keys(given))
    && |given| == c.counter
    && FromCounter(given)
    && |c.details| == |c.list.entries|
    && EndOf(c.details, given)
  }

  lemma SameKeys<D>(c: Captures<D>, given: Details<D>)
    requires Agree(c, given)
    ensures Keys(c.details) == Listed(c.list)
    ensures forall d | d in c.details :: d in given
  {
    var gone := |given| - |c.details|;
    assert |Keys(given)| == |given|;
    forall i | 0 <= i < |c.details| ensures Keys(c.details)[i] == Listed(c.list)[i] {
      assert c.list.entries[i] == Numbering(Keys(given))[gone + i];
    }
  }

  lemma NumberedApart<D>(given: Details<D>, i: nat, j: nat)
    requires FromCounter(given) && i < |given| && j < |given| && given[i].0 == given[j].0
    ensures i == j
  {
    hide CaptureId;
    assert HasNumber(given[i].0, i + 1) && HasNumber(given[j].0, j + 1);
    var k :| given[i].0 == CaptureId(k, i + 1);
    var l :| given[j].0 == CaptureId(l, j + 1);
    CaptureIdInjective(k, i + 1, l, j + 1);
  }

  lemma NextIdIsNew<D>(given: Details<D>, kind: Kind, detail: D)
    requires FromCounter(given)
    ensures var all := given + [(CaptureId(kind, |given| + 1), detail)];
            FromCounter(all) && forall i | 0 <= i < |given| :: given[i].0 != CaptureId(kind, |given| + 1)
  {
    hide CaptureId;
    var all := given + [(CaptureId(kind, |given| + 1), detail)];
    assert HasNumber(all[|given|].0, |given| + 1);
    assert FromCounter(all);
    forall i | 0 <= i < |given| ensures given[i].0 != CaptureId(kind, |given| + 1) {
      if given[i].0 == CaptureId(kind, |given| + 1) {
        NumberedApart(all, i, |given|);
      }
    }
  }

  lemma PushedFields(list: Buffer<string>, id: string)
    ensures Pushed(list, id).capacity == list.capacity
    ensures Pushed(list, id).entries == Shifted(list.entries, Numbered(list.last + 1, id), list.capacity)
  {
  }

  lemma KeysOne<D>(given: Details<D>, d: (string, D))
    ensures Keys(given + [d]) == Keys(given) + [d.0]
  {
  }

  lemma CaptureKeepsAgreement<D>(c: Captures<D>, given: Details<D>, kind: Kind, detail: D)
    requires Agree(c, given)
    ensures Agree(Step(c, Capture(kind, detail)), given + [(CaptureId(kind, c.counter + 1), detail)])
  {
    hide CaptureId, Set, FromCounter, Pushed, CaptureBuffers.Inv;
    var id := CaptureId(kind, c.counter + 1);
    NextIdIsNew(given, kind, detail);
    assert id !in Keys(c.details) by {
      SameKeys(c, given);
    }
    SetNew(c.details, id, detail);
    ShiftedIsEnd(c.details, given, (id, detail), MAX_CAPTURE_ENTRIES);
    PushKeeps(c.list, Keys(given), id);
    PushedFields(c.list, id);
    KeysOne(given, (id, detail));
  }

  lemma ListKeepsAgreement<D>(c: Captures<D>, given: Details<D>, p: CaptureParams)
    requires Agree(c, given)
    ensures Agree(Step(c, List(p)), given)
  {
    hide Answer, CaptureBuffers.Inv, FromCounter, Keys;
    ReadKeeps(c.list, Keys(given), p);
  }

  lemma CounterCounts<D>(c: Captures<D>, given: Details<D>)
    requires Agree(c, given)
    ensures |given| == c.counter
  {
  }

  /** The ids given by a run of calls, in order, with what was captured under them. */
  function Given<D>(calls: seq<Call<D>>): Details<D> {
    if calls == [] then []
    else
      var before := Given(calls[..|calls| - 1]);
      match calls[|calls| - 1]
      case Capture(kind, detail) => before + [(CaptureId(kind, |before| + 1), detail)]
      case List(_) => before
  }

  lemma {:induction false} ReachableAgree<D>(calls: seq<Call<D>>)
    ensures Agree(Run(NoCaptures(), calls), Given(calls))
  {
    if calls == [] {
      assert Agree(NoCaptures<D>(), []);
    } else {
      hide Step, Agree, CaptureId, Prefix;
      var before, given := Run(NoCaptures(), calls[..|calls| - 1]), Given(calls[..|calls| - 1]);
      ReachableAgree(calls[..|calls| - 1]);
      CounterCounts(before, given);
      match calls[|calls| - 1]
      case Capture(kind, detail) => CaptureKeepsAgreement(before, given, kind, detail);
      case List(p) => ListKeepsAgreement(before, given, p);
    }
  }

  /** Index agreement in every reachable state: after any captures, evictions, reads, refused reads and clears. */
  lemma IndexAgrees<D>(calls: seq<Call<D>>)
    ensures var c := Run(NoCaptures<D>(), calls);
            Keys(c.details) == Listed(c.list) && |c.details| <= 1000
  {
    ReachableAgree(calls);
    hide Run, Given, Listed, Keys;
    SameKeys(Run(NoCaptures<D>(), calls), Given(calls));
  }

  lemma CaptureGrows<D>(c: Captures<D>, given: Details<D>, kind: Kind, detail: D)
    requires Agree(c, given)
    ensures var n := |c.details| + 1;
            |Step(c, Capture(kind, detail)).details| == if n > 1000 then n - 1 else n
  {
    hide CaptureId, Set, FromCounter, CaptureBuffers.Inv, Pushed;
    var id := CaptureId(kind, c.counter + 1);
    NextIdIsNew(given, kind, detail);
    SameKeys(c, given);
    SetNew(c.details, id, detail);
    assert MAX_CAPTURE_ENTRIES == 1000;
  }

  lemma AgreedEnd<D>(c: Captures<D>, given: Details<D>)
    requires Agree(c, given)
    ensures |c.details| <= |given| && c.details == given[|given| - |c.details|..]
  {
  }

  lemma OneMoreCall<D>(before: seq<Call<D>>, call: Call<D>)
    ensures Run(NoCaptures<D>(), before + [call]) == Step(Run(NoCaptures<D>(), before), call)
    ensures |Given(before + [call])| == |Given(before)| + if call.Capture? then 1 else 0
  {
    hide CaptureId, Step;
    assert (before + [call])[..|before|] == before;
  }

  lemma ListKeepsDetails<D>(c: Captures<D>, p: CaptureParams)
    requires !p.clear
    ensures Step(c, List(p)).details == c.details
  {
    hide Answer;
  }

  lemma {:induction false} AtMostThousandKept<D>(calls: seq<Call<D>>)
    requires forall i | 0 <= i < |calls| && calls[i].List? :: !calls[i].params.clear
    ensures var n := |Given(calls)|;
            |Run(NoCaptures<D>(), calls).details| == if n > 1000 then 1000 else n
  {
    hide Step, Given, Agree, Run;
    if calls == [] {
      NothingCaptured<D>();
    } else {
      var before, call := calls[..|calls| - 1], calls[|calls| - 1];
      LastApart(calls);
      AtMostThousandKept(before);
      ReachableAgree(before);
      OneMoreCall(before, call);
      match call
      case Capture(kind, detail) => CaptureGrows(Run(NoCaptures<D>(), before), Given(before), kind, detail);
      case List(p) => ListKeepsDetails(Run(NoCaptures<D>(), before), p);
    }
  }

  lemma NothingCaptured<D>()
    ensures Run(NoCaptures<D>(), []).details == [] && Given<D>([]) == []
  {
  }

  /** Until a clear, the newest thousand captures are kept, or all if there are fewer. */
  lemma NewestThousandKept<D>(calls: seq<Call<D>>)
    requires forall i | 0 <= i < |calls| && calls[i].List? :: !calls[i].params.clear
    ensures var c, given := Run(NoCaptures<D>(), calls), Given(calls);
            |c.details| == (if |given| > 1000 then 1000 else |given|) && c.details == given[|given| - |c.details|..]
  {
    hide Run, Given, Agree;
    AtMostThousandKept(calls);
    ReachableAgree(calls);
    AgreedEnd(Run(NoCaptures<D>(), calls), Given(calls));
  }

  // ---------------------------------------------------------------- looking a detail up

  datatype DetailError = InvalidId | IdWithListOptions | NotRetained(id: string)

  predicate IsSpace(c: char) {
    || c in "\t\n\r "
    || c in {'\U{000B}', '\U{000C}', '\U{00A0}', '\U{1680}', '\U{2028}', '\U{2029}', '\U{202F}', '\U{205F}',
             '\U{3000}', '\U{FEFF}'}
    || '\U{2000}' <= c <= '\U{200A}'
  }

  /** `!id.trim()`. */
  predicate Blank(id: string) {
    forall c | c in id :: IsSpace(c)
  }

  function RetainedDetail<D>(details: Details<D>, id: string, p: CaptureParams): Result<D, DetailError> {
    if Blank(id) then Err(InvalidId)
    else if p.clear || p.since.Some? || p.limit.Some? then Err(IdWithListOptions)
    else
      match Lookup(details, id)
      case Some(d) => Ok(d)
      case None => Err(NotRetained(id))
  }

  const PLAIN := CaptureParams(None, None, false)

  /**
   * In every reachable state an id resolves exactly when the list shows it, and then to what was
   * captured under it; any other id is reported as not retained.
   */
  lemma DetailIffListed<D>(calls: seq<Call<D>>, id: string)
    ensures var c := Run(NoCaptures<D>(), calls);
            && (id in Listed(c.list) ==>
                exists d :: RetainedDetail(c.details, id, PLAIN) == Ok(d) && (id, d) in Given(calls))
            && (id !in Listed(c.list) ==>
                RetainedDetail(c.details, id, PLAIN) == Err(if Blank(id) then InvalidId else NotRetained(id)))
    ensures forall d, e | (id, d) in Given(calls) && (id, e) in Given(calls) :: d == e
  {
    hide Run, Blank, Lookup, Given, Listed, Keys;
    var c, given := Run(NoCaptures<D>(), calls), Given(calls);
    ReachableAgree(calls);
    SameKeys(c, given);
    LookupFinds(c.details, id);
    if id in Listed(c.list) {
      var d := Lookup(c.details, id).value;
      var i :| 0 <= i < |given| && given[i] == (id, d);
      assert HasNumber(given[i].0, i + 1);
      var kind :| given[i].0 == CaptureId(kind, i + 1);
      NotBlank(kind, i + 1);
      assert RetainedDetail(c.details, id, PLAIN) == Ok(d);
    }
    forall d, e | (id, d) in given && (id, e) in given ensures d == e {
      var i :| 0 <= i < |given| && given[i] == (id, d);
      var j :| 0 <= j < |given| && given[j] == (id, e);
      NumberedApart(given, i, j);
    }
  }

  /** An id of blanks is refused first, then any list option beside an id, whatever is retained. */
  lemma RefusedDetail<D>(details: Details<D>, id: string, p: CaptureParams)
    ensures RetainedDetail(details, id, p) == Err(InvalidId) <==> forall c | c in id :: IsSpace(c)
    ensures RetainedDetail(details, id, p) == Err(IdWithListOptions)
            <==> (exists c :: c in id && !IsSpace(c)) && (p.clear || p.since.Some? || p.limit.Some?)
    ensures forall c :: IsSpace(c) <==>
              || 9 <= c as int <= 13 || 0x2000 <= c as int <= 0x200A
              || c as int in {0x20, 0xA0, 0x1680, 0x2028, 0x2029, 0x202F, 0x205F, 0x3000, 0xFEFF}
  {
    hide Lookup;
  }

  lemma NotBlank(kind: Kind, n: nat)
    ensures !Blank(CaptureId(kind, n))
  {
    assert CaptureId(kind, n)[0] == Prefix(kind)[0];
    assert !IsSpace(CaptureId(kind, n)[0]);
  }

  // ---------------------------------------------------------------- the object

  class TracedCaptures<D> {
    const list: CaptureBuffer<string>
    var details: Details<D>
    var counter: nat

    ghost function State(): Captures<D>
      reads this, list
    {
      Captures(list.State(), details, counter)
    }

    constructor ()
      ensures State() == NoCaptures() && fresh(list)
    {
      list := new CaptureBuffer<string>(MAX_CAPTURE_ENTRIES);
      details, counter := [], 0;
    }

    /** `fetch`, `XMLHttpRequest` and IPC sites fill the map first, the `WebSocket` site the list. */
    method Capture(kind: Kind, detail: D)
      modifies this, list
      ensures State() == Step(old(State()), Call.Capture(kind, detail))
    {
      counter := counter + 1;
      var id := CaptureId(kind, counter);
      if kind == WebSocket {
        list.Push(id);
        details := SetCapped(details, id, detail);
      } else {
        details := SetCapped(details, id, detail);
        list.Push(id);
      }
    }

    /** `network(options)` and `ipc(options)` without an id. */
    method List(p: CaptureParams) returns (answer: Result<CaptureResult<string>, CaptureError>)
      modifies this, list
      ensures answer == Answer(old(State()).list, p)
      ensures State() == Step(old(State()), Call.List(p))
    {
      answer := list.Read(p);
      if answer.Ok? && p.clear {
        details := [];
      }
    }
  }
}
