/** Snapshots over time, and acting on their refs: guest-js/semantic-tree.ts, lines 30-164 and 429-541. */
module Snapshots {
  import opened Text
  import opened OrderedMap
  import opened SemanticTree
  import opened RefRegistry

  /** Where a snapshot starts: nowhere if the scope matches nothing, at an element, or at a fragment's children. */
  datatype Start = NoMatch | Root(element: Element) | Fragment(children: seq<Element>)

  datatype Request = Request(start: Start, verbose: bool)

  /** What outlives a snapshot: the registry, and the refs of the latest one. */
  datatype Surface = Surface(reg: Registry, current: Refs)

  datatype Snapshot = Snapshot(text: string, refs: Refs)

  const BLANK := Surface(FRESH, [])

  function PlanOf(start: Start): seq<Entry> {
    match start
    case NoMatch => []
    case Root(e) => Plan(e, 0, true, false)
    case Fragment(children) => PlanAll(children, 0, false)
  }

  function Marks(entries: seq<Entry>): seq<Mark> {
    seq(|entries|, i requires 0 <= i < |entries| => Mark(entries[i].element, entries[i].role, entries[i].depth))
  }

  function Drawn(s: Surface, r: Request): Drawing {
    Draw(Drawing(s.reg, [], []), r.verbose, Marks(PlanOf(r.start)))
  }

  function Taken(s: Surface, r: Request): Snapshot {
    Snapshot(Join(Drawn(s, r).lines, '\n'), Drawn(s, r).refs)
  }

  function AfterSnapshot(s: Surface, r: Request): Surface {
    Surface(Drawn(s, r).reg, Drawn(s, r).refs)
  }

  function AfterAll(s: Surface, rs: seq<Request>): Surface {
    if rs == [] then s else AfterSnapshot(AfterAll(s, rs[..|rs| - 1]), rs[|rs| - 1])
  }

  // ---------------------------------------------------------------- identity over whole runs

  ghost predicate RefsFrom(refs: Refs, reg: Registry) {
    forall entry | entry in refs :: entry.1 in reg.sticky && reg.sticky[entry.1] == entry.0
  }

  lemma {:induction false} RefsOfAreSticky(refs: Refs, reg: Registry, marks: seq<Mark>)
    requires Covers(reg, marks) && RefsFrom(refs, reg)
    ensures RefsFrom(RefsOf(refs, reg, marks), reg)
  {
    if marks != [] {
      var m := marks[|marks| - 1];
      RefsOfAreSticky(refs, reg, marks[..|marks| - 1]);
      SetAdds(RefsOf(refs, reg, marks[..|marks| - 1]), RefOf(reg, m), m.element.id);
    }
  }

  /** A snapshot only adds to the registry, keeps it sound, and binds only what the registry binds. */
  lemma SnapshotKeeps(s: Surface, r: Request)
    requires Sound(s.reg)
    ensures Sound(AfterSnapshot(s, r).reg) && Extends(AfterSnapshot(s, r).reg, s.reg)
    ensures RefsFrom(Taken(s, r).refs, AfterSnapshot(s, r).reg)
  {
    hide Sound, Draw;
    var marks := Marks(PlanOf(r.start));
    DrawIsMintThenRead(Drawing(s.reg, [], []), r.verbose, marks);
    MintAllKeeps(s.reg, marks);
    RefsOfAreSticky([], MintAll(s.reg, marks), marks);
  }

  lemma ExtendsOn(a: Registry, b: Registry, c: Registry)
    requires Extends(b, a) && Extends(c, b)
    ensures Extends(c, a)
  {
  }

  lemma {:induction false} RunKeeps(s: Surface, rs: seq<Request>)
    requires Sound(s.reg)
    ensures Sound(AfterAll(s, rs).reg) && Extends(AfterAll(s, rs).reg, s.reg)
  {
    if rs != [] {
      hide Sound, Extends, AfterSnapshot;
      var before := AfterAll(s, rs[..|rs| - 1]);
      RunKeeps(s, rs[..|rs| - 1]);
      SnapshotKeeps(before, rs[|rs| - 1]);
      ExtendsOn(s.reg, before.reg, AfterSnapshot(before, rs[|rs| - 1]).reg);
    }
  }

  lemma RefsStay(refs: Refs, reg: Registry, later: Registry)
    requires RefsFrom(refs, reg) && Extends(later, reg)
    ensures RefsFrom(refs, later)
  {
  }

  lemma AfterOneMore(s: Surface, rs: seq<Request>, r: Request)
    ensures AfterAll(s, rs + [r]) == AfterSnapshot(AfterAll(s, rs), r)
  {
    assert (rs + [r])[..|rs|] == rs;
    hide AfterSnapshot;
  }

  lemma {:induction false} AfterMore(s: Surface, a: seq<Request>, b: seq<Request>)
    ensures AfterAll(s, a + b) == AfterAll(AfterAll(s, a), b)
  {
    if b == [] {
      EmptyIsUnit(a);
    } else {
      hide AfterAll, AfterSnapshot;
      var c, r := b[..|b| - 1], b[|b| - 1];
      AfterMore(s, a, c);
      LastApart(b);
      Assoc(a, c, [r]);
      AfterOneMore(s, a + c, r);
      AfterOneMore(AfterAll(s, a), c, r);
    }
  }

  /** What one snapshot of a run bound, the registry at its end still binds. */
  lemma RefsOfRunSticky(rs: seq<Request>, k: nat)
    requires k < |rs|
    ensures RefsFrom(Taken(AfterAll(BLANK, rs[..k]), rs[k]).refs, AfterAll(BLANK, rs).reg)
  {
    BlankIsSound();
    hide Taken, AfterAll, AfterSnapshot, Sound, Extends, RefsFrom;
    var before := AfterAll(BLANK, rs[..k]);
    var after := AfterSnapshot(before, rs[k]);
    RunKeeps(BLANK, rs[..k]);
    SnapshotKeeps(before, rs[k]);
    AfterOneMore(BLANK, rs[..k], rs[k]);
    AfterMore(BLANK, rs[..k] + [rs[k]], rs[k + 1..]);
    assert rs == rs[..k] + [rs[k]] + rs[k + 1..];
    RunKeeps(after, rs[k + 1..]);
    RefsStay(Taken(before, rs[k]).refs, after.reg, AfterAll(BLANK, rs).reg);
  }

  lemma BlankIsSound()
    ensures Sound(BLANK.reg)
  {
  }

  /**
   * Ref identity. In any run of full and scoped snapshots, over any documents, the snapshots
   * together never bind one ref to two elements nor one element to two refs.
   */
  lemma RefIdentity(rs: seq<Request>, i: nat, j: nat, r1: string, e1: nat, r2: string, e2: nat)
    requires i < |rs| && j < |rs|
    requires (r1, e1) in Taken(AfterAll(BLANK, rs[..i]), rs[i]).refs
    requires (r2, e2) in Taken(AfterAll(BLANK, rs[..j]), rs[j]).refs
    ensures r1 == r2 <==> e1 == e2
  {
    hide Taken, AfterAll;
    RefsOfRunSticky(rs, i);
    RefsOfRunSticky(rs, j);
    BlankIsSound();
    RunKeeps(BLANK, rs);
  }

  function Button(id: nat): Element {
    Element(id, Some("button"), "", false, false, false, false, false, [], [], [])
  }

  lemma OneButton(s: Surface, id: nat)
    ensures var drawn := Drawn(s, Request(Root(Button(id)), false));
            drawn.reg == Minted(s.reg, id) && drawn.refs == [(Minted(s.reg, id).sticky[id], id)]
  {
    assert PlanOf(Root(Button(id))) == [Entry([], Button(id), "button", 0)] by {
      assert HasLine(Button(id), true);
      assert PlanAll([], 1, false) == [];
    }
    var marks := [Mark(Button(id), "button", 0)];
    assert Marks(PlanOf(Root(Button(id)))) == marks;
    hide Line, Minted;
    var none: seq<Mark> := [];
    EmptyIsUnit(marks);
    DrawLast(Drawing(s.reg, [], []), false, none, marks[0]);
  }

  /** Starting the registry afresh gives that up: a button drawn after the reset takes over the ref of another. */
  lemma ResetReusesRefs()
    ensures var first, second := Request(Root(Button(1)), false), Request(Root(Button(2)), false);
            && Taken(BLANK, first).refs == [(RefText(1), 1)]
            && Taken(BLANK, second).refs == [(RefText(1), 2)]
            && Taken(AfterSnapshot(BLANK, first), second).refs == [(RefText(2), 2)]
  {
    hide Drawn, RefText;
    OneButton(BLANK, 1);
    OneButton(BLANK, 2);
    OneButton(AfterSnapshot(BLANK, Request(Root(Button(1)), false)), 2);
  }

  // ---------------------------------------------------------------- resolving a ref

  datatype ResolveError = Stale(ref: string) | Detached(ref: string)

  function Normalized(ref: string): string {
    if ref != "" && ref[0] == '@' then ref else "@" + ref
  }

  function Resolved(refs: Refs, connected: set<nat>, ref: string): Result<nat, ResolveError> {
    match Lookup(refs, Normalized(ref))
    case None => Err(Stale(Normalized(ref)))
    case Some(e) => if e in connected then Ok(e) else Err(Detached(Normalized(ref)))
  }

  /**
   * A ref resolves to an element exactly when the latest snapshot bound it to that element and the
   * element is still connected. Any element that any snapshot of the run ever gave the ref is that one.
   */
  lemma ResolveFindsItsElement(rs: seq<Request>, connected: set<nat>, ref: string, e: nat)
    requires rs != []
    ensures var latest := Taken(AfterAll(BLANK, rs[..|rs| - 1]), rs[|rs| - 1]).refs;
            Resolved(AfterAll(BLANK, rs).current, connected, ref) == Ok(e)
            <==> (Normalized(ref), e) in latest && e in connected
    ensures Resolved(AfterAll(BLANK, rs).current, connected, ref) == Ok(e) ==>
              forall i, other
                | 0 <= i < |rs| && (Normalized(ref), other) in Taken(AfterAll(BLANK, rs[..i]), rs[i]).refs ::
                other == e
  {
    hide Normalized, Drawn;
    var n := |rs| - 1;
    var latest := Taken(AfterAll(BLANK, rs[..n]), rs[n]).refs;
    assert AfterAll(BLANK, rs).current == latest;
    hide AfterAll, Taken;
    LookupFinds(latest, Normalized(ref));
    if (Normalized(ref), e) in latest {
      var k :| 0 <= k < |latest| && latest[k] == (Normalized(ref), e);
      assert Keys(latest)[k] == Normalized(ref);
      RefIdentity(rs, n, n, Normalized(ref), e, Normalized(ref), Lookup(latest, Normalized(ref)).value);
      forall i, other | 0 <= i < |rs| && (Normalized(ref), other) in Taken(AfterAll(BLANK, rs[..i]), rs[i]).refs
        ensures other == e
      {
        RefIdentity(rs, n, i, Normalized(ref), e, Normalized(ref), other);
      }
    }
  }

  lemma MintedText(n: nat)
    ensures RefText(n) != "" && RefText(n)[0] == '@'
    ensures RefText(n)[1..] == Decimal(n) && RefText(n)[1..] != "" && RefText(n)[1..][0] != '@'
  {
  }

  /** One `@`, and something after it. */
  predicate Printed(ref: string) {
    ref != "" && ref[0] == '@' && ref[1..] != "" && ref[1..][0] != '@'
  }

  lemma BoundText(refs: Refs, reg: Registry, ref: string, e: nat)
    requires Sound(reg) && RefsFrom(refs, reg) && (ref, e) in refs
    ensures Printed(ref)
  {
    hide RefText;
    var n: nat :| 1 <= n <= reg.counter && reg.sticky[e] == RefText(n);
    MintedText(n);
  }

  /** The refs of the latest snapshot are current, start with `@`, and name one element each. */
  lemma LatestRefs(rs: seq<Request>)
    requires rs != []
    ensures var latest := Taken(AfterAll(BLANK, rs[..|rs| - 1]), rs[|rs| - 1]).refs;
            && AfterAll(BLANK, rs).current == latest
            && (forall ref, e | (ref, e) in latest :: Printed(ref))
            && forall ref, e, other | (ref, e) in latest && (ref, other) in latest :: e == other
  {
    hide Drawn, Sound, RefsFrom, Extends;
    var n := |rs| - 1;
    var before := AfterAll(BLANK, rs[..n]);
    var latest := Taken(before, rs[n]).refs;
    BlankIsSound();
    RunKeeps(BLANK, rs[..n]);
    SnapshotKeeps(before, rs[n]);
    forall ref, e | (ref, e) in latest
      ensures Printed(ref)
    {
      BoundText(latest, AfterSnapshot(before, rs[n]).reg, ref, e);
    }
    forall ref, e, other | (ref, e) in latest && (ref, other) in latest ensures e == other {
      RefIdentity(rs, n, n, ref, e, ref, other);
    }
  }

  lemma LookupBound(refs: Refs, ref: string, e: nat)
    requires (ref, e) in refs && forall other | (ref, other) in refs :: other == e
    ensures Lookup(refs, ref) == Some(e)
  {
    var k :| 0 <= k < |refs| && refs[k] == (ref, e);
    assert Keys(refs)[k] == ref;
    LookupFinds(refs, ref);
  }

  lemma LookupUnbound(refs: Refs, ref: string)
    requires forall e :: (ref, e) !in refs
    ensures Lookup(refs, ref) == None
  {
    LookupFinds(refs, ref);
  }

  /**
   * What a caller may write: a ref as the latest snapshot printed it, or without its `@`, finds the
   * element it was printed for, if that is still in the document, and is refused as detached if not.
   */
  lemma PrintedRefResolves(rs: seq<Request>, connected: set<nat>, ref: string, e: nat)
    requires rs != [] && (ref, e) in Taken(AfterAll(BLANK, rs[..|rs| - 1]), rs[|rs| - 1]).refs
    ensures var current, expected := AfterAll(BLANK, rs).current, if e in connected then Ok(e) else Err(Detached(ref));
            && ref != "" && Resolved(current, connected, ref) == expected
            && Resolved(current, connected, ref[1..]) == expected
  {
    hide Taken, AfterAll, Resolved, Printed;
    LatestRefs(rs);
    BoundRefResolves(AfterAll(BLANK, rs).current, connected, ref, e);
  }

  lemma BoundRefResolves(refs: Refs, connected: set<nat>, ref: string, e: nat)
    requires Printed(ref) && (ref, e) in refs && forall other | (ref, other) in refs :: other == e
    ensures var expected := if e in connected then Ok(e) else Err(Detached(ref));
            ref != "" && Resolved(refs, connected, ref) == expected && Resolved(refs, connected, ref[1..]) == expected
  {
    LookupBound(refs, ref, e);
    hide Lookup;
    assert "@" + ref[1..] == ref;
  }

  /** Any other ref is refused as stale, under the name it would have had. */
  lemma OtherRefIsStale(rs: seq<Request>, connected: set<nat>, ref: string)
    requires rs != []
    requires var latest := Taken(AfterAll(BLANK, rs[..|rs| - 1]), rs[|rs| - 1]).refs;
             forall e :: (ref, e) !in latest && ("@" + ref, e) !in latest
    ensures Resolved(AfterAll(BLANK, rs).current, connected, ref)
         == Err(Stale(if ref != "" && ref[0] == '@' then ref else "@" + ref))
  {
    hide Taken, AfterAll, Lookup, Printed;
    LatestRefs(rs);
    LookupUnbound(AfterAll(BLANK, rs).current, Normalized(ref));
  }

  // ---------------------------------------------------------------- stability and modes

  /**
   * Drawing an unchanged document again, after any other snapshots in between, mints nothing and
   * gives the same text and refs.
   */
  lemma UnchangedDocumentDrawsTheSame(s: Surface, r: Request, between: seq<Request>)
    requires Sound(s.reg)
    ensures var later := AfterAll(AfterSnapshot(s, r), between);
            Taken(later, r) == Taken(s, r) && AfterSnapshot(later, r).reg == later.reg
  {
    hide Sound, Draw, AfterAll, Lines, RefsOf;
    var later := AfterAll(AfterSnapshot(s, r), between);
    var marks := Marks(PlanOf(r.start));
    var reg := MintAll(s.reg, marks);
    SnapshotKeeps(s, r);
    RunKeeps(AfterSnapshot(s, r), between);
    DrawIsMintThenRead(Drawing(s.reg, [], []), r.verbose, marks);
    DrawIsMintThenRead(Drawing(later.reg, [], []), r.verbose, marks);
    MintAllKeeps(s.reg, marks);
    CoversLater(reg, later.reg, marks);
    MintAllIdle(later.reg, marks);
    LaterReadsTheSame(reg, later.reg, r.verbose, [], marks);
  }

  lemma CoversLater(reg: Registry, later: Registry, marks: seq<Mark>)
    requires Covers(reg, marks) && Extends(later, reg)
    ensures Covers(later, marks)
  {
  }

  /** Verbose mode gives the same refs in the same order, leaves the same registry, and only extends each line. */
  lemma ModesAgree(s: Surface, start: Start)
    ensures var compact, verbose := Drawn(s, Request(start, false)), Drawn(s, Request(start, true));
            && compact.refs == verbose.refs && compact.reg == verbose.reg
            && |compact.lines| == |verbose.lines|
            && forall i | 0 <= i < |compact.lines| :: compact.lines[i] <= verbose.lines[i]
  {
    hide Draw, RefsOf, MintAll, Line;
    var marks := Marks(PlanOf(start));
    DrawIsMintThenRead(Drawing(s.reg, [], []), false, marks);
    DrawIsMintThenRead(Drawing(s.reg, [], []), true, marks);
    var reg := MintAll(s.reg, marks);
    EmptyIsUnit(Lines(reg, false, marks));
    EmptyIsUnit(Lines(reg, true, marks));
    forall i | 0 <= i < |marks| ensures Lines(reg, false, marks)[i] <= Lines(reg, true, marks)[i] {
      CompactIsPrefix(RefOf(reg, marks[i]), marks[i]);
    }
  }

  // ---------------------------------------------------------------- which elements get refs

  /** No identity occurs twice in a document. */
  ghost predicate DistinctIds(e: Element) {
    forall p, q | IsPath(e, p) && IsPath(e, q) && Sub(e, p).id == Sub(e, q).id :: p == q
  }

  /** The bindings of the marks that get a ref, in order. */
  function Bindings(reg: Registry, marks: seq<Mark>): Refs {
    if marks == [] then []
    else
      var m := marks[|marks| - 1];
      Bindings(reg, marks[..|marks| - 1]) + if GetsRef(m.role) then [(RefOf(reg, m), m.element.id)] else []
  }

  ghost predicate BoundBy(reg: Registry, marks: seq<Mark>, b: (string, nat)) {
    exists i :: 0 <= i < |marks| && GetsRef(marks[i].role) && b == (RefOf(reg, marks[i]), marks[i].element.id)
  }

  lemma {:induction false} BindingsAreBound(reg: Registry, marks: seq<Mark>, b: (string, nat))
    ensures b in Bindings(reg, marks) <==> BoundBy(reg, marks, b)
  {
    if marks != [] {
      var n := |marks| - 1;
      BindingsAreBound(reg, marks[..n], b);
      assert BoundBy(reg, marks, b) <==>
             || BoundBy(reg, marks[..n], b)
             || (GetsRef(marks[n].role) && b == (RefOf(reg, marks[n]), marks[n].element.id)) by {
        if i :| 0 <= i < n && GetsRef(marks[..n][i].role)
                && b == (RefOf(reg, marks[..n][i]), marks[..n][i].element.id) {
          assert marks[i] == marks[..n][i];
        }
        if i :| 0 <= i < n && GetsRef(marks[i].role) && b == (RefOf(reg, marks[i]), marks[i].element.id) {
          assert marks[i] == marks[..n][i];
        }
      }
      hide BoundBy;
    }
  }

  ghost predicate Apart(marks: seq<Mark>) {
    forall i, j | 0 <= i < j < |marks| :: marks[i].element.id != marks[j].element.id
  }

  lemma NewBinding(reg: Registry, marks: seq<Mark>)
    requires Sound(reg) && Covers(reg, marks) && Apart(marks)
    requires marks != [] && GetsRef(marks[|marks| - 1].role)
    ensures RefOf(reg, marks[|marks| - 1]) !in Keys(Bindings(reg, marks[..|marks| - 1]))
  {
    hide Bindings;
    var n := |marks| - 1;
    var before, ref := Bindings(reg, marks[..n]), RefOf(reg, marks[n]);
    forall k | 0 <= k < |before| ensures before[k].0 != ref {
      BindingsAreBound(reg, marks[..n], before[k]);
      var i :| 0 <= i < n && GetsRef(marks[..n][i].role)
               && before[k] == (RefOf(reg, marks[..n][i]), marks[..n][i].element.id);
      assert marks[..n][i] == marks[i] && marks[i].element.id != marks[n].element.id;
    }
  }

  lemma {:induction false} RefsAreBindings(reg: Registry, marks: seq<Mark>)
    requires Sound(reg) && Covers(reg, marks) && Apart(marks)
    ensures RefsOf([], reg, marks) == Bindings(reg, marks)
  {
    if marks != [] {
      var n := |marks| - 1;
      RefsAreBindings(reg, marks[..n]);
      if GetsRef(marks[n].role) {
        NewBinding(reg, marks);
        SetNew(Bindings(reg, marks[..n]), RefOf(reg, marks[n]), marks[n].element.id);
      }
      hide Sound, RefOf;
    }
  }

  lemma PlannedApart(e: Element)
    requires DistinctIds(e)
    ensures Apart(Marks(PlanOf(Root(e))))
  {
    var entries := PlanOf(Root(e));
    PlanInOrder(e, 0, true, false);
    forall i, j | 0 <= i < j < |entries| ensures entries[i].element.id != entries[j].element.id {
      PlanElements(e, 0, true, false, i);
      PlanElements(e, 0, true, false, j);
      if entries[i].path == entries[j].path {
        NotBeforeItself(entries[i].path);
      }
    }
  }

  lemma {:induction false} NotBeforeItself(p: seq<nat>)
    ensures !Before(p, p)
  {
    if p != [] {
      NotBeforeItself(p[1..]);
    }
  }

  /** A snapshot's ref map lists, in document order, the shown elements with a ref role, each once. */
  lemma SnapshotBindsInDocumentOrder(s: Surface, e: Element, verbose: bool)
    requires Sound(s.reg) && DistinctIds(e)
    ensures var marks := Marks(PlanOf(Root(e)));
            Taken(s, Request(Root(e), verbose)).refs == Bindings(AfterSnapshot(s, Request(Root(e), verbose)).reg, marks)
    ensures Preorder(PlanOf(Root(e)))
  {
    hide Sound, DistinctIds, Draw, Bindings, Preorder, Apart;
    var marks := Marks(PlanOf(Root(e)));
    DrawIsMintThenRead(Drawing(s.reg, [], []), verbose, marks);
    MintAllKeeps(s.reg, marks);
    PlannedApart(e);
    RefsAreBindings(MintAll(s.reg, marks), marks);
    PlanInOrder(e, 0, true, false);
  }

  /** In a full snapshot an element with a ref role has a ref exactly when the traversal shows it. */
  lemma RefIffShown(s: Surface, e: Element, verbose: bool, path: seq<nat>)
    requires Sound(s.reg) && DistinctIds(e) && IsPath(e, path)
    requires Sub(e, path).role.Some? && GetsRef(Sub(e, path).role.value)
    ensures (exists ref :: (ref, Sub(e, path).id) in Taken(s, Request(Root(e), verbose)).refs)
            <==> Shown(e, path, true, false)
  {
    var entries := PlanOf(Root(e));
    var marks, reg, id := Marks(entries), AfterSnapshot(s, Request(Root(e), verbose)).reg, Sub(e, path).id;
    SnapshotBindsInDocumentOrder(s, e, verbose);
    PlanListsShown(e, 0, true, false, path);
    hide Sound, Taken, AfterSnapshot, Shown, Bindings;
    if ref :| (ref, id) in Bindings(reg, marks) {
      BindingsAreBound(reg, marks, (ref, id));
      var i :| 0 <= i < |marks| && GetsRef(marks[i].role) && (ref, id) == (RefOf(reg, marks[i]), marks[i].element.id);
      PlanElements(e, 0, true, false, i);
      assert entries[i].path == path;
    }
    if Listed(entries, path) {
      var k :| 0 <= k < |entries| && entries[k].path == path;
      PlanElements(e, 0, true, false, k);
      assert BoundBy(reg, marks, (RefOf(reg, marks[k]), id));
      BindingsAreBound(reg, marks, (RefOf(reg, marks[k]), id));
    }
  }

  /** So an element with a ref role other than `item` has one exactly when nothing down to it is pruned. */
  lemma RefIffUnpruned(s: Surface, e: Element, verbose: bool, path: seq<nat>)
    requires Sound(s.reg) && DistinctIds(e) && IsPath(e, path) && Relevant(Sub(e, path))
    ensures (exists ref :: (ref, Sub(e, path).id) in Taken(s, Request(Root(e), verbose)).refs)
            <==> Unpruned(e, path, true, false)
                 && (HasRole(Sub(e, path), "list") ==> ListCount(Sub(e, path).children) > 0 || Sub(e, path).name != "")
  {
    RefIffShown(s, e, verbose, path);
    RelevantShownIffUnpruned(e, path, true, false);
  }

  // ---------------------------------------------------------------- the object

  class RenderState {
    const verbose: bool
    var refs: Refs
    var lines: seq<string>

    constructor (verbose: bool)
      ensures this.verbose == verbose && refs == [] && lines == []
    {
      this.verbose := verbose;
      refs, lines := [], [];
    }
  }

  lemma MarksAppend(a: seq<Entry>, b: seq<Entry>)
    ensures Marks(a + b) == Marks(a) + Marks(b)
  {
  }

  lemma MarksBelow(i: nat, entries: seq<Entry>)
    ensures Marks(Below(i, entries)) == Marks(entries)
  {
  }

  lemma MarksOfChildren(es: seq<Element>, i: nat, depth: nat, inList: bool)
    requires i < |es|
    ensures Marks(PlanAll(es[..i + 1], depth, inList)) ==
            Marks(PlanAll(es[..i], depth, inList)) + Marks(Plan(es[i], depth, false, inList))
  {
    assert es[..i + 1][..i] == es[..i];
    var last := Plan(es[i], depth, false, inList);
    hide Plan;
    MarksAppend(PlanAll(es[..i], depth, inList), Below(i, last));
    MarksBelow(i, last);
  }

  lemma DrawNone(d: Drawing, verbose: bool, marks: seq<Mark>)
    requires marks == []
    ensures Draw(d, verbose, marks) == d
  {
  }

  lemma MarksOfElement(e: Element, depth: nat, isRoot: bool, inList: bool)
    requires !Pruned(e, inList) && !PassedOver(e, inList) && HasLine(e, isRoot)
    ensures Marks(Plan(e, depth, isRoot, inList)) ==
            [Mark(e, e.role.value, depth)] + Marks(PlanAll(e.children, ChildDepth(e, depth), HasRole(e, "list")))
  {
    var below := PlanAll(e.children, ChildDepth(e, depth), HasRole(e, "list"));
    assert Plan(e, depth, isRoot, inList) == [Entry([], e, e.role.value, depth)] + below;
    hide Plan, PlanAll;
    MarksAppend([Entry([], e, e.role.value, depth)], below);
  }

  class RefTable {
    var currentRefs: Refs
    var refCounter: nat
    var stickyRefs: map<nat, string>

    ghost function State(): Surface
      reads this
    {
      Surface(Registry(stickyRefs, refCounter), currentRefs)
    }

    ghost function Drawing(state: RenderState): RefRegistry.Drawing
      reads this, state
    {
      RefRegistry.Drawing(Registry(stickyRefs, refCounter), state.refs, state.lines)
    }

    constructor ()
      ensures State() == BLANK
    {
      currentRefs, refCounter, stickyRefs := [], 0, map[];
    }

    method ResetRefRegistry()
      modifies this
      ensures State() == BLANK
    {
      currentRefs := [];
      refCounter := 0;
      stickyRefs := map[];
    }

    method ResolveRef(ref: string, connected: set<nat>) returns (element: Result<nat, ResolveError>)
      ensures element == Resolved(currentRefs, connected, ref)
    {
      var normalized := if ref != "" && ref[0] == '@' then ref else "@" + ref;
      var found := Lookup(currentRefs, normalized);
      if found.None? {
        return Err(Stale(normalized));
      }
      if found.value !in connected {
        return Err(Detached(normalized));
      }
      element := Ok(found.value);
    }

    method AssignRef(e: Element, state: RenderState) returns (ref: string)
      modifies this`refCounter, this`stickyRefs, state`refs
      ensures Registry(stickyRefs, refCounter) == Minted(Registry(old(stickyRefs), old(refCounter)), e.id)
      ensures ref == stickyRefs[e.id] && state.refs == Set(old(state.refs), ref, e.id)
    {
      hide RefText, Set;
      if e.id in stickyRefs {
        ref := stickyRefs[e.id];
      } else {
        refCounter := refCounter + 1;
        ref := RefText(refCounter);
        stickyRefs := stickyRefs[e.id := ref];
      }
      state.refs := Set(state.refs, ref, e.id);
    }

    method AppendLine(e: Element, role: string, depth: nat, state: RenderState)
      modifies this`refCounter, this`stickyRefs, state
      ensures Drawing(state) == DrawOne(old(Drawing(state)), state.verbose, Mark(e, role, depth))
    {
      hide Line, Set;
      var ref := "";
      if GetsRef(role) {
        ref := AssignRef(e, state);
      }
      state.lines := state.lines + [Line(ref, Mark(e, role, depth), state.verbose)];
    }

    method VisitChildren(es: seq<Element>, depth: nat, state: RenderState)
      modifies this`refCounter, this`stickyRefs, state
      ensures Drawing(state) == Draw(old(Drawing(state)), state.verbose, Marks(PlanAll(es, depth, false)))
      decreases es, 0
    {
      hide Plan, PlanAll, Draw, Marks;
      ghost var start := Drawing(state);
      NothingPlanned(start, state.verbose, es[..0], depth, false);
      for i := 0 to |es|
        invariant Drawing(state) == Draw(start, state.verbose, Marks(PlanAll(es[..i], depth, false)))
      {
        VisitElement(es[i], depth, state, false);
        MarksOfChildren(es, i, depth, false);
        DrawAppend(start, state.verbose,
                   Marks(PlanAll(es[..i], depth, false)), Marks(Plan(es[i], depth, false, false)));
      }
      assert es[..|es|] == es;
    }

    method VisitElement(e: Element, depth: nat, state: RenderState, isRoot: bool)
      modifies this`refCounter, this`stickyRefs, state
      ensures Drawing(state) == Draw(old(Drawing(state)), state.verbose, Marks(Plan(e, depth, isRoot, false)))
      decreases e, 1
    {
      hide Draw, DrawOne, ShouldInclude, REF_ROLES;
      ghost var start := Drawing(state);
      if e.invisible && !e.focused && !e.modal {
        DrawNone(start, state.verbose, Marks(Plan(e, depth, isRoot, false)));
        return;
      }
      if e.role.None? || !ShouldInclude(e, e.role.value, isRoot) {
        VisitChildren(e.children, depth, state);
        return;
      }
      MarksOfElement(e, depth, isRoot, false);
      hide Plan, PlanAll, Marks;
      var role := e.role.value;
      AppendLine(e, role, depth, state);
      DrawFirst(start, state.verbose, Mark(e, role, depth),
                Marks(PlanAll(e.children, ChildDepth(e, depth), HasRole(e, "list"))));
      if role == "list" {
        VisitListItems(e.children, depth + 1, state);
        return;
      }
      var childDepth := if role == "main" && depth == 0 then 0 else depth + 1;
      VisitChildren(e.children, childDepth, state);
    }

    method VisitListItems(es: seq<Element>, depth: nat, state: RenderState)
      modifies this`refCounter, this`stickyRefs, state
      ensures Drawing(state) == Draw(old(Drawing(state)), state.verbose, Marks(PlanAll(es, depth, true)))
      decreases es, 0
    {
      hide Plan, PlanAll, Draw, DrawOne, Marks, ShouldIncludeItem;
      ghost var start := Drawing(state);
      NothingPlanned(start, state.verbose, es[..0], depth, true);
      for i := 0 to |es|
        invariant Drawing(state) == Draw(start, state.verbose, Marks(PlanAll(es[..i], depth, true)))
      {
        var child := es[i];
        ghost var before := Drawing(state);
        MarksOfChildren(es, i, depth, true);
        DrawAppend(start, state.verbose, Marks(PlanAll(es[..i], depth, true)), Marks(Plan(child, depth, false, true)));
        if child.invisible && !child.focused {
          NoMarks(before, state.verbose, child, depth);
          continue;
        }
        if child.role == Some("item") {
          if ShouldIncludeItem(child) {
            ItemMarks(before, state.verbose, child, depth);
            AppendLine(child, "item", depth, state);
            VisitChildren(child.children, depth + 1, state);
          } else {
            NoMarks(before, state.verbose, child, depth);
          }
          continue;
        }
        SameOutsideItems(child, depth);
        VisitElement(child, depth, state, false);
      }
      assert es[..|es|] == es;
    }

    method SnapshotDocument(r: Request) returns (result: Snapshot)
      modifies this
      ensures result == Taken(old(State()), r)
      ensures State() == AfterSnapshot(old(State()), r)
    {
      hide Plan, PlanAll, Draw, Marks;
      var state := new RenderState(r.verbose);
      match r.start {
        case NoMatch =>
          NoMarksOf(PlanOf(r.start));
          DrawNone(Drawing(state), r.verbose, Marks(PlanOf(r.start)));
        case Root(e) => VisitElement(e, 0, state, true);
        case Fragment(children) => VisitChildren(children, 0, state);
      }
      currentRefs := state.refs;
      result := Snapshot(Join(state.lines, '\n'), state.refs);
    }
  }

  lemma NoMarksOf(entries: seq<Entry>)
    requires entries == []
    ensures Marks(entries) == []
  {
  }

  lemma NothingPlanned(d: RefRegistry.Drawing, verbose: bool, es: seq<Element>, depth: nat, inList: bool)
    requires es == []
    ensures Draw(d, verbose, Marks(PlanAll(es, depth, inList))) == d
  {
  }

  lemma DrawFirst(d: RefRegistry.Drawing, verbose: bool, m: Mark, marks: seq<Mark>)
    ensures Draw(d, verbose, [m] + marks) == Draw(DrawOne(d, verbose, m), verbose, marks)
  {
    var none: seq<Mark> := [];
    DrawNone(d, verbose, none);
    EmptyIsUnit([m]);
    DrawLast(d, verbose, none, m);
    DrawAppend(d, verbose, [m], marks);
    hide Draw, DrawOne;
  }

  lemma NoMarks(d: RefRegistry.Drawing, verbose: bool, e: Element, depth: nat)
    requires Pruned(e, true) || PassedOver(e, true)
    ensures Draw(d, verbose, Marks(Plan(e, depth, false, true))) == d
  {
  }

  lemma ItemMarks(d: RefRegistry.Drawing, verbose: bool, e: Element, depth: nat)
    requires !Pruned(e, true) && HasRole(e, "item") && ShouldIncludeItem(e)
    ensures Draw(d, verbose, Marks(Plan(e, depth, false, true))) ==
            Draw(DrawOne(d, verbose, Mark(e, "item", depth)), verbose, Marks(PlanAll(e.children, depth + 1, false)))
  {
    hide Draw, DrawOne, ShouldIncludeItem;
    assert HasLine(e, false);
    MarksOfElement(e, depth, false, true);
    DrawFirst(d, verbose, Mark(e, "item", depth), Marks(PlanAll(e.children, depth + 1, false)));
  }

  lemma SameOutsideItems(e: Element, depth: nat)
    requires !Pruned(e, true) && !HasRole(e, "item")
    ensures Plan(e, depth, false, true) == Plan(e, depth, false, false)
  {
  }
}
