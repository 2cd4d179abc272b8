/**
 * What the text of a snapshot shows, said of the fields of the elements and of the lines of the
 * text: guest-js/semantic-tree.ts, lines 90-110, 429-541, 543-586 and 822-824.
 */
module DocumentText {
  import opened Text
  import opened OrderedMap
  import LineDiff
  import opened SemanticTree
  import opened RefRegistry
  import opened Snapshots

  // ---------------------------------------------------------------- which elements get a line

  predicate IsControl(role: string) {
    role in {"button", "checkbox", "combobox", "link", "list", "menuitem", "navitem", "option", "radio", "switch",
             "tab", "textbox"}
  }

  predicate IsLandmark(role: string) {
    role in {"alert", "banner", "complementary", "contentinfo", "dialog", "form", "heading", "navigation", "region",
             "search"}
  }

  /** A list worth a line: it has a name or an item. */
  predicate ShowsList(x: Element) {
    x.role == Some("list") && (x.name != "" || exists i :: 0 <= i < |x.children| && x.children[i].role == Some("item"))
  }

  /** An item worth a line: its state says so, or there is a control somewhere below it. */
  ghost predicate ShowsItem(x: Element) {
    || x.selected || x.checked || x.focused
    || exists q :: q != [] && IsPath(x, q) && Sub(x, q).role.Some? && IsControl(Sub(x, q).role.value)
  }

  ghost predicate ShowsLine(x: Element, top: bool) {
    match x.role
    case None => false
    case Some(role) =>
      if role == "item" then ShowsItem(x)
      else if role == "main" then top || x.name != ""
      else if role == "list" then ShowsList(x)
      else IsControl(role) || (IsLandmark(role) && (x.name != "" || x.modal))
  }

  /** The element `k` steps down a path. */
  function At(e: Element, path: seq<nat>, k: nat): Element
    requires IsPath(e, path) && k <= |path|
    decreases k
  {
    if k == 0 then e else At(e.children[path[0]], path[1..], k - 1)
  }

  /** Whether the element `k` steps down is a child of a list with a line; `inList` for the start. */
  predicate UnderList(e: Element, path: seq<nat>, k: nat, inList: bool)
    requires IsPath(e, path) && k <= |path|
  {
    if k == 0 then inList else ShowsList(At(e, path, k - 1))
  }

  /**
   * The element at the end of the path has a line: nothing on the way to it is invisible, unless
   * it is focused, or modal and not right under a list; no item right under a list is passed over;
   * and the element is worth a line itself.
   */
  ghost predicate InView(e: Element, path: seq<nat>, top: bool, inList: bool)
    requires IsPath(e, path)
  {
    && (forall k | 0 <= k <= |path| :: var x := At(e, path, k);
          x.invisible ==> x.focused || (x.modal && !UnderList(e, path, k, inList)))
    && (forall k | 0 <= k <= |path| :: var x := At(e, path, k);
          UnderList(e, path, k, inList) && x.role == Some("item") ==> ShowsItem(x))
    && ShowsLine(At(e, path, |path|), top && path == [])
  }

  lemma {:induction false} AtEnd(e: Element, path: seq<nat>)
    requires IsPath(e, path)
    ensures At(e, path, |path|) == Sub(e, path)
    decreases |path|
  {
    if path != [] {
      AtEnd(e.children[path[0]], path[1..]);
    }
  }

  lemma {:induction false} ItemsCounted(es: seq<Element>)
    ensures ListCount(es) > 0 <==> exists i :: 0 <= i < |es| && es[i].role == Some("item")
  {
    if es != [] {
      var n := |es| - 1;
      ItemsCounted(es[..n]);
      if i :| 0 <= i < n && es[i].role == Some("item") {
        assert es[..n][i] == es[i];
      }
    }
  }

  lemma SpeakingItem(x: Element)
    ensures ShowsItem(x) <==> ShouldIncludeItem(x)
  {
    if HasRelevantDescendant(x) {
      var q := RelevantFound(x);
      assert IsControl(Sub(x, q).role.value);
    }
    if q :| q != [] && IsPath(x, q) && Sub(x, q).role.Some? && IsControl(Sub(x, q).role.value) {
      RelevantBelow(x, q);
    }
  }

  lemma OwnLine(x: Element, top: bool)
    ensures ShowsLine(x, top) <==> HasLine(x, top)
    ensures ShowsList(x) <==> HasLine(x, top) && HasRole(x, "list")
  {
    SpeakingItem(x);
    ItemsCounted(x.children);
    hide ShowsItem, ShouldIncludeItem, ListCount;
  }

  /** That is what the traversal shows. */
  lemma {:induction false} InViewIffShown(e: Element, path: seq<nat>, top: bool, inList: bool)
    requires IsPath(e, path)
    ensures InView(e, path, top, inList) <==> Shown(e, path, top, inList)
    decreases |path|
  {
    hide ShowsItem, ShowsList, ShowsLine, HasLine, ShouldIncludeItem;
    OwnLine(e, top);
    SpeakingItem(e);
    if path != [] {
      hide InView;
      InViewIffShown(e.children[path[0]], path[1..], false, ShowsList(e));
      StepDown(e, path, top, inList);
    }
  }

  lemma StepDown(e: Element, path: seq<nat>, top: bool, inList: bool)
    requires IsPath(e, path) && path != []
    ensures InView(e, path, top, inList) <==>
              && (e.invisible ==> e.focused || (e.modal && !inList))
              && (inList && e.role == Some("item") ==> ShowsItem(e))
              && InView(e.children[path[0]], path[1..], false, ShowsList(e))
  {
    hide ShowsItem, ShowsList, ShowsLine, At, UnderList;
    var child, rest := e.children[path[0]], path[1..];
    forall k: nat | k <= |rest| ensures At(child, rest, k) == At(e, path, k + 1)
        && UnderList(child, rest, k, ShowsList(e)) == UnderList(e, path, k + 1, inList) {
      AtStep(e, path, k + 1, inList);
    }
    AtStart(e, path, inList);
    if InView(child, rest, false, ShowsList(e)) {
      forall k: nat | 0 < k <= |path| ensures At(e, path, k) == At(child, rest, k - 1)
          && UnderList(e, path, k, inList) == UnderList(child, rest, k - 1, ShowsList(e)) {
      }
    }
  }

  lemma AtStart(e: Element, path: seq<nat>, inList: bool)
    requires IsPath(e, path)
    ensures At(e, path, 0) == e && UnderList(e, path, 0, inList) == inList
  {
  }

  lemma AtStep(e: Element, path: seq<nat>, k: nat, inList: bool)
    requires IsPath(e, path) && 0 < k <= |path|
    ensures var child, rest := e.children[path[0]], path[1..];
            && At(e, path, k) == At(child, rest, k - 1)
            && UnderList(e, path, k, inList) == UnderList(child, rest, k - 1, ShowsList(e))
  {
    hide ShowsList;
  }

  /** Nothing on the way down is cut off. */
  ghost predicate Reachable(e: Element, path: seq<nat>, inList: bool)
    requires IsPath(e, path)
  {
    forall k | 0 <= k <= |path| :: var x := At(e, path, k);
      x.invisible ==> x.focused || (x.modal && !UnderList(e, path, k, inList))
  }

  lemma {:induction false} ReachableIffUnpruned(e: Element, path: seq<nat>, top: bool, inList: bool)
    requires IsPath(e, path)
    ensures Reachable(e, path, inList) <==> Unpruned(e, path, top, inList)
    decreases |path|
  {
    hide ShowsList, HasLine;
    OwnLine(e, top);
    AtStart(e, path, inList);
    if path != [] {
      hide At, UnderList;
      var child, rest := e.children[path[0]], path[1..];
      ReachableIffUnpruned(child, rest, false, ShowsList(e));
      forall k: nat | k <= |rest| ensures At(child, rest, k) == At(e, path, k + 1)
          && UnderList(child, rest, k, ShowsList(e)) == UnderList(e, path, k + 1, inList) {
        AtStep(e, path, k + 1, inList);
      }
      if Reachable(child, rest, ShowsList(e)) {
        forall k: nat | 0 < k <= |path| ensures At(e, path, k) == At(child, rest, k - 1)
            && UnderList(e, path, k, inList) == UnderList(child, rest, k - 1, ShowsList(e)) {
        }
      }
    }
  }

  /** In a full snapshot a control has a ref exactly when nothing down to it is cut off, and a list is worth a line. */
  lemma ControlHasRefIffReachable(s: Surface, e: Element, verbose: bool, path: seq<nat>)
    requires Sound(s.reg) && DistinctIds(e) && IsPath(e, path)
    requires Sub(e, path).role.Some? && IsControl(Sub(e, path).role.value)
    ensures var x := Sub(e, path);
            (exists ref :: (ref, x.id) in Taken(s, Request(Root(e), verbose)).refs)
            <==> Reachable(e, path, false) && (x.role == Some("list") ==> ShowsList(x))
  {
    hide Sound, DistinctIds, Taken, Reachable, Unpruned, ListCount;
    RefIffUnpruned(s, e, verbose, path);
    ReachableIffUnpruned(e, path, true, false);
    ItemsCounted(Sub(e, path).children);
  }

  /** An item has one exactly when it is in view. */
  lemma ItemHasRefIffInView(s: Surface, e: Element, verbose: bool, path: seq<nat>)
    requires Sound(s.reg) && DistinctIds(e) && IsPath(e, path) && Sub(e, path).role == Some("item")
    ensures (exists ref :: (ref, Sub(e, path).id) in Taken(s, Request(Root(e), verbose)).refs)
            <==> InView(e, path, true, false)
  {
    hide Sound, DistinctIds, Taken, InView, Shown;
    RefIffShown(s, e, verbose, path);
    InViewIffShown(e, path, true, false);
  }

  // ---------------------------------------------------------------- how far it is indented

  /** The roles of the elements above the one at the path that have lines, outermost first. */
  ghost function OuterRoles(e: Element, path: seq<nat>, top: bool): seq<string>
    requires IsPath(e, path)
    decreases |path|
  {
    if path == [] then []
    else (if ShowsLine(e, top) then [e.role.value] else []) + OuterRoles(e.children[path[0]], path[1..], false)
  }

  /** One step for each, except that outermost mains do not indent. */
  function Steps(roles: seq<string>): nat {
    if roles != [] && roles[0] == "main" then Steps(roles[1..]) else |roles|
  }

  lemma {:induction false} PlanDepth(e: Element, depth: nat, isRoot: bool, inList: bool, k: nat)
    requires k < |Plan(e, depth, isRoot, inList)|
    ensures var entry := Plan(e, depth, isRoot, inList)[k];
            && IsPath(e, entry.path)
            && entry.depth == if depth == 0 then Steps(OuterRoles(e, entry.path, isRoot))
                              else depth + |OuterRoles(e, entry.path, isRoot)|
    decreases e, 1
  {
    hide ShowsLine, HasLine, PassedOver;
    OwnLine(e, isRoot);
    if HasLine(e, isRoot) {
      if k > 0 {
        PlanAllDepth(e.children, ChildDepth(e, depth), HasRole(e, "list"), k - 1);
        OuterFirst(e, Plan(e, depth, isRoot, inList)[k].path, isRoot);
      }
    } else {
      PlanAllDepth(e.children, depth, false, k);
      OuterFirst(e, Plan(e, depth, isRoot, inList)[k].path, isRoot);
    }
  }

  lemma OuterFirst(e: Element, path: seq<nat>, top: bool)
    requires IsPath(e, path) && path != []
    ensures var below := OuterRoles(e.children[path[0]], path[1..], false);
            && |OuterRoles(e, path, top)| == |below| + (if ShowsLine(e, top) then 1 else 0)
            && Steps(OuterRoles(e, path, top)) ==
               if ShowsLine(e, top) && e.role != Some("main") then 1 + |below| else Steps(below)
  {
    hide ShowsItem;
    var below := OuterRoles(e.children[path[0]], path[1..], false);
    if ShowsLine(e, top) {
      assert ([e.role.value] + below)[1..] == below;
    } else {
      EmptyIsUnit(below);
    }
  }

  lemma {:induction false} PlanAllDepth(es: seq<Element>, depth: nat, inList: bool, k: nat)
    requires k < |PlanAll(es, depth, inList)|
    ensures var entry := PlanAll(es, depth, inList)[k];
            && entry.path != [] && entry.path[0] < |es| && IsPath(es[entry.path[0]], entry.path[1..])
            && var outer := OuterRoles(es[entry.path[0]], entry.path[1..], false);
               entry.depth == if depth == 0 then Steps(outer) else depth + |outer|
    decreases es, 0
  {
    var n := |es| - 1;
    var before, last := PlanAll(es[..n], depth, inList), Plan(es[n], depth, false, inList);
    if k < |before| {
      PlanAllDepth(es[..n], depth, inList, k);
    } else {
      PlanDepth(es[n], depth, false, inList, k - |before|);
      assert Below(n, last)[k - |before|].path[1..] == last[k - |before|].path;
    }
  }

  // ---------------------------------------------------------------- what its line says

  /** Each part that is not empty, after a space. */
  function Words(parts: seq<string>): string {
    if parts == [] then ""
    else Words(parts[..|parts| - 1]) + if parts[|parts| - 1] == "" then "" else " " + parts[|parts| - 1]
  }

  function ItemsAmong(es: seq<Element>): set<nat> {
    set i | 0 <= i < |es| && es[i].role == Some("item")
  }

  /** Indentation, ref, role, quoted name, number of items of a list, state, and annotations in verbose mode. */
  function LineOf(x: Element, depth: nat, ref: string, verbose: bool): string
    requires x.role.Some?
  {
    seq(2 * depth, _ => ' ')
    + (if ref == "" then "" else ref + " ")
    + x.role.value
    + (if x.name == "" then "" else " \"" + Escaped(x.name) + "\"")
    + (if x.role == Some("list") then " " + Decimal(|ItemsAmong(x.children)|) else "")
    + Words(x.flags)
    + if verbose then Words(x.annotations) else ""
  }

  lemma ItemsOne(es: seq<Element>, x: Element)
    ensures ItemsAmong(es + [x]) == ItemsAmong(es) + if x.role == Some("item") then {|es|} else {}
    ensures |es| !in ItemsAmong(es)
  {
  }

  lemma {:induction false} ItemCount(es: seq<Element>)
    ensures ListCount(es) == |ItemsAmong(es)|
  {
    if es != [] {
      var before, x := es[..|es| - 1], es[|es| - 1];
      ItemCount(before);
      LastApart(es);
      ItemsOne(before, x);
      hide ItemsAmong;
    }
  }

  lemma {:induction false} WordsAppend(a: seq<string>, b: seq<string>)
    ensures Words(a + b) == Words(a) + Words(b)
  {
    if b == [] {
      EmptyIsUnit(a);
      EmptyIsUnit(Words(a));
    } else {
      hide Words;
      var c, last := b[..|b| - 1], b[|b| - 1];
      WordsAppend(a, c);
      LastApart(b);
      Assoc(a, c, [last]);
      WordsOne(a + c, last);
      WordsOne(c, last);
      Assoc(Words(a), Words(c), if last == "" then "" else " " + last);
    }
  }

  lemma WordsOne(parts: seq<string>, part: string)
    ensures Words(parts + [part]) == Words(parts) + if part == "" then "" else " " + part
  {
    assert (parts + [part])[..|parts|] == parts;
  }

  lemma WordsNone()
    ensures Words([]) == "" && NonEmpty([]) == []
  {
  }

  lemma NonEmptyOne(parts: seq<string>, part: string)
    ensures NonEmpty(parts + [part]) == NonEmpty(parts) + if part == "" then [] else [part]
  {
    assert (parts + [part])[..|parts|] == parts;
  }

  lemma JoinOne(parts: seq<string>, part: string)
    requires parts != []
    ensures Join(parts + [part], ' ') == Join(parts, ' ') + [' '] + part
  {
    assert (parts + [part])[..|parts|] == parts;
  }

  /** Joined with spaces: the first part, and each other one after a space. */
  lemma {:induction false} JoinIsWords(head: string, rest: seq<string>)
    ensures Join([head] + NonEmpty(rest), ' ') == head + Words(rest)
  {
    if rest == [] {
      WordsNone();
      EmptyIsUnit([head]);
      EmptyIsUnit(head);
    } else {
      hide Words, NonEmpty, Join;
      var before, part := rest[..|rest| - 1], rest[|rest| - 1];
      JoinIsWords(head, before);
      LastApart(rest);
      WordsOne(before, part);
      NonEmptyOne(before, part);
      EmptyIsUnit(NonEmpty(before));
      EmptyIsUnit(Words(before));
      Assoc([head], NonEmpty(before), [part]);
      JoinOne([head] + NonEmpty(before), part);
      Assoc(head, Words(before), " " + part);
      Assoc(head + Words(before), " ", part);
    }
  }

  lemma NonEmptyHead(part: string, rest: seq<string>)
    ensures NonEmpty([part] + rest) == if part == "" then NonEmpty(rest) else [part] + NonEmpty(rest)
  {
    hide NonEmpty;
    NonEmptyAppend([part], rest);
    WordsNone();
    EmptyIsUnit([part]);
    NonEmptyOne([], part);
    EmptyIsUnit(NonEmpty(rest));
  }

  /** All parts of a line after its ref, joined. */
  lemma PartsJoin(ref: string, role: string, rest: seq<string>)
    requires role != ""
    ensures Join(NonEmpty([ref, role] + rest), ' ') == (if ref == "" then "" else ref + " ") + role + Words(rest)
  {
    hide Words, NonEmpty, Join;
    assert [ref, role] + rest == [ref] + ([role] + rest);
    NonEmptyHead(ref, [role] + rest);
    NonEmptyHead(role, rest);
    if ref == "" {
      JoinIsWords(role, rest);
      EmptyIsUnit(role);
    } else {
      JoinIsWords(ref, [role] + rest);
      WordsAppend([role], rest);
      WordsNone();
      WordsOne([], role);
      EmptyIsUnit([role]);
      EmptyIsUnit(" " + role);
      Assoc(ref, " " + role, Words(rest));
      Assoc(ref, " ", role);
    }
  }

  lemma RestOfParts(ref: string, m: Mark, verbose: bool)
    ensures var name := if m.element.name == "" then "" else "\"" + Escaped(m.element.name) + "\"";
            var count := if m.role == "list" then Decimal(ListCount(m.element.children)) else "";
            Parts(ref, m, verbose) == [ref, m.role] +
              (([name, count] + m.element.flags) + if verbose then m.element.annotations else [])
  {
    hide Escaped, Decimal, ListCount;
  }

  lemma TwoWords(a: string, b: string)
    ensures Words([a, b]) == (if a == "" then "" else " " + a) + if b == "" then "" else " " + b
  {
    hide Words;
    WordsNone();
    WordsOne([], a);
    WordsOne([a], b);
    EmptyIsUnit([a]);
    EmptyIsUnit(if a == "" then "" else " " + a);
    assert [a] + [b] == [a, b];
  }

  lemma LineIsLineOf(ref: string, m: Mark, verbose: bool)
    requires m.role != "" && m.element.role == Some(m.role)
    ensures Line(ref, m, verbose) == LineOf(m.element, m.depth, ref, verbose)
  {
    var x := m.element;
    var name := if x.name == "" then "" else "\"" + Escaped(x.name) + "\"";
    var count := if m.role == "list" then Decimal(ListCount(x.children)) else "";
    var annotations := if verbose then x.annotations else [];
    ItemCount(x.children);
    hide Words, NonEmpty, Join, Escaped, Decimal, ListCount;
    RestOfParts(ref, m, verbose);
    hide Parts;
    WordsNone();
    PartsJoin(ref, m.role, ([name, count] + x.flags) + annotations);
    WordsAppend([name, count] + x.flags, annotations);
    WordsAppend([name, count], x.flags);
    TwoWords(name, count);
    var first := (if ref == "" then "" else ref + " ") + m.role;
    QuotedWord(x.name);
    var w1 := if name == "" then "" else " " + name;
    var w2 := if count == "" then "" else " " + count;
    Assoc(first, (w1 + w2) + Words(x.flags), Words(annotations));
    Assoc(first, w1 + w2, Words(x.flags));
    Assoc(first, w1, w2);
    var before := if ref == "" then "" else ref + " ";
    Parenthesized(Indent(m.depth), before, m.role, w1, w2, Words(x.flags), Words(annotations));
  }

  lemma QuotedWord(name: string)
    ensures (if name == "" then "" else " \"" + Escaped(name) + "\"")
         == (if name == "" then "" else " " + ("\"" + Escaped(name) + "\""))
  {
    hide Escaped;
  }

  lemma Parenthesized(a: string, b: string, c: string, d: string, e: string, f: string, g: string)
    ensures a + (((((b + c) + d) + e) + f) + g) == (((((a + b) + c) + d) + e) + f) + g
  {
    Assoc(a, b, c);
    Assoc(a, b + c, d);
    Assoc(a, (b + c) + d, e);
    Assoc(a, ((b + c) + d) + e, f);
    Assoc(a, (((b + c) + d) + e) + f, g);
  }

  // ---------------------------------------------------------------- the whole text

  /** Where drawing starts: at one element, or at the children of a fragment. */
  function Tops(start: Start): seq<Element> {
    match start
    case NoMatch => []
    case Root(e) => [e]
    case Fragment(children) => children
  }

  /** A place: which of these, and the way down from it. */
  predicate IsPlace(start: Start, p: seq<nat>) {
    p != [] && p[0] < |Tops(start)| && IsPath(Tops(start)[p[0]], p[1..])
  }

  function Placed(start: Start, p: seq<nat>): Element
    requires IsPlace(start, p)
  {
    Sub(Tops(start)[p[0]], p[1..])
  }

  ghost predicate HasItsLine(start: Start, p: seq<nat>)
    requires IsPlace(start, p)
  {
    InView(Tops(start)[p[0]], p[1..], start.Root?, false)
  }

  ghost function Depth(start: Start, p: seq<nat>): nat
    requires IsPlace(start, p)
  {
    Steps(OuterRoles(Tops(start)[p[0]], p[1..], start.Root?))
  }

  /** The line is the element's own, with the ref these refs bind it to, or without one if its role has none. */
  ghost predicate Tells(line: string, x: Element, depth: nat, refs: Refs, verbose: bool) {
    && x.role.Some?
    && if IsControl(x.role.value) || x.role.value == "item" then
         exists ref :: (ref, x.id) in refs && ref != "" && line == LineOf(x, depth, ref, verbose)
       else line == LineOf(x, depth, "", verbose)
  }

  /** Nothing the line is made of contains a newline. */
  predicate OneLine(x: Element) {
    && '\n' !in x.name
    && (forall f | f in x.flags :: '\n' !in f)
    && (forall a | a in x.annotations :: '\n' !in a)
  }

  /** The lines planned, by place. */
  function Places(start: Start): seq<Entry> {
    if start.Root? then Below(0, PlanOf(start)) else PlanOf(start)
  }

  lemma PlacesAre(start: Start)
    ensures |Places(start)| == |PlanOf(start)| && Marks(Places(start)) == Marks(PlanOf(start))
    ensures forall p :: Listed(Places(start), p) <==> IsPlace(start, p) && HasItsLine(start, p)
    ensures Preorder(Places(start))
    ensures forall k | 0 <= k < |Places(start)| ::
              var entry := Places(start)[k];
              && IsPlace(start, entry.path) && entry.element == Placed(start, entry.path)
              && entry.element.role == Some(entry.role) && entry.depth == Depth(start, entry.path)
  {
    hide Plan, PlanAll, Shown, InView, HasLine, OuterRoles;
    match start
    case NoMatch =>
    case Root(e) =>
      var entries := Plan(e, 0, true, false);
      MarksBelow(0, entries);
      PlanInOrder(e, 0, true, false);
      BelowInOrder(0, entries);
      forall p ensures Listed(Places(start), p) <==> IsPlace(start, p) && HasItsLine(start, p) {
        ListedBelow(0, entries, p);
        if p != [] {
          PlanListsShown(e, 0, true, false, p[1..]);
          if IsPath(e, p[1..]) {
            InViewIffShown(e, p[1..], true, false);
          }
        }
      }
      forall k | 0 <= k < |entries| ensures
        var entry := Places(start)[k];
        && IsPlace(start, entry.path) && entry.element == Placed(start, entry.path)
        && entry.element.role == Some(entry.role) && entry.depth == Depth(start, entry.path)
      {
        PlanElements(e, 0, true, false, k);
        PlanDepth(e, 0, true, false, k);
        assert Places(start)[k].path[1..] == entries[k].path;
      }
    case Fragment(children) =>
      var entries := PlanAll(children, 0, false);
      PlanAllInOrder(children, 0, false);
      forall p ensures Listed(Places(start), p) <==> IsPlace(start, p) && HasItsLine(start, p) {
        PlanAllListsShown(children, 0, false, p);
        if IsPlace(start, p) {
          InViewIffShown(children[p[0]], p[1..], false, false);
        }
      }
      forall k | 0 <= k < |entries| ensures
        var entry := Places(start)[k];
        && IsPlace(start, entry.path) && entry.element == Placed(start, entry.path)
        && entry.element.role == Some(entry.role) && entry.depth == Depth(start, entry.path)
      {
        PlanAllElements(children, 0, false, k);
        PlanAllDepth(children, 0, false, k);
      }
  }

  lemma {:induction false} RefsOfHas(reg: Registry, marks: seq<Mark>, i: nat)
    requires Sound(reg) && Covers(reg, marks) && i < |marks| && GetsRef(marks[i].role)
    ensures (RefOf(reg, marks[i]), marks[i].element.id) in RefsOf([], reg, marks)
  {
    hide Set, RefOf;
    var n := |marks| - 1;
    var before := RefsOf([], reg, marks[..n]);
    var entry := (RefOf(reg, marks[i]), marks[i].element.id);
    if i < n {
      RefsOfHas(reg, marks[..n], i);
      if GetsRef(marks[n].role) {
        if RefOf(reg, marks[i]) == RefOf(reg, marks[n]) {
          RefsApart(reg, marks[i], marks[n]);
        }
        hide Sound;
        SetKeeps(before, RefOf(reg, marks[n]), marks[n].element.id, entry);
      }
    } else {
      SetAdds(before, RefOf(reg, marks[n]), marks[n].element.id);
    }
  }

  lemma RefsApart(reg: Registry, a: Mark, b: Mark)
    requires Sound(reg) && GetsRef(a.role) && GetsRef(b.role)
    requires a.element.id in reg.sticky && b.element.id in reg.sticky && RefOf(reg, a) == RefOf(reg, b)
    ensures a.element.id == b.element.id
  {
  }

  lemma {:induction false} NoNewlineInWords(parts: seq<string>)
    requires forall p | p in parts :: '\n' !in p
    ensures '\n' !in Words(parts)
  {
    if parts != [] {
      NoNewlineInWords(parts[..|parts| - 1]);
      assert parts[|parts| - 1] in parts;
    }
  }

  lemma {:induction false} NoNewlineInEscaped(name: string)
    requires '\n' !in name
    ensures '\n' !in Escaped(name)
  {
    if name != "" {
      NoNewlineInEscaped(name[..|name| - 1]);
    }
  }

  lemma LineIsOneLine(x: Element, depth: nat, ref: string, verbose: bool)
    requires OneLine(x) && x.role.Some? && x.role.value != "" && '\n' !in x.role.value && '\n' !in ref
    ensures '\n' !in LineOf(x, depth, ref, verbose) && LineOf(x, depth, ref, verbose) != ""
  {
    NoNewlineInEscaped(x.name);
    NoNewlineInWords(x.flags);
    NoNewlineInWords(x.annotations);
    NoNewlineInCount(x);
    hide Words, Escaped, Decimal, ItemsAmong;
    var indent, before := seq(2 * depth, _ => ' '), if ref == "" then "" else ref + " ";
    var name := if x.name == "" then "" else " \"" + Escaped(x.name) + "\"";
    var count := if x.role == Some("list") then " " + Decimal(|ItemsAmong(x.children)|) else "";
    var notes := if verbose then Words(x.annotations) else "";
    Sum(indent, before);
    Sum(indent + before, x.role.value);
    Sum(indent + before + x.role.value, name);
    Sum(indent + before + x.role.value + name, count);
    Sum(indent + before + x.role.value + name + count, Words(x.flags));
    Sum(indent + before + x.role.value + name + count + Words(x.flags), notes);
  }

  lemma Sum(a: string, b: string)
    ensures '\n' !in a && '\n' !in b ==> '\n' !in a + b
    ensures a != "" || b != "" ==> a + b != ""
  {
  }

  lemma NoNewlineInCount(x: Element)
    ensures '\n' !in Decimal(|ItemsAmong(x.children)|)
  {
    hide ItemsAmong;
  }

  lemma ShownRoles(x: Element, top: bool)
    requires ShowsLine(x, top)
    ensures x.role.value != "" && '\n' !in x.role.value
    ensures GetsRef(x.role.value) <==> IsControl(x.role.value) || x.role.value == "item"
  {
    hide ShowsItem, ShowsList;
  }

  lemma RefIsOneLine(reg: Registry, m: Mark)
    requires Sound(reg)
    ensures '\n' !in RefOf(reg, m)
    ensures GetsRef(m.role) && m.element.id in reg.sticky ==> RefOf(reg, m) != ""
  {
    if GetsRef(m.role) && m.element.id in reg.sticky {
      var n: nat :| 1 <= n <= reg.counter && reg.sticky[m.element.id] == RefText(n);
      hide Decimal;
    }
  }

  /** The lines a snapshot draws, each with its element. */
  lemma LinesTell(s: Surface, r: Request, k: nat)
    requires Sound(s.reg) && k < |Places(r.start)|
    requires forall p | IsPlace(r.start, p) :: OneLine(Placed(r.start, p))
    ensures Places(r.start)[k].path in PathsOf(Places(r.start))
    ensures var lines, entry := DrawnLines(s, r), Places(r.start)[k];
            && |lines| == |Places(r.start)| && '\n' !in lines[k] && lines[k] != ""
            && Tells(lines[k], entry.element, entry.depth, Taken(s, r).refs, r.verbose)
  {
    hide Draw, Line, LineOf, RefsOf, MintAll, Sound, Covers;
    var marks := Marks(PlanOf(r.start));
    var reg := MintAll(s.reg, marks);
    PlacesAre(r.start);
    var entry := Places(r.start)[k];
    assert marks[k] == Mark(entry.element, entry.role, entry.depth) by {
      assert marks == Marks(Places(r.start));
    }
    DrawIsMintThenRead(Drawing(s.reg, [], []), r.verbose, marks);
    MintAllKeeps(s.reg, marks);
    assert Listed(Places(r.start), entry.path);
    InViewShows(r.start, entry.path);
    ShownRoles(entry.element, r.start.Root? && entry.path[1..] == []);
    RefIsOneLine(reg, marks[k]);
    LineIsLineOf(RefOf(reg, marks[k]), marks[k], r.verbose);
    LineIsOneLine(entry.element, entry.depth, RefOf(reg, marks[k]), r.verbose);
    if GetsRef(entry.role) {
      RefsOfHas(reg, marks, k);
      assert entry.element.id in reg.sticky by { CoveredAt(reg, marks, k); }
    }
    EmptyIsUnit(Lines(reg, r.verbose, marks));
    PathsOfAt(Places(r.start), k);
  }

  lemma CoveredAt(reg: Registry, marks: seq<Mark>, k: nat)
    requires Covers(reg, marks) && k < |marks| && GetsRef(marks[k].role)
    ensures marks[k].element.id in reg.sticky
  {
  }

  lemma InViewShows(start: Start, p: seq<nat>)
    requires IsPlace(start, p) && HasItsLine(start, p)
    ensures ShowsLine(Placed(start, p), start.Root? && p[1..] == [])
  {
    AtEnd(Tops(start)[p[0]], p[1..]);
  }

  function DrawnLines(s: Surface, r: Request): seq<string> {
    Drawn(s, r).lines
  }

  function PathsOf(entries: seq<Entry>): seq<seq<nat>> {
    seq(|entries|, i requires 0 <= i < |entries| => entries[i].path)
  }

  lemma PathsOfAt(entries: seq<Entry>, k: nat)
    requires k < |entries|
    ensures PathsOf(entries)[k] == entries[k].path && entries[k].path in PathsOf(entries)
  {
  }

  lemma PathsOfListed(entries: seq<Entry>, p: seq<nat>)
    ensures p in PathsOf(entries) <==> Listed(entries, p)
  {
    if k :| 0 <= k < |entries| && entries[k].path == p {
      assert PathsOf(entries)[k] == p;
    }
  }

  /**
   * What the text of a snapshot is, from any start and after any snapshots before. It has one line
   * for each element that is in view, in document order; each line is the element's own, at its
   * depth, with the ref the snapshot binds to it. `places` lists these elements.
   */
  lemma TextShowsDocument(s: Surface, r: Request) returns (places: seq<seq<nat>>)
    requires Sound(s.reg)
    requires forall p | IsPlace(r.start, p) :: OneLine(Placed(r.start, p))
    ensures forall p :: p in places <==> IsPlace(r.start, p) && HasItsLine(r.start, p)
    ensures forall i, j | 0 <= i < j < |places| :: Before(places[i], places[j])
    ensures |LineDiff.SplitLines(Taken(s, r).text)| == |places|
    ensures forall k | 0 <= k < |places| ::
              && IsPlace(r.start, places[k])
              && Tells(LineDiff.SplitLines(Taken(s, r).text)[k], Placed(r.start, places[k]),
                       Depth(r.start, places[k]), Taken(s, r).refs, r.verbose)
  {
    hide Drawn, PlanOf, Places, Tells, OneLine, HasItsLine, Depth, Sound, Listed, PathsOf, LineDiff.SplitLines, Taken;
    hide DrawnLines, IsPlace, Placed;
    var entries := Places(r.start);
    places := PathsOf(entries);
    PlacesAre(r.start);
    PathsLength(entries);
    TextLines(s, r);
    forall p ensures p in places <==> Listed(entries, p) {
      PathsOfListed(entries, p);
    }
    forall k | 0 <= k < |entries| ensures places[k] == entries[k].path {
      PathsOfAt(entries, k);
    }
    forall k | 0 <= k < |entries| ensures
      Tells(LineDiff.SplitLines(Taken(s, r).text)[k], entries[k].element, entries[k].depth, Taken(s, r).refs, r.verbose)
    {
      LinesTell(s, r, k);
    }
  }

  lemma PathsLength(entries: seq<Entry>)
    ensures |PathsOf(entries)| == |entries|
  {
  }

  lemma TextLines(s: Surface, r: Request)
    requires Sound(s.reg)
    requires forall p | IsPlace(r.start, p) :: OneLine(Placed(r.start, p))
    ensures LineDiff.SplitLines(Taken(s, r).text) == DrawnLines(s, r)
    ensures |DrawnLines(s, r)| == |Places(r.start)|
  {
    hide PlanOf, Places, Tells, OneLine, Sound, IsPlace, Placed;
    var lines := DrawnLines(s, r);
    if Places(r.start) == [] {
      NoLines(s, r);
    } else {
      LinesTell(s, r, 0);
      forall line | line in lines ensures '\n' !in line {
        var k :| 0 <= k < |lines| && lines[k] == line;
        LinesTell(s, r, k);
      }
      hide Drawn, Join, Split;
      NotEmpty(lines);
      SplitJoin(lines, '\n');
    }
  }

  lemma NotEmpty(lines: seq<string>)
    requires lines != [] && lines[0] != ""
    ensures Join(lines, '\n') != ""
  {
  }

  lemma NoLines(s: Surface, r: Request)
    requires Places(r.start) == []
    ensures Taken(s, r).text == "" && DrawnLines(s, r) == []
  {
    PlacesAre(r.start);
    assert Marks(PlanOf(r.start)) == [];
  }

  /** A scope that matches nothing gives an empty text and no refs. */
  lemma NoMatchIsEmpty(s: Surface, verbose: bool)
    ensures Taken(s, Request(NoMatch, verbose)) == Snapshot("", [])
  {
    assert Marks([]) == [];
  }
}
