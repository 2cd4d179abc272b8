/** What a semantic snapshot shows, and in which order: guest-js/semantic-tree.ts, lines 437-482 and 543-586. */
module SemanticTree {
  import opened Text

  /**
   * A DOM element as the traversal sees it. `id` is its identity; role, name, state flags and
   * verbose annotations are what the accessors of the source return for it.
   */
  datatype Element = Element(id: nat, role: Option<string>, name: string,
                             invisible: bool, focused: bool, modal: bool, selected: bool, checked: bool,
                             flags: seq<string>, annotations: seq<string>, children: seq<Element>)

  const REF_ROLES: set<string> := {
    "button", "checkbox", "combobox", "item", "link", "list", "menuitem",
    "navitem", "option", "radio", "switch", "tab", "textbox"
  }

  const STRUCTURAL_ROLES: set<string> := {
    "alert", "banner", "complementary", "contentinfo", "dialog", "form",
    "heading", "main", "navigation", "region", "search"
  }

  predicate HasRole(e: Element, role: string) {
    e.role == Some(role)
  }

  function ListCount(es: seq<Element>): nat {
    if es == [] then 0
    else ListCount(es[..|es| - 1]) + if HasRole(es[|es| - 1], "item") then 1 else 0
  }

  /** A role that always gets a ref, outside the special treatment of items. */
  predicate Relevant(e: Element) {
    e.role.Some? && e.role.value != "item" && e.role.value in REF_ROLES
  }

  predicate HasRelevantDescendant(e: Element)
    decreases e
  {
    AnyRelevant(e.children)
  }

  predicate AnyRelevant(es: seq<Element>)
    decreases es
  {
    es != [] && (Relevant(es[0]) || HasRelevantDescendant(es[0]) || AnyRelevant(es[1..]))
  }

  predicate ShouldIncludeItem(e: Element) {
    e.selected || e.checked || e.focused || HasRelevantDescendant(e)
  }

  predicate ShouldInclude(e: Element, role: string, isRoot: bool) {
    if role == "item" then ShouldIncludeItem(e)
    else if role == "main" then isRoot || e.name != ""
    else if role == "list" then ListCount(e.children) > 0 || e.name != ""
    else if role in REF_ROLES then true
    else if role in STRUCTURAL_ROLES then e.name != "" || e.modal
    else false
  }

  /** Whether the element gets a line of its own, if the traversal reaches it. */
  predicate HasLine(e: Element, isRoot: bool) {
    e.role.Some? && ShouldInclude(e, e.role.value, isRoot)
  }

  /** Hidden subtrees are cut off; focus rescues them, and modality does except among the children of a shown list. */
  predicate Pruned(e: Element, inList: bool) {
    e.invisible && !e.focused && (inList || !e.modal)
  }

  /** An item of a shown list that is not worth a line is passed over with everything below it. */
  predicate PassedOver(e: Element, inList: bool) {
    inList && HasRole(e, "item") && !ShouldIncludeItem(e)
  }

  // ---------------------------------------------------------------- the traversal

  /** A line to be: which element, where it sits below the start, and how far it is indented. */
  datatype Entry = Entry(path: seq<nat>, element: Element, role: string, depth: nat)

  function Below(i: nat, entries: seq<Entry>): seq<Entry> {
    seq(|entries|, k requires 0 <= k < |entries| => entries[k].(path := [i] + entries[k].path))
  }

  function ChildDepth(e: Element, depth: nat): nat {
    if HasRole(e, "main") && depth == 0 then 0 else depth + 1
  }

  /** The lines of a subtree in order; `inList` for a child of a shown list. */
  function Plan(e: Element, depth: nat, isRoot: bool, inList: bool): seq<Entry>
    decreases e
  {
    if Pruned(e, inList) || PassedOver(e, inList) then []
    else if HasLine(e, isRoot) then
      [Entry([], e, e.role.value, depth)] + PlanAll(e.children, ChildDepth(e, depth), HasRole(e, "list"))
    else PlanAll(e.children, depth, false)
  }

  function PlanAll(es: seq<Element>, depth: nat, inList: bool): seq<Entry>
    decreases es
  {
    if es == [] then []
    else
      var n := |es| - 1;
      PlanAll(es[..n], depth, inList) + Below(n, Plan(es[n], depth, false, inList))
  }

  // ---------------------------------------------------------------- which elements those are

  predicate IsPath(e: Element, path: seq<nat>)
    decreases |path|
  {
    path == [] || (path[0] < |e.children| && IsPath(e.children[path[0]], path[1..]))
  }

  function Sub(e: Element, path: seq<nat>): Element
    requires IsPath(e, path)
    decreases |path|
  {
    if path == [] then e else Sub(e.children[path[0]], path[1..])
  }

  /** Nothing from the start down to the element at `path` is pruned. */
  predicate Unpruned(e: Element, path: seq<nat>, isRoot: bool, inList: bool)
    requires IsPath(e, path)
    decreases |path|
  {
    !Pruned(e, inList) &&
    (path == [] || Unpruned(e.children[path[0]], path[1..], false, HasLine(e, isRoot) && HasRole(e, "list")))
  }

  /** Nor is anything passed over, and the element itself is worth a line. */
  predicate Shown(e: Element, path: seq<nat>, isRoot: bool, inList: bool)
    requires IsPath(e, path)
    decreases |path|
  {
    !Pruned(e, inList) && !PassedOver(e, inList) &&
    if path == [] then HasLine(e, isRoot)
    else Shown(e.children[path[0]], path[1..], false, HasLine(e, isRoot) && HasRole(e, "list"))
  }

  ghost predicate Listed(entries: seq<Entry>, path: seq<nat>) {
    exists k :: 0 <= k < |entries| && entries[k].path == path
  }

  lemma ListedAppend(a: seq<Entry>, b: seq<Entry>, path: seq<nat>)
    ensures Listed(a + b, path) <==> Listed(a, path) || Listed(b, path)
  {
    if k :| 0 <= k < |a| && a[k].path == path {
      assert (a + b)[k].path == path;
    }
    if k :| 0 <= k < |b| && b[k].path == path {
      assert (a + b)[|a| + k].path == path;
    }
  }

  lemma ListedBelow(i: nat, entries: seq<Entry>, path: seq<nat>)
    ensures Listed(Below(i, entries), path) <==> path != [] && path[0] == i && Listed(entries, path[1..])
  {
    if path != [] && path[0] == i {
      if k :| 0 <= k < |entries| && entries[k].path == path[1..] {
        assert Below(i, entries)[k].path == [i] + path[1..] == path;
      }
      if k :| 0 <= k < |entries| && Below(i, entries)[k].path == path {
        assert ([i] + entries[k].path)[1..] == entries[k].path;
      }
    }
  }

  /** The traversal lists exactly the shown elements. */
  lemma {:induction false} PlanListsShown(e: Element, depth: nat, isRoot: bool, inList: bool, path: seq<nat>)
    ensures Listed(Plan(e, depth, isRoot, inList), path) <==> IsPath(e, path) && Shown(e, path, isRoot, inList)
    decreases e, 1
  {
    if !Pruned(e, inList) && !PassedOver(e, inList) {
      if HasLine(e, isRoot) {
        var own := [Entry([], e, e.role.value, depth)];
        PlanAllListsShown(e.children, ChildDepth(e, depth), HasRole(e, "list"), path);
        ListedAppend(own, PlanAll(e.children, ChildDepth(e, depth), HasRole(e, "list")), path);
        assert Listed(own, path) <==> path == [] by {
          assert own[0].path == [];
        }
      } else {
        PlanAllListsShown(e.children, depth, false, path);
      }
    }
  }

  lemma {:induction false} PlanAllListsShown(es: seq<Element>, depth: nat, inList: bool, path: seq<nat>)
    ensures Listed(PlanAll(es, depth, inList), path) <==>
            && path != [] && path[0] < |es|
            && IsPath(es[path[0]], path[1..]) && Shown(es[path[0]], path[1..], false, inList)
    decreases es, 0
  {
    if es != [] {
      var n := |es| - 1;
      PlanAllListsShown(es[..n], depth, inList, path);
      ListedAppend(PlanAll(es[..n], depth, inList), Below(n, Plan(es[n], depth, false, inList)), path);
      ListedBelow(n, Plan(es[n], depth, false, inList), path);
      if path != [] {
        PlanListsShown(es[n], depth, false, inList, path[1..]);
      }
    }
  }

  /** A relevant element somewhere below is what the recursive search finds. */
  lemma {:induction false} RelevantBelow(e: Element, path: seq<nat>)
    requires IsPath(e, path) && path != [] && Relevant(Sub(e, path))
    ensures HasRelevantDescendant(e)
    decreases |path|
  {
    var i := path[0];
    if path[1..] != [] {
      RelevantBelow(e.children[i], path[1..]);
    } else {
      assert Sub(e, path) == Sub(e.children[i], []) == e.children[i];
    }
    AnyRelevantAt(e.children, i);
  }

  lemma {:induction false} AnyRelevantAt(es: seq<Element>, i: nat)
    requires i < |es| && (Relevant(es[i]) || HasRelevantDescendant(es[i]))
    ensures AnyRelevant(es)
  {
    if i > 0 {
      AnyRelevantAt(es[1..], i - 1);
    }
  }

  lemma {:induction false} RelevantFound(e: Element) returns (path: seq<nat>)
    requires HasRelevantDescendant(e)
    ensures IsPath(e, path) && path != [] && Relevant(Sub(e, path))
    decreases e, 1
  {
    var i, below := AnyRelevantFound(e.children);
    path := [i] + below;
    assert path[1..] == below;
  }

  lemma {:induction false} AnyRelevantFound(es: seq<Element>) returns (i: nat, path: seq<nat>)
    requires AnyRelevant(es)
    ensures i < |es| && IsPath(es[i], path) && Relevant(Sub(es[i], path))
    decreases es, 0
  {
    if Relevant(es[0]) {
      i, path := 0, [];
    } else if HasRelevantDescendant(es[0]) {
      path := RelevantFound(es[0]);
      i := 0;
    } else {
      i, path := AnyRelevantFound(es[1..]);
      i := i + 1;
    }
  }

  /**
   * Soundness and completeness of refs. An element with a ref role other than `item` is shown
   * exactly when nothing down to it is pruned, and a list also needs an item or a name: passing
   * over an item that is not worth a line never loses one, because such an item has none below it.
   */
  lemma {:induction false} RelevantShownIffUnpruned(e: Element, path: seq<nat>, isRoot: bool, inList: bool)
    requires IsPath(e, path) && Relevant(Sub(e, path))
    ensures Shown(e, path, isRoot, inList) <==>
            Unpruned(e, path, isRoot, inList)
            && (HasRole(Sub(e, path), "list") ==> ListCount(Sub(e, path).children) > 0 || Sub(e, path).name != "")
    decreases |path|
  {
    if path != [] {
      RelevantBelow(e, path);
      RelevantShownIffUnpruned(e.children[path[0]], path[1..], false, HasLine(e, isRoot) && HasRole(e, "list"));
    }
  }

  // ---------------------------------------------------------------- their order

  /** Document order: an ancestor before its descendants, and siblings' subtrees one after the other. */
  predicate Before(p: seq<nat>, q: seq<nat>)
    decreases |p|
  {
    q != [] && (p == [] || p[0] < q[0] || (p[0] == q[0] && Before(p[1..], q[1..])))
  }

  ghost predicate Preorder(entries: seq<Entry>) {
    forall i, j | 0 <= i < j < |entries| :: Before(entries[i].path, entries[j].path)
  }

  lemma {:induction false} PlanInOrder(e: Element, depth: nat, isRoot: bool, inList: bool)
    ensures Preorder(Plan(e, depth, isRoot, inList))
    decreases e, 1
  {
    if HasLine(e, isRoot) {
      PlanAllInOrder(e.children, ChildDepth(e, depth), HasRole(e, "list"));
    } else {
      PlanAllInOrder(e.children, depth, false);
    }
  }

  lemma BelowInOrder(i: nat, entries: seq<Entry>)
    requires Preorder(entries)
    ensures Preorder(Below(i, entries))
  {
    var below := Below(i, entries);
    forall a, b | 0 <= a < b < |below| ensures Before(below[a].path, below[b].path) {
      assert below[a].path[1..] == entries[a].path && below[b].path[1..] == entries[b].path;
    }
  }

  lemma {:induction false} PlanAllInOrder(es: seq<Element>, depth: nat, inList: bool)
    ensures Preorder(PlanAll(es, depth, inList))
    ensures forall k | 0 <= k < |PlanAll(es, depth, inList)| ::
              PlanAll(es, depth, inList)[k].path != [] && PlanAll(es, depth, inList)[k].path[0] < |es|
    decreases es, 0
  {
    if es != [] {
      var n := |es| - 1;
      PlanAllInOrder(es[..n], depth, inList);
      PlanInOrder(es[n], depth, false, inList);
      BelowInOrder(n, Plan(es[n], depth, false, inList));
    }
  }

  lemma {:induction false} PlanElements(e: Element, depth: nat, isRoot: bool, inList: bool, k: nat)
    requires k < |Plan(e, depth, isRoot, inList)|
    ensures var entry := Plan(e, depth, isRoot, inList)[k];
            IsPath(e, entry.path) && entry.element == Sub(e, entry.path) && entry.element.role == Some(entry.role)
    decreases e, 1
  {
    var below := if HasLine(e, isRoot) then PlanAll(e.children, ChildDepth(e, depth), HasRole(e, "list"))
                 else PlanAll(e.children, depth, false);
    if HasLine(e, isRoot) && k > 0 {
      PlanAllElements(e.children, ChildDepth(e, depth), HasRole(e, "list"), k - 1);
    } else if !HasLine(e, isRoot) {
      PlanAllElements(e.children, depth, false, k);
    }
  }

  lemma {:induction false} PlanAllElements(es: seq<Element>, depth: nat, inList: bool, k: nat)
    requires k < |PlanAll(es, depth, inList)|
    ensures var entry := PlanAll(es, depth, inList)[k];
            && entry.path != [] && entry.path[0] < |es| && IsPath(es[entry.path[0]], entry.path[1..])
            && entry.element == Sub(es[entry.path[0]], entry.path[1..]) && entry.element.role == Some(entry.role)
    decreases es, 0
  {
    var n := |es| - 1;
    var before, last := PlanAll(es[..n], depth, inList), Plan(es[n], depth, false, inList);
    if k < |before| {
      PlanAllElements(es[..n], depth, inList, k);
    } else {
      PlanElements(es[n], depth, false, inList, k - |before|);
      assert Below(n, last)[k - |before|].path[1..] == last[k - |before|].path;
    }
  }
}
