/** Refs and the text of a snapshot: guest-js/semantic-tree.ts, lines 45-58, 90-124, 429-541. */
module RefRegistry {
  import opened Text
  import opened OrderedMap
  import opened SemanticTree

  /** The refs ever given, by element identity, and the counter they come from. */
  datatype Registry = Registry(sticky: map<nat, string>, counter: nat)

  type Refs = Entries<nat>

  const FRESH := Registry(map[], 0)

  function RefText(n: nat): string {
    "@" + Decimal(n)
  }

  lemma RefTextInjective(a: nat, b: nat)
    requires RefText(a) == RefText(b)
    ensures a == b
  {
    hide Decimal;
    assert RefText(a)[1..] == Decimal(a) && RefText(b)[1..] == Decimal(b);
    DecimalInjective(a, b);
  }

  function Minted(reg: Registry, id: nat): Registry {
    if id in reg.sticky then reg
    else Registry(reg.sticky[id := RefText(reg.counter + 1)], reg.counter + 1)
  }

  /** Every ref comes from the counter, and no two elements share one. */
  ghost predicate Sound(reg: Registry) {
    && (forall id | id in reg.sticky :: exists n: nat :: 1 <= n <= reg.counter && reg.sticky[id] == RefText(n))
    && (forall a, b | a in reg.sticky && b in reg.sticky && reg.sticky[a] == reg.sticky[b] :: a == b)
  }

  /** Refs already given stay with their elements. */
  ghost predicate Extends(later: Registry, reg: Registry) {
    && later.counter >= reg.counter
    && (forall id | id in reg.sticky :: id in later.sticky && later.sticky[id] == reg.sticky[id])
  }

  lemma MintKeeps(reg: Registry, id: nat)
    ensures Extends(Minted(reg, id), reg) && id in Minted(reg, id).sticky
    ensures Sound(reg) ==> Sound(Minted(reg, id))
  {
    hide RefText;
    var later := Minted(reg, id);
    if Sound(reg) && id !in reg.sticky {
      forall a, b | a in later.sticky && b in later.sticky && later.sticky[a] == later.sticky[b] ensures a == b {
        if a == id && b != id {
          var n: nat :| 1 <= n <= reg.counter && reg.sticky[b] == RefText(n);
          RefTextInjective(n, reg.counter + 1);
        } else if b == id && a != id {
          var n: nat :| 1 <= n <= reg.counter && reg.sticky[a] == RefText(n);
          RefTextInjective(n, reg.counter + 1);
        }
      }
      assert later.sticky[id] == RefText(later.counter);
    }
  }

  // ---------------------------------------------------------------- one line

  function Escaped(name: string): string {
    if name == "" then ""
    else Escaped(name[..|name| - 1]) + var c := name[|name| - 1]; if c == '\\' || c == '"' then ['\\', c] else [c]
  }

  /** `parts.filter(Boolean)`. */
  function NonEmpty(parts: seq<string>): seq<string> {
    if parts == [] then []
    else NonEmpty(parts[..|parts| - 1]) + if parts[|parts| - 1] == "" then [] else [parts[|parts| - 1]]
  }

  function Indent(depth: nat): string {
    seq(2 * depth, _ => ' ')
  }

  /** A line still to be drawn. */
  datatype Mark = Mark(element: Element, role: string, depth: nat)

  /** The parts of a line that both modes show. */
  function CompactParts(ref: string, m: Mark): seq<string> {
    [ref, m.role, if m.element.name == "" then "" else "\"" + Escaped(m.element.name) + "\"",
     if m.role == "list" then Decimal(ListCount(m.element.children)) else ""] + m.element.flags
  }

  function Parts(ref: string, m: Mark, verbose: bool): seq<string> {
    CompactParts(ref, m) + if verbose then m.element.annotations else []
  }

  function Line(ref: string, m: Mark, verbose: bool): string {
    Indent(m.depth) + Join(NonEmpty(Parts(ref, m, verbose)), ' ')
  }

  lemma {:induction false} NonEmptyAppend(a: seq<string>, b: seq<string>)
    ensures NonEmpty(a + b) == NonEmpty(a) + NonEmpty(b)
  {
    if b == [] {
      EmptyIsUnit(a);
      EmptyIsUnit(NonEmpty(a));
    } else {
      NonEmptyAppend(a, b[..|b| - 1]);
      assert (a + b)[..|a + b| - 1] == a + b[..|b| - 1];
    }
  }

  lemma {:induction false} JoinGrows(a: seq<string>, b: seq<string>)
    ensures Join(a, ' ') <= Join(a + b, ' ')
  {
    if b == [] {
      EmptyIsUnit(a);
    } else {
      JoinGrows(a, b[..|b| - 1]);
      assert (a + b)[..|a + b| - 1] == a + b[..|b| - 1];
    }
  }

  /** Names that differ still differ once escaped. */
  lemma {:induction false} EscapedInjective(a: string, b: string)
    requires Escaped(a) == Escaped(b)
    ensures a == b
  {
    if a != "" && b != "" {
      var m, n := |a| - 1, |b| - 1;
      var s := Escaped(a);
      assert s[|s| - 1] == a[m] == b[n];
      var tail := if a[m] == '\\' || a[m] == '"' then 2 else 1;
      assert s[..|s| - tail] == Escaped(a[..m]) && s[..|s| - tail] == Escaped(b[..n]);
      EscapedInjective(a[..m], b[..n]);
      LastApart(a);
      LastApart(b);
    }
  }

  lemma EscapedOne(name: string, c: char)
    ensures Escaped(name + [c]) == Escaped(name) + if c == '\\' || c == '"' then ['\\', c] else [c]
  {
    assert (name + [c])[..|name|] == name;
  }

  lemma {:induction false} EscapedAppend(a: string, b: string)
    ensures Escaped(a + b) == Escaped(a) + Escaped(b)
  {
    if b == "" {
      EmptyIsUnit(a);
      EmptyIsUnit(Escaped(a));
    } else {
      hide Escaped;
      var before, c := b[..|b| - 1], b[|b| - 1];
      EscapedAppend(a, before);
      LastApart(b);
      Assoc(a, before, [c]);
      EscapedOne(a + before, c);
      EscapedOne(before, c);
      Assoc(Escaped(a), Escaped(before), if c == '\\' || c == '"' then ['\\', c] else [c]);
    }
  }

  /** What a reader takes for the name after an opening quote: up to the next quote without a backslash before it. */
  function ReadName(s: string): Option<(string, string)> {
    if s == "" then None
    else if s[0] == '"' then Some(("", s[1..]))
    else
      var n := if s[0] == '\\' && |s| > 1 then 1 else 0;
      match ReadName(s[n + 1..])
      case None => None
      case Some((name, rest)) => Some(([s[n]] + name, rest))
  }

  /** A quoted name reads back, whatever follows the closing quote; and only quotes and backslashes change. */
  lemma {:induction false} NameReadsBack(name: string, rest: string)
    ensures ReadName(Escaped(name) + ("\"" + rest)) == Some((name, rest))
    ensures '"' !in name && '\\' !in name ==> Escaped(name) == name
  {
    var end := "\"" + rest;
    if name == "" {
      assert Escaped(name) + end == end;
      assert end[1..] == rest;
    } else {
      hide Escaped;
      var c, later := name[0], name[1..];
      FirstApart(name);
      EscapedAppend([c], later);
      EscapedChar(c);
      NameReadsBack(later, rest);
      Assoc(Escaped([c]), Escaped(later), end);
      var s := Escaped([c]) + (Escaped(later) + end);
      assert s[|Escaped([c])|..] == Escaped(later) + end;
      assert s[|Escaped([c])| - 1] == c;
    }
  }

  lemma EscapedChar(c: char)
    ensures Escaped([c]) == if c == '\\' || c == '"' then ['\\', c] else [c]
  {
    EscapedOne("", c);
    assert "" + [c] == [c];
  }

  function Quoted(name: string): string {
    if name == "" then "" else " \"" + Escaped(name) + "\""
  }

  lemma PartsHead(ref: string, m: Mark, verbose: bool)
    ensures var name := if m.element.name == "" then "" else "\"" + Escaped(m.element.name) + "\"";
            |Parts(ref, m, verbose)| >= 3 && Parts(ref, m, verbose)[..3] == [ref, m.role, name]
  {
    hide Escaped, Decimal, ListCount;
  }

  lemma PrefixAfter(a: string, b: string, c: string)
    requires b <= c
    ensures a + b <= a + c
  {
  }

  /** A line with a ref reads: indentation for its depth, the ref, the role, and the quoted name if there is one. */
  lemma LineShowsRefRoleName(ref: string, m: Mark, verbose: bool)
    requires ref != "" && m.role != ""
    ensures Indent(m.depth) + (ref + " " + m.role + Quoted(m.element.name)) <= Line(ref, m, verbose)
  {
    hide Escaped, Indent, Join, NonEmpty, CompactParts;
    var name := if m.element.name == "" then "" else "\"" + Escaped(m.element.name) + "\"";
    var parts := Parts(ref, m, verbose);
    PartsHead(ref, m, verbose);
    HeadJoins(ref, m.role, name);
    assert parts == parts[..3] + parts[3..];
    NonEmptyAppend(parts[..3], parts[3..]);
    JoinGrows(NonEmpty(parts[..3]), NonEmpty(parts[3..]));
    QuotedIs(m.element.name);
    PrefixAfter(Indent(m.depth), ref + " " + m.role + Quoted(m.element.name), Join(NonEmpty(parts), ' '));
  }

  lemma QuotedIs(name: string)
    ensures Quoted(name) == if name == "" then "" else " " + ("\"" + Escaped(name) + "\"")
  {
    hide Escaped;
  }

  lemma HeadJoins(ref: string, role: string, name: string)
    requires ref != "" && role != ""
    ensures Join(NonEmpty([ref, role, name]), ' ') == ref + " " + role + if name == "" then "" else " " + name
  {
    var two := [ref, role];
    assert NonEmpty([ref]) == [ref] by {
      assert [ref][..0] == [];
    }
    assert two[..1] == [ref];
    assert NonEmpty(two) == two;
    assert [ref, role, name][..2] == two;
    assert Join(two, ' ') == ref + " " + role;
    if name != "" {
      assert [ref, role, name][..2] == two;
      assert Join([ref, role, name], ' ') == Join(two, ' ') + " " + name;
      Assoc(ref + " " + role, " ", name);
    }
  }

  /** Verbose mode only adds to a line. */
  lemma CompactIsPrefix(ref: string, m: Mark)
    ensures Line(ref, m, false) <= Line(ref, m, true)
  {
    hide CompactParts, Join, NonEmpty;
    var parts := CompactParts(ref, m);
    EmptyIsUnit(parts);
    NonEmptyAppend(parts, m.element.annotations);
    JoinGrows(NonEmpty(parts), NonEmpty(m.element.annotations));
  }

  // ---------------------------------------------------------------- drawing in one pass

  datatype Drawing = Drawing(reg: Registry, refs: Refs, lines: seq<string>)

  predicate GetsRef(role: string) {
    role in REF_ROLES
  }

  /** `appendLine`: take or mint the ref, enter it in the snapshot, push the line. */
  function DrawOne(d: Drawing, verbose: bool, m: Mark): Drawing {
    if GetsRef(m.role) then
      var reg := Minted(d.reg, m.element.id);
      var ref := reg.sticky[m.element.id];
      Drawing(reg, Set(d.refs, ref, m.element.id), d.lines + [Line(ref, m, verbose)])
    else d.(lines := d.lines + [Line("", m, verbose)])
  }

  function Draw(d: Drawing, verbose: bool, marks: seq<Mark>): Drawing {
    if marks == [] then d
    else DrawOne(Draw(d, verbose, marks[..|marks| - 1]), verbose, marks[|marks| - 1])
  }

  lemma DrawLast(d: Drawing, verbose: bool, marks: seq<Mark>, m: Mark)
    ensures Draw(d, verbose, marks + [m]) == DrawOne(Draw(d, verbose, marks), verbose, m)
  {
    assert (marks + [m])[..|marks|] == marks;
  }

  lemma {:induction false} DrawAppend(d: Drawing, verbose: bool, a: seq<Mark>, b: seq<Mark>)
    ensures Draw(d, verbose, a + b) == Draw(Draw(d, verbose, a), verbose, b)
  {
    if b == [] {
      EmptyIsUnit(a);
    } else {
      hide Draw, DrawOne;
      var c, m := b[..|b| - 1], b[|b| - 1];
      DrawAppend(d, verbose, a, c);
      LastApart(b);
      Assoc(a, c, [m]);
      DrawLast(d, verbose, a + c, m);
      DrawLast(Draw(d, verbose, a), verbose, c, m);
    }
  }

  // ---------------------------------------------------------------- and in two: mint, then read off

  function MintAll(reg: Registry, marks: seq<Mark>): Registry {
    if marks == [] then reg
    else
      var before := MintAll(reg, marks[..|marks| - 1]);
      var m := marks[|marks| - 1];
      if GetsRef(m.role) then Minted(before, m.element.id) else before
  }

  function RefOf(reg: Registry, m: Mark): string {
    if GetsRef(m.role) && m.element.id in reg.sticky then reg.sticky[m.element.id] else ""
  }

  function Lines(reg: Registry, verbose: bool, marks: seq<Mark>): seq<string> {
    seq(|marks|, i requires 0 <= i < |marks| => Line(RefOf(reg, marks[i]), marks[i], verbose))
  }

  function RefsOf(refs: Refs, reg: Registry, marks: seq<Mark>): Refs {
    if marks == [] then refs
    else
      var before := RefsOf(refs, reg, marks[..|marks| - 1]);
      var m := marks[|marks| - 1];
      if GetsRef(m.role) then Set(before, RefOf(reg, m), m.element.id) else before
  }

  /** All refs the marks need are given. */
  ghost predicate Covers(reg: Registry, marks: seq<Mark>) {
    forall i | 0 <= i < |marks| && GetsRef(marks[i].role) :: marks[i].element.id in reg.sticky
  }

  lemma {:induction false} MintAllKeeps(reg: Registry, marks: seq<Mark>)
    ensures Extends(MintAll(reg, marks), reg)
    ensures Sound(reg) ==> Sound(MintAll(reg, marks))
    ensures Covers(MintAll(reg, marks), marks)
  {
    if marks != [] {
      hide Sound, Minted;
      var n := |marks| - 1;
      var before := MintAll(reg, marks[..n]);
      MintAllKeeps(reg, marks[..n]);
      MintKeeps(before, marks[n].element.id);
      assert MintAll(reg, marks) == if GetsRef(marks[n].role) then Minted(before, marks[n].element.id) else before;
      hide MintAll, GetsRef;
      assert forall i | 0 <= i < n :: marks[..n][i] == marks[i];
    }
  }

  lemma {:induction false} MintAllIdle(reg: Registry, marks: seq<Mark>)
    requires Covers(reg, marks)
    ensures MintAll(reg, marks) == reg
  {
    if marks != [] {
      MintAllIdle(reg, marks[..|marks| - 1]);
    }
  }

  /** What was drawn with the refs of the moment reads the same in any later registry. */
  lemma {:induction false} LaterReadsTheSame(
      reg: Registry, later: Registry, verbose: bool, refs: Refs, marks: seq<Mark>)
    requires Covers(reg, marks) && Extends(later, reg)
    ensures Lines(later, verbose, marks) == Lines(reg, verbose, marks)
    ensures RefsOf(refs, later, marks) == RefsOf(refs, reg, marks)
  {
    hide Line;
    assert forall i | 0 <= i < |marks| :: RefOf(later, marks[i]) == RefOf(reg, marks[i]);
    if marks != [] {
      LaterReadsTheSame(reg, later, verbose, refs, marks[..|marks| - 1]);
    }
  }

  /** The one-pass drawing is minting all refs first and reading them off afterwards. */
  lemma {:induction false} DrawIsMintThenRead(d: Drawing, verbose: bool, marks: seq<Mark>)
    ensures var reg := MintAll(d.reg, marks);
            Draw(d, verbose, marks) == Drawing(reg, RefsOf(d.refs, reg, marks), d.lines + Lines(reg, verbose, marks))
  {
    if marks == [] {
      EmptyIsUnit(d.lines);
    } else {
      var n := |marks| - 1;
      var before, m := MintAll(d.reg, marks[..n]), marks[n];
      DrawIsMintThenRead(d, verbose, marks[..n]);
      MintAllKeeps(d.reg, marks[..n]);
      MintKeeps(before, m.element.id);
      hide Line, Minted, Sound;
      LaterReadsTheSame(before, MintAll(d.reg, marks), verbose, d.refs, marks[..n]);
      LinesOne(MintAll(d.reg, marks), verbose, marks);
      var minted := MintAll(d.reg, marks);
      Assoc(d.lines, Lines(minted, verbose, marks[..n]), [Line(RefOf(minted, m), m, verbose)]);
    }
  }

  lemma LinesOne(reg: Registry, verbose: bool, marks: seq<Mark>)
    requires marks != []
    ensures var n := |marks| - 1;
            Lines(reg, verbose, marks)
            == Lines(reg, verbose, marks[..n]) + [Line(RefOf(reg, marks[n]), marks[n], verbose)]
  {
  }
}
