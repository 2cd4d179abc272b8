/** Line differences of successive tree texts: guest-js/semantic-stream.ts, lines 125-154. */
module LineDiff {
  import opened Text

  type Line = string

  /** An empty text has no lines; any other is split at its newlines. */
  function SplitLines(text: string): seq<Line> {
    if text == "" then [] else Split(text, '\n')
  }

  /** The lines determine the text, so equal line lists mean equal texts. */
  lemma LinesDetermineText(a: string, b: string)
    ensures SplitLines(a) == SplitLines(b) <==> a == b
  {
    JoinSplit(a, '\n');
    JoinSplit(b, '\n');
  }

  ghost function LineBag(text: string): multiset<Line> {
    multiset(SplitLines(text))
  }

  /** The lines of `next` whose earlier occurrences have used up what `prev` holds of them. */
  function AddedLines(prev: multiset<Line>, next: seq<Line>): seq<Line> {
    if next == [] then []
    else
      var n := |next| - 1;
      AddedLines(prev, next[..n]) + if multiset(next[..n])[next[n]] < prev[next[n]] then [] else [next[n]]
  }

  /** The distinct lines in order of first occurrence: the key order of a JavaScript `Map`. */
  function FirstSeen(lines: seq<Line>): seq<Line> {
    if lines == [] then []
    else
      var n := |lines| - 1;
      FirstSeen(lines[..n]) + if lines[n] in lines[..n] then [] else [lines[n]]
  }

  function Repeat(line: Line, times: nat): seq<Line> {
    seq(times, _ => line)
  }

  /** For each key in turn, as many copies as are left of it. */
  function RemovedLines(keys: seq<Line>, left: multiset<Line>): seq<Line> {
    if keys == [] then []
    else
      var n := |keys| - 1;
      RemovedLines(keys[..n], left) + Repeat(keys[n], left[keys[n]])
  }

  function Added(prev: seq<Line>, next: seq<Line>): seq<Line> {
    AddedLines(multiset(prev), next)
  }

  function Removed(prev: seq<Line>, next: seq<Line>): seq<Line> {
    RemovedLines(FirstSeen(prev), multiset(prev) - multiset(next))
  }

  lemma LastAside(s: seq<Line>)
    requires s != []
    ensures s == s[..|s| - 1] + [s[|s| - 1]]
    ensures multiset(s) == multiset(s[..|s| - 1]) + multiset{s[|s| - 1]}
  {
    assert s == s[..|s| - 1] + [s[|s| - 1]];
  }

  lemma {:induction false} AddedBag(prev: multiset<Line>, next: seq<Line>)
    ensures multiset(AddedLines(prev, next)) == multiset(next) - prev
  {
    if next != [] {
      AddedBag(prev, next[..|next| - 1]);
      LastAside(next);
    }
  }

  lemma {:induction false} FirstSeenDistinct(lines: seq<Line>)
    ensures forall line :: line in FirstSeen(lines) <==> line in lines
    ensures forall i, j | 0 <= i < j < |FirstSeen(lines)| :: FirstSeen(lines)[i] != FirstSeen(lines)[j]
  {
    if lines != [] {
      FirstSeenDistinct(lines[..|lines| - 1]);
      LastAside(lines);
    }
  }

  lemma {:induction false} RepeatBag(line: Line, times: nat)
    ensures multiset(Repeat(line, times)) == multiset{}[line := times]
  {
    if times > 0 {
      RepeatBag(line, times - 1);
      assert Repeat(line, times) == Repeat(line, times - 1) + [line];
    }
  }

  lemma {:induction false} RemovedCount(keys: seq<Line>, left: multiset<Line>, line: Line)
    requires forall i, j | 0 <= i < j < |keys| :: keys[i] != keys[j]
    ensures multiset(RemovedLines(keys, left))[line] == if line in keys then left[line] else 0
  {
    if keys != [] {
      var n := |keys| - 1;
      RemovedCount(keys[..n], left, line);
      RepeatBag(keys[n], left[keys[n]]);
      LastAside(keys);
    }
  }

  lemma RemovedBag(prev: seq<Line>, next: seq<Line>)
    ensures multiset(Removed(prev, next)) == multiset(prev) - multiset(next)
  {
    FirstSeenDistinct(prev);
    var left := multiset(prev) - multiset(next);
    forall line: Line ensures multiset(Removed(prev, next))[line] == left[line] {
      RemovedCount(FirstSeen(prev), left, line);
      assert line in prev <==> line in multiset(prev);
    }
  }

  /** Turning `prev` into `next` this way is possible, and takes nothing away that is not there. */
  ghost predicate Bridges(prev: multiset<Line>, added: multiset<Line>, removed: multiset<Line>, next: multiset<Line>) {
    removed <= prev && prev - removed + added == next
  }

  lemma BridgeContains(prev: multiset<Line>, added: multiset<Line>, removed: multiset<Line>, next: multiset<Line>)
    requires Bridges(prev, added, removed, next)
    ensures next - prev <= added && prev - next <= removed
  {
    forall line
      ensures (next - prev)[line] <= added[line] && (prev - next)[line] <= removed[line]
    {
      assert (prev - removed + added)[line] == next[line];
    }
  }

  /** The difference bridges the two texts, and every other one that does contains it. */
  lemma DiffIsLeast(prev: seq<Line>, next: seq<Line>)
    ensures Bridges(multiset(prev), multiset(Added(prev, next)), multiset(Removed(prev, next)), multiset(next))
    ensures multiset(Added(prev, next)) !! multiset(Removed(prev, next))
    ensures forall added, removed | Bridges(multiset(prev), added, removed, multiset(next)) ::
              multiset(Added(prev, next)) <= added && multiset(Removed(prev, next)) <= removed
  {
    hide AddedLines, Removed;
    AddedBag(multiset(prev), next);
    RemovedBag(prev, next);
    forall added: multiset<Line>, removed: multiset<Line> | Bridges(multiset(prev), added, removed, multiset(next))
      ensures multiset(next) - multiset(prev) <= added && multiset(prev) - multiset(next) <= removed
    {
      BridgeContains(multiset(prev), added, removed, multiset(next));
    }
  }

  /** Increasing places of `next`: those whose earlier occurrences have used up what `prev` holds of the line. */
  ghost predicate Surplus(prev: multiset<Line>, next: seq<Line>, added: seq<Line>, places: seq<nat>) {
    && |places| == |added|
    && (forall k | 0 <= k < |places| :: places[k] < |next| && added[k] == next[places[k]])
    && (forall k, l | 0 <= k < l < |places| :: places[k] < places[l])
    && (forall i | 0 <= i < |next| :: i in places <==> multiset(next[..i])[next[i]] >= prev[next[i]])
  }

  lemma AddedOne(prev: multiset<Line>, next: seq<Line>, line: Line)
    ensures AddedLines(prev, next + [line])
         == AddedLines(prev, next) + if multiset(next)[line] < prev[line] then [] else [line]
  {
    assert (next + [line])[..|next|] == next;
  }

  lemma SurplusOne(prev: multiset<Line>, next: seq<Line>, added: seq<Line>, places: seq<nat>, line: Line)
    requires Surplus(prev, next, added, places)
    ensures if multiset(next)[line] >= prev[line] then
              Surplus(prev, next + [line], added + [line], places + [|next|])
            else Surplus(prev, next + [line], added, places)
  {
    var all := next + [line];
    assert all[|next|] == line && all[..|next|] == next;
    forall i | 0 <= i < |next| ensures all[i] == next[i] && all[..i] == next[..i] {
    }
    assert forall i :: i in places + [|next|] <==> i in places || i == |next|;
  }

  /** The added lines are in the order of the new text. */
  lemma {:induction false} AddedInOrder(prev: multiset<Line>, next: seq<Line>) returns (places: seq<nat>)
    ensures Surplus(prev, next, AddedLines(prev, next), places)
  {
    if next == [] {
      places := [];
    } else {
      hide Surplus, AddedLines;
      var before, line := next[..|next| - 1], next[|next| - 1];
      places := AddedInOrder(prev, before);
      LastApart(next);
      AddedOne(prev, before, line);
      SurplusOne(prev, before, AddedLines(prev, before), places, line);
      EmptyIsUnit(places);
      EmptyIsUnit(AddedLines(prev, before));
      places := places + if multiset(before)[line] >= prev[line] then [|before|] else [];
    }
  }

  /** Wherever a key occurs, every key before it in the order occurred already. */
  lemma {:induction false} FirstSeenOrder(lines: seq<Line>, a: nat, b: nat, p: nat)
    requires a < b < |FirstSeen(lines)| && p < |lines| && lines[p] == FirstSeen(lines)[b]
    ensures FirstSeen(lines)[a] in lines[..p]
  {
    var n := |lines| - 1;
    var before := FirstSeen(lines[..n]);
    FirstSeenDistinct(lines[..n]);
    FirstSeenDistinct(lines);
    if b < |before| {
      if p == n {
        assert before[a] in lines[..n];
      } else {
        FirstSeenOrder(lines[..n], a, b, p);
        assert lines[..n][..p] == lines[..p];
      }
    } else {
      assert lines[n] !in lines[..n] && p == n;
      assert before[a] in lines[..n];
    }
  }

  lemma {:induction false} RemovedByKey(keys: seq<Line>, left: multiset<Line>) returns (from: seq<nat>)
    ensures |from| == |RemovedLines(keys, left)|
    ensures forall i | 0 <= i < |from| :: from[i] < |keys| && RemovedLines(keys, left)[i] == keys[from[i]]
    ensures forall i, j | 0 <= i < j < |from| :: from[i] <= from[j]
  {
    if keys == [] {
      from := [];
    } else {
      var n := |keys| - 1;
      from := RemovedByKey(keys[..n], left);
      from := from + seq(left[keys[n]], _ => n);
    }
  }

  /** The removed lines are in the order in which the old text first shows them. */
  lemma RemovedInOrder(prev: seq<Line>, next: seq<Line>, i: nat, j: nat, p: nat)
    requires i < j < |Removed(prev, next)| && p < |prev| && prev[p] == Removed(prev, next)[j]
    ensures Removed(prev, next)[i] == Removed(prev, next)[j] || Removed(prev, next)[i] in prev[..p]
  {
    hide RemovedLines, FirstSeen;
    var from := RemovedByKey(FirstSeen(prev), multiset(prev) - multiset(next));
    if from[i] < from[j] {
      FirstSeenOrder(prev, from[i], from[j], p);
    }
  }

  /** Nothing is reported exactly when one text only reorders the lines of the other. */
  lemma SilentIffReordered(prev: seq<Line>, next: seq<Line>)
    ensures Added(prev, next) == [] && Removed(prev, next) == [] <==> multiset(prev) == multiset(next)
  {
    AddedBag(multiset(prev), next);
    RemovedBag(prev, next);
    if multiset(prev) == multiset(next) {
      assert |multiset(Added(prev, next))| == 0 == |multiset(Removed(prev, next))|;
    } else if Added(prev, next) == [] && Removed(prev, next) == [] {
      DiffIsLeast(prev, next);
    }
  }

  /** A count map that says how often each line of `keys` is left. */
  ghost predicate Counts(counts: map<Line, nat>, keys: seq<Line>, left: multiset<Line>) {
    && (forall line :: line in counts <==> line in keys)
    && (forall line | line in counts :: counts[line] == left[line])
  }

  lemma PrefixStep(lines: seq<Line>, i: nat)
    requires i < |lines|
    ensures lines[..i + 1][..i] == lines[..i]
    ensures multiset(lines[..i + 1]) == multiset(lines[..i]) + multiset{lines[i]}
  {
    LastAside(lines[..i + 1]);
    assert lines[..i + 1][..i] == lines[..i];
  }

  /** First loop: count the lines of `prev`; `keys` is the map's insertion order. */
  method CountLines(prev: seq<Line>) returns (counts: map<Line, nat>, keys: seq<Line>)
    ensures keys == FirstSeen(prev)
    ensures Counts(counts, keys, multiset(prev))
  {
    keys, counts := [], map[];
    for i := 0 to |prev|
      invariant keys == FirstSeen(prev[..i])
      invariant Counts(counts, keys, multiset(prev[..i]))
    {
      var line := prev[i];
      PrefixStep(prev, i);
      FirstSeenDistinct(prev[..i]);
      FirstSeenDistinct(prev[..i + 1]);
      assert line in multiset(prev[..i]) <==> line in prev[..i];
      if line !in counts {
        keys := keys + [line];
      }
      counts := counts[line := (if line in counts then counts[line] else 0) + 1];
    }
    assert prev[..|prev|] == prev;
  }

  lemma CrossOffStep(prev: multiset<Line>, next: seq<Line>, i: nat)
    requires i < |next|
    ensures var left := prev - multiset(next[..i]);
            && prev - multiset(next[..i + 1]) == left - multiset{next[i]}
            && AddedLines(prev, next[..i + 1])
               == AddedLines(prev, next[..i]) + if left[next[i]] > 0 then [] else [next[i]]
  {
    PrefixStep(next, i);
  }

  function Remaining(counts: map<Line, nat>, line: Line): nat {
    if line in counts then counts[line] else 0
  }

  lemma CrossOffCount(counts: map<Line, nat>, keys: seq<Line>, left: multiset<Line>, line: Line)
    requires Counts(counts, keys, left)
    requires line !in keys ==> left[line] == 0
    ensures Remaining(counts, line) == left[line]
    ensures left[line] > 0 ==> Counts(counts[line := left[line] - 1], keys, left - multiset{line})
    ensures left[line] == 0 ==> left - multiset{line} == left
  {
  }

  /** Second loop: cross off the lines of `next`, keeping those with nothing left to cross off. */
  method CrossOff(ghost prev: seq<Line>, next: seq<Line>, all: map<Line, nat>, ghost keys: seq<Line>)
    returns (added: seq<Line>, counts: map<Line, nat>)
    requires keys == FirstSeen(prev) && Counts(all, keys, multiset(prev))
    ensures added == Added(prev, next)
    ensures Counts(counts, keys, multiset(prev) - multiset(next))
  {
    hide Counts, AddedLines, FirstSeen, Remaining;
    added, counts := [], all;
    ghost var bag := multiset(prev);
    FirstSeenDistinct(prev);
    assert bag - multiset(next[..0]) == bag && AddedLines(bag, next[..0]) == [] by {
      AddedBag(bag, next[..0]);
    }
    for i := 0 to |next|
      invariant added == AddedLines(bag, next[..i])
      invariant Counts(counts, keys, bag - multiset(next[..i]))
    {
      var line := next[i];
      CrossOffStep(bag, next, i);
      assert line !in keys ==> line !in bag;
      CrossOffCount(counts, keys, bag - multiset(next[..i]), line);
      var remaining := Remaining(counts, line);
      if remaining > 0 {
        counts := counts[line := remaining - 1];
      } else {
        added := added + [line];
      }
    }
    assert next[..|next|] == next;
  }

  /** Third loop: what is left over, key by key. */
  method LeftOver(counts: map<Line, nat>, keys: seq<Line>, ghost left: multiset<Line>) returns (removed: seq<Line>)
    requires Counts(counts, keys, left)
    ensures removed == RemovedLines(keys, left)
  {
    removed := [];
    for k := 0 to |keys|
      invariant removed == RemovedLines(keys[..k], left)
    {
      var line := keys[k];
      ghost var before := removed;
      for i := 0 to counts[line]
        invariant removed == before + Repeat(line, i)
      {
        removed := removed + [line];
        assert Repeat(line, i) + [line] == Repeat(line, i + 1);
      }
      assert keys[..k + 1][..k] == keys[..k];
    }
    assert keys[..|keys|] == keys;
  }

  method DiffLines(prev: seq<Line>, next: seq<Line>) returns (added: seq<Line>, removed: seq<Line>)
    ensures added == Added(prev, next)
    ensures removed == Removed(prev, next)
  {
    var counts, keys := CountLines(prev);
    added, counts := CrossOff(prev, next, counts, keys);
    removed := LeftOver(counts, keys, multiset(prev) - multiset(next));
  }
}
