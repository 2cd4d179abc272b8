/** Searching a snapshot's refs: guest-js/semantic-tree.ts, lines 146-164 and 795-803. */
module RefSearch {
  import opened Text

  type Binding = (string, nat)

  /** The `limit` parameter: absent, NaN or infinite, or a number. */
  datatype Limit = NoLimit | NotFinite | Finite(value: real)

  /** How many matches may be returned, if that is bounded. */
  function Room(limit: Limit): Option<nat> {
    match limit
    case NoLimit => None
    case NotFinite => Some(0)
    case Finite(v) => Some(if v <= 0.0 then 0 else v.Floor)
  }

  function Filtered(refs: seq<Binding>, matches: Binding -> bool): seq<Binding> {
    if refs == [] then []
    else Filtered(refs[..|refs| - 1], matches) + if matches(refs[|refs| - 1]) then [refs[|refs| - 1]] else []
  }

  function Take<T>(xs: seq<T>, room: Option<nat>): seq<T> {
    if room.Some? && room.value < |xs| then xs[..room.value] else xs
  }

  /** The place of the first binding whose element has left the document, or the end. */
  function FirstDetached(refs: seq<Binding>, connected: set<nat>): (k: nat)
    ensures k <= |refs| && (k < |refs| ==> refs[k].1 !in connected)
    ensures forall i | 0 <= i < k :: refs[i].1 in connected
  {
    if refs == [] || refs[0].1 !in connected then 0 else 1 + FirstDetached(refs[1..], connected)
  }

  /** The first matches, unless a detached element comes before there are enough of them. */
  function Found(refs: seq<Binding>, room: Option<nat>, matches: Binding -> bool, connected: set<nat>)
    : Result<seq<Binding>, Binding>
  {
    var k := FirstDetached(refs, connected);
    var found := Filtered(refs[..k], matches);
    if k == |refs| || (room.Some? && room.value <= |found|) then Ok(Take(found, room)) else Err(refs[k])
  }

  /** A filter keeps the order of what it keeps, and earlier matches never depend on later bindings. */
  lemma {:induction false} FilteredPrefix(refs: seq<Binding>, matches: Binding -> bool, i: nat)
    requires i <= |refs|
    ensures Filtered(refs[..i], matches) <= Filtered(refs, matches)
  {
    if i == |refs| {
      assert refs[..i] == refs;
    } else {
      FilteredPrefix(refs[..|refs| - 1], matches, i);
      assert refs[..|refs| - 1][..i] == refs[..i];
    }
  }

  lemma FilteredOne(refs: seq<Binding>, matches: Binding -> bool, b: Binding)
    ensures Filtered(refs + [b], matches) == Filtered(refs, matches) + if matches(b) then [b] else []
  {
    assert (refs + [b])[..|refs|] == refs;
  }

  /** Increasing places, each with its binding, and exactly the matching ones. */
  ghost predicate Picks(refs: seq<Binding>, matches: Binding -> bool, found: seq<Binding>, places: seq<nat>) {
    && |places| == |found|
    && (forall k | 0 <= k < |places| :: places[k] < |refs| && found[k] == refs[places[k]])
    && (forall k, l | 0 <= k < l < |places| :: places[k] < places[l])
    && (forall i | 0 <= i < |refs| :: matches(refs[i]) <==> i in places)
  }

  lemma PicksOne(refs: seq<Binding>, matches: Binding -> bool, found: seq<Binding>, places: seq<nat>, b: Binding)
    requires Picks(refs, matches, found, places)
    ensures if matches(b) then Picks(refs + [b], matches, found + [b], places + [|refs|])
            else Picks(refs + [b], matches, found, places)
  {
    var all := refs + [b];
    assert all[|refs|] == b && forall i | 0 <= i < |refs| :: all[i] == refs[i];
    assert forall i :: i in places + [|refs|] <==> i in places || i == |refs|;
  }

  /** The filter keeps exactly the matching bindings, in order. */
  lemma {:induction false} FilteredIs(refs: seq<Binding>, matches: Binding -> bool) returns (places: seq<nat>)
    ensures Picks(refs, matches, Filtered(refs, matches), places)
  {
    if refs == [] {
      places := [];
    } else {
      hide Picks, Filtered;
      var before, b := refs[..|refs| - 1], refs[|refs| - 1];
      places := FilteredIs(before, matches);
      LastApart(refs);
      FilteredOne(before, matches, b);
      PicksOne(before, matches, Filtered(before, matches), places, b);
      places := places + if matches(b) then [|before|] else [];
      EmptyIsUnit(Filtered(before, matches));
      EmptyIsUnit(places);
    }
  }

  /** The loop over the map's keys with its early exit. */
  method FindRefs(refs: seq<Binding>, limit: Limit, matches: Binding -> bool, connected: set<nat>)
    returns (result: Result<seq<Binding>, Binding>)
    ensures result == Found(refs, Room(limit), matches, connected)
  {
    var room := Room(limit);
    ghost var end := FirstDetached(refs, connected);
    if room == Some(0) {
      return Ok([]);
    }
    var found: seq<Binding> := [];
    for i := 0 to |refs|
      invariant i <= end
      invariant found == Filtered(refs[..i], matches)
      invariant room.Some? ==> |found| < room.value
    {
      if refs[i].1 !in connected {
        return Err(refs[i]);
      }
      assert refs[..i + 1][..i] == refs[..i];
      if !matches(refs[i]) {
        continue;
      }
      found := found + [refs[i]];
      if room.Some? && |found| >= room.value {
        FilteredPrefix(refs[..end], matches, i + 1);
        assert refs[..end][..i + 1] == refs[..i + 1];
        ghost var all := Filtered(refs[..end], matches);
        assert all[..|found|] == found && |found| == room.value;
        assert Take(all, room) == found;
        return Ok(found);
      }
    }
    assert refs[..|refs|] == refs;
    return Ok(found);
  }

  /** What a limit means: none, all matches; no finite or no positive one, no match; else at most its whole part. */
  lemma LimitBounds(refs: seq<Binding>, limit: Limit, matches: Binding -> bool, connected: set<nat>)
    requires forall i | 0 <= i < |refs| :: refs[i].1 in connected
    ensures var all, found := Filtered(refs, matches), Found(refs, Room(limit), matches, connected);
            && found.Ok? && found.value <= all
            && (limit.NoLimit? ==> found.value == all)
            && (limit.NotFinite? || (limit.Finite? && limit.value < 1.0) ==> found.value == [])
            && (limit.Finite? && limit.value >= 1.0 ==>
                |found.value| as real <= limit.value
                && (found.value == all || limit.value < (|found.value| + 1) as real))
  {
    FoundIsTakeOfFilter(refs, Room(limit), matches, connected);
  }

  /** Over elements all in the document, a search is the first matches in snapshot order. */
  lemma FoundIsTakeOfFilter(refs: seq<Binding>, room: Option<nat>, matches: Binding -> bool, connected: set<nat>)
    requires forall i | 0 <= i < |refs| :: refs[i].1 in connected
    ensures Found(refs, room, matches, connected) == Ok(Take(Filtered(refs, matches), room))
  {
    assert refs[..|refs|] == refs;
  }
}
