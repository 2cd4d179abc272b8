/** The push-then-shift buffer of numbered entries that both the diff stream and the capture buffers keep. */
module Ring {
  import opened Text

  /** An entry with its `seq`. */
  datatype Numbered<+T> = Numbered(number: nat, value: T)

  /** `buffer.push(x); if (buffer.length > capacity) buffer.shift()`. */
  function Shifted<T>(buffer: seq<T>, x: T, capacity: int): seq<T> {
    var grown := buffer + [x];
    if |grown| > capacity then grown[1..] else grown
  }

  /** The buffer holds the newest entries of the history and nothing else. */
  ghost predicate EndOf<T>(buffer: seq<T>, history: seq<T>) {
    |buffer| <= |history| && buffer == history[|history| - |buffer|..]
  }

  lemma ShiftedIsEnd<T>(buffer: seq<T>, history: seq<T>, x: T, capacity: int)
    requires EndOf(buffer, history)
    ensures EndOf(Shifted(buffer, x, capacity), history + [x])
  {
    var grown := buffer + [x];
    assert grown == (history + [x])[|history| - |buffer|..];
  }

  /** `buffer.filter((entry) => entry.seq > cursor)`. */
  function After<T>(buffer: seq<Numbered<T>>, cursor: nat): seq<Numbered<T>> {
    if buffer == [] then []
    else
      var n := |buffer| - 1;
      After(buffer[..n], cursor) + if buffer[n].number > cursor then [buffer[n]] else []
  }

  /** Where the entries after a cursor start, when the first `gone` of the history are gone. */
  function Start(gone: nat, cursor: nat): nat {
    if cursor < gone then gone else cursor
  }

  ghost predicate Consecutive<T>(history: seq<Numbered<T>>) {
    forall i | 0 <= i < |history| :: history[i].number == i + 1
  }

  lemma ConsecutiveOne<T>(history: seq<Numbered<T>>, x: Numbered<T>)
    requires Consecutive(history) && x.number == |history| + 1
    ensures Consecutive(history + [x])
  {
  }

  lemma AfterOne<T>(buffer: seq<Numbered<T>>, x: Numbered<T>, cursor: nat)
    ensures After(buffer + [x], cursor) == After(buffer, cursor) + if x.number > cursor then [x] else []
  {
    assert (buffer + [x])[..|buffer|] == buffer;
  }

  lemma {:induction false} AfterAppend<T>(a: seq<Numbered<T>>, b: seq<Numbered<T>>, cursor: nat)
    ensures After(a + b, cursor) == After(a, cursor) + After(b, cursor)
  {
    if b == [] {
      EmptyIsUnit(a);
      EmptyIsUnit(After(a, cursor));
    } else {
      hide After;
      var c, x := b[..|b| - 1], b[|b| - 1];
      AfterAppend(a, c, cursor);
      LastApart(b);
      Assoc(a, c, [x]);
      AfterOne(a + c, x, cursor);
      AfterOne(c, x, cursor);
      Assoc(After(a, cursor), After(c, cursor), if x.number > cursor then [x] else []);
    }
  }

  lemma {:induction false} AfterAllOrNone<T>(buffer: seq<Numbered<T>>, cursor: nat)
    ensures (forall i | 0 <= i < |buffer| :: buffer[i].number > cursor) ==> After(buffer, cursor) == buffer
    ensures (forall i | 0 <= i < |buffer| :: buffer[i].number <= cursor) ==> After(buffer, cursor) == []
  {
    if buffer != [] {
      hide After;
      var before, x := buffer[..|buffer| - 1], buffer[|buffer| - 1];
      LastApart(buffer);
      AfterAllOrNone(before, cursor);
      AfterOne(before, x, cursor);
      EmptyIsUnit(After(before, cursor));
    }
  }

  /** The window's entries after a cursor are the history from the cursor on, or from where the window starts. */
  lemma AfterInWindow<T>(buffer: seq<Numbered<T>>, history: seq<Numbered<T>>, cursor: nat)
    requires EndOf(buffer, history) && Consecutive(history)
    ensures var from := Start(|history| - |buffer|, cursor);
            After(buffer, cursor) == if from < |history| then history[from..] else []
  {
    hide After;
    var gone := |history| - |buffer|;
    var from := Start(gone, cursor);
    if from < |history| {
      var before, after := history[gone..from], history[from..];
      SplitAt(history, gone, from);
      NumbersOf(history, gone, from);
      NumbersOf(history, from, |history|);
      AfterAppend(before, after, cursor);
      AfterAllOrNone(before, cursor);
      AfterAllOrNone(after, cursor);
      hide Consecutive;
      EmptyIsUnit(after);
    } else {
      NumbersOf(history, gone, |history|);
      AfterAllOrNone(buffer, cursor);
    }
  }

  lemma SplitAt<T>(s: seq<T>, a: nat, b: nat)
    requires a <= b <= |s|
    ensures s[a..] == s[a..b] + s[b..] && s[b..] == s[b..|s|]
  {
  }

  lemma NumbersOf<T>(history: seq<Numbered<T>>, a: nat, b: nat)
    requires Consecutive(history) && a <= b <= |history|
    ensures forall i | 0 <= i < b - a :: history[a..b][i].number == a + i + 1
    ensures history[a..|history|] == history[a..]
  {
  }
}
