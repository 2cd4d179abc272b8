/** Splitting, joining and printing of text, as the JavaScript built-ins do it. */
module Text {

  datatype Option<+T> = None | Some(value: T)

  datatype Result<+T, +E> = Ok(value: T) | Err(error: E)

  type Byte = b: int | 0 <= b < 256

  type Bytes = seq<Byte>

  lemma Assoc<T>(a: seq<T>, b: seq<T>, c: seq<T>)
    ensures (a + b) + c == a + (b + c)
  {
  }

  lemma LastApart<T>(s: seq<T>)
    requires s != []
    ensures s == s[..|s| - 1] + [s[|s| - 1]]
  {
  }

  lemma FirstApart<T>(s: seq<T>)
    requires s != []
    ensures s == [s[0]] + s[1..]
  {
  }

  lemma EmptyIsUnit<T>(s: seq<T>)
    ensures s + [] == s && [] + s == s
  {
  }

  /** A text cut at a separator: the pieces it closes, and what follows the last one. */
  datatype Pieces<T> = Pieces(closed: seq<seq<T>>, rest: seq<T>)

  function Cut<T(==)>(s: seq<T>, sep: T): Pieces<T> {
    if s == [] then Pieces([], [])
    else
      var n := |s| - 1;
      var before := Cut(s[..n], sep);
      if s[n] == sep then Pieces(before.closed + [before.rest], [])
      else Pieces(before.closed, before.rest + [s[n]])
  }

  /** `s.split(sep)` for a one-element separator: always at least one piece. */
  function Split<T(==)>(s: seq<T>, sep: T): seq<seq<T>> {
    Cut(s, sep).closed + [Cut(s, sep).rest]
  }

  /** `pieces.join(sep)`. */
  function Join<T>(pieces: seq<seq<T>>, sep: T): seq<T> {
    if pieces == [] then []
    else if |pieces| == 1 then pieces[0]
    else Join(pieces[..|pieces| - 1], sep) + [sep] + pieces[|pieces| - 1]
  }

  /** Joining the pieces of a text gives the text back, so `Split` loses nothing. */
  lemma {:induction false} JoinSplit<T>(s: seq<T>, sep: T)
    ensures Join(Split(s, sep), sep) == s
  {
    if s != [] {
      var n := |s| - 1;
      JoinSplit(s[..n], sep);
      var before := Cut(s[..n], sep);
      assert s == s[..n] + [s[n]];
      if s[n] == sep {
        assert Split(s, sep)[..|before.closed| + 1] == Split(s[..n], sep);
      } else {
        assert Split(s, sep)[..|before.closed|] == before.closed == Split(s[..n], sep)[..|before.closed|];
      }
    }
  }

  lemma {:induction false} CutOpen<T>(s: seq<T>, sep: T)
    requires sep !in s
    ensures Cut(s, sep) == Pieces([], s)
  {
    if s != [] {
      CutOpen(s[..|s| - 1], sep);
    }
  }

  lemma {:induction false} RestIsOpen<T>(s: seq<T>, sep: T)
    ensures sep !in Cut(s, sep).rest
  {
    if s != [] {
      RestIsOpen(s[..|s| - 1], sep);
    }
  }

  lemma CutOne<T>(s: seq<T>, x: T, sep: T)
    ensures var before := Cut(s, sep);
            Cut(s + [x], sep) == if x == sep then Pieces(before.closed + [before.rest], [])
                                 else Pieces(before.closed, before.rest + [x])
  {
    assert (s + [x])[..|s|] == s;
  }

  /** Only the unclosed tail of a text matters for how its continuation is cut. */
  lemma {:induction false} CutAppend<T>(a: seq<T>, b: seq<T>, sep: T)
    ensures var kept := Cut(a, sep);
            var next := Cut(kept.rest + b, sep);
            Cut(a + b, sep) == Pieces(kept.closed + next.closed, next.rest)
  {
    hide Cut;
    var kept := Cut(a, sep);
    if b == [] {
      RestIsOpen(a, sep);
      CutOpen(kept.rest, sep);
      assert a + b == a && kept.rest + b == kept.rest;
    } else {
      var c, x := b[..|b| - 1], b[|b| - 1];
      CutAppend(a, c, sep);
      CutOne(a + c, x, sep);
      CutOne(kept.rest + c, x, sep);
      assert a + c + [x] == a + b && kept.rest + c + [x] == kept.rest + b;
    }
  }

  lemma CutEnd<T>(a: seq<T>, sep: T)
    requires sep !in a
    ensures Cut(a + [sep], sep) == Pieces([a], [])
  {
    CutOpen(a, sep);
    assert (a + [sep])[..|a|] == a;
  }

  /** A text that closes one open piece and goes on. */
  lemma CutClose<T>(a: seq<T>, b: seq<T>, sep: T)
    requires sep !in a
    ensures Cut((a + [sep]) + b, sep) == Pieces([a] + Cut(b, sep).closed, Cut(b, sep).rest)
  {
    CutEnd(a, sep);
    var none: seq<T> := [];
    assert none + b == b;
    CutAppend(a + [sep], b, sep);
  }

  /** And splitting what was joined gives the pieces back, if no piece contains the separator. */
  lemma {:induction false} SplitJoin<T>(pieces: seq<seq<T>>, sep: T)
    requires pieces != [] && forall p | p in pieces :: sep !in p
    ensures Split(Join(pieces, sep), sep) == pieces
  {
    hide Cut;
    var init, last := pieces[..|pieces| - 1], pieces[|pieces| - 1];
    if init == [] {
      CutOpen(last, sep);
    } else {
      SplitJoin(init, sep);
      var text := Join(init, sep);
      CutOne(text, sep, sep);
      CutAppend(text + [sep], last, sep);
      CutOpen(last, sep);
      EmptyIsUnit(last);
      EmptyIsUnit(init);
      LastApart(pieces);
    }
  }

  function Digit(d: nat): char
    requires d < 10
  {
    "0123456789"[d]
  }

  /** `String(n)` for a non-negative integer. */
  function Decimal(n: nat): (s: string)
    ensures |s| > 0 && forall i | 0 <= i < |s| :: '0' <= s[i] <= '9'
  {
    if n < 10 then [Digit(n)] else Decimal(n / 10) + [Digit(n % 10)]
  }

  lemma DecimalLast(n: nat)
    ensures var s := Decimal(n);
            s[|s| - 1] == Digit(n % 10) && s[..|s| - 1] == if n < 10 then [] else Decimal(n / 10)
  {
  }

  /** The number a string of digits stands for. */
  function NumberOf(digits: string): int {
    if digits == "" then 0
    else NumberOf(digits[..|digits| - 1]) * 10 + digits[|digits| - 1] as int - '0' as int
  }

  lemma DigitValue(d: nat)
    requires d < 10
    ensures Digit(d) as int - '0' as int == d
  {
  }

  /** `Decimal` writes its number in base ten, without a leading zero. */
  lemma {:induction false} DecimalIsNumber(n: nat)
    ensures NumberOf(Decimal(n)) == n
    ensures n > 0 ==> Decimal(n)[0] != '0'
  {
    hide Digit;
    DigitValue(n % 10);
    DecimalLast(n);
    if n >= 10 {
      DecimalIsNumber(n / 10);
      assert Decimal(n)[0] == Decimal(n / 10)[0];
    } else {
      assert Decimal(n)[0] == Digit(n);
      assert NumberOf([]) == 0;
    }
  }

  lemma DigitInjective(a: nat, b: nat)
    requires a < 10 && b < 10 && Digit(a) == Digit(b)
    ensures a == b
  {
  }

  lemma {:induction false} DecimalInjective(a: nat, b: nat)
    requires Decimal(a) == Decimal(b)
    ensures a == b
  {
    hide Decimal, Digit;
    DecimalLast(a);
    DecimalLast(b);
    DigitInjective(a % 10, b % 10);
    if a >= 10 && b >= 10 {
      DecimalInjective(a / 10, b / 10);
    }
  }
}
