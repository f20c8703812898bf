/**
 Strings as JavaScript sees them in the assembler: `String.prototype.split` on a
 one-character separator, `Array.prototype.join`, `substring(0, n)` and `trim`.
 Strings are `seq<char>`; JavaScript counts UTF-16 code units, the model counts chars.
 */
module Text {

  /** `xs.join(sep)`: the pieces with `sep` between consecutive ones. */
  function Join(xs: seq<string>, sep: string): string
  {
    if |xs| == 0 then ""
    else if |xs| == 1 then xs[0]
    else xs[0] + sep + Join(xs[1..], sep)
  }

  /** Appending one piece to a non-empty list appends the separator and the piece. */
  lemma {:induction false} JoinSnoc(xs: seq<string>, x: string, sep: string)
    requires |xs| >= 1
    ensures Join(xs + [x], sep) == Join(xs, sep) + sep + x
    decreases |xs|
  {
    if |xs| == 1 {
      assert xs + [x] == [xs[0], x];
      assert [xs[0], x][1..] == [x];
    } else {
      assert (xs + [x])[1..] == xs[1..] + [x];
      JoinSnoc(xs[1..], x, sep);
    }
  }

  /** Joining a piece onto a non-empty list puts the separator after it. */
  lemma JoinCons(x: string, xs: seq<string>, sep: string)
    requires |xs| >= 1
    ensures Join([x] + xs, sep) == x + sep + Join(xs, sep)
  {
    assert ([x] + xs)[1..] == xs;
  }

  /** Gluing `sep + b` onto the last piece is the same as appending `b` as a new piece. */
  lemma JoinExtendLast(xs: seq<string>, a: string, b: string, sep: string)
    ensures Join(xs + [a + sep + b], sep) == Join(xs + [a], sep) + sep + b
  {
    if |xs| == 0 {
      assert xs + [a + sep + b] == [a + sep + b];
      assert xs + [a] == [a];
    } else {
      JoinSnoc(xs, a + sep + b, sep);
      JoinSnoc(xs, a, sep);
    }
  }

  /** Every character of a piece occurs in the joined string. */
  lemma {:induction false} JoinContainsPieces(xs: seq<string>, sep: string, i: nat, k: nat)
    requires i < |xs| && k < |xs[i]|
    ensures xs[i][k] in Join(xs, sep)
    decreases |xs|
  {
    if |xs| == 1 {
    } else if i == 0 {
      assert Join(xs, sep)[k] == xs[0][k];
    } else {
      assert xs[1..][i - 1] == xs[i];
      JoinContainsPieces(xs[1..], sep, i - 1, k);
      JoinKeepsTail(xs, sep, xs[i][k]);
    }
  }

  /** A character of the join of the later pieces is a character of the whole join. */
  lemma JoinKeepsTail(xs: seq<string>, sep: string, ch: char)
    requires |xs| >= 2 && ch in Join(xs[1..], sep)
    ensures ch in Join(xs, sep)
  {
    var tail := Join(xs[1..], sep);
    var w :| 0 <= w < |tail| && tail[w] == ch;
    assert Join(xs, sep) == (xs[0] + sep) + tail;
    assert Join(xs, sep)[|xs[0] + sep| + w] == ch;
  }

  /** Position of the first occurrence of `c` in `s`. */
  function IndexOf(s: string, c: char): (i: nat)
    requires c in s
    ensures i < |s| && s[i] == c
    ensures c !in s[..i]
  {
    if s[0] == c then 0
    else
      assert s == [s[0]] + s[1..];
      var i := 1 + IndexOf(s[1..], c);
      assert s[..i] == [s[0]] + s[1..][..i - 1];
      i
  }

  /**
   `s.split(c)` for a one-character separator `c`: the maximal runs between
   separators, including empty runs, so that `"".split(c)` is `[""]`.
   */
  function Split(s: string, c: char): (r: seq<string>)
    ensures |r| >= 1
    decreases |s|
  {
    if c !in s then [s]
    else
      var i := IndexOf(s, c);
      [s[..i]] + Split(s[i + 1..], c)
  }

  /** No piece of a split contains the separator. */
  lemma {:induction false} SplitPiecesFree(s: string, c: char)
    ensures forall i :: 0 <= i < |Split(s, c)| ==> c !in Split(s, c)[i]
    decreases |s|
  {
    if c in s {
      var i := IndexOf(s, c);
      SplitPiecesFree(s[i + 1..], c);
    }
  }

  /** Joining the pieces of a split with the separator gives the string back. */
  lemma {:induction false} JoinSplit(s: string, c: char)
    ensures Join(Split(s, c), [c]) == s
    decreases |s|
  {
    if c in s {
      var i := IndexOf(s, c);
      var rest := Split(s[i + 1..], c);
      JoinSplit(s[i + 1..], c);
      assert s == s[..i] + [c] + s[i + 1..];
      assert ([s[..i]] + rest)[1..] == rest;
    }
  }

  /** A character missing from a string is missing from every piece of its split. */
  lemma SplitPiecesWithout(s: string, c: char, ch: char)
    requires ch !in s
    ensures forall i :: 0 <= i < |Split(s, c)| ==> ch !in Split(s, c)[i]
  {
    var xs := Split(s, c);
    JoinSplit(s, c);
    forall i, k | 0 <= i < |xs| && 0 <= k < |xs[i]|
      ensures xs[i][k] != ch
    {
      JoinContainsPieces(xs, [c], i, k);
    }
  }

  /** Splitting `a + c + b` where `a` has no separator: `a` comes first, then the pieces of `b`. */
  lemma SplitCons(a: string, b: string, c: char)
    requires c !in a
    ensures Split(a + [c] + b, c) == [a] + Split(b, c)
  {
    var s := a + [c] + b;
    assert s[|a|] == c;
    assert s[..|a|] == a;
    var k := IndexOf(s, c);
    assert k == |a|;
    assert s[k + 1..] == b;
  }

  /** Splitting a join of separator-free pieces gives back the pieces. */
  lemma {:induction false} SplitJoin(xs: seq<string>, c: char)
    requires |xs| >= 1
    requires forall i :: 0 <= i < |xs| ==> c !in xs[i]
    ensures Split(Join(xs, [c]), c) == xs
    decreases |xs|
  {
    if |xs| > 1 {
      var rest := Join(xs[1..], [c]);
      assert Join(xs, [c]) == xs[0] + [c] + rest;
      SplitCons(xs[0], rest, c);
      SplitJoin(xs[1..], c);
      assert xs == [xs[0]] + xs[1..];
    }
  }

  /** Splitting at a separator splits the two sides independently. */
  lemma {:induction false} SplitAppend(a: string, b: string, c: char)
    ensures Split(a + [c] + b, c) == Split(a, c) + Split(b, c)
    decreases |a|
  {
    if c !in a {
      SplitCons(a, b, c);
    } else {
      var i := IndexOf(a, c);
      var a1, a2 := a[..i], a[i + 1..];
      assert a == a1 + [c] + a2;
      SplitAppend(a2, b, c);
      SplitAppendStep(a1, a2, b, c);
    }
  }

  /** The inductive step of `SplitAppend`: a separator-free run in front of both sides. */
  lemma SplitAppendStep(a1: string, a2: string, b: string, c: char)
    requires c !in a1
    requires Split(a2 + [c] + b, c) == Split(a2, c) + Split(b, c)
    ensures Split(a1 + [c] + a2 + [c] + b, c) == Split(a1 + [c] + a2, c) + Split(b, c)
  {
    var rest := a2 + [c] + b;
    calc {
      Split(a1 + [c] + a2 + [c] + b, c);
      { assert a1 + [c] + a2 + [c] + b == a1 + [c] + rest; }
      Split(a1 + [c] + rest, c);
      { SplitCons(a1, rest, c); }
      [a1] + (Split(a2, c) + Split(b, c));
      ([a1] + Split(a2, c)) + Split(b, c);
      { SplitCons(a1, a2, c); }
      Split(a1 + [c] + a2, c) + Split(b, c);
    }
  }

  /** Pieces free of `c`, followed by more such pieces. */
  lemma PiecesFreeAppend(a: seq<string>, b: seq<string>, c: char)
    requires forall i :: 0 <= i < |a| ==> c !in a[i]
    requires forall i :: 0 <= i < |b| ==> c !in b[i]
    ensures forall i :: 0 <= i < |a + b| ==> c !in (a + b)[i]
  {
    assert forall i :: 0 <= i < |a + b| ==> (a + b)[i] == if i < |a| then a[i] else b[i - |a|];
  }

  /** The first piece of `a + c + b` is the first piece of `a`. */
  lemma SplitHead(a: string, b: string, c: char)
    ensures Split(a + [c] + b, c)[0] == Split(a, c)[0]
  {
    var s := a + [c] + b;
    if c in a {
      var i := IndexOf(a, c);
      assert s[i] == c;
      assert s[..i] == a[..i];
      var k := IndexOf(s, c);
      assert k == i;
    } else {
      SplitCons(a, b, c);
    }
  }

  /** `s.substring(0, n)` for `n >= 0`: the first `n` characters, or all of `s` when it is shorter. */
  function Take(s: string, n: nat): (r: string)
    ensures |r| == if |s| < n then |s| else n
    ensures r == s[..|r|]
  {
    if |s| <= n then s else s[..n]
  }

  /**
   The characters `String.prototype.trim` removes: ECMAScript WhiteSpace
   (tab, vertical tab, form feed, space, no-break space, byte order mark and the
   Unicode space separators) and LineTerminator (line feed, carriage return,
   line and paragraph separators).
   */
  const JsWhitespace: set<char> :=
    {'\U{9}', '\U{A}', '\U{B}', '\U{C}', '\U{D}', '\U{20}', '\U{A0}', '\U{1680}',
     '\U{2000}', '\U{2001}', '\U{2002}', '\U{2003}', '\U{2004}', '\U{2005}', '\U{2006}', '\U{2007}',
     '\U{2008}', '\U{2009}', '\U{200A}', '\U{2028}', '\U{2029}', '\U{202F}', '\U{205F}', '\U{3000}',
     '\U{FEFF}'}

  predicate IsJsWhitespace(ch: char)
  {
    ch in JsWhitespace
  }

  /** All characters of `s` are whitespace. */
  predicate AllWhitespace(s: string)
  {
    forall i :: 0 <= i < |s| ==> IsJsWhitespace(s[i])
  }

  /** `s` with its leading whitespace removed. */
  function TrimStart(s: string): (r: string)
    ensures |r| <= |s| && r == s[|s| - |r|..]
    ensures AllWhitespace(s[..|s| - |r|])
    ensures r == "" || !IsJsWhitespace(r[0])
  {
    if |s| > 0 && IsJsWhitespace(s[0]) then
      var r := TrimStart(s[1..]);
      assert s[..|s| - |r|] == [s[0]] + s[1..][..|s| - 1 - |r|];
      r
    else s
  }

  /** `s` with its trailing whitespace removed. */
  function TrimEnd(s: string): (r: string)
    ensures |r| <= |s| && r == s[..|r|]
    ensures AllWhitespace(s[|r|..])
    ensures r == "" || !IsJsWhitespace(r[|r| - 1])
  {
    if |s| > 0 && IsJsWhitespace(s[|s| - 1]) then
      var r := TrimEnd(s[..|s| - 1]);
      assert s[|r|..] == s[..|s| - 1][|r|..] + [s[|s| - 1]];
      r
    else s
  }

  /**
   `s.trim()`: what remains once the leading and trailing whitespace is gone; it
   neither starts nor ends with whitespace, and `TrimSlice` shows it is a slice
   of `s` with only whitespace around it.
   */
  function Trim(s: string): (r: string)
    ensures r == "" || (!IsJsWhitespace(r[0]) && !IsJsWhitespace(r[|r| - 1]))
  {
    TrimSlice(s);
    TrimEnd(TrimStart(s))
  }

  /** Trimming both ends keeps a slice of `s` with only whitespace around it. */
  lemma TrimSlice(s: string)
    ensures var r := TrimEnd(TrimStart(s));
      exists i, j ::
        && 0 <= i <= j <= |s| && r == s[i..j]
        && AllWhitespace(s[..i]) && AllWhitespace(s[j..])
    ensures var r := TrimEnd(TrimStart(s));
      r == "" || (!IsJsWhitespace(r[0]) && !IsJsWhitespace(r[|r| - 1]))
  {
    var t := TrimStart(s);
    var r := TrimEnd(t);
    InnerSlice(s, t, r);
    assert r != "" ==> r[0] == t[0];
  }

  /** A whitespace-bounded prefix of a whitespace-bounded suffix is a whitespace-bounded slice. */
  lemma InnerSlice(s: string, t: string, r: string)
    requires |t| <= |s| && t == s[|s| - |t|..] && AllWhitespace(s[..|s| - |t|])
    requires |r| <= |t| && r == t[..|r|] && AllWhitespace(t[|r|..])
    ensures exists i, j ::
              && 0 <= i <= j <= |s| && r == s[i..j]
              && AllWhitespace(s[..i]) && AllWhitespace(s[j..])
  {
    var i, j := |s| - |t|, |s| - |t| + |r|;
    assert r == s[i..j];
    assert s[j..] == t[|r|..];
  }

  /** Neither starts nor ends with whitespace. */
  predicate Trimmed(s: string)
  {
    s == "" || (!IsJsWhitespace(s[0]) && !IsJsWhitespace(s[|s| - 1]))
  }

  /** A string with no whitespace at either end is its own trim, and every trim is such a string. */
  lemma TrimmedFixed(s: string)
    ensures Trimmed(s) <==> Trim(s) == s
  {
    if Trimmed(s) {
      TrimStartFixed(s);
      TrimEndFixed(s);
    }
  }

  /** No whitespace in front: `TrimStart` keeps the string. */
  lemma TrimStartFixed(s: string)
    requires s == "" || !IsJsWhitespace(s[0])
    ensures TrimStart(s) == s
  {
  }

  /** No whitespace at the end: `TrimEnd` keeps the string. */
  lemma TrimEndFixed(s: string)
    requires s == "" || !IsJsWhitespace(s[|s| - 1])
    ensures TrimEnd(s) == s
  {
  }

  /** Trimming a trimmed string changes nothing. */
  lemma TrimIdempotent(s: string)
    ensures Trim(Trim(s)) == Trim(s)
  {
    var r := Trim(s);
    if r != "" {
      assert !IsJsWhitespace(r[0]);
      assert TrimStart(r) == r;
      assert TrimEnd(r) == r;
    }
  }
}
