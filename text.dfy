/** The few string operations of Python's `str` that the bot relies on. */
module Text {

  /** `str.lower` on one character. Only the ASCII letters are mapped. */
  function LowerChar(c: char): char
  {
    if 'A' <= c <= 'Z' then (c as int + 32) as char else c
  }

  /** `str.lower`, character by character. */
  function Lower(s: string): (r: string)
    ensures |r| == |s|
    ensures forall i :: 0 <= i < |s| ==> r[i] == LowerChar(s[i])
  {
    if s == [] then [] else [LowerChar(s[0])] + Lower(s[1..])
  }

  lemma {:induction false} LowerIdempotent(s: string)
    ensures Lower(Lower(s)) == Lower(s)
  {
    assert forall i :: 0 <= i < |s| ==> LowerChar(LowerChar(s[i])) == LowerChar(s[i]);
  }

  lemma {:induction false} LowerConcat(a: string, b: string)
    ensures Lower(a + b) == Lower(a) + Lower(b)
  {
  }

  predicate StartsWith(s: string, p: string)
  {
    |p| <= |s| && s[..|p|] == p
  }

  predicate EndsWith(s: string, p: string)
  {
    |p| <= |s| && s[|s| - |p|..] == p
  }

  /** `sep.join(xs)`. */
  function Join(sep: string, xs: seq<string>): string
  {
    if |xs| == 0 then ""
    else if |xs| == 1 then xs[0]
    else xs[0] + sep + Join(sep, xs[1..])
  }

  /** The lengths of the strings added up. */
  function TotalLength(xs: seq<string>): nat
  {
    if xs == [] then 0 else |xs[0]| + TotalLength(xs[1..])
  }

  /** `sep.join(xs)` is as long as the strings with one separator between
      each two of them. */
  lemma {:induction false} JoinLength(sep: string, xs: seq<string>)
    requires |xs| >= 1
    ensures |Join(sep, xs)| == TotalLength(xs) + (|xs| - 1) * |sep|
    decreases |xs|
  {
    if |xs| > 1 {
      JoinLength(sep, xs[1..]);
      assert (|xs| - 1) * |sep| == (|xs| - 2) * |sep| + |sep|;
    }
  }

  /** `s.split(c)` for a one-character separator: the pieces between the
      occurrences of `c`, of which there is always at least one. */
  function SplitOn(s: string, c: char): (r: seq<string>)
    ensures |r| >= 1
  {
    if s == [] then [""]
    else
      var rest := SplitOn(s[1..], c);
      if s[0] == c then [""] + rest else [[s[0]] + rest[0]] + rest[1..]
  }

  /** The characters `str.isspace` accepts, which `str.strip` removes. */
  predicate IsSpace(c: char)
  {
    var n := c as int;
    (9 <= n <= 13) || (28 <= n <= 32) || n == 0x85 || n == 0xA0 || n == 0x1680
    || (0x2000 <= n <= 0x200A) || n == 0x2028 || n == 0x2029 || n == 0x202F
    || n == 0x205F || n == 0x3000
  }

  function LStrip(s: string): (r: string)
    ensures |r| <= |s| && forall i | 0 <= i < |r| :: r[i] == s[|s| - |r| + i]
    ensures r == [] || !IsSpace(r[0])
  {
    if s != [] && IsSpace(s[0]) then LStrip(s[1..]) else s
  }

  function RStrip(s: string): (r: string)
    ensures |r| <= |s| && r == s[..|r|]
    ensures r == [] || !IsSpace(r[|r| - 1])
  {
    if s != [] && IsSpace(s[|s| - 1]) then RStrip(s[..|s| - 1]) else s
  }

  /** `str.strip()` with no argument. */
  function Strip(s: string): (r: string)
    ensures r == [] || (!IsSpace(r[0]) && !IsSpace(r[|r| - 1]))
  {
    assert RStrip(LStrip(s)) == [] || RStrip(LStrip(s))[0] == LStrip(s)[0];
    RStrip(LStrip(s))
  }

  /** Stripping only takes characters away. */
  lemma StripKeeps(s: string, x: char)
    requires x !in s
    ensures x !in Strip(s)
  {
    LStripKeeps(s, x);
    RStripKeeps(LStrip(s), x);
  }

  lemma {:induction false} LStripKeeps(s: string, x: char)
    requires x !in s
    ensures x !in LStrip(s)
    decreases |s|
  {
    if s != [] && IsSpace(s[0]) {
      assert forall y | y in s[1..] :: y in s;
      LStripKeeps(s[1..], x);
    }
  }

  lemma RStripKeeps(s: string, x: char)
    requires x !in s
    ensures x !in RStrip(s)
  {
    var r := RStrip(s);
    assert r == s[..|r|];
    assert forall y | y in r :: y in s;
  }

  /** No piece of a split holds the separator. */
  lemma {:induction false} SplitOnPieces(s: string, c: char)
    ensures forall i | 0 <= i < |SplitOn(s, c)| :: c !in SplitOn(s, c)[i]
    decreases |s|
  {
    if s != [] {
      SplitOnPieces(s[1..], c);
    }
  }

  /** Joining the pieces with the separator gives back the string. */
  lemma {:induction false} SplitOnJoin(s: string, c: char)
    ensures Join([c], SplitOn(s, c)) == s
    decreases |s|
  {
    if s != [] {
      var rest := SplitOn(s[1..], c);
      SplitOnJoin(s[1..], c);
      if s[0] == c {
        assert ([""] + rest)[1..] == rest;
      } else if |rest| > 1 {
        assert ([[s[0]] + rest[0]] + rest[1..])[1..] == rest[1..];
      }
    }
  }

  /** A string without the separator is one piece. */
  lemma {:induction false} SplitOnAbsent(s: string, c: char)
    requires c !in s
    ensures SplitOn(s, c) == [s]
    decreases |s|
  {
    if s != [] {
      SplitOnAbsent(s[1..], c);
      assert [s[0]] + s[1..] == s;
    }
  }

  /** Splitting at one occurrence of the separator. */
  lemma {:induction false} SplitOnConcat(x: string, c: char, y: string)
    ensures SplitOn(x + [c] + y, c) == SplitOn(x, c) + SplitOn(y, c)
    decreases |x|
  {
    if x == [] {
      assert x + [c] + y == [c] + y;
      assert ([c] + y)[1..] == y;
    } else {
      var s := x + [c] + y;
      ConsParts(x, [c] + y);
      assert s[1..] == x[1..] + [c] + y;
      SplitOnConcat(x[1..], c, y);
      var a, b := SplitOn(x[1..], c), SplitOn(y, c);
      if x[0] == c {
        AppendAssoc([""], a, b);
      } else {
        HeadJoins([x[0]], a, b);
      }
    }
  }

  lemma ConsParts<T>(x: seq<T>, z: seq<T>)
    requires x != []
    ensures (x + z)[0] == x[0] && (x + z)[1..] == x[1..] + z
  {
  }

  lemma AppendAssoc<T>(a: seq<T>, b: seq<T>, c: seq<T>)
    ensures a + b + c == a + (b + c)
  {
  }

  /** Gluing a prefix onto the first piece commutes with appending more
      pieces. */
  lemma HeadJoins<T>(h: seq<T>, a: seq<seq<T>>, b: seq<seq<T>>)
    requires a != []
    ensures [h + (a + b)[0]] + (a + b)[1..] == [h + a[0]] + a[1..] + b
  {
    assert (a + b)[0] == a[0];
    assert (a + b)[1..] == a[1..] + b;
  }

  /** Stripping leaves a string alone that does not start or end with
      whitespace. */
  lemma StripBare(s: string)
    requires s != [] && !IsSpace(s[0]) && !IsSpace(s[|s| - 1])
    ensures Strip(s) == s
  {
  }

  /** Stripping takes off one trailing space. */
  lemma StripSpaceAfter(s: string)
    requires s != [] && !IsSpace(s[0]) && !IsSpace(s[|s| - 1])
    ensures Strip(s + " ") == s
  {
    var t := s + " ";
    assert t[0] == s[0] && IsSpace(t[|t| - 1]);
    assert LStrip(t) == t;
    assert t[..|t| - 1] == s;
    assert RStrip(t) == RStrip(s);
  }

  /** A leading space makes no difference to stripping. */
  lemma StripSpaceBefore(s: string)
    ensures Strip(" " + s) == Strip(s)
  {
    var t := " " + s;
    assert IsSpace(t[0]) && t[1..] == s;
    assert LStrip(t) == LStrip(s);
  }

  /** Splitting a string that starts with another character than the
      separator: the character joins the first piece. */
  lemma SplitOnCons(x: char, s: string, c: char)
    requires x != c
    ensures SplitOn([x] + s, c) == [[x] + SplitOn(s, c)[0]] + SplitOn(s, c)[1..]
  {
    assert ([x] + s)[1..] == s;
  }

  /** A separator without line breaks joins strings without line breaks
      into one without them. */
  lemma {:induction false} JoinNoBreak(sep: string, xs: seq<string>)
    requires '\n' !in sep && forall i | 0 <= i < |xs| :: '\n' !in xs[i]
    ensures '\n' !in Join(sep, xs)
    decreases |xs|
  {
    if |xs| > 1 {
      JoinNoBreak(sep, xs[1..]);
    }
  }

  /** A join ends the way its last string ends. */
  lemma {:induction false} JoinLast(sep: string, xs: seq<string>)
    requires |xs| >= 1 && xs[|xs| - 1] != []
    ensures |Join(sep, xs)| >= |xs[|xs| - 1]|
    ensures Join(sep, xs)[|Join(sep, xs)| - 1] == xs[|xs| - 1][|xs[|xs| - 1]| - 1]
    decreases |xs|
  {
    if |xs| > 1 {
      JoinLast(sep, xs[1..]);
    }
  }
}
