/** `utils.pretty_list`: names joined as an English list. */
module Utils {
  import Text

  /** Each name wrapped in bold markers. */
  function Bolded(names: seq<string>): (r: seq<string>)
    ensures |r| == |names|
    ensures forall i | 0 <= i < |names| :: r[i] == "**" + names[i] + "**"
  {
    if names == [] then [] else ["**" + names[0] + "**"] + Bolded(names[1..])
  }

  /** `pretty_list(names, bold, conjunction, empty)`. A conjunction of ""
      stands for both the empty string and None, which the source treats
      alike. */
  function PrettyList(names: seq<string>, bold: bool, conjunction: string, empty: string): (r: string)
    ensures names == [] ==> r == empty
  {
    if names == [] then empty
    else ListOf(if bold then Bolded(names) else names, Conjunction(conjunction))
  }

  /** The separator before the last name: a space and the conjunction, or
      nothing. */
  function Conjunction(conjunction: string): string
  {
    if |conjunction| > 0 then " " + conjunction else ""
  }

  /** The three shapes of a non-empty list. */
  function ListOf(ns: seq<string>, sep: string): string
    requires |ns| >= 1
  {
    if |ns| == 1 then ns[0]
    else if |ns| == 2 then ns[0] + sep + " " + ns[1]
    else Text.Join(", ", ns[..|ns| - 1]) + "," + sep + " " + ns[|ns| - 1]
  }

  /** The parts in order with `seps[i]` between `parts[i]` and `parts[i+1]`. */
  function Interleave(parts: seq<string>, seps: seq<string>): string
    requires |parts| >= 1 && |seps| == |parts| - 1
  {
    if |parts| == 1 then parts[0]
    else parts[0] + seps[0] + Interleave(parts[1..], seps[1..])
  }

  /** `n` copies of `s`. */
  function Repeat(s: string, n: nat): (r: seq<string>)
    ensures |r| == n && forall i | 0 <= i < n :: r[i] == s
  {
    if n == 0 then [] else [s] + Repeat(s, n - 1)
  }

  /** What `pretty_list` puts between consecutive names of an `n`-name
      list: ", " between all but the last two, then the conjunction. */
  function ListSeparators(n: nat, sep: string): (r: seq<string>)
    requires n >= 1
    ensures |r| == n - 1
  {
    if n == 1 then []
    else if n == 2 then [sep + " "]
    else Repeat(", ", n - 2) + ["," + sep + " "]
  }

  /** Joining is interleaving with the same separator everywhere. */
  lemma {:induction false} JoinIsInterleave(sep: string, xs: seq<string>)
    requires |xs| >= 1
    ensures Text.Join(sep, xs) == Interleave(xs, Repeat(sep, |xs| - 1))
    decreases |xs|
  {
    if |xs| > 1 {
      JoinIsInterleave(sep, xs[1..]);
      assert Repeat(sep, |xs| - 1)[1..] == Repeat(sep, |xs| - 2);
    }
  }

  /** Interleaving one more part at the end. */
  lemma {:induction false} InterleaveSnoc(parts: seq<string>, seps: seq<string>, t: string, last: string)
    requires |parts| >= 1 && |seps| == |parts| - 1
    ensures Interleave(parts + [last], seps + [t]) == Interleave(parts, seps) + t + last
    decreases |parts|
  {
    if |parts| == 1 {
      assert (parts + [last])[1..] == [last];
    } else {
      InterleaveSnoc(parts[1..], seps[1..], t, last);
      assert (parts + [last])[1..] == parts[1..] + [last];
      assert (seps + [t])[1..] == seps[1..] + [t];
    }
  }

  /** Every name appears once and in input order (bold when `bold`),
      separated by ", " and, before the last, the conjunction:
      "a", "a and b", "a, b, and c". */
  lemma PrettyListInOrder(names: seq<string>, bold: bool, conjunction: string, empty: string)
    requires names != []
    ensures PrettyList(names, bold, conjunction, empty)
      == Interleave(if bold then Bolded(names) else names, ListSeparators(|names|, Conjunction(conjunction)))
  {
    ListOfInOrder(if bold then Bolded(names) else names, Conjunction(conjunction));
  }

  lemma ListOfInOrder(ns: seq<string>, sep: string)
    requires |ns| >= 1
    ensures ListOf(ns, sep) == Interleave(ns, ListSeparators(|ns|, sep))
  {
    if |ns| == 2 {
      PairInOrder(ns, sep);
    } else if |ns| > 2 {
      LongInOrder(ns, sep);
    }
  }

  lemma LastSplit<T>(s: seq<T>)
    requires |s| > 0
    ensures s[..|s| - 1] + [s[|s| - 1]] == s
  {
  }

  lemma PairInOrder(ns: seq<string>, sep: string)
    requires |ns| == 2
    ensures ListOf(ns, sep) == Interleave(ns, ListSeparators(2, sep))
  {
    assert Interleave(ns, [sep + " "]) == ns[0] + (sep + " ") + ns[1];
  }

  lemma LongInOrder(ns: seq<string>, sep: string)
    requires |ns| > 2
    ensures ListOf(ns, sep) == Interleave(ns, ListSeparators(|ns|, sep))
  {
    var n := |ns|;
    var init, last, t := ns[..n - 1], ns[n - 1], "," + sep + " ";
    var j := Text.Join(", ", init);
    JoinIsInterleave(", ", init);
    InterleaveSnoc(init, Repeat(", ", n - 2), t, last);
    LastSplit(ns);
    calc {
      ListOf(ns, sep);
      j + "," + sep + " " + last;
      { assert j + "," + sep + " " == j + t; }
      j + t + last;
      Interleave(init + [last], Repeat(", ", n - 2) + [t]);
    }
  }

  /** A bold list is empty only when there are no names and `empty` is
      empty: a caller can test the result for truthiness. */
  lemma BoldListEmpty(names: seq<string>, conjunction: string, empty: string)
    ensures PrettyList(names, true, conjunction, empty) == "" <==> names == [] && empty == ""
  {
    if names != [] {
      var ns := Bolded(names);
      assert |ns[|ns| - 1]| >= 4;
      assert |ListOf(ns, Conjunction(conjunction))| >= |ns[|ns| - 1]|;
    }
  }
}
