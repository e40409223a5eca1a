/** The help-text pagination engine of formatter.py: a help message is a tree
    of nodes, `split` cuts a node into a head that fits a size budget and a
    remainder, and `paginate` repeats `split` until the remainder fits.

    Nodes are values here. The source builds each node completely before it
    places it in a parent and never changes a node once it is split, so
    nothing observable depends on object identity; the in-place phase
    (`Compound.__init__`, `append`, `add_line`) is the class `Builder`. */
module Formatter {
  import opened Wrappers
  import Text

  /** Which subclass of Compound a block is; this fixes its reserved size,
      its rendering and how `children` rebuilds its halves. */
  datatype Kind =
    | Compound
    | TextBlock(prefix: string, suffix: string)
    | HelpSection(name: string, hint: string)

  /** A Paginable. `reservedSize` is the bookkept `_reserved_size` of a
      TextBlock (a plain Compound reserves nothing). A block's bookkept
      `_size` is always the sum of its items' sizes (class `Builder` keeps
      that invariant while a block is built), so a finished block's size is
      computed from its items. */
  datatype Node =
    | Line(text: string)
    | Block(kind: Kind, items: seq<Node>, reservedSize: nat)

  /** What `split` returns: the head, and the remainder or None. */
  datatype Halves = Halves(first: Node, rest: Option<Node>)

  /** The exceptions the engine can raise. */
  datatype Error =
    | Unsplittable    // RuntimeError: a Line larger than the budget
    | NoFirstItem     // IndexError: `self._items[0]` of an empty block
    | ItemsExhausted  // IndexError: the greedy loop runs past the last item
    | NoneRemainder   // AttributeError: `paginate` calls `size()` on None
    | NoRender        // AttributeError: a plain Compound has no `render`

  /** The hint HelpSection gives the remainder of a split. */
  const ContinuedHint: string := "(cont'd)"

  /** HelpSection's prefix: the bold name if there is one, then the hint,
      then a newline. An empty name or hint adds nothing, as None does. */
  function SectionPrefix(name: string, hint: string): string
  {
    (if |name| > 0 then "**" + name + "**" else "") + hint + "\n"
  }

  function Prefix(k: Kind): string
  {
    match k
    case Compound => ""
    case TextBlock(p, _) => p
    case HelpSection(name, hint) => SectionPrefix(name, hint)
  }

  function Suffix(k: Kind): string
  {
    match k
    case TextBlock(_, s) => s
    case _ => ""
  }

  /** The reserved size a block of this kind is constructed with. */
  function BaseReserved(k: Kind): nat
  {
    match k
    case Compound => 0
    case TextBlock(p, s) => |p| + |s|
    case HelpSection(name, hint) => (if |name| > 0 then |name| + 4 else 0) + |hint| + 1
  }

  /** The reserved size is `len(prefix) + len(suffix)`, as TextBlock sets
      it (formatter.py:98). */
  lemma BaseReservedIsDecoration(k: Kind)
    ensures BaseReserved(k) == |Prefix(k)| + |Suffix(k)|
  {
  }

  /** `reserved_size()`: 0 for a Compound, the bookkept field otherwise. */
  function ReservedSize(n: Node): nat
    requires n.Block?
  {
    if n.kind.Compound? then 0 else n.reservedSize
  }

  /** `size()`: the text length of a Line; the items' sizes plus the
      reserved size of a block. It is not the length of `render()`. */
  function Size(n: Node): nat
  {
    match n
    case Line(t) => |t|
    case Block(_, items, _) => SumSizes(items) + ReservedSize(n)
  }

  /** The sizes of items added one after the other, as `append` adds them. */
  function SumSizes(s: seq<Node>): nat
  {
    if s == [] then 0 else SumSizes(s[..|s| - 1]) + Size(s[|s| - 1])
  }

  /** The bookkeeping invariant: every block's reserved size is at least
      what its prefix and suffix cost (`add_line` only adds to it). */
  predicate Valid(n: Node)
  {
    match n
    case Line(_) => true
    case Block(k, items, r) =>
      && r >= BaseReserved(k)
      && (forall i | 0 <= i < |items| :: Valid(items[i]))
  }

  predicate AllValid(s: seq<Node>)
  {
    forall i | 0 <= i < |s| :: Valid(s[i])
  }

  /** A freshly constructed block, `Compound(items)`, `TextBlock(items, ...)`
      or `HelpSection(items, ...)`: the items appended in order and the
      reserved size of its prefix and suffix alone. */
  function Make(k: Kind, items: seq<Node>): (r: Node)
    ensures Size(r) == SumSizes(items) + BaseReserved(k)
  {
    Block(k, items, BaseReserved(k))
  }

  /** A fresh block of valid items keeps the bookkeeping invariant. */
  lemma MakeValid(k: Kind, items: seq<Node>)
    requires AllValid(items)
    ensures Valid(Make(k, items))
  {
  }

  /** `children(first, rest)`: two fresh blocks of the same kind; a
      HelpSection's remainder gets the continuation hint. */
  function Children(k: Kind, first: seq<Node>, rest: seq<Node>): Halves
  {
    Halves(Make(k, first), Some(Make(ContinuedKind(k), rest)))
  }

  /** The kind of a remainder: a HelpSection keeps its name and takes the
      continuation hint; other kinds are kept as they are. */
  function ContinuedKind(k: Kind): Kind
  {
    match k
    case HelpSection(name, _) => HelpSection(name, ContinuedHint)
    case _ => k
  }

  /** The number of nodes of a tree: the measure `paginate` decreases. */
  function Count(n: Node): nat
  {
    match n
    case Line(_) => 1
    case Block(_, items, _) => 1 + Counts(items)
  }

  function Counts(s: seq<Node>): nat
  {
    if s == [] then 0 else Count(s[0]) + Counts(s[1..])
  }

  /** The texts of the leaf Lines, in reading order. */
  function Leaves(n: Node): seq<string>
  {
    match n
    case Line(t) => [t]
    case Block(_, items, _) => LeavesOf(items)
  }

  function LeavesOf(s: seq<Node>): seq<string>
  {
    if s == [] then [] else Leaves(s[0]) + LeavesOf(s[1..])
  }

  /** The leaves of a list of pages, one page after the other. */
  function PageLeaves(pages: seq<Node>): seq<string>
  {
    if pages == [] then [] else Leaves(pages[0]) + PageLeaves(pages[1..])
  }

  // ---------------------------------------------------------------------
  // Arithmetic over item lists

  /** A list is its first `i` items followed by the others. */
  lemma SplitAt(s: seq<Node>, i: nat)
    requires i <= |s|
    ensures s == s[..i] + s[i..]
  {
  }

  lemma {:induction false} SumSizesConcat(a: seq<Node>, b: seq<Node>)
    ensures SumSizes(a + b) == SumSizes(a) + SumSizes(b)
    decreases |b|
  {
    if b != [] {
      assert (a + b)[..|a + b| - 1] == a + b[..|b| - 1];
      SumSizesConcat(a, b[..|b| - 1]);
    } else {
      assert a + b == a;
    }
  }

  lemma {:induction false} CountsConcat(a: seq<Node>, b: seq<Node>)
    ensures Counts(a + b) == Counts(a) + Counts(b)
    decreases |a|
  {
    if a == [] {
      assert a + b == b;
    } else {
      assert (a + b)[1..] == a[1..] + b;
      CountsConcat(a[1..], b);
    }
  }

  lemma {:induction false} CountsAtLeastLength(s: seq<Node>)
    ensures Counts(s) >= |s|
    decreases |s|
  {
    if s != [] {
      CountsAtLeastLength(s[1..]);
    }
  }

  lemma LeavesOfOne(n: Node)
    ensures LeavesOf([n]) == Leaves(n)
  {
    assert [n][1..] == [];
  }

  lemma AppendAssoc<T>(a: seq<T>, b: seq<T>, c: seq<T>)
    ensures (a + b) + c == a + (b + c)
  {
  }

  lemma {:induction false} LeavesOfConcat(a: seq<Node>, b: seq<Node>)
    ensures LeavesOf(a + b) == LeavesOf(a) + LeavesOf(b)
    decreases |a|
  {
    if a == [] {
      assert a + b == b;
    } else {
      assert (a + b)[1..] == a[1..] + b;
      LeavesOfConcat(a[1..], b);
    }
  }

  lemma AllValidConcat(a: seq<Node>, b: seq<Node>)
    requires AllValid(a) && AllValid(b)
    ensures AllValid(a + b)
  {
    assert forall i | 0 <= i < |a + b| :: (a + b)[i] == if i < |a| then a[i] else b[i - |a|];
  }

  // ---------------------------------------------------------------------
  // split

  /** The greedy loop of `Compound.split`: from item `i` on, with `space`
      left, the index of the first item that no longer fits. Running past
      the last item is the IndexError of `self._items[i]`. */
  function GreedyCut(items: seq<Node>, space: int, i: nat): (r: Result<nat, Error>)
    requires i <= |items|
    decreases |items| - i
    ensures r.Success? ==> i <= r.value < |items|
    ensures r.Success? && i < |items| && Size(items[i]) <= space ==> r.value > i
    ensures r.Failure? ==> r.error == ItemsExhausted
  {
    if i == |items| then Failure(ItemsExhausted)
    else if Size(items[i]) <= space then GreedyCut(items, space - Size(items[i]), i + 1)
    else Success(i)
  }

  /** `split(max_size)` of any node. A node that fits comes back whole; a
      Line that does not fit raises; a block whose first item does not fit
      in what its decoration leaves splits that item alone, and otherwise
      cuts greedily at an item boundary. */
  function SplitOf(n: Node, maxSize: int): (r: Result<Halves, Error>)
    decreases n
    ensures r.Success? && r.value.rest.None? ==> Size(n) <= maxSize
  {
    if Size(n) <= maxSize then Success(Halves(n, None))
    else if n.Line? then Failure(Unsplittable)
    else if |n.items| == 0 then Failure(NoFirstItem)
    else
      var allowed := maxSize - ReservedSize(n);
      if Size(n.items[0]) > allowed then
        match SplitOf(n.items[0], allowed)
        case Failure(e) => Failure(e)
        case Success(h) => Success(Children(n.kind, [h.first], [h.rest.value] + n.items[1..]))
      else
        match GreedyCut(n.items, allowed, 0)
        case Failure(e) => Failure(e)
        case Success(i) => Success(Children(n.kind, n.items[..i], n.items[i..]))
  }

  /** A Line that does not fit raises RuntimeError, and so does indexing
      the first item of an empty block that does not fit. */
  lemma SplitOfStuck(n: Node, maxSize: int)
    requires Size(n) > maxSize && (n.Line? || n.items == [])
    ensures SplitOf(n, maxSize) == Failure(if n.Line? then Unsplittable else NoFirstItem)
  {
  }

  /** Overflow case: when the first item alone does not fit, only that item
      is split, at what the decoration leaves; its failure is the block's,
      and otherwise the head holds its head and the remainder its remainder
      followed by all other items. */
  lemma OverflowSplit(n: Node, maxSize: int)
    requires n.Block? && Size(n) > maxSize && |n.items| > 0
    requires Size(n.items[0]) > maxSize - ReservedSize(n)
    ensures SplitOf(n.items[0], maxSize - ReservedSize(n)).Failure? ==>
      SplitOf(n, maxSize) == SplitOf(n.items[0], maxSize - ReservedSize(n))
    ensures SplitOf(n.items[0], maxSize - ReservedSize(n)).Success? ==>
      var h := SplitOf(n.items[0], maxSize - ReservedSize(n)).value;
      && h.rest.Some?
      && SplitOf(n, maxSize) == Success(Children(n.kind, [h.first], [h.rest.value] + n.items[1..]))
  {
  }

  /** Greedy case: when the first item fits in what the decoration leaves,
      the head holds the items before the first misfit and the remainder
      the others; running out of items raises IndexError. */
  lemma GreedySplit(n: Node, maxSize: int)
    requires n.Block? && Size(n) > maxSize && |n.items| > 0
    requires Size(n.items[0]) <= maxSize - ReservedSize(n)
    ensures GreedyCut(n.items, maxSize - ReservedSize(n), 0).Failure? ==>
      SplitOf(n, maxSize) == Failure(ItemsExhausted)
    ensures GreedyCut(n.items, maxSize - ReservedSize(n), 0).Success? ==>
      var i := GreedyCut(n.items, maxSize - ReservedSize(n), 0).value;
      SplitOf(n, maxSize) == Success(Children(n.kind, n.items[..i], n.items[i..]))
  {
  }

  /** `split` as the source runs it: the greedy `while` loop updating
      `space_left` and `i`, and a recursive call for an oversized first
      item. */
  method Split(n: Node, maxSize: int) returns (r: Result<Halves, Error>)
    decreases n, 1
    ensures r == SplitOf(n, maxSize)
  {
    if Size(n) <= maxSize {
      return Success(Halves(n, None));
    }
    if n.Line? {
      return Failure(Unsplittable);
    }
    if |n.items| == 0 {
      return Failure(NoFirstItem);
    }
    r := SplitBlock(n, maxSize);
  }

  /** The part of `split` that cuts an oversized block with at least one
      item. */
  method SplitBlock(n: Node, maxSize: int) returns (r: Result<Halves, Error>)
    requires n.Block? && Size(n) > maxSize && |n.items| > 0
    decreases n, 0
    ensures r == SplitOf(n, maxSize)
  {
    var allowed := maxSize - ReservedSize(n);
    var items := n.items;
    var first := items[0];
    if Size(first) > allowed {
      var firstHalves := Split(first, allowed);
      OverflowSplit(n, maxSize);
      if firstHalves.Failure? {
        return firstHalves;
      }
      var firstFirst, firstRest := firstHalves.value.first, firstHalves.value.rest.value;
      return Success(Children(n.kind, [firstFirst], [firstRest] + items[1..]));
    }
    var cut := FirstMisfit(items, allowed);
    GreedySplit(n, maxSize);
    if cut.Failure? {
      return Failure(cut.error);
    }
    var i := cut.value;
    return Success(Children(n.kind, items[..i], items[i..]));
  }

  /** The greedy loop of `Compound.split` (formatter.py:84-88): it walks the
      items while each one still fits in `space_left`. */
  method FirstMisfit(items: seq<Node>, allowed: int) returns (r: Result<nat, Error>)
    ensures r == GreedyCut(items, allowed, 0)
  {
    var spaceLeft := allowed;
    var i := 0;
    while i < |items| && Size(items[i]) <= spaceLeft
      invariant 0 <= i <= |items|
      invariant GreedyCut(items, spaceLeft, i) == GreedyCut(items, allowed, 0)
      decreases |items| - i
    {
      spaceLeft := spaceLeft - Size(items[i]);
      i := i + 1;
    }
    if i == |items| {
      return Failure(ItemsExhausted);
    }
    return Success(i);
  }

  // ---------------------------------------------------------------------
  // What split guarantees

  /** The greedy loop stops at the first item that would overflow what is
      left: the prefix before it is the longest one that fits in `allowed`,
      and it runs off the end only when all items together fit. */
  lemma {:induction false} GreedyCutLongest(items: seq<Node>, allowed: int, space: int, j: nat)
    requires j <= |items| && space == allowed - SumSizes(items[..j]) && space >= 0
    ensures GreedyCut(items, space, j).Failure? ==> SumSizes(items) <= allowed
    ensures GreedyCut(items, space, j).Success? ==>
      var i := GreedyCut(items, space, j).value;
      SumSizes(items[..i]) <= allowed < SumSizes(items[..i + 1])
    decreases |items| - j
  {
    if j == |items| {
      assert items[..j] == items;
    } else {
      assert items[..j + 1][..j] == items[..j];
      if Size(items[j]) <= space {
        GreedyCutLongest(items, allowed, space - Size(items[j]), j + 1);
      }
    }
  }

  /** For a block whose first item fits in what the decoration
      leaves, the greedy cut succeeds: the head holds the longest prefix
      `items[..i]` that fits, with 1 <= i < |items|. */
  lemma GreedySplitLongest(n: Node, maxSize: int)
    requires n.Block? && Size(n) > maxSize && |n.items| > 0
    requires Size(n.items[0]) <= maxSize - ReservedSize(n)
    ensures SplitOf(n, maxSize).Success?
    ensures exists i :: (1 <= i < |n.items|
      && SumSizes(n.items[..i]) <= maxSize - ReservedSize(n) < SumSizes(n.items[..i + 1])
      && SplitOf(n, maxSize).value == Children(n.kind, n.items[..i], n.items[i..]))
  {
    var allowed := maxSize - ReservedSize(n);
    GreedySplit(n, maxSize);
    assert n.items[..0] == [];
    GreedyCutLongest(n.items, allowed, allowed, 0);
    assert n.items[..|n.items|] == n.items;
    var i := GreedyCut(n.items, allowed, 0).value;
    assert SplitOf(n, maxSize).value == Children(n.kind, n.items[..i], n.items[i..]);
  }

  /** Overflow case of `SplitKeepsLeaves`: if the first item's halves keep
      its leaves, the block's halves keep the block's leaves. */
  lemma OverflowKeepsLeaves(k: Kind, items: seq<Node>, h: Halves)
    requires |items| > 0 && h.rest.Some?
    requires Leaves(h.first) + Leaves(h.rest.value) == Leaves(items[0])
    ensures var c := Children(k, [h.first], [h.rest.value] + items[1..]);
      Leaves(c.first) + Leaves(c.rest.value) == LeavesOf(items)
  {
    var first, rest, others := h.first, h.rest.value, items[1..];
    LeavesOfConcat([rest], others);
    LeavesOfOne(first);
    LeavesOfOne(rest);
    AppendAssoc(Leaves(first), Leaves(rest), LeavesOf(others));
  }

  /** Greedy case of `SplitKeepsLeaves`: cutting the items at `i` keeps
      their leaves. */
  lemma GreedyKeepsLeaves(k: Kind, items: seq<Node>, i: nat)
    requires i <= |items|
    ensures var c := Children(k, items[..i], items[i..]);
      Leaves(c.first) + Leaves(c.rest.value) == LeavesOf(items)
  {
    SplitAt(items, i);
    LeavesOfConcat(items[..i], items[i..]);
  }

  /** Nothing is lost, duplicated or reordered: the head's leaves followed
      by the remainder's are the node's leaves. */
  lemma {:induction false} SplitKeepsLeaves(n: Node, maxSize: int)
    requires SplitOf(n, maxSize).Success?
    ensures var h := SplitOf(n, maxSize).value;
      if h.rest.None? then h.first == n else Leaves(h.first) + Leaves(h.rest.value) == Leaves(n)
    decreases n
  {
    if Size(n) > maxSize {
      assert n.Block? && n.items != [];
      var allowed := maxSize - ReservedSize(n);
      if Size(n.items[0]) > allowed {
        OverflowSplit(n, maxSize);
        SplitKeepsLeaves(n.items[0], allowed);
        OverflowKeepsLeaves(n.kind, n.items, SplitOf(n.items[0], allowed).value);
      } else {
        GreedySplit(n, maxSize);
        GreedyKeepsLeaves(n.kind, n.items, GreedyCut(n.items, allowed, 0).value);
      }
    }
  }

  /** Overflow case of `SplitFits`: valid halves of the first item whose
      head fits in `allowed` give valid halves of the block whose head fits
      in `allowed` plus the decoration. */
  lemma OverflowFits(k: Kind, items: seq<Node>, h: Halves, allowed: int)
    requires |items| > 0 && AllValid(items) && h.rest.Some?
    requires Size(h.first) <= allowed && Valid(h.first) && Valid(h.rest.value)
    ensures var c := Children(k, [h.first], [h.rest.value] + items[1..]);
      && Size(c.first) <= allowed + BaseReserved(k) && Valid(c.first) && Valid(c.rest.value)
  {
    assert SumSizes([h.first]) == Size(h.first) by {
      assert [h.first][..0] == [];
    }
    AllValidConcat([h.rest.value], items[1..]);
  }

  /** Greedy case of `SplitFits`: the longest prefix that fits in
      `allowed`, and what follows it, make valid halves. */
  lemma GreedyFits(k: Kind, items: seq<Node>, allowed: int)
    requires AllValid(items) && |items| > 0 && Size(items[0]) <= allowed
    requires GreedyCut(items, allowed, 0).Success?
    ensures var i := GreedyCut(items, allowed, 0).value;
      var c := Children(k, items[..i], items[i..]);
      && Size(c.first) <= allowed + BaseReserved(k) && Valid(c.first) && Valid(c.rest.value)
  {
    assert items[..0] == [];
    GreedyCutLongest(items, allowed, allowed, 0);
    var i := GreedyCut(items, allowed, 0).value;
    assert AllValid(items[..i]) && AllValid(items[i..]);
  }

  /** The head always fits, and both halves keep the bookkeeping
      invariant: their sizes are recomputed from their items and their
      reserved size is that of their prefix and suffix alone. */
  lemma {:induction false} SplitFits(n: Node, maxSize: int)
    requires Valid(n) && SplitOf(n, maxSize).Success?
    ensures var h := SplitOf(n, maxSize).value;
      && Size(h.first) <= maxSize && Valid(h.first)
      && (h.rest.Some? ==> Valid(h.rest.value))
    decreases n
  {
    if Size(n) > maxSize {
      assert n.Block? && n.items != [];
      assert BaseReserved(n.kind) <= ReservedSize(n);
      assert AllValid(n.items);
      var allowed := maxSize - ReservedSize(n);
      if Size(n.items[0]) > allowed {
        OverflowSplit(n, maxSize);
        SplitFits(n.items[0], allowed);
        OverflowFits(n.kind, n.items, SplitOf(n.items[0], allowed).value, allowed);
      } else {
        GreedySplit(n, maxSize);
        GreedyFits(n.kind, n.items, allowed);
      }
    }
  }

  /** The greedy loop's index never runs past the last item: the items
      together exceed `allowed` whenever the block does not fit. */
  lemma {:induction false} SplitInBounds(n: Node, maxSize: int)
    ensures SplitOf(n, maxSize) != Failure(ItemsExhausted)
    decreases n
  {
    if Size(n) <= maxSize {
    } else if n.Line? || n.items == [] {
      SplitOfStuck(n, maxSize);
    } else {
      var allowed := maxSize - ReservedSize(n);
      if Size(n.items[0]) > allowed {
        OverflowSplit(n, maxSize);
        SplitInBounds(n.items[0], allowed);
      } else {
        GreedySplit(n, maxSize);
        assert n.items[..0] == [];
        GreedyCutLongest(n.items, allowed, allowed, 0);
      }
    }
  }

  /** A node comes back whole, with no remainder, exactly when it fits. */
  lemma SplitWhole(n: Node, maxSize: int)
    ensures SplitOf(n, maxSize).Success? && SplitOf(n, maxSize).value.rest.None? <==> Size(n) <= maxSize
    ensures Size(n) <= maxSize ==> SplitOf(n, maxSize).value.first == n
  {
  }

  /** Overflow case of `SplitShrinks`. */
  lemma OverflowShrinks(items: seq<Node>, first: Node, rest: Node)
    requires |items| > 0 && Count(rest) < Count(items[0])
    ensures Counts([rest] + items[1..]) < Counts(items)
  {
    CountsConcat([rest], items[1..]);
    SplitAt(items, 1);
    CountsConcat([items[0]], items[1..]);
  }

  /** Greedy case of `SplitShrinks`. */
  lemma GreedyShrinks(items: seq<Node>, i: nat)
    requires 1 <= i <= |items|
    ensures Counts(items[i..]) < Counts(items)
  {
    SplitAt(items, i);
    CountsConcat(items[..i], items[i..]);
    CountsAtLeastLength(items[..i]);
  }

  /** The remainder of a split has fewer nodes than the node split, so
      `paginate` terminates. */
  lemma {:induction false} SplitShrinks(n: Node, maxSize: int)
    requires SplitOf(n, maxSize).Success? && SplitOf(n, maxSize).value.rest.Some?
    ensures Count(SplitOf(n, maxSize).value.rest.value) < Count(n)
    decreases n
  {
    assert Size(n) > maxSize && n.Block? && n.items != [];
    var allowed := maxSize - ReservedSize(n);
    if Size(n.items[0]) > allowed {
      OverflowSplit(n, maxSize);
      SplitShrinks(n.items[0], allowed);
      var h := SplitOf(n.items[0], allowed).value;
      OverflowShrinks(n.items, h.first, h.rest.value);
    } else {
      GreedySplit(n, maxSize);
      GreedyShrinks(n.items, GreedyCut(n.items, allowed, 0).value);
    }
  }

  /** `split` raises only RuntimeError for a Line and IndexError for a
      missing item. */
  lemma {:induction false} SplitErrors(n: Node, maxSize: int)
    requires SplitOf(n, maxSize).Failure?
    ensures SplitOf(n, maxSize).error in {Unsplittable, NoFirstItem, ItemsExhausted}
    decreases n
  {
    if n.Line? || n.items == [] {
      SplitOfStuck(n, maxSize);
    } else {
      var allowed := maxSize - ReservedSize(n);
      if Size(n.items[0]) > allowed {
        OverflowSplit(n, maxSize);
        SplitErrors(n.items[0], allowed);
      } else {
        GreedySplit(n, maxSize);
      }
    }
  }

  /** Both halves of a block are blocks of its kind, with its prefix and
      suffix; a HelpSection's remainder is relabelled with the
      continuation hint and keeps the name. */
  lemma SplitKeepsDecoration(n: Node, maxSize: int)
    requires n.Block? && SplitOf(n, maxSize).Success? && SplitOf(n, maxSize).value.rest.Some?
    ensures var h := SplitOf(n, maxSize).value;
      && h.first.Block? && h.rest.value.Block?
      && h.first.kind == n.kind
      && h.first.reservedSize == BaseReserved(n.kind)
      && h.rest.value.reservedSize == BaseReserved(h.rest.value.kind)
      && (if n.kind.HelpSection?
          then h.rest.value.kind == HelpSection(n.kind.name, ContinuedHint)
          else h.rest.value.kind == n.kind)
  {
  }

  // ---------------------------------------------------------------------
  // paginate

  /** `paginate(max_size)` as written: split while the remainder's size is
      at least `max_size`. A remainder of exactly `max_size` comes back
      whole with None beside it, and the next test calls `size()` on None. */
  function Pages(n: Node, maxSize: int): Result<seq<Node>, Error>
    decreases Count(n)
  {
    if Size(n) < maxSize then Success([n])
    else
      match SplitOf(n, maxSize)
      case Failure(e) => Failure(e)
      case Success(Halves(_, None)) => Failure(NoneRemainder)
      case Success(Halves(first, Some(rest))) =>
        SplitShrinks(n, maxSize);
        match Pages(rest, maxSize)
        case Failure(e) => Failure(e)
        case Success(ps) => Success([first] + ps)
  }

  /** `parts` followed by the pages of what is left, or the failure. */
  function Prepend(parts: seq<Node>, r: Result<seq<Node>, Error>): Result<seq<Node>, Error>
  {
    match r
    case Success(ps) => Success(parts + ps)
    case Failure(e) => Failure(e)
  }

  /** `paginate` as the source runs it: a `while` loop that appends each
      head to `parts` and continues with the remainder. */
  method Paginate(n: Node, maxSize: int) returns (r: Result<seq<Node>, Error>)
    ensures r == Pages(n, maxSize)
  {
    var current := n;
    var parts: seq<Node> := [];
    PrependNothing(Pages(n, maxSize));
    while Size(current) >= maxSize
      invariant Prepend(parts, Pages(current, maxSize)) == Pages(n, maxSize)
      decreases Count(current)
    {
      var halves := Split(current, maxSize);
      if halves.Failure? {
        return Failure(halves.error);
      }
      if halves.value.rest.None? {
        return Failure(NoneRemainder);
      }
      var first, rest := halves.value.first, halves.value.rest.value;
      SplitShrinks(current, maxSize);
      PagesStep(current, maxSize);
      PrependTwice(parts, [first], Pages(rest, maxSize));
      parts := parts + [first];
      current := rest;
    }
    return Success(parts + [current]);
  }

  lemma PrependNothing(r: Result<seq<Node>, Error>)
    ensures Prepend([], r) == r
  {
    if r.Success? {
      assert [] + r.value == r.value;
    }
  }

  lemma PrependTwice(a: seq<Node>, b: seq<Node>, r: Result<seq<Node>, Error>)
    ensures Prepend(a, Prepend(b, r)) == Prepend(a + b, r)
  {
    if r.Success? {
      assert a + (b + r.value) == (a + b) + r.value;
    }
  }

  /** One turn of the `paginate` loop: the head goes before the pages of
      the remainder. */
  lemma PagesStep(n: Node, maxSize: int)
    requires Size(n) >= maxSize
    requires SplitOf(n, maxSize).Success? && SplitOf(n, maxSize).value.rest.Some?
    ensures var h := SplitOf(n, maxSize).value;
      Pages(n, maxSize) == Prepend([h.first], Pages(h.rest.value, maxSize))
  {
  }

  /** Every page `paginate` returns fits: all have `size() <= max_size`,
      the last one `size() < max_size`, and each keeps the bookkeeping
      invariant. */
  lemma {:induction false} PagesFit(n: Node, maxSize: int)
    requires Valid(n) && Pages(n, maxSize).Success?
    ensures var ps := Pages(n, maxSize).value;
      && |ps| >= 1
      && Size(ps[|ps| - 1]) < maxSize
      && (forall i | 0 <= i < |ps| :: Size(ps[i]) <= maxSize && Valid(ps[i]))
    decreases Count(n)
  {
    if Size(n) >= maxSize {
      SplitFits(n, maxSize);
      SplitShrinks(n, maxSize);
      var h := SplitOf(n, maxSize).value;
      PagesFit(h.rest.value, maxSize);
      var rest := Pages(h.rest.value, maxSize).value;
      var ps := Pages(n, maxSize).value;
      assert ps == [h.first] + rest;
      assert ps[|ps| - 1] == rest[|rest| - 1];
      forall i | 0 <= i < |ps|
        ensures Size(ps[i]) <= maxSize && Valid(ps[i])
      {
        if i > 0 {
          assert ps[i] == rest[i - 1];
        }
      }
    }
  }

  /** The pages' leaves, one page after the other, are the node's leaves. */
  lemma {:induction false} PagesKeepLeaves(n: Node, maxSize: int)
    requires Pages(n, maxSize).Success?
    ensures PageLeaves(Pages(n, maxSize).value) == Leaves(n)
    decreases Count(n)
  {
    if Size(n) >= maxSize {
      SplitKeepsLeaves(n, maxSize);
      SplitShrinks(n, maxSize);
      var h := SplitOf(n, maxSize).value;
      PagesKeepLeaves(h.rest.value, maxSize);
      var ps := Pages(h.rest.value, maxSize).value;
      assert ([h.first] + ps)[1..] == ps;
    } else {
      assert PageLeaves([n]) == Leaves(n) + PageLeaves([]);
    }
  }

  /** A node of size exactly `max_size` makes `paginate` fail instead of
      returning it as the single page it fits on. */
  lemma PagesFailAtBoundary(n: Node, maxSize: int)
    requires Size(n) == maxSize
    ensures Pages(n, maxSize) == Failure(NoneRemainder)
  {
  }

  /** `paginate` with the loop condition `size() > max_size`, which stops
      as soon as the remainder fits. */
  function PagesIntended(n: Node, maxSize: int): Result<seq<Node>, Error>
    decreases Count(n)
  {
    if Size(n) <= maxSize then Success([n])
    else
      match SplitOf(n, maxSize)
      case Failure(e) => Failure(e)
      case Success(Halves(_, None)) => Failure(NoneRemainder)
      case Success(Halves(first, Some(rest))) =>
        SplitShrinks(n, maxSize);
        match PagesIntended(rest, maxSize)
        case Failure(e) => Failure(e)
        case Success(ps) => Success([first] + ps)
  }

  /** The intended pagination never reaches the None remainder, returns a
      node that fits as its only page, and every page it returns fits and
      keeps the bookkeeping invariant. */
  lemma {:induction false} PagesIntendedFit(n: Node, maxSize: int)
    requires Valid(n)
    ensures PagesIntended(n, maxSize) != Failure(NoneRemainder)
    ensures Size(n) <= maxSize ==> PagesIntended(n, maxSize) == Success([n])
    ensures PagesIntended(n, maxSize).Success? ==>
      var ps := PagesIntended(n, maxSize).value;
      && |ps| >= 1
      && (forall i | 0 <= i < |ps| :: Size(ps[i]) <= maxSize && Valid(ps[i]))
    decreases Count(n)
  {
    if Size(n) > maxSize && SplitOf(n, maxSize).Failure? {
      SplitErrors(n, maxSize);
    } else if Size(n) > maxSize {
      SplitFits(n, maxSize);
      var h := SplitOf(n, maxSize).value;
      if h.rest.Some? {
        SplitShrinks(n, maxSize);
        PagesIntendedFit(h.rest.value, maxSize);
      }
    }
  }

  /** Wherever the pagination as written succeeds, the intended one returns
      the same pages; they differ only where a remainder is exactly
      `max_size`. */
  lemma {:induction false} PagesIntendedAgrees(n: Node, maxSize: int)
    requires Pages(n, maxSize).Success?
    ensures PagesIntended(n, maxSize) == Pages(n, maxSize)
    decreases Count(n)
  {
    if Size(n) >= maxSize {
      SplitShrinks(n, maxSize);
      var h := SplitOf(n, maxSize).value;
      PagesIntendedAgrees(h.rest.value, maxSize);
    }
  }

  // ---------------------------------------------------------------------
  // A budget under which pagination cannot get stuck

  /** The reserve every page of a block's items must leave: its own
      reserved size, or that of the continued header its remainders get,
      whichever is larger. */
  function PageReserve(n: Node): (r: nat)
    requires n.Block?
    ensures r >= ReservedSize(n) && r >= BaseReserved(ContinuedKind(n.kind))
  {
    var c := BaseReserved(ContinuedKind(n.kind));
    if ReservedSize(n) >= c then ReservedSize(n) else c
  }

  /** Every Line fits in what `b` leaves once each enclosing block has
      taken its page reserve, and an empty block fits whole. A flat
      HelpSection of Lines satisfies it at `max_size` when each Line fits
      `max_size` less the longer of its two headers. */
  predicate FitsBudget(n: Node, b: int)
  {
    match n
    case Line(t) => |t| <= b
    case Block(_, items, _) =>
      && (items != [] || Size(n) <= b)
      && forall i | 0 <= i < |items| :: FitsBudget(items[i], b - PageReserve(n))
  }

  lemma {:induction false} FitsBudgetMono(n: Node, b: int, b': int)
    requires FitsBudget(n, b) && b <= b'
    ensures FitsBudget(n, b')
    decreases n
  {
    if n.Block? {
      forall i | 0 <= i < |n.items|
        ensures FitsBudget(n.items[i], b' - PageReserve(n))
      {
        FitsBudgetMono(n.items[i], b - PageReserve(n), b' - PageReserve(n));
      }
    }
  }

  /** A remainder block of the continued kind whose items fit what a
      reserve of at least its own leaves is within the budget. */
  lemma RemainderFits(k: Kind, rest: seq<Node>, c: int, reserve: int)
    requires rest != [] && reserve >= BaseReserved(ContinuedKind(k))
    requires forall i | 0 <= i < |rest| :: FitsBudget(rest[i], c - reserve)
    ensures FitsBudget(Make(ContinuedKind(k), rest), c)
  {
    var m := Make(ContinuedKind(k), rest);
    assert ContinuedKind(ContinuedKind(k)) == ContinuedKind(k);
    assert PageReserve(m) == BaseReserved(ContinuedKind(k));
    forall i | 0 <= i < |rest|
      ensures FitsBudget(rest[i], c - PageReserve(m))
    {
      FitsBudgetMono(rest[i], c - reserve, c - PageReserve(m));
    }
  }

  /** Within the budget `c`, `split` at any size from `c` up never fails on
      a node that does not fit, always leaves a remainder, and the
      remainder is again within the budget. */
  lemma {:induction false} SplitWithinBudget(n: Node, a: int, c: int)
    requires FitsBudget(n, c) && c <= a && Size(n) > a
    ensures SplitOf(n, a).Success? && SplitOf(n, a).value.rest.Some?
    ensures FitsBudget(SplitOf(n, a).value.rest.value, c)
    decreases n, 1
  {
    assert n.Block? && n.items != [];
    if Size(n.items[0]) > a - ReservedSize(n) {
      OverflowWithinBudget(n, a, c);
    } else {
      GreedyWithinBudget(n, a, c);
    }
  }

  /** Overflow case of `SplitWithinBudget`: the first item is itself within
      what the block leaves of the budget, so its split succeeds. */
  lemma {:induction false} OverflowWithinBudget(n: Node, a: int, c: int)
    requires n.Block? && n.items != [] && FitsBudget(n, c) && c <= a && Size(n) > a
    requires Size(n.items[0]) > a - ReservedSize(n)
    ensures SplitOf(n, a).Success? && SplitOf(n, a).value.rest.Some?
    ensures FitsBudget(SplitOf(n, a).value.rest.value, c)
    decreases n, 0
  {
    var allowed := a - ReservedSize(n);
    var inner := c - PageReserve(n);
    assert FitsBudget(n.items[0], inner);
    SplitWithinBudget(n.items[0], allowed, inner);
    OverflowSplit(n, a);
    var h := SplitOf(n.items[0], allowed).value;
    OverflowRemainderFits(n, h.rest.value, c);
  }

  /** The remainder of an overflow split, the first item's remainder
      followed by the other items, is within the budget. */
  lemma OverflowRemainderFits(n: Node, first: Node, c: int)
    requires n.Block? && n.items != [] && FitsBudget(n, c)
    requires FitsBudget(first, c - PageReserve(n))
    ensures FitsBudget(Make(ContinuedKind(n.kind), [first] + n.items[1..]), c)
  {
    var rest := [first] + n.items[1..];
    forall i | 0 <= i < |rest|
      ensures FitsBudget(rest[i], c - PageReserve(n))
    {
      if i > 0 {
        assert rest[i] == n.items[i];
      }
    }
    RemainderFits(n.kind, rest, c, PageReserve(n));
  }

  /** Greedy case of `SplitWithinBudget`: the remainder is a suffix of the
      block's items. */
  lemma GreedyWithinBudget(n: Node, a: int, c: int)
    requires n.Block? && n.items != [] && FitsBudget(n, c)
    requires Size(n) > a && Size(n.items[0]) <= a - ReservedSize(n)
    ensures SplitOf(n, a).Success? && SplitOf(n, a).value.rest.Some?
    ensures FitsBudget(SplitOf(n, a).value.rest.value, c)
  {
    var allowed := a - ReservedSize(n);
    GreedySplit(n, a);
    GreedySplitLongest(n, a);
    var i := GreedyCut(n.items, allowed, 0).value;
    var rest := n.items[i..];
    assert rest != [];
    forall j | 0 <= j < |rest|
      ensures FitsBudget(rest[j], c - PageReserve(n))
    {
      assert rest[j] == n.items[i + j];
    }
    RemainderFits(n.kind, rest, c, PageReserve(n));
  }

  /** A tree within the budget `max_size` paginates with the corrected
      loop: no RuntimeError, no IndexError, no None remainder. */
  lemma {:induction false} PagesIntendedWithinBudget(n: Node, maxSize: int)
    requires FitsBudget(n, maxSize)
    ensures PagesIntended(n, maxSize).Success?
    decreases Count(n)
  {
    if Size(n) > maxSize {
      SplitWithinBudget(n, maxSize, maxSize);
      SplitShrinks(n, maxSize);
      PagesIntendedWithinBudget(SplitOf(n, maxSize).value.rest.value, maxSize);
    }
  }

  /** The same tree under `paginate` as written either succeeds or stops
      at a remainder of exactly `max_size`. */
  lemma {:induction false} PagesWithinBudget(n: Node, maxSize: int)
    requires FitsBudget(n, maxSize)
    ensures Pages(n, maxSize).Success? || Pages(n, maxSize) == Failure(NoneRemainder)
    decreases Count(n)
  {
    if Size(n) > maxSize {
      SplitWithinBudget(n, maxSize, maxSize);
      SplitShrinks(n, maxSize);
      PagesWithinBudget(SplitOf(n, maxSize).value.rest.value, maxSize);
    }
  }

  // ---------------------------------------------------------------------
  // render

  /** `render()`: a Line is its text; a TextBlock or HelpSection is its
      prefix, its items' renders joined by newlines, and its suffix; a plain
      Compound has no `render`. */
  function Render(n: Node): Result<string, Error>
  {
    match n
    case Line(t) => Success(t)
    case Block(k, items, _) =>
      if k.Compound? then Failure(NoRender)
      else
        match RenderAll(items)
        case Failure(e) => Failure(e)
        case Success(parts) => Success(Prefix(k) + Text.Join("\n", parts) + Suffix(k))
  }

  function RenderAll(s: seq<Node>): (r: Result<seq<string>, Error>)
    ensures r.Success? ==> |r.value| == |s|
  {
    if s == [] then Success([])
    else
      match Render(s[0])
      case Failure(e) => Failure(e)
      case Success(t) =>
        match RenderAll(s[1..])
        case Failure(e) => Failure(e)
        case Success(ts) => Success([t] + ts)
  }

  /** `render_pages(max_size)`: the render of every page of `paginate`. */
  function RenderPages(n: Node, maxSize: int): Result<seq<string>, Error>
  {
    match Pages(n, maxSize)
    case Failure(e) => Failure(e)
    case Success(ps) => RenderAll(ps)
  }

  /** The first page is a block of the node's kind and every later page one
      of its continued kind: a HelpSection's later pages carry the
      continuation hint. */
  lemma {:induction false} PagesKeepKind(n: Node, maxSize: int)
    requires n.Block? && Pages(n, maxSize).Success?
    ensures var ps := Pages(n, maxSize).value;
      && |ps| >= 1
      && forall i | 0 <= i < |ps| :: ps[i].Block? && ps[i].kind == if i == 0 then n.kind else ContinuedKind(n.kind)
    decreases Count(n)
  {
    if Size(n) >= maxSize {
      SplitKeepsDecoration(n, maxSize);
      SplitShrinks(n, maxSize);
      var h := SplitOf(n, maxSize).value;
      PagesKeepKind(h.rest.value, maxSize);
      var ps := Pages(h.rest.value, maxSize).value;
      assert ContinuedKind(ContinuedKind(n.kind)) == ContinuedKind(n.kind);
      assert forall i | 1 <= i < |ps| + 1 :: ([h.first] + ps)[i] == ps[i - 1];
    }
  }

  /** A plain Compound has no `render`, and neither have its pages:
      `render_pages` on one always fails. */
  lemma CompoundPagesNoRender(n: Node, maxSize: int)
    requires n.Block? && n.kind.Compound? && Pages(n, maxSize).Success?
    ensures RenderPages(n, maxSize) == Failure(NoRender)
  {
    PagesKeepKind(n, maxSize);
    var ps := Pages(n, maxSize).value;
    assert Render(ps[0]) == Failure(NoRender);
  }

  // ---------------------------------------------------------------------
  // Two worked cases

  /** A section "Commands" of five 5-character lines at a budget that fits
      three: the head keeps the header and the first three lines, the
      remainder the other two under the continued header. */
  lemma SplitCommandsSection()
    ensures var n := Make(HelpSection("Commands", ""), Lines(["aaaaa", "bbbbb", "ccccc", "ddddd", "eeeee"]));
      var h := SplitOf(n, 28);
      && h.Success? && h.value.rest.Some?
      && h.value.first.kind == HelpSection("Commands", "")
      && h.value.rest.value.kind == HelpSection("Commands", ContinuedHint)
      && h.value.first.items == Lines(["aaaaa", "bbbbb", "ccccc"])
      && h.value.rest.value.items == Lines(["ddddd", "eeeee"])
  {
    var ts := ["aaaaa", "bbbbb", "ccccc", "ddddd", "eeeee"];
    var items := Lines(ts);
    var n := Make(HelpSection("Commands", ""), items);
    LinesSize(ts);
    assert Size(n) == 38 && ReservedSize(n) == 13;
    CommandsCut(ts);
    GreedySplit(n, 28);
    assert items[..3] == Lines(ts[..3]);
    assert ts[3..] == ["ddddd", "eeeee"];
    assert items[3..] == Lines(ts[3..]);
    assert SplitOf(n, 28) == Success(Children(n.kind, items[..3], items[3..]));
  }

  lemma CommandsCut(ts: seq<string>)
    requires ts == ["aaaaa", "bbbbb", "ccccc", "ddddd", "eeeee"]
    ensures GreedyCut(Lines(ts), 15, 0) == Success(3)
  {
    var items := Lines(ts);
    assert |items| == 5 && forall i | 0 <= i < 5 :: Size(items[i]) == 5;
    assert GreedyCut(items, 0, 3) == Success(3);
    assert GreedyCut(items, 5, 2) == GreedyCut(items, 0, 3);
    assert GreedyCut(items, 10, 1) == GreedyCut(items, 5, 2);
  }

  /** The headers of the two halves: the bold name, and the bold name
      followed by the continuation hint. */
  lemma CommandsHeaders()
    ensures SectionPrefix("Commands", "") == "**Commands**\n"
    ensures SectionPrefix("Commands", ContinuedHint) == "**Commands**(cont'd)\n"
  {
  }

  /** A section "Roles" of four 10-character lines at a budget of 25: the
      first page takes one line, and the continued header leaves 7
      characters for the next line, which cannot be split. Every Line fits
      the budget, but not what the continued header leaves of it. */
  lemma PaginateRolesSection()
    ensures var n := Make(HelpSection("Roles", ""), Lines(["aaaaaaaaaa", "bbbbbbbbbb", "cccccccccc", "dddddddddd"]));
      && SplitOf(n, 25).Success?
      && SplitOf(n, 25).value.first.items == Lines(["aaaaaaaaaa"])
      && Pages(n, 25) == Failure(Unsplittable)
      && !FitsBudget(n, 25)
  {
    var ts := ["aaaaaaaaaa", "bbbbbbbbbb", "cccccccccc", "dddddddddd"];
    var items := Lines(ts);
    var n := Make(HelpSection("Roles", ""), items);
    LinesSize(ts);
    assert Size(n) == 50 && ReservedSize(n) == 10;
    assert GreedyCut(items, 15, 0) == Success(1);
    GreedySplit(n, 25);
    assert items[..1] == Lines(ts[..1]);
    var rest := Make(HelpSection("Roles", ContinuedHint), items[1..]);
    assert SplitOf(n, 25) == Success(Halves(Make(HelpSection("Roles", ""), items[..1]), Some(rest)));
    LinesSize(ts[1..]);
    assert items[1..] == Lines(ts[1..]);
    assert Size(rest) == 48 && ReservedSize(rest) == 18;
    OverflowSplit(rest, 25);
    SplitShrinks(n, 25);
    assert Pages(rest, 25) == Failure(Unsplittable);
    assert PageReserve(n) == 18 && Size(items[0]) == 10;
  }

  // ---------------------------------------------------------------------
  // Building blocks

  /** A Line per string, in order. */
  function Lines(ts: seq<string>): (r: seq<Node>)
    ensures |r| == |ts|
    ensures forall i | 0 <= i < |ts| :: r[i] == Line(ts[i])
  {
    if ts == [] then [] else [Line(ts[0])] + Lines(ts[1..])
  }

  lemma LinesSnoc(ts: seq<string>, t: string)
    ensures Lines(ts + [t]) == Lines(ts) + [Line(t)]
  {
    assert forall i | 0 <= i < |ts| :: (ts + [t])[i] == ts[i];
  }

  lemma SumSizesHead(s: seq<Node>)
    requires s != []
    ensures SumSizes(s) == Size(s[0]) + SumSizes(s[1..])
  {
    SplitAt(s, 1);
    SumSizesConcat(s[..1], s[1..]);
    assert s[..1][..0] == [];
  }

  /** The Lines of some texts are as large as the texts are long. */
  lemma {:induction false} LinesSize(ts: seq<string>)
    ensures SumSizes(Lines(ts)) == Text.TotalLength(ts)
  {
    if ts != [] {
      SumSizesHead(Lines(ts));
      assert Lines(ts)[1..] == Lines(ts[1..]);
      LinesSize(ts[1..]);
    }
  }

  /** The Lines of some texts render as those texts. */
  lemma {:induction false} LinesRender(ts: seq<string>)
    ensures RenderAll(Lines(ts)) == Success(ts)
  {
    if ts != [] {
      assert Lines(ts)[1..] == Lines(ts[1..]);
      LinesRender(ts[1..]);
      assert [ts[0]] + ts[1..] == ts;
    }
  }

  /** A TextBlock or HelpSection of Lines renders as its decoration, its
      texts and a newline between each two of them. */
  lemma RenderLinesLength(k: Kind, ts: seq<string>, r: nat)
    requires !k.Compound? && |ts| >= 1
    ensures Render(Block(k, Lines(ts), r)).Success?
    ensures |Render(Block(k, Lines(ts), r)).value| == BaseReserved(k) + Text.TotalLength(ts) + |ts| - 1
  {
    LinesRender(ts);
    Text.JoinLength("\n", ts);
    BaseReservedIsDecoration(k);
  }

  /** A block under construction. `Compound.__init__`, `append` and
      `TextBlock.add_line` change `_items`, `_size` and `_reserved_size`
      in place; `Value` is the finished node. */
  class Builder {
    const kind: Kind
    var items: seq<Node>
    var size: nat
    var reservedSize: nat

    /** `_size` is the sum of the items' sizes, and `_reserved_size`
        covers at least the prefix and suffix. */
    predicate Valid()
      reads this
    {
      size == SumSizes(items) && reservedSize >= BaseReserved(kind)
    }

    function Value(): Node
      reads this
    {
      Block(kind, items, reservedSize)
    }

    /** `Compound(items)`, `TextBlock(items, prefix=.., suffix=..)` or
        `HelpSection(items, name=.., hint=..)`: start empty and append
        each item; a TextBlock then reserves its prefix and suffix. */
    constructor (k: Kind, initial: seq<Node>)
      ensures Valid() && kind == k
      ensures Value() == Make(k, initial)
    {
      kind := k;
      items := [];
      size := 0;
      reservedSize := BaseReserved(k);
      new;
      var i := 0;
      while i < |initial|
        invariant 0 <= i <= |initial|
        invariant Valid() && items == initial[..i] && reservedSize == BaseReserved(k)
      {
        Append(initial[i]);
        assert initial[..i + 1] == initial[..i] + [initial[i]];
        i := i + 1;
      }
      assert initial[..|initial|] == initial;
    }

    /** `append(item)`: the item goes last and its size is added. */
    method Append(item: Node)
      requires Valid()
      modifies this
      ensures Valid()
      ensures items == old(items) + [item] && size == old(size) + Size(item)
      ensures reservedSize == old(reservedSize)
    {
      assert (items + [item])[..|items|] == items;
      size := size + Size(item);
      items := items + [item];
    }

    /** `add_line(line, empty=..)`: the line, and an empty line after it
        when `empty`, each with the newline it will be joined with
        reserved. */
    method AddLine(line: string, empty: bool)
      requires Valid() && !kind.Compound?
      modifies this
      ensures Valid()
      ensures items == old(items) + (if empty then [Line(line), Line("")] else [Line(line)])
      ensures size == old(size) + |line|
      ensures reservedSize == old(reservedSize) + (if empty then 2 else 1)
    {
      Append(Line(line));
      if empty {
        Append(Line(""));
      }
      reservedSize := reservedSize + if empty then 2 else 1;
    }

    /** `size()`: the bookkept sizes, which agree with the node's size. */
    method GetSize() returns (s: nat)
      requires Valid()
      ensures s == Size(Value())
    {
      s := size + if kind.Compound? then 0 else reservedSize;
    }
  }

  /** A builder whose items keep the bookkeeping invariant builds a node
      that keeps it. */
  lemma BuilderValid(b: Builder)
    requires b.Valid() && AllValid(b.items)
    ensures Valid(b.Value())
  {
  }

  /** `format_section(name, commands)`: a HelpSection named `name` with
      a line per command (their formatting as text is not modelled) and
      an empty line at the end. Its render is `size()` plus a newline per
      command, less one. */
  method FormatSection(name: string, commands: seq<string>) returns (r: Node)
    ensures r == Block(HelpSection(name, ""), Lines(commands + [""]), BaseReserved(HelpSection(name, "")) + 1)
    ensures Valid(r)
    ensures Render(r).Success? && |Render(r).value| + 1 == Size(r) + |commands|
  {
    var section := new Builder(HelpSection(name, ""), []);
    var i := 0;
    while i < |commands|
      invariant 0 <= i <= |commands|
      invariant section.Valid() && section.kind == HelpSection(name, "")
      invariant section.items == Lines(commands[..i])
      invariant section.reservedSize == BaseReserved(HelpSection(name, ""))
    {
      section.Append(Line(commands[i]));
      assert commands[..i + 1] == commands[..i] + [commands[i]];
      LinesSnoc(commands[..i], commands[i]);
      i := i + 1;
    }
    section.AddLine("", false);
    assert commands[..|commands|] == commands;
    LinesSnoc(commands, "");
    r := section.Value();
    assert r == Block(HelpSection(name, ""), Lines(commands + [""]), BaseReserved(HelpSection(name, "")) + 1);
    SectionRender(name, commands);
  }

  lemma SectionRender(name: string, commands: seq<string>)
    ensures var r := Block(HelpSection(name, ""), Lines(commands + [""]), BaseReserved(HelpSection(name, "")) + 1);
      && Valid(r)
      && Render(r).Success? && |Render(r).value| + 1 == Size(r) + |commands|
  {
    var k := HelpSection(name, "");
    var ts := commands + [""];
    LinesSize(ts);
    RenderLinesLength(k, ts, BaseReserved(k) + 1);
  }
}
