/** The automatic roles cog of autoroles.py. A role named like
    `(Auto) cool people + adults` is given to exactly the members who hold
    both named roles and taken from everybody else. The name prefix is a
    parameter: `ROLE_PREFIX`, the `AUTO_ROLE_PREFIX` setting, by default
    "(Auto)". */
module AutoRoles {
  import opened Wrappers
  import opened Platform
  import Text
  import RoleCaching

  /** The default of the `AUTO_ROLE_PREFIX` setting. */
  const DefaultPrefix: string := "(Auto)"

  // ---------------------------------------------------------------------
  // ROLE_REGEX: escape(prefix) + ' *([^ ].+[^ ] *(\+ *[^ ].+[^ ])*)', re.I

  /** ` *`: nothing but spaces. */
  predicate Spaces(s: string)
  {
    forall i | 0 <= i < |s| :: s[i] == ' '
  }

  /** `[^ ].+[^ ]`: at least three characters, the first and the last not a
      space, and no line break in between (`.` does not match one). */
  predicate Segment(s: string)
  {
    && |s| >= 3
    && s[0] != ' ' && s[|s| - 1] != ' '
    && forall i | 0 < i < |s| - 1 :: s[i] != '\n'
  }

  /** `(\+ *[^ ].+[^ ])*`: zero or more of a plus sign, spaces and a
      segment. */
  predicate Tail(t: string)
    decreases |t|
  {
    t == [] || exists i, j | 1 <= i <= j <= |t| :: t[0] == '+' && Spaces(t[1..i]) && Segment(t[i..j]) && Tail(t[j..])
  }

  /** The language of group 1, `[^ ].+[^ ] *(\+ *[^ ].+[^ ])*`. */
  predicate Body(b: string)
  {
    exists i, j | 0 <= i <= j <= |b| :: Segment(b[..i]) && Spaces(b[i..j]) && Tail(b[j..])
  }

  /** The string without its leading spaces. */
  function DropSpaces(s: string): (r: string)
    ensures |r| <= |s| && Spaces(s[..|s| - |r|])
    ensures r == [] || r[0] != ' '
  {
    if s != [] && s[0] == ' ' then DropSpaces(s[1..]) else s
  }

  /** The string without its trailing spaces. */
  function TrimSpaces(s: string): (r: string)
    ensures |r| <= |s| && r == s[..|r|]
    ensures forall i | |r| <= i < |s| :: s[i] == ' '
    ensures r == [] || r[|r| - 1] != ' '
  {
    if s != [] && s[|s| - 1] == ' ' then TrimSpaces(s[..|s| - 1]) else s
  }

  /** `ROLE_REGEX.fullmatch(name)`, giving group 1. The prefix is escaped
      and compared case-insensitively; the spaces after it are all taken by
      ` *`, since group 1 starts with a non-space. */
  function Match(prefix: string, name: string): Option<string>
  {
    if |prefix| <= |name| && Text.Lower(name[..|prefix|]) == Text.Lower(prefix) then
      var body := DropSpaces(name[|prefix|..]);
      if Body(body) then Some(body) else None
    else None
  }

  /** Each string stripped of surrounding whitespace. */
  function StripAll(xs: seq<string>): (r: seq<string>)
    ensures |r| == |xs|
  {
    if xs == [] then [] else [Text.Strip(xs[0])] + StripAll(xs[1..])
  }

  /** The `i`-th stripped piece is the `i`-th piece, stripped. */
  lemma {:induction false} StripAllAt(xs: seq<string>, i: nat)
    requires i < |xs|
    ensures StripAll(xs)[i] == Text.Strip(xs[i])
    decreases i
  {
    if i > 0 {
      StripAllAt(xs[1..], i - 1);
    }
  }

  /** `key_for_role(role)`: for a matching lowercased name, the tuple of the
      `+`-separated pieces of group 1, each stripped. */
  function KeyForRole(prefix: string, r: Role): (k: Option<seq<string>>)
    ensures k.Some? <==> Match(prefix, Text.Lower(r.name)).Some?
    ensures k.Some? ==> |k.value| >= 1
  {
    match Match(prefix, Text.Lower(r.name))
    case None => None
    case Some(body) => Some(StripAll(Text.SplitOn(body, '+')))
  }

  // ---------------------------------------------------------------------
  // What the pattern accepts

  /** A trailing-space trim keeps every non-space character. */
  lemma TrimKeeps(s: string, k: nat)
    requires k < |s| && s[k] != ' '
    ensures |TrimSpaces(s)| > k
  {
  }

  /** Whatever group 1 matches starts with a non-space and is at least
      three characters long once trailing spaces are trimmed. */
  lemma BodyShape(b: string)
    requires Body(b)
    ensures b != [] && b[0] != ' ' && |TrimSpaces(b)| >= 3
  {
    var i, j :| 0 <= i <= j <= |b| && Segment(b[..i]) && Spaces(b[i..j]) && Tail(b[j..]);
    assert b[0] == b[..i][0] && b[i - 1] == b[..i][i - 1];
    TrimKeeps(b, i - 1);
  }

  /** On a string without line breaks the converse holds: the `+` groups
      add nothing, a segment followed by spaces already covers it. */
  lemma ShapeBody(b: string)
    requires '\n' !in b
    requires b != [] && b[0] != ' ' && |TrimSpaces(b)| >= 3
    ensures Body(b)
  {
    var s := TrimSpaces(b);
    assert b[..|s|] == s;
    assert forall k | 0 < k < |s| - 1 :: s[k] == b[k];
    assert Segment(b[..|s|]);
    assert b[|s|..|b|] == b[|s|..];
    assert Tail(b[|b|..]);
  }

  /** Group 1 of a name without line breaks, exactly. */
  lemma BodyWithoutBreaks(b: string)
    requires '\n' !in b
    ensures Body(b) <==> b != [] && b[0] != ' ' && |TrimSpaces(b)| >= 3
  {
    if Body(b) {
      BodyShape(b);
    }
    if b != [] && b[0] != ' ' && |TrimSpaces(b)| >= 3 {
      ShapeBody(b);
    }
  }

  // ---------------------------------------------------------------------
  // What the key holds

  /** The key is group 1 cut at every `+`: its parts are the pieces,
      stripped, so none holds a `+` or starts or ends with whitespace. */
  lemma KeyPieces(prefix: string, r: Role)
    requires KeyForRole(prefix, r).Some?
    ensures var body := Match(prefix, Text.Lower(r.name)).value;
      var k := KeyForRole(prefix, r).value;
      && Text.Join("+", Text.SplitOn(body, '+')) == body
      && |k| == |Text.SplitOn(body, '+')|
      && forall i | 0 <= i < |k| :: k[i] == Text.Strip(Text.SplitOn(body, '+')[i]) && '+' !in k[i]
  {
    var body := Match(prefix, Text.Lower(r.name)).value;
    var pieces := Text.SplitOn(body, '+');
    Text.SplitOnJoin(body, '+');
    Text.SplitOnPieces(body, '+');
    var k := KeyForRole(prefix, r).value;
    forall i | 0 <= i < |k|
      ensures k[i] == Text.Strip(pieces[i]) && '+' !in k[i]
    {
      StripAllAt(pieces, i);
      Text.StripKeeps(pieces[i], '+');
    }
  }

  /** A part of a role name as the documentation writes it: no `+`, no
      line break, and no whitespace at either end. */
  predicate Part(s: string)
  {
    s != [] && !Text.IsSpace(s[0]) && !Text.IsSpace(s[|s| - 1]) && '+' !in s && '\n' !in s
  }

  /** Parts joined with ` + ` form a group 1 the pattern accepts, when
      there are two of them or the one part is long enough. */
  lemma JoinedIsBody(ps: seq<string>)
    requires |ps| >= 1 && forall i | 0 <= i < |ps| :: Part(ps[i])
    requires |ps| >= 2 || |ps[0]| >= 3
    ensures Body(Text.Join(" + ", ps))
  {
    var b := Text.Join(" + ", ps);
    Text.JoinNoBreak(" + ", ps);
    Text.JoinLast(" + ", ps);
    assert Text.IsSpace(' ');
    if |ps| == 1 {
      assert b == ps[0];
    } else {
      assert b == ps[0] + " + " + Text.Join(" + ", ps[1..]);
      assert b[0] == ps[0][0];
    }
    assert TrimSpaces(b) == b;
    ShapeBody(b);
  }

  lemma StripAllCons(x: string, ys: seq<string>)
    ensures StripAll([x] + ys) == [Text.Strip(x)] + StripAll(ys)
  {
    DropFirst(x, ys);
  }

  lemma DropFirst<T>(x: T, ys: seq<T>)
    ensures ([x] + ys)[1..] == ys
  {
  }

  /** A space before the first piece is stripped away. */
  lemma StripAllPadded(xs: seq<string>)
    requires |xs| >= 1
    ensures StripAll([" " + xs[0]] + xs[1..]) == StripAll(xs)
  {
    StripAllCons(" " + xs[0], xs[1..]);
    Text.StripSpaceBefore(xs[0]);
    StripAllCons(xs[0], xs[1..]);
    ConsSplit(xs);
  }

  lemma ConsSplit<T>(xs: seq<T>)
    requires |xs| >= 1
    ensures [xs[0]] + xs[1..] == xs
  {
  }

  /** Cutting parts joined with ` + ` at each `+` and stripping the pieces
      gives the parts back. */
  lemma {:induction false} JoinedParts(ps: seq<string>)
    requires |ps| >= 1 && forall i | 0 <= i < |ps| :: Part(ps[i])
    ensures StripAll(Text.SplitOn(Text.Join(" + ", ps), '+')) == ps
    decreases |ps|
  {
    if |ps| == 1 {
      OnePart(ps[0]);
    } else {
      JoinedParts(ps[1..]);
      JoinedStep(ps[0], ps[1..]);
      ConsSplit(ps);
    }
  }

  lemma OnePart(p: string)
    requires Part(p)
    ensures StripAll(Text.SplitOn(Text.Join(" + ", [p]), '+')) == [p]
  {
    Text.SplitOnAbsent(p, '+');
    Text.StripBare(p);
    StripAllCons(p, []);
  }

  /** One more part in front. */
  lemma JoinedStep(p: string, rest: seq<string>)
    requires Part(p) && |rest| >= 1
    ensures StripAll(Text.SplitOn(Text.Join(" + ", [p] + rest), '+'))
      == [p] + StripAll(Text.SplitOn(Text.Join(" + ", rest), '+'))
  {
    var j := Text.Join(" + ", rest);
    JoinCons(p, rest);
    JoinPlus(p, j);
    Text.SplitOnConcat(p + " ", '+', " " + j);
    assert '+' !in p + " ";
    Text.SplitOnAbsent(p + " ", '+');
    Text.SplitOnCons(' ', j, '+');
    StripAllPadded(Text.SplitOn(j, '+'));
    StripAllCons(p + " ", Text.SplitOn(" " + j, '+'));
    Text.StripSpaceAfter(p);
  }

  lemma JoinCons(p: string, rest: seq<string>)
    requires |rest| >= 1
    ensures Text.Join(" + ", [p] + rest) == p + " + " + Text.Join(" + ", rest)
  {
    DropFirst(p, rest);
  }

  lemma JoinPlus(p: string, j: string)
    ensures p + " + " + j == (p + " ") + ['+'] + (" " + j)
  {
  }

  /** A name made of the prefix, one space and a group 1 that starts
      with a non-space matches the prefix and has that group. */
  lemma PrefixedName(prefix: string, n: string, body: string)
    requires n == Text.Lower(prefix) + " " + body
    requires body != [] && body[0] != ' '
    ensures |prefix| <= |n| && Text.Lower(n[..|prefix|]) == Text.Lower(prefix)
    ensures DropSpaces(n[|prefix|..]) == body
  {
    var p, q := Text.Lower(prefix), " " + body;
    Text.LowerIdempotent(prefix);
    Text.AppendAssoc(p, " ", body);
    PrefixSplit(p, q, n);
    SpaceThen(body);
  }

  lemma PrefixSplit<T>(p: seq<T>, q: seq<T>, n: seq<T>)
    requires n == p + q
    ensures n[..|p|] == p && n[|p|..] == q
  {
  }

  lemma SpaceThen(body: string)
    requires body != [] && body[0] != ' '
    ensures DropSpaces(" " + body) == body
  {
    assert (" " + body)[1..] == body;
  }

  /** A role named in the documented form, the prefix, a space and the
      parts separated by ` + `, is keyed by exactly those parts. */
  lemma DocumentedNameKey(prefix: string, r: Role, ps: seq<string>)
    requires |ps| >= 1 && forall i | 0 <= i < |ps| :: Part(ps[i])
    requires |ps| >= 2 || |ps[0]| >= 3
    requires Text.Lower(r.name) == Text.Lower(prefix) + " " + Text.Join(" + ", ps)
    ensures KeyForRole(prefix, r) == Some(ps)
  {
    var body := Text.Join(" + ", ps);
    assert Text.IsSpace(' ');
    assert body[0] == ps[0][0] by {
      if |ps| > 1 {
        assert body == ps[0] + " + " + Text.Join(" + ", ps[1..]);
      }
    }
    PrefixedName(prefix, Text.Lower(r.name), body);
    JoinedIsBody(ps);
    JoinedParts(ps);
  }

  // ---------------------------------------------------------------------
  // autorole_member

  type Key = seq<string>

  /** `role_names`: the member's role names, lowercased. */
  function RoleNames(m: Member): set<string>
  {
    set x | x in m.roles :: Text.Lower(x.name)
  }

  /** The elements of a list, as `set(..)` gives them. */
  function Elements<T>(s: seq<T>): set<T>
  {
    set x | x in s
  }

  /** What unpacking `(req1, req2)` raises for a key of another length. */
  datatype AutoError = UnpackError

  /** The result of `autorole_member`: whether `member.edit` was called,
      and the member's role set afterwards. */
  datatype Change = Change(changed: bool, roles: set<Role>)

  /** `req1 in role_names and req2 in role_names`, for a two-part key. */
  predicate Holds(k: Key, names: set<string>)
  {
    |k| == 2 && k[0] in names && k[1] in names
  }

  /** Every key cached for the guild has two parts. */
  predicate TwoPart(c: RoleCaching.Cache<Key>, g: nat)
  {
    forall p | p in RoleCaching.PairsOf(c, g) :: |p.0| == 2
  }

  /** `to_add`: the cached roles whose two names are both held. */
  function ToAdd(c: RoleCaching.Cache<Key>, g: nat, names: set<string>): set<Role>
  {
    set p | p in RoleCaching.PairsOf(c, g) && Holds(p.0, names) :: p.1
  }

  /** `to_remove`: the other cached roles that the member holds. */
  function ToRemove(c: RoleCaching.Cache<Key>, g: nat, names: set<string>, held: seq<Role>): set<Role>
  {
    set p | p in RoleCaching.PairsOf(c, g) && !Holds(p.0, names) && p.1 in held :: p.1
  }

  /** `to_add` holds exactly the roles cached under a key the member's
      role names satisfy. */
  lemma AddMembers(c: RoleCaching.Cache<Key>, g: nat, names: set<string>)
    ensures forall x :: x in ToAdd(c, g, names) <==> exists k :: x in RoleCaching.Get(c, g, k) && Holds(k, names)
  {
    forall x: Role | exists k :: x in RoleCaching.Get(c, g, k) && Holds(k, names)
      ensures x in ToAdd(c, g, names)
    {
      var k :| x in RoleCaching.Get(c, g, k) && Holds(k, names);
      assert (k, x) in RoleCaching.PairsOf(c, g);
    }
  }

  /** `to_remove` holds exactly the held roles cached under a key the
      member's role names do not satisfy. */
  lemma RemoveMembers(c: RoleCaching.Cache<Key>, g: nat, names: set<string>, held: seq<Role>)
    ensures forall x :: x in ToRemove(c, g, names, held) <==> x in held && exists k :: x in RoleCaching.Get(c, g, k) && !Holds(k, names)
  {
    forall x: Role | x in held && exists k :: x in RoleCaching.Get(c, g, k) && !Holds(k, names)
      ensures x in ToRemove(c, g, names, held)
    {
      var k :| x in RoleCaching.Get(c, g, k) && !Holds(k, names);
      assert (k, x) in RoleCaching.PairsOf(c, g);
    }
  }

  /** `autorole_member(member)` as written: it raises when a cached key
      has other than two parts; otherwise it edits the member when either
      list is non-empty, to `(roles - to_remove) | to_add`. */
  function AutoroleAsWritten(c: RoleCaching.Cache<Key>, m: Member): Result<Change, AutoError>
  {
    if !TwoPart(c, m.guild) then Failure(UnpackError)
    else
      var add, remove := ToAdd(c, m.guild, RoleNames(m)), ToRemove(c, m.guild, RoleNames(m), m.roles);
      if add != {} || remove != {} then Success(Change(true, Elements(m.roles) - remove + add))
      else Success(Change(false, Elements(m.roles)))
  }

  /** `autorole_member(member)`: one pass over `roles_by_key`, in the
      cache's iteration order, building `to_add` and `to_remove`. */
  method AutoroleMember(cache: RoleCaching.RoleCache<Key>, m: Member) returns (res: Result<Change, AutoError>)
    ensures res == AutoroleAsWritten(cache.cache, m)
  {
    var names := RoleNames(m);
    var ps := cache.RolesByKey(m.guild);
    var toRemove: seq<Role>, toAdd: seq<Role> := [], [];
    var i := 0;
    while i < |ps|
      invariant 0 <= i <= |ps|
      invariant forall k, x | (k, x) in ps[..i] :: |k| == 2
      invariant forall x :: x in toAdd <==> exists k :: (k, x) in ps[..i] && Holds(k, names)
      invariant forall x :: x in toRemove <==> x in m.roles && exists k :: (k, x) in ps[..i] && !Holds(k, names)
    {
      var (k, role) := ps[i];
      assert ps[..i + 1] == ps[..i] + [(k, role)];
      if |k| != 2 {
        assert (k, role) in RoleCaching.PairsOf(cache.cache, m.guild);
        assert !TwoPart(cache.cache, m.guild);
        return Failure(UnpackError);
      }
      if k[0] in names && k[1] in names {
        toAdd := toAdd + [role];
      } else if role in m.roles {
        toRemove := toRemove + [role];
      }
      i := i + 1;
    }
    assert ps[..|ps|] == ps;
    forall p | p in RoleCaching.PairsOf(cache.cache, m.guild)
      ensures |p.0| == 2
    {
      assert (p.0, p.1) in ps;
    }
    assert TwoPart(cache.cache, m.guild);
    var add, remove := ToAdd(cache.cache, m.guild, names), ToRemove(cache.cache, m.guild, names, m.roles);
    AddMembers(cache.cache, m.guild, names);
    RemoveMembers(cache.cache, m.guild, names, m.roles);
    assert Elements(toAdd) == add;
    assert Elements(toRemove) == remove;
    assert toAdd != [] <==> add != {} by {
      if toAdd != [] { assert toAdd[0] in add; }
    }
    assert toRemove != [] <==> remove != {} by {
      if toRemove != [] { assert toRemove[0] in remove; }
    }
    if toAdd != [] || toRemove != [] {
      res := Success(Change(true, (Elements(m.roles) - Elements(toRemove)) + Elements(toAdd)));
    } else {
      res := Success(Change(false, Elements(m.roles)));
    }
  }

  /** A role cached under key `k` in a consistent cache belongs to the
      guild and has that key. */
  lemma CachedKey(c: RoleCaching.Cache<Key>, keyFor: Role -> Option<Key>, g: nat, k: Key, x: Role)
    requires RoleCaching.Consistent(c, keyFor) && x in RoleCaching.Get(c, g, k)
    ensures x.guild == g && keyFor(x) == Some(k) && x in RoleCaching.AllRolesOf(c, g)
  {
    assert x in c[g][k];
    RoleCaching.AllRolesExact(c, keyFor, g, x);
  }

  /** After the edit the member holds exactly the cached auto roles whose
      two names they hold, and their other roles as before. */
  lemma AutoroleOutcome(c: RoleCaching.Cache<Key>, keyFor: Role -> Option<Key>, m: Member)
    requires RoleCaching.Consistent(c, keyFor)
    requires AutoroleAsWritten(c, m).Success?
    ensures forall x :: x in AutoroleAsWritten(c, m).value.roles <==>
      if x in RoleCaching.AllRolesOf(c, m.guild) then Holds(keyFor(x).value, RoleNames(m)) else x in m.roles
  {
    var g, names := m.guild, RoleNames(m);
    AddMembers(c, g, names);
    RemoveMembers(c, g, names, m.roles);
    forall x: Role
      ensures x in ToAdd(c, g, names) <==> x in RoleCaching.AllRolesOf(c, g) && Holds(keyFor(x).value, names)
      ensures x in ToRemove(c, g, names, m.roles) <==> x in RoleCaching.AllRolesOf(c, g) && !Holds(keyFor(x).value, names) && x in m.roles
    {
      RoleCaching.AllRolesExact(c, keyFor, g, x);
      forall k | x in RoleCaching.Get(c, g, k)
        ensures keyFor(x) == Some(k)
      {
        CachedKey(c, keyFor, g, k, x);
      }
    }
  }

  // ---------------------------------------------------------------------
  // The two defects of autorole_member and the intended behaviour

  /** A role in the documented form with three or more parts, once cached,
      makes `autorole_member` raise for every member of its guild, although
      the cog's help text promises "two or more role names". */
  lemma ManyPartsFail(prefix: string, c: RoleCaching.Cache<Key>, r: Role, ps: seq<string>, m: Member)
    requires |ps| >= 3 && forall i | 0 <= i < |ps| :: Part(ps[i])
    requires Text.Lower(r.name) == Text.Lower(prefix) + " " + Text.Join(" + ", ps)
    requires r.guild == m.guild
    ensures AutoroleAsWritten(RoleCaching.Sync(c, k => KeyForRole(prefix, k), r), m) == Failure(UnpackError)
  {
    DocumentedNameKey(prefix, r, ps);
    var d := RoleCaching.Sync(c, k => KeyForRole(prefix, k), r);
    assert r in RoleCaching.Get(d, m.guild, ps);
    assert (ps, r) in RoleCaching.PairsOf(d, m.guild);
  }

  /** A member whose auto roles are already right, and who holds at least
      one, is edited to the role set they already have and counted as
      changed. */
  lemma SettledMemberChanged(c: RoleCaching.Cache<Key>, m: Member, k0: Key, x0: Role)
    requires TwoPart(c, m.guild)
    requires forall k, x | x in RoleCaching.Get(c, m.guild, k) :: Holds(k, RoleNames(m)) <==> x in m.roles
    requires x0 in RoleCaching.Get(c, m.guild, k0) && x0 in m.roles
    ensures AutoroleAsWritten(c, m) == Success(Change(true, Elements(m.roles)))
  {
    var g, names := m.guild, RoleNames(m);
    AddMembers(c, g, names);
    RemoveMembers(c, g, names, m.roles);
    assert x0 in ToAdd(c, g, names);
    assert ToRemove(c, g, names, m.roles) == {};
    forall x | x in ToAdd(c, g, names)
      ensures x in Elements(m.roles)
    {
      var k :| x in RoleCaching.Get(c, g, k) && Holds(k, names);
    }
    assert Elements(m.roles) - ToRemove(c, g, names, m.roles) + ToAdd(c, g, names) == Elements(m.roles);
  }

  /** Every part of the key is a held role name. */
  predicate Meets(k: Key, names: set<string>)
  {
    forall i | 0 <= i < |k| :: k[i] in names
  }

  /** `to_add` as intended: the satisfied auto roles the member lacks. */
  function IntendedAdd(c: RoleCaching.Cache<Key>, m: Member): set<Role>
  {
    set p | p in RoleCaching.PairsOf(c, m.guild) && Meets(p.0, RoleNames(m)) && p.1 !in m.roles :: p.1
  }

  /** `to_remove` as intended: the unsatisfied auto roles the member holds. */
  function IntendedRemove(c: RoleCaching.Cache<Key>, m: Member): set<Role>
  {
    set p | p in RoleCaching.PairsOf(c, m.guild) && !Meets(p.0, RoleNames(m)) && p.1 in m.roles :: p.1
  }

  /** `autorole_member` as intended: an auto role requires all of its
      listed names, whatever their number, and only roles that change are
      listed, so `changed` reports a real change. */
  function AutoroleIntended(c: RoleCaching.Cache<Key>, m: Member): Change
  {
    var add, remove := IntendedAdd(c, m), IntendedRemove(c, m);
    Change(add != {} || remove != {}, Elements(m.roles) - remove + add)
  }

  /** The intended `changed` holds exactly when the role set changes. */
  lemma IntendedChangedIffDiffers(c: RoleCaching.Cache<Key>, m: Member)
    ensures AutoroleIntended(c, m).changed <==> AutoroleIntended(c, m).roles != Elements(m.roles)
  {
    var add, remove := IntendedAdd(c, m), IntendedRemove(c, m);
    var after := AutoroleIntended(c, m).roles;
    if add != {} {
      var x :| x in add;
      assert x in after && x !in Elements(m.roles);
    } else if remove != {} {
      var x :| x in remove;
      assert x in Elements(m.roles) && x !in after;
    }
  }

  /** For a two-part key, all parts held is both parts held. */
  lemma MeetsTwo(k: Key, names: set<string>)
    requires |k| == 2
    ensures Meets(k, names) <==> Holds(k, names)
  {
    if Holds(k, names) {
      forall i | 0 <= i < |k|
        ensures k[i] in names
      {
        if i == 0 {
        } else {
          assert i == 1;
        }
      }
    }
  }

  /** On two-part keys the intended `to_remove` is the written one. */
  lemma IntendedRemoveAgrees(c: RoleCaching.Cache<Key>, m: Member)
    requires TwoPart(c, m.guild)
    ensures IntendedRemove(c, m) == ToRemove(c, m.guild, RoleNames(m), m.roles)
  {
    var g, names := m.guild, RoleNames(m);
    forall p | p in RoleCaching.PairsOf(c, g)
      ensures Meets(p.0, names) <==> Holds(p.0, names)
    {
      MeetsTwo(p.0, names);
    }
  }

  /** On two-part keys the intended `to_add` is the written one without
      the roles the member already holds. */
  lemma IntendedAddAgrees(c: RoleCaching.Cache<Key>, m: Member)
    requires TwoPart(c, m.guild)
    ensures IntendedAdd(c, m) == ToAdd(c, m.guild, RoleNames(m)) - Elements(m.roles)
  {
    var g, names := m.guild, RoleNames(m);
    forall p | p in RoleCaching.PairsOf(c, g)
      ensures Meets(p.0, names) <==> Holds(p.0, names)
    {
      MeetsTwo(p.0, names);
    }
  }

  /** In a consistent cache with two-part keys the intended edit leaves
      the member with the same roles as the code as written. */
  lemma IntendedAgrees(c: RoleCaching.Cache<Key>, keyFor: Role -> Option<Key>, m: Member)
    requires RoleCaching.Consistent(c, keyFor) && TwoPart(c, m.guild)
    ensures AutoroleAsWritten(c, m).Success?
    ensures AutoroleIntended(c, m).roles == AutoroleAsWritten(c, m).value.roles
  {
    var g, names := m.guild, RoleNames(m);
    IntendedRemoveAgrees(c, m);
    IntendedAddAgrees(c, m);
    AddMembers(c, g, names);
    RemoveMembers(c, g, names, m.roles);
    forall x | x in ToAdd(c, g, names)
      ensures x !in ToRemove(c, g, names, m.roles)
    {
      var k :| x in RoleCaching.Get(c, g, k) && Holds(k, names);
      forall k' | x in RoleCaching.Get(c, g, k')
        ensures k' == k
      {
        CachedKey(c, keyFor, g, k, x);
        CachedKey(c, keyFor, g, k', x);
      }
    }
  }

  /** The intended edit leaves the member with exactly the cached auto
      roles all of whose names they hold, and their other roles as before;
      it never raises, whatever the number of parts. */
  lemma IntendedOutcome(c: RoleCaching.Cache<Key>, keyFor: Role -> Option<Key>, m: Member)
    requires RoleCaching.Consistent(c, keyFor)
    ensures forall x :: x in AutoroleIntended(c, m).roles <==>
      if x in RoleCaching.AllRolesOf(c, m.guild) then Meets(keyFor(x).value, RoleNames(m)) else x in m.roles
  {
    var g, names := m.guild, RoleNames(m);
    forall x: Role
      ensures x in IntendedAdd(c, m) <==> x in RoleCaching.AllRolesOf(c, g) && Meets(keyFor(x).value, names) && x !in m.roles
      ensures x in IntendedRemove(c, m) <==> x in RoleCaching.AllRolesOf(c, g) && !Meets(keyFor(x).value, names) && x in m.roles
    {
      RoleCaching.AllRolesExact(c, keyFor, g, x);
      if x in RoleCaching.AllRolesOf(c, g) {
        assert (keyFor(x).value, x) in RoleCaching.PairsOf(c, g);
      }
      forall p | p in RoleCaching.PairsOf(c, g) && p.1 == x
        ensures keyFor(x) == Some(p.0)
      {
        CachedKey(c, keyFor, g, p.0, x);
      }
    }
  }

  /** `on_member_update(before, after)`: a member being processed, or
      whose roles did not change, is left alone; otherwise
      `autorole_member(after)` runs. `processing` is the `_processing` set
      of member ids. */
  function OnMemberUpdate(c: RoleCaching.Cache<Key>, processing: set<nat>, before: Member, after: Member)
    : (r: Option<Result<Change, AutoError>>)
    ensures r.None? <==> before.id in processing || before.roles == after.roles
    ensures r.Some? ==> r.value == AutoroleAsWritten(c, after)
  {
    if before.id in processing then None
    else if before.roles == after.roles then None
    else Some(AutoroleAsWritten(c, after))
  }

  // ---------------------------------------------------------------------
  // autoroles

  /** `autoroles`: the number of members whose roles were edited, in the
      guild's member order; the first member for whom `autorole_member`
      raises aborts the command. */
  function CountAsWritten(c: RoleCaching.Cache<Key>, members: seq<Member>): Result<nat, AutoError>
  {
    if members == [] then Success(0)
    else
      match CountAsWritten(c, members[..|members| - 1])
      case Failure(e) => Failure(e)
      case Success(n) =>
        match AutoroleAsWritten(c, members[|members| - 1])
        case Failure(e) => Failure(e)
        case Success(ch) => Success(n + if ch.changed then 1 else 0)
  }

  /** The members `autorole_member` reports as changed. */
  function Changed(c: RoleCaching.Cache<Key>, members: seq<Member>): (r: seq<Member>)
    ensures forall x | x in r :: x in members
  {
    if members == [] then []
    else
      var last := members[|members| - 1];
      Changed(c, members[..|members| - 1])
        + if AutoroleAsWritten(c, last).Success? && AutoroleAsWritten(c, last).value.changed then [last] else []
  }

  /** The command fails exactly when some member fails. */
  lemma {:induction false} CountFails(c: RoleCaching.Cache<Key>, members: seq<Member>)
    ensures CountAsWritten(c, members).Failure? <==> exists i | 0 <= i < |members| :: AutoroleAsWritten(c, members[i]).Failure?
    decreases |members|
  {
    if members != [] {
      var init := members[..|members| - 1];
      CountFails(c, init);
      assert forall i | 0 <= i < |init| :: init[i] == members[i];
    }
  }

  /** Otherwise it reports how many members were changed. */
  lemma {:induction false} CountChanged(c: RoleCaching.Cache<Key>, members: seq<Member>)
    requires CountAsWritten(c, members).Success?
    ensures CountAsWritten(c, members).value == |Changed(c, members)| <= |members|
    decreases |members|
  {
    if members != [] {
      CountChanged(c, members[..|members| - 1]);
    }
  }

  /** The `autoroles` command: `autorole_member` for each member of the
      guild, counting those it reports as changed. */
  method Autoroles(cache: RoleCaching.RoleCache<Key>, members: seq<Member>) returns (res: Result<nat, AutoError>)
    ensures res == CountAsWritten(cache.cache, members)
  {
    var fixed := 0;
    var i := 0;
    while i < |members|
      invariant 0 <= i <= |members|
      invariant CountAsWritten(cache.cache, members[..i]) == Success(fixed)
    {
      assert members[..i + 1][..i] == members[..i];
      var changed := AutoroleMember(cache, members[i]);
      if changed.Failure? {
        assert CountAsWritten(cache.cache, members[..i + 1]).Failure?;
        FailureStays(cache.cache, members, i + 1);
        return Failure(changed.error);
      }
      fixed := fixed + if changed.value.changed then 1 else 0;
      i := i + 1;
    }
    assert members[..|members|] == members;
    return Success(fixed);
  }

  /** Once the count has failed it stays failed. */
  lemma {:induction false} FailureStays(c: RoleCaching.Cache<Key>, members: seq<Member>, i: nat)
    requires i <= |members| && CountAsWritten(c, members[..i]).Failure?
    ensures CountAsWritten(c, members) == Failure(CountAsWritten(c, members[..i]).error)
    decreases |members| - i
  {
    if i < |members| {
      assert members[..i + 1][..i] == members[..i];
      FailureStays(c, members, i + 1);
    } else {
      assert members[..i] == members;
    }
  }
}
