/** The opt-in roles cog of optroles.py: roles whose name starts with a
    configured prefix can be joined and left by users themselves. The
    prefix is a parameter: `ROLE_PREFIX`, the `OPT_ROLE_PREFIX` setting
    (by default "In:") lowercased. */
module OptRoles {
  import opened Wrappers
  import opened Platform
  import Text
  import Utils
  import RoleCaching

  /** `ROLE_PREFIX` from its setting. */
  function RolePrefix(setting: string): string
  {
    Text.Lower(setting)
  }

  /** The prefix is the setting lowercased once: a role is opt-in when its
      name starts with the setting in any letter case, the default "In:"
      becomes "in:", and a role named exactly the setting, in any case, gets
      the empty key and is never cached. */
  lemma RolePrefixKeys(setting: string, r: Role)
    ensures KeyForRole(RolePrefix(setting), r).Some? <==> Text.StartsWith(Text.Lower(r.name), Text.Lower(setting))
    ensures Text.Lower(r.name) == Text.Lower(setting) ==>
      KeyForRole(RolePrefix(setting), r) == Some("") && CacheKey(RolePrefix(setting), r).None?
    ensures RolePrefix("In:") == "in:"
  {
    var p := RolePrefix(setting);
    if Text.Lower(r.name) == p {
      assert p[..|p|] == p && p[|p|..] == "";
      assert Text.StartsWith(p, p);
    }
  }

  /** `pretty_role(role)`: the lowercased name without the prefix. */
  function PrettyRole(prefix: string, r: Role): (s: string)
    ensures var name := Text.Lower(r.name);
      if Text.StartsWith(name, prefix) then prefix + s == name else s == name
  {
    var name := Text.Lower(r.name);
    if Text.StartsWith(name, prefix) then name[|prefix|..] else name
  }

  /** `key_for_role(role)`: the name without the prefix for a prefixed
      role, None for every other role. */
  function KeyForRole(prefix: string, r: Role): (k: Option<string>)
    ensures k.Some? <==> Text.StartsWith(Text.Lower(r.name), prefix)
  {
    var name := Text.Lower(r.name);
    if Text.StartsWith(name, prefix) then Some(name[|prefix|..]) else None
  }

  /** A role's key is the name it is shown under. */
  lemma KeyIsPrettyName(prefix: string, r: Role)
    ensures KeyForRole(prefix, r).Some? ==> KeyForRole(prefix, r).value == PrettyRole(prefix, r)
    ensures KeyForRole(prefix, r).None? ==> PrettyRole(prefix, r) == Text.Lower(r.name)
  {
  }

  /** The key the cache files a role under: `_sync_role` skips a falsy
      key, so a role named exactly the prefix is not cached. */
  function CacheKey(prefix: string, r: Role): (k: Option<string>)
    ensures k.Some? <==> KeyForRole(prefix, r).Some? && KeyForRole(prefix, r).value != ""
  {
    match KeyForRole(prefix, r)
    case Some(k) => if k != "" then Some(k) else None
    case None => None
  }

  /** The pretty names, in order. */
  function PrettyRoles(prefix: string, rs: seq<Role>): (r: seq<string>)
    ensures |r| == |rs| && forall i | 0 <= i < |rs| :: r[i] == PrettyRole(prefix, rs[i])
  {
    if rs == [] then [] else [PrettyRole(prefix, rs[0])] + PrettyRoles(prefix, rs[1..])
  }

  /** `pretty_role_list(roles, conjunction=..)`: bold, and "" when empty. */
  function PrettyRoleList(prefix: string, rs: seq<Role>, conjunction: string): string
  {
    Utils.PrettyList(PrettyRoles(prefix, rs), true, conjunction, "")
  }

  /** An empty role list reads as "", any other as a non-empty string. */
  lemma PrettyRoleListEmpty(prefix: string, rs: seq<Role>, conjunction: string)
    ensures PrettyRoleList(prefix, rs, conjunction) == "" <==> rs == []
  {
    Utils.BoldListEmpty(PrettyRoles(prefix, rs), conjunction, "");
  }

  // ---------------------------------------------------------------------
  // partition_roles

  /** The roles, in order, that are (`held`) or are not (`!held`) among
      the member's roles. */
  function Keep(roles: seq<Role>, memberRoles: seq<Role>, held: bool): (r: seq<Role>)
    ensures forall x | x in r :: x in roles && (x in memberRoles) == held
    ensures forall x | x in roles && (x in memberRoles) == held :: x in r
  {
    if roles == [] then []
    else
      var last := roles[|roles| - 1];
      Keep(roles[..|roles| - 1], memberRoles, held) + (if (last in memberRoles) == held then [last] else [])
  }

  /** `partition_roles(roles, member)`: one pass appending each role to
      `present` or `absent`. */
  method PartitionRoles(roles: seq<Role>, member: Member) returns (absent: seq<Role>, present: seq<Role>)
    ensures absent == Keep(roles, member.roles, false)
    ensures present == Keep(roles, member.roles, true)
  {
    absent, present := [], [];
    var i := 0;
    while i < |roles|
      invariant 0 <= i <= |roles|
      invariant absent == Keep(roles[..i], member.roles, false)
      invariant present == Keep(roles[..i], member.roles, true)
    {
      var r := roles[i];
      assert roles[..i + 1][..i] == roles[..i];
      if r in member.roles {
        present := present + [r];
      } else {
        absent := absent + [r];
      }
      i := i + 1;
    }
    assert roles[..|roles|] == roles;
  }

  /** Every role lands in exactly one of the two lists. */
  lemma {:induction false} PartitionIsSplit(roles: seq<Role>, memberRoles: seq<Role>)
    ensures multiset(Keep(roles, memberRoles, false)) + multiset(Keep(roles, memberRoles, true)) == multiset(roles)
    decreases |roles|
  {
    if roles != [] {
      var init, last := roles[..|roles| - 1], roles[|roles| - 1];
      PartitionIsSplit(init, memberRoles);
      assert roles == init + [last];
    }
  }

  /** Both lists keep the input order: the lists of a concatenation are
      the concatenated lists. */
  lemma {:induction false} KeepConcat(a: seq<Role>, b: seq<Role>, memberRoles: seq<Role>, held: bool)
    ensures Keep(a + b, memberRoles, held) == Keep(a, memberRoles, held) + Keep(b, memberRoles, held)
    decreases |b|
  {
    if b == [] {
      assert a + b == a;
    } else {
      var init, last := b[..|b| - 1], b[|b| - 1];
      var tail := if (last in memberRoles) == held then [last] else [];
      KeepConcat(a, init, memberRoles, held);
      SnocParts(a, b);
      assert Keep(a + b, memberRoles, held) == Keep(a + init, memberRoles, held) + tail;
      assert Keep(b, memberRoles, held) == Keep(init, memberRoles, held) + tail;
      Text.AppendAssoc(Keep(a, memberRoles, held), Keep(init, memberRoles, held), tail);
    }
  }

  lemma SnocParts<T>(a: seq<T>, b: seq<T>)
    requires b != []
    ensures (a + b)[..|a + b| - 1] == a + b[..|b| - 1] && (a + b)[|a + b| - 1] == b[|b| - 1]
  {
  }

  // ---------------------------------------------------------------------
  // parse_role_list

  /** The names, in order, whose lowercased key does (`known`) or does
      not (`!known`) have cached roles in the guild. */
  function Resolving(c: RoleCaching.Cache<string>, g: nat, names: seq<string>, known: bool): (r: seq<string>)
    ensures forall n | n in r :: n in names && (RoleCaching.Get(c, g, Text.Lower(n)) != {}) == known
  {
    if names == [] then []
    else
      var last := names[|names| - 1];
      Resolving(c, g, names[..|names| - 1], known)
        + (if (RoleCaching.Get(c, g, Text.Lower(last)) != {}) == known then [last] else [])
  }

  /** `found[i]` is a cached role of the i-th name that resolves. */
  predicate ResolvedBy(c: RoleCaching.Cache<string>, g: nat, names: seq<string>, found: seq<Role>)
  {
    && |found| == |names|
    && forall i | 0 <= i < |found| :: found[i] in RoleCaching.Get(c, g, Text.Lower(names[i]))
  }

  /** `parse_role_list(guild, names)`: each name's cached role goes to
      `found`, and each name without one to `not_found`, in order. */
  method ParseRoleList(cache: RoleCaching.RoleCache<string>, g: nat, names: seq<string>)
    returns (found: seq<Role>, notFound: seq<string>)
    ensures notFound == Resolving(cache.cache, g, names, false)
    ensures ResolvedBy(cache.cache, g, Resolving(cache.cache, g, names, true), found)
  {
    found, notFound := [], [];
    var i := 0;
    while i < |names|
      invariant 0 <= i <= |names|
      invariant notFound == Resolving(cache.cache, g, names[..i], false)
      invariant ResolvedBy(cache.cache, g, Resolving(cache.cache, g, names[..i], true), found)
    {
      var name := names[i];
      assert names[..i + 1][..i] == names[..i];
      var role := cache.GetRole(g, Text.Lower(name), None);
      if role.Some? {
        found := found + [role.value];
      } else {
        notFound := notFound + [name];
      }
      i := i + 1;
    }
    assert names[..|names|] == names;
  }

  /** Every name is either resolved or reported, never both. */
  lemma {:induction false} ParseIsSplit(c: RoleCaching.Cache<string>, g: nat, names: seq<string>)
    ensures multiset(Resolving(c, g, names, true)) + multiset(Resolving(c, g, names, false)) == multiset(names)
    decreases |names|
  {
    if names != [] {
      var init, last := names[..|names| - 1], names[|names| - 1];
      ParseIsSplit(c, g, init);
      assert names == init + [last];
    }
  }

  // ---------------------------------------------------------------------
  // Commands

  /** What a command does: roles to add, roles to remove, and the reply. */
  datatype Outcome = Outcome(add: seq<Role>, remove: seq<Role>, reply: string)

  const NoRolesMessage: string := "There are no user-joinable " + "roles at this time."
  const AlreadyInAll: string := "You're already in all of those roles."
  const InNone: string := "You aren't in any of those roles."

  /** `join`'s argument clean-up: one trailing comma comes off. */
  function StripComma(s: string): (r: string)
    ensures r + (if Text.EndsWith(s, ",") then "," else "") == s
  {
    if Text.EndsWith(s, ",") then s[..|s| - 1] else s
  }

  function JoinArgs(args: seq<string>): (r: seq<string>)
    ensures |r| == |args| && forall i | 0 <= i < |args| :: r[i] == StripComma(args[i])
  {
    if args == [] then [] else [StripComma(args[0])] + JoinArgs(args[1..])
  }

  /** The message of `roles`, from the two lists it shows. */
  function RolesMessage(available: string, possessed: string): string
  {
    if available != "" && possessed != "" then AvailableAndHeld(available, possessed)
    else if available != "" then Available(available)
    else if possessed != "" then AllHeld(possessed)
    else NoRolesMessage
  }

  /** The reply of `roles` when some roles are available and some held;
      it is never the no-roles reply. */
  function AvailableAndHeld(available: string, possessed: string): (r: string)
    ensures r != NoRolesMessage
  {
    var r := "Available roles are " + available + ". (You're currently in " + possessed + ").";
    MessageHeads();
    assert r[0] == 'A';
    r
  }

  /** The reply of `roles` when no role is held. */
  function Available(available: string): (r: string)
    ensures r != NoRolesMessage
  {
    var r := "Available roles are " + available + ".";
    MessageHeads();
    assert r[0] == 'A';
    r
  }

  /** The reply of `roles` when every role is held. */
  function AllHeld(possessed: string): (r: string)
    ensures r != NoRolesMessage
  {
    var r := "You're currently in all the roles (" + possessed + ").";
    MessageHeads();
    assert r[0] == 'Y';
    r
  }

  /** A helper fact: the first letters of the fixed replies, by which they
      differ from the composed ones. */
  lemma MessageHeads()
    ensures |NoRolesMessage| > 0 && NoRolesMessage[0] == 'T'
    ensures |AlreadyInAll| > 0 && AlreadyInAll[0] == 'Y'
    ensures |InNone| > 0 && InNone[0] == 'Y'
  {
    assert NoRolesMessage[0] == 'T';
    assert AlreadyInAll[0] == 'Y';
    assert InNone[0] == 'Y';
  }

  /** `roles`: the reply for the guild's opt-in roles `roles` (in the
      order `all_roles` yields them). */
  function RolesReply(prefix: string, roles: seq<Role>, author: Member): string
  {
    RolesMessage(PrettyRoleList(prefix, Keep(roles, author.roles, false), "and"),
                 PrettyRoleList(prefix, Keep(roles, author.roles, true), "and"))
  }

  /** `roles` picks its message by which lists are empty: the
      no-roles message exactly when there are no roles at all, the
      all-held message when every role is held, the available message
      when none is, and otherwise both lists. */
  lemma RolesReplyChoice(prefix: string, roles: seq<Role>, author: Member)
    ensures var absent, present := Keep(roles, author.roles, false), Keep(roles, author.roles, true);
      && (RolesReply(prefix, roles, author) == NoRolesMessage <==> roles == [])
      && (absent == [] && present != [] ==>
           RolesReply(prefix, roles, author) == AllHeld(PrettyRoleList(prefix, present, "and")))
      && (absent != [] && present == [] ==>
           RolesReply(prefix, roles, author) == Available(PrettyRoleList(prefix, absent, "and")))
      && (absent != [] && present != [] ==>
           RolesReply(prefix, roles, author) ==
             AvailableAndHeld(PrettyRoleList(prefix, absent, "and"), PrettyRoleList(prefix, present, "and")))
  {
    var absent, present := Keep(roles, author.roles, false), Keep(roles, author.roles, true);
    PrettyRoleListEmpty(prefix, absent, "and");
    PrettyRoleListEmpty(prefix, present, "and");
    PartitionIsSplit(roles, author.roles);
    MessageHeads();
    if roles != [] {
      assert roles[0] in multiset(roles);
    } else {
      assert absent == [] && present == [];
    }
  }

  /** The outcome of `join_roles(roles)`. */
  function JoinOutcome(prefix: string, user: Member, roles: seq<Role>): Outcome
  {
    var absent, present := Keep(roles, user.roles, false), Keep(roles, user.roles, true);
    if absent != [] then Outcome(absent, [], Added(prefix, absent, present))
    else Outcome([], [], AlreadyInAll)
  }

  /** `join_roles`' reply when there is something to add. */
  function Added(prefix: string, absent: seq<Role>, present: seq<Role>): (r: string)
    ensures r != AlreadyInAll && r != NoRolesMessage
  {
    var r := "Added you to role " + PrettyRoleList(prefix, absent, "and") + "."
      + (if present != [] then " (You're already in " + PrettyRoleList(prefix, present, "and") + ".)" else "");
    MessageHeads();
    assert r[0] == 'A';
    r
  }

  /** `leave_roles`' reply when there is something to remove. */
  function Removed(prefix: string, present: seq<Role>, absent: seq<Role>): (r: string)
    ensures r != InNone && r != NoRolesMessage
  {
    var r := "Removed you from role " + PrettyRoleList(prefix, present, "and") + "."
      + (if absent != [] then " (You weren't in " + PrettyRoleList(prefix, absent, "or") + " in the first place.)" else "");
    MessageHeads();
    assert r[0] == 'R';
    r
  }

  /** The outcome of `leave_roles(roles)`. */
  function LeaveOutcome(prefix: string, user: Member, roles: seq<Role>): Outcome
  {
    var absent, present := Keep(roles, user.roles, false), Keep(roles, user.roles, true);
    if present != [] then Outcome([], present, Removed(prefix, present, absent))
    else Outcome([], [], InNone)
  }

  /** `join_roles(roles)`. */
  method JoinRoles(prefix: string, user: Member, roles: seq<Role>) returns (o: Outcome)
    ensures o == JoinOutcome(prefix, user, roles)
  {
    var absent, present := PartitionRoles(roles, user);
    if absent != [] {
      o := Outcome(absent, [], Added(prefix, absent, present));
    } else {
      o := Outcome([], [], AlreadyInAll);
    }
  }

  /** `leave_roles(roles)`. */
  method LeaveRoles(prefix: string, user: Member, roles: seq<Role>) returns (o: Outcome)
    ensures o == LeaveOutcome(prefix, user, roles)
  {
    var absent, present := PartitionRoles(roles, user);
    if present != [] {
      o := Outcome([], present, Removed(prefix, present, absent));
    } else {
      o := Outcome([], [], InNone);
    }
  }

  /** `join_roles` adds exactly the roles the user lacks, after which the
      user holds them all, and replies "already in all" exactly when there
      is nothing to add. */
  lemma JoinAddsMissing(prefix: string, user: Member, roles: seq<Role>)
    ensures var o := JoinOutcome(prefix, user, roles);
      && o.remove == []
      && (forall x | x in o.add :: x in roles && x !in user.roles)
      && (forall x | x in roles :: x in user.roles || x in o.add)
      && (o.reply == AlreadyInAll <==> o.add == [])
  {
    MessageHeads();
  }

  /** `leave_roles` removes exactly the roles the user holds, after which
      the user holds none of them. */
  lemma LeaveRemovesHeld(prefix: string, user: Member, roles: seq<Role>)
    ensures var o := LeaveOutcome(prefix, user, roles);
      && o.add == []
      && (forall x | x in o.remove :: x in roles && x in user.roles)
      && (forall x | x in roles :: x !in user.roles || x in o.remove)
      && (o.reply == InNone <==> o.remove == [])
  {
    MessageHeads();
  }

  /** `say_no_such_roles(names)`. */
  function NoSuchRoles(names: seq<string>): string
  {
    "Sorry, there isn't any role named " + Utils.PrettyList(names, true, "or", "") + "."
  }

  /** In a consistent cache keyed by `CacheKey`, every resolved role is an
      opt-in role of the guild the names were looked up in. */
  lemma ResolvedOptIn(c: RoleCaching.Cache<string>, keyFor: Role -> Option<string>, prefix: string,
                      g: nat, names: seq<string>, found: seq<Role>)
    requires RoleCaching.Consistent(c, keyFor)
    requires forall r :: keyFor(r) == CacheKey(prefix, r)
    requires ResolvedBy(c, g, names, found)
    ensures forall x | x in found :: x.guild == g && CacheKey(prefix, x).Some?
  {
    forall x | x in found
      ensures x.guild == g && CacheKey(prefix, x).Some?
    {
      var i :| 0 <= i < |found| && found[i] == x;
      assert x in RoleCaching.Get(c, g, Text.Lower(names[i]));
      assert keyFor(x) == Some(Text.Lower(names[i]));
    }
  }

  /** `join(*roles)`: strip one trailing comma off each argument, look the
      names up, and either report the unknown ones or join the found
      roles. The cache is the cog's, keyed by `CacheKey`, so only opt-in
      roles of the guild are ever added. */
  method Join(prefix: string, cache: RoleCaching.RoleCache<string>, g: nat, user: Member, args: seq<string>)
    returns (o: Outcome)
    requires cache.Valid()
    requires forall r :: cache.keyFor(r) == CacheKey(prefix, r)
    ensures o.remove == [] && forall x | x in o.add :: x.guild == g && CacheKey(prefix, x).Some?
    ensures var names := JoinArgs(args);
      var missing := Resolving(cache.cache, g, names, false);
      if missing != [] then o == Outcome([], [], NoSuchRoles(missing))
      else exists found ::
        ResolvedBy(cache.cache, g, Resolving(cache.cache, g, names, true), found) && o == JoinOutcome(prefix, user, found)
  {
    var names := JoinArgs(args);
    var found, notFound := ParseRoleList(cache, g, names);
    ResolvedOptIn(cache.cache, cache.keyFor, prefix, g, Resolving(cache.cache, g, names, true), found);
    if notFound != [] {
      o := Outcome([], [], NoSuchRoles(notFound));
    } else {
      o := JoinRoles(prefix, user, found);
      JoinAddsMissing(prefix, user, found);
    }
  }

  /** `leave(*roles)`: as `join`, without the comma clean-up; only opt-in
      roles of the guild are ever removed. */
  method Leave(prefix: string, cache: RoleCaching.RoleCache<string>, g: nat, user: Member, args: seq<string>)
    returns (o: Outcome)
    requires cache.Valid()
    requires forall r :: cache.keyFor(r) == CacheKey(prefix, r)
    ensures o.add == [] && forall x | x in o.remove :: x.guild == g && CacheKey(prefix, x).Some?
    ensures var missing := Resolving(cache.cache, g, args, false);
      if missing != [] then o == Outcome([], [], NoSuchRoles(missing))
      else exists found ::
        ResolvedBy(cache.cache, g, Resolving(cache.cache, g, args, true), found) && o == LeaveOutcome(prefix, user, found)
  {
    var found, notFound := ParseRoleList(cache, g, args);
    ResolvedOptIn(cache.cache, cache.keyFor, prefix, g, Resolving(cache.cache, g, args, true), found);
    if notFound != [] {
      o := Outcome([], [], NoSuchRoles(notFound));
    } else {
      o := LeaveRoles(prefix, user, found);
      LeaveRemovesHeld(prefix, user, found);
    }
  }

  // ---------------------------------------------------------------------
  // join all / leave all

  /** `join_all` as written: `if roles:` tests the generator `all_roles`
      returns, which is always true, so `join_roles` always runs. */
  function JoinAllAsWritten(prefix: string, user: Member, roles: seq<Role>): Outcome
  {
    JoinOutcome(prefix, user, roles)
  }

  /** `leave_all` as written, with the same always-true test. */
  function LeaveAllAsWritten(prefix: string, user: Member, roles: seq<Role>): Outcome
  {
    LeaveOutcome(prefix, user, roles)
  }

  /** With no opt-in roles at all, the written commands reply as if the
      user already had (or lacked) every role; the no-roles reply of their
      else branch is never given. */
  lemma AllCommandsMissNoRoles(prefix: string, user: Member)
    ensures JoinAllAsWritten(prefix, user, []).reply == AlreadyInAll
    ensures LeaveAllAsWritten(prefix, user, []).reply == InNone
    ensures AlreadyInAll != NoRolesMessage && InNone != NoRolesMessage
  {
    MessageHeads();
  }

  /** `join_all` with the test it evidently means, whether any role is
      listed. */
  function JoinAll(prefix: string, user: Member, roles: seq<Role>): Outcome
  {
    if roles == [] then Outcome([], [], NoRolesMessage) else JoinOutcome(prefix, user, roles)
  }

  /** `leave_all` with the intended test. */
  function LeaveAll(prefix: string, user: Member, roles: seq<Role>): Outcome
  {
    if roles == [] then Outcome([], [], NoRolesMessage) else LeaveOutcome(prefix, user, roles)
  }

  /** The intended commands give the no-roles reply exactly when there
      are no roles, and otherwise do what the written ones do. */
  lemma AllCommandsIntended(prefix: string, user: Member, roles: seq<Role>)
    ensures JoinAll(prefix, user, roles).reply == NoRolesMessage <==> roles == []
    ensures LeaveAll(prefix, user, roles).reply == NoRolesMessage <==> roles == []
    ensures roles != [] ==> JoinAll(prefix, user, roles) == JoinAllAsWritten(prefix, user, roles)
    ensures roles != [] ==> LeaveAll(prefix, user, roles) == LeaveAllAsWritten(prefix, user, roles)
  {
    MessageHeads();
  }
}
