/** The bot of main.py: the global check every command passes through
    (`is_allowed` and its three parts) and the category lookup of the
    `adminhelp` command. The settings are parameters; the channel regex,
    `BOT_CHANNEL_REGEX`, is a predicate on the channel name. */
module Irisbot {
  import opened Wrappers
  import opened Platform
  import Text
  import Utils

  /** The access settings as configured. main.py lowercases the three role
      lists when it loads them; `LowerAll` does that here. `channelRegex`
      is None when the regex setting is empty, and otherwise tells whether
      `re.match` finds the pattern at the start of a name. */
  datatype Settings = Settings(
    channelWhitelist: seq<string>,
    channelBlacklist: seq<string>,
    channelRegex: Option<string -> bool>,
    roleWhitelist: seq<string>,
    roleBlacklist: seq<string>,
    superuserRoles: seq<string>)

  /** Each string lowercased, in order. */
  function LowerAll(xs: seq<string>): (r: seq<string>)
    ensures |r| == |xs| && forall i | 0 <= i < |xs| :: r[i] == Text.Lower(xs[i])
  {
    if xs == [] then [] else [Text.Lower(xs[0])] + LowerAll(xs[1..])
  }

  /** The lowercased names of some roles, in order. */
  function RoleNames(roles: seq<Role>): (r: seq<string>)
    ensures |r| == |roles| && forall i | 0 <= i < |roles| :: r[i] == Text.Lower(roles[i].name)
  {
    if roles == [] then [] else [Text.Lower(roles[0].name)] + RoleNames(roles[1..])
  }

  /** `any(name in listed for name in names)`, stopping at the first hit. */
  function AnyListed(names: seq<string>, listed: seq<string>): (r: bool)
    ensures r <==> exists i | 0 <= i < |names| :: names[i] in listed
  {
    if names == [] then false
    else if names[0] in listed then true
    else AnyListed(names[1..], listed)
  }

  // ---------------------------------------------------------------------
  // The global check

  /** `check_superuser(ctx)`: the author holds a role whose name, letter
      case aside, is a superuser role. */
  function CheckSuperuser(s: Settings, author: Member): (r: bool)
    ensures r <==> exists i, j | 0 <= i < |author.roles| && 0 <= j < |s.superuserRoles| ::
      Text.Lower(author.roles[i].name) == Text.Lower(s.superuserRoles[j])
  {
    var names, listed := RoleNames(author.roles), LowerAll(s.superuserRoles);
    assert forall i | 0 <= i < |names| :: names[i] in listed <==>
      exists j | 0 <= j < |s.superuserRoles| :: Text.Lower(author.roles[i].name) == Text.Lower(s.superuserRoles[j]);
    AnyListed(names, listed)
  }

  /** `check_channel(ctx)` for a channel called `name`. A non-empty
      whitelist alone decides; otherwise a blacklisted name is refused,
      then the regex decides when it is set, and otherwise the channel
      passes. */
  function CheckChannel(s: Settings, name: string): bool
  {
    if |s.channelWhitelist| > 0 then name in s.channelWhitelist
    else if name in s.channelBlacklist then false
    else match s.channelRegex
      case Some(matches) => matches(name)
      case None => true
  }

  /** `check_roles(ctx)`: with a non-empty whitelist, some role of the
      author must be on it and the blacklist is not looked at; otherwise no
      role of the author may be on the blacklist. Names compare
      lowercased. */
  function CheckRoles(s: Settings, author: Member): (r: bool)
    ensures |s.roleWhitelist| > 0 ==>
      (r <==> exists i, j | 0 <= i < |author.roles| && 0 <= j < |s.roleWhitelist| ::
        Text.Lower(author.roles[i].name) == Text.Lower(s.roleWhitelist[j]))
    ensures |s.roleWhitelist| == 0 ==>
      (r <==> forall i, j | 0 <= i < |author.roles| && 0 <= j < |s.roleBlacklist| ::
        Text.Lower(author.roles[i].name) != Text.Lower(s.roleBlacklist[j]))
  {
    var names := RoleNames(author.roles);
    var white, black := LowerAll(s.roleWhitelist), LowerAll(s.roleBlacklist);
    assert forall i | 0 <= i < |names| :: names[i] in white <==>
      exists j | 0 <= j < |s.roleWhitelist| :: Text.Lower(author.roles[i].name) == Text.Lower(s.roleWhitelist[j]);
    assert forall i | 0 <= i < |names| :: names[i] in black <==>
      exists j | 0 <= j < |s.roleBlacklist| :: Text.Lower(author.roles[i].name) == Text.Lower(s.roleBlacklist[j]);
    if |white| > 0 then AnyListed(names, white)
    else if |black| > 0 then !AnyListed(names, black)
    else true
  }

  /** `is_allowed(ctx)`: the check every command passes through, for an
      author writing in the channel called `channel`. */
  function IsAllowed(s: Settings, author: Member, channel: string): bool
  {
    CheckSuperuser(s, author) || (CheckChannel(s, channel) && CheckRoles(s, author))
  }

  /** A superuser passes whatever the channel and the other role lists
      say; anyone else passes exactly when both the channel and the role
      checks do. */
  lemma AllowedCases(s: Settings, author: Member, channel: string)
    ensures CheckSuperuser(s, author) ==> IsAllowed(s, author, channel)
    ensures !CheckSuperuser(s, author) ==>
      (IsAllowed(s, author, channel) <==> CheckChannel(s, channel) && CheckRoles(s, author))
  {
  }

  /** The channel check in one formula: a whitelisted channel passes even
      when it is also blacklisted; without a whitelist a channel passes
      when it is not blacklisted and the regex, if any, matches. */
  lemma ChannelMeaning(s: Settings, name: string)
    ensures CheckChannel(s, name) <==>
      name in s.channelWhitelist
      || (s.channelWhitelist == [] && name !in s.channelBlacklist
          && (s.channelRegex.None? || s.channelRegex.value(name)))
  {
  }

  /** A non-superuser is refused in a channel that is blacklisted and not
      whitelisted, whatever roles they hold. */
  lemma BlacklistedChannelRefused(s: Settings, author: Member, channel: string)
    requires !CheckSuperuser(s, author)
    requires channel in s.channelBlacklist && channel !in s.channelWhitelist
    ensures !IsAllowed(s, author, channel)
  {
  }

  /** A role that is on the blacklist under another letter case still
      refuses its holder when there is no role whitelist. */
  lemma BlacklistedRoleRefused(s: Settings, author: Member, i: nat, j: nat)
    requires i < |author.roles| && j < |s.roleBlacklist|
    requires s.roleWhitelist == []
    requires Text.Lower(author.roles[i].name) == Text.Lower(s.roleBlacklist[j])
    ensures !CheckRoles(s, author)
  {
  }

  /** With every list empty and no regex, everybody may use the bot
      everywhere. */
  lemma OpenSettingsAllowAll(s: Settings, author: Member, channel: string)
    requires s.channelWhitelist == [] && s.channelBlacklist == [] && s.channelRegex == None
    requires s.roleWhitelist == [] && s.roleBlacklist == []
    ensures IsAllowed(s, author, channel)
  {
  }

  // ---------------------------------------------------------------------
  // adminhelp

  /** A cog of the bot, by name, with the text its `adminhelp` method gives
      when it has one. A cog object is always truthy. */
  datatype Cog = Cog(name: string, adminHelp: Option<string>)

  /** Cog `c` defines `adminhelp` and is listed under `key`. */
  predicate Provides(c: Cog, key: string)
  {
    c.adminHelp.Some? && Text.Lower(c.name) == key
  }

  /** The dict comprehension `categories`, as the map it builds: a later
      cog whose lowercased name repeats an earlier one replaces it. */
  function CategoryMap(cogs: seq<Cog>): map<string, string>
  {
    if cogs == [] then map[]
    else
      var m, c := CategoryMap(cogs[..|cogs| - 1]), cogs[|cogs| - 1];
      if c.adminHelp.Some? then m[Text.Lower(c.name) := c.adminHelp.value] else m
  }

  /** The keys of `categories` in the order a dict keeps them: the order
      in which each key was first inserted. */
  function CategoryNames(cogs: seq<Cog>): seq<string>
  {
    if cogs == [] then []
    else
      var ns, c := CategoryNames(cogs[..|cogs| - 1]), cogs[|cogs| - 1];
      if c.adminHelp.Some? && Text.Lower(c.name) !in ns then ns + [Text.Lower(c.name)] else ns
  }

  /** A key is a category exactly when some cog provides it, and it then
      gives the help of the last cog that does. */
  lemma {:induction false} CategoryLookup(cogs: seq<Cog>, key: string)
    ensures key in CategoryMap(cogs) <==> exists i | 0 <= i < |cogs| :: Provides(cogs[i], key)
    ensures key in CategoryMap(cogs) ==>
      exists i | 0 <= i < |cogs| :: Provides(cogs[i], key) && CategoryMap(cogs)[key] == cogs[i].adminHelp.value
        && forall j | i < j < |cogs| :: !Provides(cogs[j], key)
    decreases |cogs|
  {
    if cogs != [] {
      var n := |cogs|;
      var init, c := cogs[..n - 1], cogs[n - 1];
      CategoryLookup(init, key);
      assert forall i | 0 <= i < n - 1 :: cogs[i] == init[i];
      if Provides(c, key) {
        assert Provides(cogs[n - 1], key);
      } else if key in CategoryMap(cogs) {
        var i :| 0 <= i < n - 1 && Provides(init[i], key) && CategoryMap(init)[key] == init[i].adminHelp.value
          && forall j | i < j < n - 1 :: !Provides(init[j], key);
        assert Provides(cogs[i], key) && CategoryMap(cogs)[key] == cogs[i].adminHelp.value;
      }
    }
  }

  /** The listed names are the categories, each named once. */
  lemma {:induction false} CategoryNamesExact(cogs: seq<Cog>)
    ensures forall key :: key in CategoryNames(cogs) <==> key in CategoryMap(cogs)
    ensures forall i, j | 0 <= i < j < |CategoryNames(cogs)| :: CategoryNames(cogs)[i] != CategoryNames(cogs)[j]
    decreases |cogs|
  {
    if cogs != [] {
      CategoryNamesExact(cogs[..|cogs| - 1]);
    }
  }

  /** What `adminhelp` sends: a reply that mentions the author, or a plain
      message. */
  datatype Message = Reply(text: string) | Send(text: string)

  const SelectModule: string := "Select a module to see admin-relevant " + "information about it. "

  /** `adminhelp(ctx, category=category)`; an absent category is "". */
  function AdminHelp(cogs: seq<Cog>, category: string): Message
  {
    var categories := CategoryMap(cogs);
    if category == [] then
      Reply(SelectModule + "Available categories are: "
        + Utils.PrettyList(CategoryNames(cogs), true, "and", "none") + ".")
    else if Text.Lower(category) in categories then Send(categories[Text.Lower(category)])
    else Send("No admin-specific help for \"" + category + "\".")
  }

  /** A named category is looked up whatever its letter case: the help
      sent is that of the last cog with `adminhelp` whose name matches it
      case-insensitively, and with no such cog the answer names the
      category as it was typed. */
  lemma AdminHelpFinds(cogs: seq<Cog>, category: string)
    requires category != []
    ensures (exists i | 0 <= i < |cogs| :: Provides(cogs[i], Text.Lower(category))) ==>
      exists i | 0 <= i < |cogs| :: Provides(cogs[i], Text.Lower(category))
        && AdminHelp(cogs, category) == Send(cogs[i].adminHelp.value)
        && forall j | i < j < |cogs| :: !Provides(cogs[j], Text.Lower(category))
    ensures (forall i | 0 <= i < |cogs| :: !Provides(cogs[i], Text.Lower(category))) ==>
      AdminHelp(cogs, category) == Send("No admin-specific help for \"" + category + "\".")
  {
    CategoryLookup(cogs, Text.Lower(category));
  }

  /** Two spellings of a category that differ only in letter case find
      the same help. */
  lemma AdminHelpIgnoresCase(cogs: seq<Cog>, a: string, b: string)
    requires a != [] && b != [] && Text.Lower(a) == Text.Lower(b)
    requires Text.Lower(a) in CategoryMap(cogs)
    ensures AdminHelp(cogs, a) == AdminHelp(cogs, b)
  {
  }

  /** Without a category, and with no cog defining `adminhelp`, the reply
      lists "none". */
  lemma AdminHelpNoCategories(cogs: seq<Cog>)
    requires forall i | 0 <= i < |cogs| :: cogs[i].adminHelp.None?
    ensures AdminHelp(cogs, "") == Reply(SelectModule + "Available categories are: none.")
  {
    NoCategories(cogs);
  }

  lemma {:induction false} NoCategories(cogs: seq<Cog>)
    requires forall i | 0 <= i < |cogs| :: cogs[i].adminHelp.None?
    ensures CategoryNames(cogs) == []
    decreases |cogs|
  {
    if cogs != [] {
      NoCategories(cogs[..|cogs| - 1]);
    }
  }
}
