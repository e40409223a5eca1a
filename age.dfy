/** The age cog of age.py: users register themselves once as an adult or
    as a minor. It is a `RoleCache` of rolecache.py whose keys are "adult"
    and "minor"; the two role names are parameters, the `AGE_ADULT_ROLE`
    and `AGE_MINOR_ROLE` settings, by default "Adult" and "Minor". */
module Age {
  import opened Wrappers
  import opened Platform
  import Text
  import RoleCaching

  const AdultKey: string := "adult"
  const MinorKey: string := "minor"

  /** `ROLE_LOOKUP`: a dict display, so when the two lowercased names
      coincide the later entry, the minor one, wins. */
  function RoleLookup(adultName: string, minorName: string): map<string, string>
  {
    map[Text.Lower(adultName) := AdultKey][Text.Lower(minorName) := MinorKey]
  }

  /** `key_for_role(role)`: `ROLE_LOOKUP.get(role.name.lower())`. */
  function KeyForRole(adultName: string, minorName: string, r: Role): (k: Option<string>)
    ensures k.Some? <==> Text.Lower(r.name) in {Text.Lower(adultName), Text.Lower(minorName)}
    ensures k.Some? ==> k.value in {AdultKey, MinorKey}
  {
    var lookup := RoleLookup(adultName, minorName);
    if Text.Lower(r.name) in lookup then Some(lookup[Text.Lower(r.name)]) else None
  }

  /** A role is keyed by the configured name it equals case-insensitively,
      the minor one first; every other role has no key. */
  lemma KeyForRoleCases(adultName: string, minorName: string, r: Role)
    ensures KeyForRole(adultName, minorName, r) ==
      if Text.Lower(r.name) == Text.Lower(minorName) then Some(MinorKey)
      else if Text.Lower(r.name) == Text.Lower(adultName) then Some(AdultKey)
      else None
  {
  }

  /** Renaming a role only by letter case keeps its key. */
  lemma KeyIgnoresCase(adultName: string, minorName: string, r: Role, s: Role)
    requires Text.Lower(r.name) == Text.Lower(s.name)
    ensures KeyForRole(adultName, minorName, r) == KeyForRole(adultName, minorName, s)
  {
  }

  /** The key function the cache is built with. */
  function AgeKey(adultName: string, minorName: string): Role -> Option<string>
  {
    r => KeyForRole(adultName, minorName, r)
  }

  /** The loop of `check_age_unassigned`: none of the roles is among
      `ageRoles`. */
  function NoneAmong(roles: seq<Role>, ageRoles: set<Role>): (r: bool)
    ensures r <==> forall i | 0 <= i < |roles| :: roles[i] !in ageRoles
  {
    if roles == [] then true
    else if roles[0] in ageRoles then false
    else NoneAmong(roles[1..], ageRoles)
  }

  /** `check_age_unassigned(ctx)`: the author holds none of the server's
      cached age roles. */
  function CheckAgeUnassigned(c: RoleCaching.Cache<string>, author: Member, server: nat): bool
  {
    NoneAmong(author.roles, RoleCaching.AllRolesOf(c, server))
  }

  /** In a consistent cache: the author is unassigned exactly when no role
      of theirs is cached, in this server, under the key it has. */
  lemma UnassignedMeaning(c: RoleCaching.Cache<string>, keyFor: Role -> Option<string>, author: Member, server: nat)
    requires RoleCaching.Consistent(c, keyFor)
    ensures CheckAgeUnassigned(c, author, server) <==>
      forall i | 0 <= i < |author.roles| ::
        var x := author.roles[i];
        !(x.guild == server && keyFor(x).Some? && x in RoleCaching.Get(c, server, keyFor(x).value))
  {
    forall x: Role {
      RoleCaching.AllRolesExact(c, keyFor, server, x);
    }
  }

  /** Once given the role registered under a key, the member is no
      longer unassigned: the commands work one time only. */
  lemma RegisterOnce(c: RoleCaching.Cache<string>, author: Member, server: nat, key: string, x: Role)
    requires x in RoleCaching.Get(c, server, key)
    ensures !CheckAgeUnassigned(c, Member(author.id, author.guild, author.roles + [x]), server)
  {
    assert x in RoleCaching.AllRolesOf(c, server);
    assert (author.roles + [x])[|author.roles|] == x;
  }

  const UsageText: string := "You must specify \"adult\" or \"minor\"."
  const AdultConfirmation: string := "Registered you as an adult."
  const MinorConfirmation: string := "Registered you as a minor."

  /** The reply to a command whose `check_age_unassigned` failed. It is
      none of the cog's other replies, so a reply tells whether the check
      passed. */
  function CantChange(): (r: string)
    ensures r != UsageText && r != AdultConfirmation && r != MinorConfirmation
  {
    var r := "You can't change your age on your own. " + "If you just turned 18, "
      + "please ask a mod or admin to update it for you.";
    assert r[4] == 'c' && UsageText[4] == 'm';
    assert r[0] == 'Y' && AdultConfirmation[0] == 'R' && MinorConfirmation[0] == 'R';
    r
  }

  /** What a command does: a role to add, if any, and the reply. */
  datatype Reply = Reply(add: Option<Role>, text: string)

  /** `age` without a subcommand. */
  function AgeCommand(c: RoleCaching.Cache<string>, author: Member, server: nat): (r: Reply)
    ensures r.add == None
    ensures r.text == CantChange() <==> !CheckAgeUnassigned(c, author, server)
    ensures r.text == UsageText <==> CheckAgeUnassigned(c, author, server)
  {
    Reply(None, if CheckAgeUnassigned(c, author, server) then UsageText else CantChange())
  }

  /** `adult` and `minor`: behind `check_age_unassigned`, add the role
      cached under `key` (None when there is none, which `add_roles` is
      then handed) and confirm. */
  method Register(cache: RoleCaching.RoleCache<string>, author: Member, server: nat, key: string, confirmation: string)
    returns (r: Reply)
    ensures !CheckAgeUnassigned(cache.cache, author, server) ==> r == Reply(None, CantChange())
    ensures CheckAgeUnassigned(cache.cache, author, server) ==> r.text == confirmation
    ensures CheckAgeUnassigned(cache.cache, author, server) && RoleCaching.Get(cache.cache, server, key) == {} ==> r.add == None
    ensures CheckAgeUnassigned(cache.cache, author, server) && RoleCaching.Get(cache.cache, server, key) != {} ==>
      r.add.Some? && r.add.value in RoleCaching.Get(cache.cache, server, key)
  {
    if !CheckAgeUnassigned(cache.cache, author, server) {
      return Reply(None, CantChange());
    }
    var role := cache.GetRole(server, key, None);
    return Reply(role, confirmation);
  }

  /** `adult`. */
  method Adult(cache: RoleCaching.RoleCache<string>, author: Member, server: nat) returns (r: Reply)
    ensures !CheckAgeUnassigned(cache.cache, author, server) ==> r == Reply(None, CantChange())
    ensures CheckAgeUnassigned(cache.cache, author, server) ==> r.text == AdultConfirmation
    ensures r.text == AdultConfirmation <==> CheckAgeUnassigned(cache.cache, author, server)
    ensures CheckAgeUnassigned(cache.cache, author, server) ==> (RoleCaching.Get(cache.cache, server, AdultKey) != {} <==> r.add.Some?)
    ensures r.add.Some? ==> r.add.value in RoleCaching.Get(cache.cache, server, AdultKey)
  {
    r := Register(cache, author, server, AdultKey, AdultConfirmation);
  }

  /** `minor`. */
  method Minor(cache: RoleCaching.RoleCache<string>, author: Member, server: nat) returns (r: Reply)
    ensures !CheckAgeUnassigned(cache.cache, author, server) ==> r == Reply(None, CantChange())
    ensures CheckAgeUnassigned(cache.cache, author, server) ==> r.text == MinorConfirmation
    ensures r.text == MinorConfirmation <==> CheckAgeUnassigned(cache.cache, author, server)
    ensures CheckAgeUnassigned(cache.cache, author, server) ==> (RoleCaching.Get(cache.cache, server, MinorKey) != {} <==> r.add.Some?)
    ensures r.add.Some? ==> r.add.value in RoleCaching.Get(cache.cache, server, MinorKey)
  {
    r := Register(cache, author, server, MinorKey, MinorConfirmation);
  }
}
