/** The per-guild role cache shared by the role cogs: `RoleCog` in
    rolecog.py and its older twin `RoleCache` in rolecache.py, which keys
    the same structure by server. A cog decides which roles are cached,
    and under which key, through `key_for_role`; here that is the
    function `keyFor`, already reduced to Python truthiness (None stands
    for every falsy key, which `_sync_role` and `_remove_role` skip). */
module RoleCaching {
  import opened Wrappers
  import opened Platform

  /** guild -> key -> set of roles. An entry may hold an empty set once
      its last role is removed, as the source's sets do. */
  type Cache<K(==,!new)> = map<nat, map<K, set<Role>>>

  /** What `set.remove` raises for a role that is not cached. */
  datatype CacheError = KeyError

  /** The key map of one guild; a missing guild reads as empty. */
  function Entry<K(==,!new)>(c: Cache<K>, g: nat): map<K, set<Role>>
  {
    if g in c then c[g] else map[]
  }

  /** `get_roles(guild, key)`: the key's set, or the empty set. */
  function Get<K(==,!new)>(c: Cache<K>, g: nat, k: K): set<Role>
  {
    if k in Entry(c, g) then Entry(c, g)[k] else {}
  }

  /** `_sync_role(role)`: add the role under its key in its guild, when it
      has a key. */
  function Sync<K(==,!new)>(c: Cache<K>, keyFor: Role -> Option<K>, r: Role): Cache<K>
  {
    match keyFor(r)
    case None => c
    case Some(k) => c[r.guild := Entry(c, r.guild)[k := Get(c, r.guild, k) + {r}]]
  }

  /** `_remove_role(role)`: remove the role from under its key, when it has
      a key; a keyed role that is not there raises KeyError. */
  function Remove<K(==,!new)>(c: Cache<K>, keyFor: Role -> Option<K>, r: Role): Result<Cache<K>, CacheError>
  {
    match keyFor(r)
    case None => Success(c)
    case Some(k) =>
      if r in Get(c, r.guild, k) then Success(c[r.guild := Entry(c, r.guild)[k := Get(c, r.guild, k) - {r}]])
      else Failure(KeyError)
  }

  /** `_sync_role` of each role in turn. */
  function SyncAll<K(==,!new)>(c: Cache<K>, keyFor: Role -> Option<K>, rs: seq<Role>): Cache<K>
  {
    if rs == [] then c else Sync(SyncAll(c, keyFor, rs[..|rs| - 1]), keyFor, rs[|rs| - 1])
  }

  /** One guild of `rebuild_cache`: drop its entry, then sync its roles. */
  function Rebuild<K(==,!new)>(c: Cache<K>, keyFor: Role -> Option<K>, g: Guild): Cache<K>
  {
    SyncAll(c - {g.id}, keyFor, g.roles)
  }

  /** `rebuild_cache` over a list of guilds, one after the other. */
  function RebuildAll<K(==,!new)>(c: Cache<K>, keyFor: Role -> Option<K>, gs: seq<Guild>): Cache<K>
  {
    if gs == [] then c else Rebuild(RebuildAll(c, keyFor, gs[..|gs| - 1]), keyFor, gs[|gs| - 1])
  }

  /** `on_guild_role_update(old, new)`: remove the old role, then sync the
      new one; a failed removal skips the sync. */
  function Update<K(==,!new)>(c: Cache<K>, keyFor: Role -> Option<K>, before: Role, after: Role): Result<Cache<K>, CacheError>
  {
    match Remove(c, keyFor, before)
    case Failure(e) => Failure(e)
    case Success(d) => Success(Sync(d, keyFor, after))
  }

  /** `on_guild_remove(guild)`: delete the guild's entry when it is a
      non-empty dict. */
  function Forget<K(==,!new)>(c: Cache<K>, g: nat): Cache<K>
  {
    if g in c && c[g] != map[] then c - {g} else c
  }

  /** `roles_by_key(guild)`: every key and role cached for the guild. */
  function PairsOf<K(==,!new)>(c: Cache<K>, g: nat): (r: set<(K, Role)>)
    ensures forall k, x :: (k, x) in r <==> x in Get(c, g, k)
  {
    set k, x | k in Entry(c, g) && x in Entry(c, g)[k] :: (k, x)
  }

  /** `all_roles(guild)`: every role cached for the guild. */
  function AllRolesOf<K(==,!new)>(c: Cache<K>, g: nat): set<Role>
  {
    set k, x | k in Entry(c, g) && x in Entry(c, g)[k] :: x
  }

  /** The cache holds each role only in its own guild and under its own
      key. */
  predicate Consistent<K(==,!new)>(c: Cache<K>, keyFor: Role -> Option<K>)
  {
    forall g | g in c :: forall k | k in c[g] :: forall x | x in c[g][k] :: x.guild == g && keyFor(x) == Some(k)
  }

  /** The roles among `rs` that belong to guild `g` under key `k`. */
  function Keyed<K(==,!new)>(rs: seq<Role>, keyFor: Role -> Option<K>, g: nat, k: K): set<Role>
  {
    set x | x in rs && x.guild == g && keyFor(x) == Some(k)
  }

  /** Keyless in rolecache.py's base class: `key_for_role` returns None. */
  function NoKey<K(==,!new)>(r: Role): Option<K>
  {
    None
  }

  // ---------------------------------------------------------------------
  // What each transition does to the readers

  /** Syncing adds the role to exactly its own key of its own guild, and
      only when it has a key. */
  lemma SyncGet<K(!new)>(c: Cache<K>, keyFor: Role -> Option<K>, r: Role, g: nat, k: K)
    ensures Get(Sync(c, keyFor, r), g, k)
      == Get(c, g, k) + (if r.guild == g && keyFor(r) == Some(k) then {r} else {})
  {
  }

  /** Removal fails exactly for a keyed role that is not cached, and
      otherwise takes the role from its own key of its own guild only. */
  lemma RemoveGet<K(!new)>(c: Cache<K>, keyFor: Role -> Option<K>, r: Role, g: nat, k: K)
    ensures Remove(c, keyFor, r).Failure? <==> keyFor(r).Some? && r !in Get(c, r.guild, keyFor(r).value)
    ensures Remove(c, keyFor, r).Success? ==>
      Get(Remove(c, keyFor, r).value, g, k)
        == Get(c, g, k) - (if r.guild == g && keyFor(r) == Some(k) then {r} else {})
  {
  }

  /** Removing a role that was just synced (and was not cached before)
      succeeds and leaves every reader as it was. */
  lemma SyncThenRemove<K(!new)>(c: Cache<K>, keyFor: Role -> Option<K>, r: Role, g: nat, k: K)
    requires keyFor(r).Some? ==> r !in Get(c, r.guild, keyFor(r).value)
    ensures Remove(Sync(c, keyFor, r), keyFor, r).Success?
    ensures Get(Remove(Sync(c, keyFor, r), keyFor, r).value, g, k) == Get(c, g, k)
  {
    SyncGet(c, keyFor, r, g, k);
    RemoveGet(Sync(c, keyFor, r), keyFor, r, g, k);
    if keyFor(r).Some? {
      SyncGet(c, keyFor, r, r.guild, keyFor(r).value);
    }
  }

  /** Syncing a list of roles adds exactly its keyed roles. */
  lemma {:induction false} SyncAllGet<K(!new)>(c: Cache<K>, keyFor: Role -> Option<K>, rs: seq<Role>, g: nat, k: K)
    ensures Get(SyncAll(c, keyFor, rs), g, k) == Get(c, g, k) + Keyed(rs, keyFor, g, k)
    decreases |rs|
  {
    if rs != [] {
      var init, last := rs[..|rs| - 1], rs[|rs| - 1];
      SyncAllGet(c, keyFor, init, g, k);
      SyncGet(SyncAll(c, keyFor, init), keyFor, last, g, k);
      assert rs == init + [last];
      assert Keyed(rs, keyFor, g, k)
        == Keyed(init, keyFor, g, k) + (if last.guild == g && keyFor(last) == Some(k) then {last} else {});
    }
  }

  /** The roles of a guild all belong to it. */
  predicate OwnRoles(g: Guild)
  {
    forall i | 0 <= i < |g.roles| :: g.roles[i].guild == g.id
  }

  /** `rebuild_cache(guild)` leaves the guild holding exactly its keyed
      roles, whatever it held before, and leaves other guilds alone. */
  lemma RebuildExact<K(!new)>(c: Cache<K>, keyFor: Role -> Option<K>, g: Guild, h: nat, k: K)
    requires OwnRoles(g)
    ensures Get(Rebuild(c, keyFor, g), h, k)
      == if h == g.id then set x | x in g.roles && keyFor(x) == Some(k) else Get(c, h, k)
  {
    SyncAllGet(c - {g.id}, keyFor, g.roles, h, k);
    if h != g.id {
      assert Keyed(g.roles, keyFor, h, k) == {};
    } else {
      assert Keyed(g.roles, keyFor, h, k) == set x | x in g.roles && keyFor(x) == Some(k);
    }
  }

  /** Guilds with pairwise different ids. */
  predicate Distinct(gs: seq<Guild>)
  {
    forall i, j | 0 <= i < j < |gs| :: gs[i].id != gs[j].id
  }

  /** `rebuild_cache()` over the bot's guilds leaves each of them holding
      exactly its keyed roles and every other guild as it was. */
  lemma {:induction false} RebuildAllExact<K(!new)>(c: Cache<K>, keyFor: Role -> Option<K>, gs: seq<Guild>, h: nat, k: K)
    requires Distinct(gs) && forall i | 0 <= i < |gs| :: OwnRoles(gs[i])
    ensures forall i | 0 <= i < |gs| && gs[i].id == h ::
      Get(RebuildAll(c, keyFor, gs), h, k) == set x | x in gs[i].roles && keyFor(x) == Some(k)
    ensures (forall i | 0 <= i < |gs| :: gs[i].id != h) ==> Get(RebuildAll(c, keyFor, gs), h, k) == Get(c, h, k)
    decreases |gs|
  {
    if gs != [] {
      var init, last := gs[..|gs| - 1], gs[|gs| - 1];
      RebuildAllExact(c, keyFor, init, h, k);
      RebuildExact(RebuildAll(c, keyFor, init), keyFor, last, h, k);
    }
  }

  /** A role update moves the role: afterwards the new role is under its
      key and the old one, unless it is the new one, is no longer under
      its key. */
  lemma UpdateMoves<K(!new)>(c: Cache<K>, keyFor: Role -> Option<K>, before: Role, after: Role)
    requires Update(c, keyFor, before, after).Success?
    ensures var d := Update(c, keyFor, before, after).value;
      && (keyFor(after).Some? ==> after in Get(d, after.guild, keyFor(after).value))
      && (before != after && keyFor(before).Some? ==> before !in Get(d, before.guild, keyFor(before).value))
  {
    var d := Remove(c, keyFor, before).value;
    if keyFor(after).Some? {
      SyncGet(d, keyFor, after, after.guild, keyFor(after).value);
    }
    if keyFor(before).Some? {
      RemoveGet(c, keyFor, before, before.guild, keyFor(before).value);
      SyncGet(d, keyFor, after, before.guild, keyFor(before).value);
    }
  }

  /** After `on_guild_remove` the guild holds no roles; other guilds are
      unchanged. */
  lemma ForgetGet<K(!new)>(c: Cache<K>, g: nat, h: nat, k: K)
    ensures Get(Forget(c, g), h, k) == if h == g then {} else Get(c, h, k)
  {
  }

  /** In a consistent cache, `all_roles` holds exactly the roles that are
      cached under their own key in their own guild. */
  lemma AllRolesExact<K(!new)>(c: Cache<K>, keyFor: Role -> Option<K>, g: nat, x: Role)
    requires Consistent(c, keyFor)
    ensures x in AllRolesOf(c, g) <==> x.guild == g && keyFor(x).Some? && x in Get(c, g, keyFor(x).value)
  {
    if x in AllRolesOf(c, g) {
      var k :| k in Entry(c, g) && x in Entry(c, g)[k];
      assert x in c[g][k];
    }
  }

  // ---------------------------------------------------------------------
  // The invariant

  lemma SyncConsistent<K(!new)>(c: Cache<K>, keyFor: Role -> Option<K>, r: Role)
    requires Consistent(c, keyFor)
    ensures Consistent(Sync(c, keyFor, r), keyFor)
  {
    var d := Sync(c, keyFor, r);
    forall g: nat, k: K, x: Role | g in d && k in d[g] && x in d[g][k]
      ensures x.guild == g && keyFor(x) == Some(k)
    {
      if x != r || g != r.guild || Some(k) != keyFor(r) {
        assert x in c[g][k];
      }
    }
  }

  lemma RemoveConsistent<K(!new)>(c: Cache<K>, keyFor: Role -> Option<K>, r: Role)
    requires Consistent(c, keyFor) && Remove(c, keyFor, r).Success?
    ensures Consistent(Remove(c, keyFor, r).value, keyFor)
  {
    var d := Remove(c, keyFor, r).value;
    forall g: nat, k: K, x: Role | g in d && k in d[g] && x in d[g][k]
      ensures x.guild == g && keyFor(x) == Some(k)
    {
      assert x in c[g][k];
    }
  }

  /** Dropping a guild's entry keeps the invariant. */
  lemma DropConsistent<K(!new)>(c: Cache<K>, keyFor: Role -> Option<K>, g: nat)
    requires Consistent(c, keyFor)
    ensures Consistent(c - {g}, keyFor)
  {
    var d := c - {g};
    forall h: nat, k: K, x: Role | h in d && k in d[h] && x in d[h][k]
      ensures x.guild == h && keyFor(x) == Some(k)
    {
      assert x in c[h][k];
    }
  }

  lemma {:induction false} SyncAllConsistent<K(!new)>(c: Cache<K>, keyFor: Role -> Option<K>, rs: seq<Role>)
    requires Consistent(c, keyFor)
    ensures Consistent(SyncAll(c, keyFor, rs), keyFor)
    decreases |rs|
  {
    if rs != [] {
      SyncAllConsistent(c, keyFor, rs[..|rs| - 1]);
      SyncConsistent(SyncAll(c, keyFor, rs[..|rs| - 1]), keyFor, rs[|rs| - 1]);
    }
  }

  /** Every transition keeps each role in its own guild under its own key. */
  lemma {:induction false} RebuildAllConsistent<K(!new)>(c: Cache<K>, keyFor: Role -> Option<K>, gs: seq<Guild>)
    requires Consistent(c, keyFor)
    ensures Consistent(RebuildAll(c, keyFor, gs), keyFor)
    decreases |gs|
  {
    if gs != [] {
      var init, last := gs[..|gs| - 1], gs[|gs| - 1];
      RebuildAllConsistent(c, keyFor, init);
      var d := RebuildAll(c, keyFor, init);
      DropConsistent(d, keyFor, last.id);
      SyncAllConsistent(d - {last.id}, keyFor, last.roles);
    }
  }

  lemma UpdateConsistent<K(!new)>(c: Cache<K>, keyFor: Role -> Option<K>, before: Role, after: Role)
    requires Consistent(c, keyFor) && Update(c, keyFor, before, after).Success?
    ensures Consistent(Update(c, keyFor, before, after).value, keyFor)
  {
    RemoveConsistent(c, keyFor, before);
    SyncConsistent(Remove(c, keyFor, before).value, keyFor, after);
  }

  /** rolecache.py's base class caches nothing: with no key, syncing any
      roles leaves the cache as it was. */
  lemma {:induction false} NoKeyStoresNothing<K(!new)>(c: Cache<K>, rs: seq<Role>)
    ensures SyncAll(c, NoKey, rs) == c
    decreases |rs|
  {
    if rs != [] {
      NoKeyStoresNothing(c, rs[..|rs| - 1]);
    }
  }

  // ---------------------------------------------------------------------
  // The cog's state

  /** Some iteration order of a set: each element once. */
  method Enumerate<T>(s: set<T>) returns (xs: seq<T>)
    ensures forall x :: x in xs <==> x in s
    ensures forall i, j | 0 <= i < j < |xs| :: xs[i] != xs[j]
  {
    xs := [];
    var rest := s;
    while rest != {}
      invariant forall x :: x in s <==> x in xs || x in rest
      invariant forall x | x in xs :: x !in rest
      invariant forall i, j | 0 <= i < j < |xs| :: xs[i] != xs[j]
      decreases rest
    {
      var x :| x in rest;
      xs := xs + [x];
      rest := rest - {x};
    }
  }

  /** A `RoleCog` (or `RoleCache`) and its `_cache`, changed in place by
      the event handlers. */
  class RoleCache<K(==,!new)> {
    const keyFor: Role -> Option<K>
    var cache: Cache<K>

    /** `__init__`: an empty cache. */
    constructor (keyFor: Role -> Option<K>)
      ensures this.keyFor == keyFor && cache == map[]
      ensures Consistent(cache, keyFor)
    {
      this.keyFor := keyFor;
      cache := map[];
    }

    predicate Valid()
      reads this
    {
      Consistent(cache, keyFor)
    }

    /** `_sync_role(role)`, also `on_guild_role_create`. */
    method SyncRole(r: Role)
      requires Valid()
      modifies this
      ensures Valid()
      ensures cache == Sync(old(cache), keyFor, r)
    {
      SyncConsistent(cache, keyFor, r);
      match keyFor(r)
      case None =>
      case Some(k) =>
        cache := cache[r.guild := Entry(cache, r.guild)[k := Get(cache, r.guild, k) + {r}]];
    }

    /** `_remove_role(role)`, also `on_guild_role_delete`; the KeyError
        leaves the cache as it was. */
    method RemoveRole(r: Role) returns (res: Result<(), CacheError>)
      requires Valid()
      modifies this
      ensures Valid()
      ensures Remove(old(cache), keyFor, r).Failure? ==> res == Failure(KeyError) && cache == old(cache)
      ensures Remove(old(cache), keyFor, r).Success? ==> res == Success(()) && cache == Remove(old(cache), keyFor, r).value
    {
      match keyFor(r)
      case None =>
        return Success(());
      case Some(k) =>
        if r !in Get(cache, r.guild, k) {
          return Failure(KeyError);
        }
        RemoveConsistent(cache, keyFor, r);
        cache := cache[r.guild := Entry(cache, r.guild)[k := Get(cache, r.guild, k) - {r}]];
        return Success(());
    }

    /** `on_guild_role_update(old, new)`. */
    method RoleUpdate(before: Role, after: Role) returns (res: Result<(), CacheError>)
      requires Valid()
      modifies this
      ensures Valid()
      ensures Update(old(cache), keyFor, before, after).Failure? ==> res == Failure(KeyError) && cache == old(cache)
      ensures Update(old(cache), keyFor, before, after).Success? ==>
        res == Success(()) && cache == Update(old(cache), keyFor, before, after).value
    {
      res := RemoveRole(before);
      if res.Success? {
        SyncRole(after);
      }
    }

    /** `on_guild_join(guild)`: sync each of its roles. */
    method GuildJoin(g: Guild)
      requires Valid()
      modifies this
      ensures Valid()
      ensures cache == SyncAll(old(cache), keyFor, g.roles)
    {
      var i := 0;
      while i < |g.roles|
        invariant 0 <= i <= |g.roles|
        invariant Valid()
        invariant cache == SyncAll(old(cache), keyFor, g.roles[..i])
      {
        SyncRole(g.roles[i]);
        assert g.roles[..i + 1][..i] == g.roles[..i];
        i := i + 1;
      }
      assert g.roles[..|g.roles|] == g.roles;
    }

    /** `on_guild_remove(guild)`. */
    method GuildRemove(g: nat)
      requires Valid()
      modifies this
      ensures Valid()
      ensures cache == Forget(old(cache), g)
    {
      if g in cache && cache[g] != map[] {
        DropConsistent(cache, keyFor, g);
        cache := cache - {g};
      }
    }

    /** `rebuild_cache(guild)`: the named guild, or every guild of the bot
        when none is named; also `on_ready`. */
    method RebuildCache(guild: Option<Guild>, botGuilds: seq<Guild>)
      requires Valid()
      modifies this
      ensures Valid()
      ensures cache == RebuildAll(old(cache), keyFor, if guild.Some? then [guild.value] else botGuilds)
    {
      var guilds := if guild.Some? then [guild.value] else botGuilds;
      var i := 0;
      while i < |guilds|
        invariant 0 <= i <= |guilds|
        invariant Valid()
        invariant cache == RebuildAll(old(cache), keyFor, guilds[..i])
      {
        var g := guilds[i];
        ghost var before := cache;
        DropConsistent(cache, keyFor, g.id);
        if g.id in cache {
          cache := cache - {g.id};
        }
        assert cache == before - {g.id};
        var j := 0;
        while j < |g.roles|
          invariant 0 <= j <= |g.roles|
          invariant Valid()
          invariant cache == SyncAll(before - {g.id}, keyFor, g.roles[..j])
        {
          SyncRole(g.roles[j]);
          assert g.roles[..j + 1][..j] == g.roles[..j];
          j := j + 1;
        }
        assert g.roles[..|g.roles|] == g.roles;
        assert guilds[..i + 1][..i] == guilds[..i];
        i := i + 1;
      }
      assert guilds[..|guilds|] == guilds;
    }

    /** `get_roles(guild, key)`. */
    function GetRoles(g: nat, k: K): (r: set<Role>)
      reads this
      ensures Valid() ==> forall x | x in r :: x.guild == g && keyFor(x) == Some(k)
    {
      assert Valid() ==> forall x | x in Get(cache, g, k) :: x in cache[g][k];
      Get(cache, g, k)
    }

    /** `get_role(guild, key, default=..)`: some role of the key's set,
        or `default`. */
    method GetRole(g: nat, k: K, default: Option<Role>) returns (r: Option<Role>)
      ensures Get(cache, g, k) == {} ==> r == default
      ensures Get(cache, g, k) != {} ==> r.Some? && r.value in Get(cache, g, k)
    {
      var s := Get(cache, g, k);
      if s == {} {
        return default;
      }
      var x :| x in s;
      return Some(x);
    }

    /** `roles_by_key(guild)`, in some order. */
    method RolesByKey(g: nat) returns (ps: seq<(K, Role)>)
      ensures forall k, x :: (k, x) in ps <==> x in Get(cache, g, k)
    {
      ps := Enumerate(PairsOf(cache, g));
    }

    /** `all_roles(guild)`, in some order. */
    method AllRoles(g: nat) returns (rs: seq<Role>)
      requires Valid()
      ensures forall x :: x in rs <==> x.guild == g && keyFor(x).Some? && x in Get(cache, g, keyFor(x).value)
    {
      rs := Enumerate(AllRolesOf(cache, g));
      forall x {
        AllRolesExact(cache, keyFor, g, x);
      }
    }
  }
}
