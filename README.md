# irisbot in Dafny

A model of the core of irisbot, a self-service role bot for a chat
platform. It proves properties of that model.

- **Help pagination** (`formatter.dfy`, module `Formatter`). A help message
  is a tree of nodes. `Line` is one line of text. `Compound` holds an
  ordered list of items. `TextBlock` is a `Compound` with a prefix, a suffix
  and a reserved size. `HelpSection` is a `TextBlock` with a bold header.
  `split(max_size)` cuts a node into a head that fits and a remainder, and
  `paginate` repeats it until what is left fits. Nodes are the datatype
  `Node`. The phase that builds a block in place (`Compound.__init__`,
  `append`, `add_line`) is the class `Builder`. `split` and `paginate` are
  methods with the source's `while` loops. Each is proved equal to a
  specification function (`SplitOf`, `Pages`), and the lemmas are about
  those functions.
- **English lists** (`utils.dfy`, module `Utils`): `pretty_list`.
- **Opt-in roles** (`optroles.dfy`, module `OptRoles`): role-name
  prefixes, `partition_roles`, `parse_role_list`, and the decisions of the
  `roles`, `join` and `leave` commands.
- **Automatic roles** (`autoroles.dfy`, module `AutoRoles`): the name
  pattern `(Auto) a + b` turned into a key, and the add/remove
  reconciliation of `autorole_member` and `autoroles`.
- **Role cache** (`rolecache.dfy`, module `RoleCaching`): the per-guild
  cache guild → key → set of roles of `RoleCog` in rolecog.py and of its
  older twin `RoleCache` in rolecache.py. Pure transition functions are
  proved to keep the cache consistent. The class `RoleCache` changes its
  `cache` field in place through the event handlers.
- **Age registration** (`age.dfy`, module `Age`): the age-role keys and
  `check_age_unassigned`.
- **Access gate** (`main.dfy`, module `Irisbot`): `check_superuser`,
  `check_channel`, `check_roles`, `is_allowed`, and the category lookup of
  `adminhelp`.
- `platform.dfy`, `wrappers.dfy` and `text.dfy` hold the platform objects
  (role, guild, member as values with ids), `Option`/`Result`, and the few
  `str` operations used (`lower`, `strip`, `split`, `join`).

Python exceptions become `Failure` values. Settings such as `ROLE_PREFIX`,
the age role names and the access lists are parameters. A cog's
`key_for_role` is a function parameter of the cache.

## Model

| member | source | states |
|---|---|---|
| `Formatter.BaseReservedIsDecoration` | formatter.py:94-132 | A fresh block reserves exactly its prefix and suffix length. A HelpSection's prefix is the bold name if there is one, then the hint, then a newline. |
| `Formatter.Make` | formatter.py:49-62 | A freshly built block's `size()` is the sum of its items' sizes plus what its decoration reserves. |
| `Formatter.MakeValid` | formatter.py:93-98 | A fresh block of valid items keeps the bookkeeping invariant (reserved ≥ prefix + suffix). |
| `Formatter.Size` | formatter.py:58-62 | `size()`: a Line's length, or a block's item sizes plus its `reserved_size()`. Its contracts are in `Make`, `Builder.GetSize` and `RenderLinesLength` (the newlines of `render()` are not counted). |
| `Formatter.ReservedSize` | formatter.py:114-115 | `reserved_size()`: 0 for a Compound, the bookkept field otherwise. `SplitKeepsDecoration` states its value on the halves of a split. |
| `Formatter.Children` | formatter.py:117-136 | `children(first, rest)`: two fresh blocks of the parent's kind; a HelpSection's second one gets the hint `(cont'd)`. Its contract is `SplitKeepsDecoration`. |
| `Formatter.GreedyCut` | formatter.py:84-90 | The greedy loop's index, when found, is in bounds and past every item that fits. Running off the end is the IndexError. |
| `Formatter.SplitOf` | formatter.py:71-90 | A split with no remainder happens only for a node that fits. |
| `Formatter.SplitOfStuck` | formatter.py:17-21 | A Line larger than the budget raises RuntimeError. An empty block that does not fit fails at `self._items[0]`. |
| `Formatter.OverflowSplit` | formatter.py:75-82 | If the first item exceeds `allowed`, only that item is split, at `allowed`. The head is `[first_first]` and the remainder is `[first_rest] + items[1:]`. Its failure is the block's failure. |
| `Formatter.GreedySplit` | formatter.py:84-90 | If the first item fits, the head is `items[:i]` and the remainder `items[i:]`, where `i` is the first misfit. |
| `Formatter.Split` | formatter.py:71-90 | The recursive method with the greedy loop computes exactly `SplitOf`. |
| `Formatter.SplitBlock` | formatter.py:75-90 | The oversized-block part of `split` computes exactly `SplitOf`. |
| `Formatter.FirstMisfit` | formatter.py:84-88 | The `while` loop over `space_left` and `i` computes the greedy cut. |
| `Formatter.GreedyCutLongest` | formatter.py:84-88 | The head prefix is the longest one whose total size is ≤ `allowed`. The loop runs off the end only when all items fit. |
| `Formatter.GreedySplitLongest` | formatter.py:75-90 | In the greedy case the split succeeds with 1 ≤ i < len(items). `items[:i]` fits in `allowed` and `items[:i+1]` does not. |
| `Formatter.SplitKeepsLeaves` | formatter.py:79-90 | The head's leaf lines followed by the remainder's equal the node's leaf lines: nothing lost, duplicated or reordered. |
| `Formatter.SplitFits` | formatter.py:71-98 | The head always has `size() <= max_size`. Both halves keep the bookkeeping invariant. |
| `Formatter.SplitInBounds` | formatter.py:84-88 | The greedy index never runs past the last item. |
| `Formatter.SplitWhole` | formatter.py:71-73 | `split` returns the node itself with no remainder exactly when `size() <= max_size`. |
| `Formatter.SplitShrinks` | formatter.py:79-90 | A remainder has fewer nodes than the node split. This is the termination measure of `paginate`. |
| `Formatter.SplitErrors` | formatter.py:17-21 | `split` fails only with RuntimeError (unsplittable Line) or IndexError (missing item). |
| `Formatter.SplitKeepsDecoration` | formatter.py:117-136 | Both halves are blocks of the parent's kind with reserved size recomputed as `len(prefix)+len(suffix)` (the `add_line` increments are dropped). A HelpSection remainder gets the hint `(cont'd)` and keeps its name. |
| `Formatter.Paginate` | formatter.py:23-31 | The loop appending heads to `parts` computes exactly `Pages`. |
| `Formatter.Pages` | formatter.py:23-31 | `paginate` as written, with the loop test `>=`. Its contracts are in `PagesFit`, `PagesKeepLeaves`, `PagesKeepKind`, `PagesFailAtBoundary` and `PagesWithinBudget`. |
| `Formatter.PagesStep` | formatter.py:26-29 | One loop turn puts the head before the pages of the remainder. |
| `Formatter.PagesFit` | formatter.py:23-31 | Every page has `size() <= max_size` and the last has `< max_size`. |
| `Formatter.PagesKeepLeaves` | formatter.py:23-31 | The pages' leaf lines, page after page, are the original leaf lines in order. |
| `Formatter.PagesFailAtBoundary` | formatter.py:26-29 | A remainder of size exactly `max_size` makes `paginate` call `size()` on None. |
| `Formatter.PagesIntendedFit` | formatter.py:23-31 | With the loop test `>`, pagination never reaches None, returns a fitting node as its only page, and every page fits. |
| `Formatter.PagesIntendedAgrees` | formatter.py:23-31 | Wherever `paginate` as written succeeds, the corrected loop returns the same pages. |
| `Formatter.PageReserve` | formatter.py:134-136 | The room a block's pages must leave is at least its own reserved size and at least the reserve of the continued header its remainders get. |
| `Formatter.SplitWithinBudget` | formatter.py:75-90 | For a tree within the budget (`FitsBudget`: every Line fits what the budget leaves after each enclosing block's `PageReserve`), `split` at any size from the budget up succeeds on a node that does not fit. It leaves a remainder that is again within the budget. |
| `Formatter.PagesIntendedWithinBudget` | formatter.py:23-31 | A tree within the budget `max_size` paginates with the corrected loop: no RuntimeError, IndexError or None remainder. |
| `Formatter.PagesWithinBudget` | formatter.py:23-31 | Under `paginate` as written, the same tree succeeds or stops only at a remainder of exactly `max_size`. |
| `Formatter.PagesKeepKind` | formatter.py:134-136 | The first page has the node's kind. Every later page has the continued kind, so a HelpSection's later pages say `(cont'd)`. |
| `Formatter.CompoundPagesNoRender` | formatter.py:33-34 | `render_pages` on a plain Compound always fails, since Compound has no `render`. |
| `Formatter.Render` | formatter.py:111-112 | `render()`: prefix, the items' renders joined by newlines, suffix; a Compound has none. Its contracts are in `RenderLinesLength` and `CompoundPagesNoRender`. |
| `Formatter.RenderAll` | formatter.py:112 | The items' renders, one string per item when none fails. |
| `Formatter.RenderPages` | formatter.py:33-34 | `render_pages`: the render of every page of `paginate`. Its contract is `CompoundPagesNoRender`. |
| `Formatter.RenderLinesLength` | formatter.py:111-112 | A rendered block of lines is its decoration, its texts and one `'\n'` between each two of them, which `size()` does not count. |
| `Formatter.SplitCommandsSection` | formatter.py:122-136 | Worked case: a section "Commands" of five 5-character lines at budget 28 splits 3/2, in order, under the original and the continued header. |
| `Formatter.CommandsHeaders` | formatter.py:127-136 | The two headers are `**Commands**\n` and `**Commands**(cont'd)\n`. |
| `Formatter.PaginateRolesSection` | formatter.py:23-31 | Worked case: section "Roles" of four 10-character lines at budget 25. Every line fits 25. The first page takes one line. The longer continued header then leaves 7 characters for the next line, and `paginate` raises. The tree is not within the budget of `PagesIntendedWithinBudget`. |
| `Formatter.Builder.constructor` | formatter.py:49-53 | Constructing a block appends each item in order and gives the fresh block `Make` describes. |
| `Formatter.Builder.Append` | formatter.py:67-69 | `append` puts the item last and adds its size to `_size`. |
| `Formatter.Builder.AddLine` | formatter.py:105-109 | `add_line` appends one Line (two with `empty`) and raises the reserved size by 1 (or 2). |
| `Formatter.Builder.GetSize` | formatter.py:61-62 | The bookkept `_size + reserved_size()` equals the node's size. |
| `Formatter.BuilderValid` | formatter.py:61-69 | A builder keeping its invariant yields a valid node. |
| `Formatter.FormatSection` | formatter.py:170-175 | `format_section` gives a HelpSection with one Line per command plus an empty one and reserved size +1. Its render length is `size()` plus one newline per command, less one. |
| `Utils.PrettyList` | utils.py:15-18 | No names gives `empty` unchanged. |
| `Utils.Bolded` | utils.py:20-21 | With `bold`, each name becomes `**name**`, in order. |
| `Utils.PrettyListInOrder` | utils.py:15-29 | The names appear once each and in order. One name stands alone. Two are joined by `sep + ' '`. Three or more have `', '` between all but the last two, then `','` + `sep` + `' '`. `sep` is `' '+conjunction`, or nothing when the conjunction is empty. |
| `Utils.BoldListEmpty` | utils.py:15-21 | A bold list is `''` exactly when there are no names and `empty` is `''`. |
| `OptRoles.RolePrefixKeys` | optroles.py:7 | `ROLE_PREFIX` is the setting lowercased: a role is opt-in iff its lowercased name starts with the lowercased setting, the default `In:` becomes `in:`, and a role named exactly the setting (any case) gets the empty key and is never cached. |
| `OptRoles.PrettyRole` | optroles.py:10-15 | The lowercased name without the prefix when it starts with it, otherwise the whole lowercased name. |
| `OptRoles.KeyForRole` | optroles.py:47-50 | A role has a key exactly when its lowercased name starts with the prefix. |
| `OptRoles.KeyIsPrettyName` | optroles.py:47-50 | The key is the pretty name. An unprefixed role is shown by its lowercased name. |
| `OptRoles.CacheKey` | rolecog.py:51-54 | A role is cached only under a truthy key, so a role named exactly the prefix is not cached. `Join` and `Leave` require the cog's cache to be keyed by it. |
| `OptRoles.PrettyRoles` | optroles.py:18-19 | The pretty names, in order. |
| `OptRoles.PrettyRoleListEmpty` | optroles.py:18-19 | `pretty_role_list` is `''` exactly for an empty list. |
| `OptRoles.Keep` | optroles.py:22-29 | The kept roles are exactly the input roles with the requested membership. |
| `OptRoles.PartitionRoles` | optroles.py:22-29 | The loop builds `absent` and `present` as the order-preserving filters by membership. |
| `OptRoles.PartitionIsSplit` | optroles.py:22-29 | Each role lands in exactly one of the two lists (multiset union). |
| `OptRoles.KeepConcat` | optroles.py:22-29 | Both lists keep the input order. |
| `OptRoles.Resolving` | optroles.py:117-126 | Names in either list come from the input and resolve, or do not resolve, by their lowercased key. |
| `OptRoles.ParseRoleList` | optroles.py:117-126 | `not_found` holds the unresolved names as given, in order. `found[i]` is a cached role of the i-th resolving name. |
| `OptRoles.ParseIsSplit` | optroles.py:117-126 | Every name is found or not found, never both. |
| `OptRoles.ResolvedOptIn` | optroles.py:117-126 | In a consistent cache keyed by `CacheKey`, every role `parse_role_list` finds is an opt-in role of the guild looked up. |
| `OptRoles.StripComma` | optroles.py:78 | One trailing comma comes off, and nothing else changes. |
| `OptRoles.JoinArgs` | optroles.py:78 | `join` strips each argument, in order. |
| `OptRoles.AvailableAndHeld` | optroles.py:62-64 | The message for both lists non-empty. It is never the no-roles reply. |
| `OptRoles.Available` | optroles.py:65-66 | The message for only available roles. It is never the no-roles reply. |
| `OptRoles.AllHeld` | optroles.py:67-69 | The message for only held roles. It is never the no-roles reply. |
| `OptRoles.RolesReply` | optroles.py:52-72 | `roles`: the message for the absent and present lists of `partition_roles`. Its contract is `RolesReplyChoice`, which fixes the message in all four cases. |
| `OptRoles.RolesReplyChoice` | optroles.py:58-71 | `roles` replies "no user-joinable roles" exactly when there are no roles. Otherwise it gives the all-held message when none is lacking, the available message when none is held, and the message naming both lists when both are non-empty. |
| `OptRoles.Added` | optroles.py:133-138 | The reply of a join that adds roles. It is never "already in all" nor the no-roles reply. |
| `OptRoles.Removed` | optroles.py:147-152 | The reply of a leave that removes roles. It is never "aren't in any" nor the no-roles reply. |
| `OptRoles.JoinOutcome` | optroles.py:128-140 | What `join_roles` adds and replies. Its contract is `JoinAddsMissing`. |
| `OptRoles.LeaveOutcome` | optroles.py:142-154 | What `leave_roles` removes and replies. Its contract is `LeaveRemovesHeld`. |
| `OptRoles.JoinRoles` | optroles.py:128-140 | `join_roles` computes `JoinOutcome`. |
| `OptRoles.LeaveRoles` | optroles.py:142-154 | `leave_roles` computes `LeaveOutcome`. |
| `OptRoles.JoinAddsMissing` | optroles.py:128-140 | `join_roles` adds exactly the roles the user lacks, after which the user holds all of them. It replies "already in all" exactly when nothing is added. |
| `OptRoles.LeaveRemovesHeld` | optroles.py:142-154 | `leave_roles` removes exactly the roles the user holds. It replies "aren't in any" exactly when nothing is removed. |
| `OptRoles.Join` | optroles.py:74-83 | `join` strips commas, then reports the unknown names or joins the found roles. With the cog's consistent cache it never removes a role and adds only opt-in roles of the guild. |
| `OptRoles.Leave` | optroles.py:94-102 | `leave` does the same without the comma clean-up. It never adds a role and removes only opt-in roles of the guild. |
| `OptRoles.NoSuchRoles` | optroles.py:113-115 | `say_no_such_roles`: the reply naming the unknown roles. `Join` and `Leave` give it for exactly the unresolved names. |
| `OptRoles.JoinAllAsWritten` | optroles.py:85-92 | `join all` as written. Its contract is `AllCommandsMissNoRoles`. |
| `OptRoles.LeaveAllAsWritten` | optroles.py:104-111 | `leave all` as written. Its contract is `AllCommandsMissNoRoles`. |
| `OptRoles.JoinAll` | optroles.py:85-92 | `join all` with the intended emptiness test. Its contract is `AllCommandsIntended`. |
| `OptRoles.LeaveAll` | optroles.py:104-111 | `leave all` with the intended emptiness test. Its contract is `AllCommandsIntended`. |
| `OptRoles.AllCommandsMissNoRoles` | optroles.py:85-111 | With no opt-in roles, `join all`/`leave all` as written reply "already in all"/"aren't in any", never the no-roles message. |
| `OptRoles.AllCommandsIntended` | optroles.py:85-111 | With the intended emptiness test the no-roles reply comes exactly when there are no roles. The commands otherwise agree with the written ones. |
| `AutoRoles.KeyForRole` | autoroles.py:15-20 | A role has a key exactly when its lowercased name fully matches the pattern. The key has at least one part. |
| `AutoRoles.Match` | autoroles.py:10-17 | `ROLE_REGEX.fullmatch` giving group 1. Its contracts are in `BodyShape`, `BodyWithoutBreaks` and `KeyForRole`. |
| `AutoRoles.BodyWithoutBreaks` | autoroles.py:10-11 | Without line breaks, the group after the prefix matches exactly when it starts with a non-space and has at least 3 characters once trailing spaces are dropped. |
| `AutoRoles.BodyShape` | autoroles.py:10-11 | Whatever the group matches starts with a non-space and has ≥ 3 characters. |
| `AutoRoles.KeyPieces` | autoroles.py:19-20 | The key is the `'+'`-separated pieces of the group, each stripped. No part holds a `+`. |
| `AutoRoles.DocumentedNameKey` | autoroles.py:73-77 | A name written as prefix, a space and parts joined by ` + ` is keyed by exactly those parts. |
| `AutoRoles.AddMembers` | autoroles.py:43-47 | `to_add` is exactly the cached roles whose two names the member holds. |
| `AutoRoles.RemoveMembers` | autoroles.py:48-49 | `to_remove` is exactly the other cached roles the member holds. |
| `AutoRoles.AutoroleAsWritten` | autoroles.py:41-58 | `autorole_member` as written. Its contracts are in `AutoroleMember`, `AutoroleOutcome`, `ManyPartsFail` and `SettledMemberChanged`. |
| `AutoRoles.AutoroleMember` | autoroles.py:41-58 | The loop over `roles_by_key` computes the written behaviour: a non-two-part key raises. Otherwise `changed` is true iff a list is non-empty, and the roles become `(roles − to_remove) ∪ to_add`. |
| `AutoRoles.AutoroleOutcome` | autoroles.py:51-55 | Afterwards the member holds exactly the cached auto roles whose two names they hold, plus their other roles. |
| `AutoRoles.ManyPartsFail` | autoroles.py:45 | A documented three-part auto role, once cached, makes `autorole_member` raise for every member of its guild. |
| `AutoRoles.SettledMemberChanged` | autoroles.py:51-58 | A member whose auto roles are already right is edited to the same role set and reported as changed. |
| `AutoRoles.AutoroleIntended` | autoroles.py:41-58 | `autorole_member` corrected. Its contracts are in `IntendedChangedIffDiffers`, `IntendedAgrees` and `IntendedOutcome`. |
| `AutoRoles.IntendedChangedIffDiffers` | autoroles.py:51-58 | In the corrected version, `changed` holds exactly when the role set changes. |
| `AutoRoles.IntendedAgrees` | autoroles.py:41-58 | On two-part keys the corrected version gives the same role set as the written one. |
| `AutoRoles.IntendedOutcome` | autoroles.py:41-58 | The corrected version never raises. It leaves the member with exactly the auto roles all of whose names they hold. |
| `AutoRoles.OnMemberUpdate` | autoroles.py:60-66 | A member being processed, or whose roles did not change, is left alone. Otherwise `autorole_member(after)` runs. |
| `AutoRoles.CountAsWritten` | autoroles.py:34-39 | The count of `autoroles`. Its contracts are in `CountFails` and `CountChanged`. |
| `AutoRoles.CountFails` | autoroles.py:34-39 | `autoroles` fails exactly when some member's `autorole_member` fails. |
| `AutoRoles.CountChanged` | autoroles.py:34-39 | Otherwise it reports the number of members reported as changed. |
| `AutoRoles.Autoroles` | autoroles.py:26-39 | The loop over the guild's members computes that count. |
| `RoleCaching.PairsOf` | rolecog.py:39-42 | `roles_by_key` yields `(key, role)` exactly for the roles cached under `key`. |
| `RoleCaching.Get` | rolecog.py:31-32 | The set under a key, empty when absent. Its contracts are in `SyncGet`, `RemoveGet` and `ForgetGet`. |
| `RoleCaching.Sync` | rolecog.py:51-54 | `_sync_role`. Its contracts are `SyncGet` and `SyncConsistent`. |
| `RoleCaching.Remove` | rolecog.py:56-59 | `_remove_role`. Its contracts are `RemoveGet`, `RemoveConsistent` and `SyncThenRemove`. |
| `RoleCaching.SyncAll` | rolecog.py:79-81 | The sync loop of `on_guild_join` and `rebuild_cache`. Its contracts are `SyncAllGet` and `SyncAllConsistent`. |
| `RoleCaching.Rebuild` | rolecog.py:25-29 | `rebuild_cache` for one guild. Its contract is `RebuildExact`. |
| `RoleCaching.RebuildAll` | rolecog.py:23-29 | `rebuild_cache` over a list of guilds. Its contracts are `RebuildAllExact` and `RebuildAllConsistent`. |
| `RoleCaching.Update` | rolecog.py:73-76 | `on_guild_role_update`. Its contracts are `UpdateMoves` and `UpdateConsistent`. |
| `RoleCaching.Forget` | rolecog.py:83-86 | `on_guild_remove`. Its contracts are `ForgetGet` and `DropConsistent`. |
| `RoleCaching.AllRolesOf` | rolecog.py:44-46 | The roles `all_roles` yields. Its contract is `AllRolesExact`. |
| `RoleCaching.SyncGet` | rolecog.py:51-54 | `_sync_role` adds the role to its own key of its own guild only, and only when it has a key. |
| `RoleCaching.RemoveGet` | rolecog.py:56-59 | `_remove_role` raises KeyError exactly for a keyed role that is not cached. Otherwise it removes the role from its own key only. |
| `RoleCaching.SyncThenRemove` | rolecache.py:47-55 | Removing a freshly synced role succeeds and restores every reader. |
| `RoleCaching.SyncAllGet` | rolecog.py:79-81 | Joining a guild (syncing a list of roles) adds exactly the keyed roles. |
| `RoleCaching.RebuildExact` | rolecog.py:23-29 | `rebuild_cache(guild)` leaves that guild holding exactly its keyed roles and other guilds untouched. |
| `RoleCaching.RebuildAllExact` | rolecog.py:23-29 | `rebuild_cache()` rebuilds every bot guild and leaves any other guild untouched. |
| `RoleCaching.UpdateMoves` | rolecog.py:74-76 | A role update is remove(old) then sync(new): the new role is under its key, and the old one is no longer under its key. |
| `RoleCaching.ForgetGet` | rolecog.py:83-86 | After `on_guild_remove` the guild holds nothing and other guilds are unchanged. |
| `RoleCaching.AllRolesExact` | rolecog.py:44-46 | `all_roles` holds exactly the roles cached under their own key in that guild. |
| `RoleCaching.SyncConsistent` | rolecog.py:51-54 | Syncing keeps every role in its own guild under its own key. |
| `RoleCaching.RemoveConsistent` | rolecog.py:56-59 | Removing keeps that invariant. |
| `RoleCaching.DropConsistent` | rolecog.py:26-27 | Deleting a guild's entry keeps it. |
| `RoleCaching.SyncAllConsistent` | rolecog.py:79-81 | Joining a guild keeps it. |
| `RoleCaching.RebuildAllConsistent` | rolecog.py:23-29 | Rebuilding keeps it. |
| `RoleCaching.UpdateConsistent` | rolecache.py:66-68 | A role update keeps it. |
| `RoleCaching.NoKeyStoresNothing` | rolecache.py:16-17 | With the base `key_for_role` returning None, syncing stores nothing. |
| `RoleCaching.Enumerate` | rolecog.py:40-46 | A generator over a set yields each element once. |
| `RoleCaching.RoleCache.constructor` | rolecog.py:14-18 | The cache starts empty and consistent. |
| `RoleCaching.RoleCache.SyncRole` | rolecog.py:51-54 | In place: the new cache is `Sync` of the old, still consistent. |
| `RoleCaching.RoleCache.RemoveRole` | rolecog.py:56-59 | In place: the new cache is `Remove` of the old. On KeyError the cache is unchanged. |
| `RoleCaching.RoleCache.RoleUpdate` | rolecog.py:73-76 | `on_guild_role_update`: removal, then sync if the removal succeeded. |
| `RoleCaching.RoleCache.GuildJoin` | rolecog.py:78-81 | `on_guild_join` syncs each role in order. |
| `RoleCaching.RoleCache.GuildRemove` | rolecog.py:83-86 | `on_guild_remove` deletes the entry only if it is non-empty. |
| `RoleCaching.RoleCache.RebuildCache` | rolecog.py:23-29 | Rebuilds the named guild, or every bot guild when none is named. |
| `RoleCaching.RoleCache.GetRoles` | rolecog.py:31-32 | `get_roles` gives the key's set (empty if absent), whose roles belong to that guild and key. |
| `RoleCaching.RoleCache.GetRole` | rolecog.py:34-37 | `get_role` gives an element of that set, or `default` when it is empty. |
| `RoleCaching.RoleCache.RolesByKey` | rolecog.py:39-42 | Yields every `(key, role)` pair of the guild. |
| `RoleCaching.RoleCache.AllRoles` | rolecog.py:44-46 | Yields every cached role of the guild. |
| `Age.KeyForRoleCases` | age.py:13-16 | A name equal to the minor name (case-insensitively) gets `'minor'`, which wins when both names coincide. A name equal to the adult name gets `'adult'`. Anything else gets None. |
| `Age.KeyForRole` | age.py:31-32 | A role has a key exactly when its lowercased name is one of the two lowercased configured names. The key is `'adult'` or `'minor'`. |
| `Age.KeyIgnoresCase` | age.py:31-32 | Names differing only in case get the same key. |
| `Age.NoneAmong` | age.py:21-24 | The loop's answer: none of the roles is among the age roles. |
| `Age.CheckAgeUnassigned` | age.py:18-24 | The author holds none of the server's cached age roles. Its contracts are `NoneAmong` and `UnassignedMeaning`. |
| `Age.UnassignedMeaning` | age.py:18-24 | `check_age_unassigned` holds iff none of the author's roles is cached as an age role of the server. |
| `Age.RegisterOnce` | age.py:40-56 | After receiving a cached age role the member is no longer unassigned. |
| `Age.CantChange` | age.py:58-65 | The refusal message of a failed check. It is none of the cog's other replies (the usage text and the two confirmations). |
| `Age.AgeCommand` | age.py:34-38 | `age` without a subcommand adds no role. It replies `You must specify "adult" or "minor".` exactly when the check passes, and the refusal exactly when it fails. |
| `Age.Register` | age.py:40-56 | Behind the check, the role handed to `add_roles` is one cached under the key, or None if there is none. The confirmation follows (see "## Left out" on None). |
| `Age.Adult` | age.py:40-47 | `adult` fetches the role cached under `'adult'`. It replies with the confirmation exactly when the check passes, taking `add_roles` to return (see "## Left out"). |
| `Age.Minor` | age.py:49-56 | `minor` fetches the role cached under `'minor'`. It replies with the confirmation exactly when the check passes, taking `add_roles` to return (see "## Left out"). |
| `Irisbot.LowerAll` | main.py:22-24 | The role lists are lowercased element by element, in order. |
| `Irisbot.RoleNames` | main.py:79 | The author's role names lowercased, in order. |
| `Irisbot.AnyListed` | main.py:80-83 | `any(name in list ...)` holds iff some name is on the list. |
| `Irisbot.CheckSuperuser` | main.py:64-66 | Holds iff some author role's lowercased name equals a lowercased `SUPERUSER_ROLES` entry. |
| `Irisbot.CheckRoles` | main.py:78-84 | With a non-empty whitelist: passes iff some role is on it, ignoring the blacklist. Otherwise: passes iff no role is on the blacklist. |
| `Irisbot.CheckChannel` | main.py:68-76 | `check_channel`. Its contract is `ChannelMeaning`. |
| `Irisbot.ChannelMeaning` | main.py:68-76 | A whitelisted channel passes even when blacklisted. Otherwise the channel must be unblacklisted, and the regex, if set, must match. |
| `Irisbot.IsAllowed` | main.py:86-89 | `is_allowed`. Its contract is `AllowedCases`. |
| `Irisbot.AllowedCases` | main.py:86-89 | A superuser is always allowed. Anyone else is allowed iff `check_channel and check_roles`. |
| `Irisbot.BlacklistedChannelRefused` | main.py:68-73 | A non-superuser is refused in a blacklisted, non-whitelisted channel. |
| `Irisbot.BlacklistedRoleRefused` | main.py:82-83 | Without a role whitelist, holding a blacklisted role in any case refuses. |
| `Irisbot.OpenSettingsAllowAll` | main.py:68-89 | With all lists empty and no regex, everyone is allowed everywhere. |
| `Irisbot.CategoryMap` | main.py:31-33 | The `categories` dict. Its contract is `CategoryLookup`. |
| `Irisbot.CategoryNames` | main.py:38 | The names listed with no category. Its contract is `CategoryNamesExact`. |
| `Irisbot.AdminHelp` | main.py:27-45 | `adminhelp`. Its contracts are `AdminHelpFinds`, `AdminHelpIgnoresCase` and `AdminHelpNoCategories`. |
| `Irisbot.CategoryLookup` | main.py:31-33 | A lowercased name is a category iff some cog defining `adminhelp` has it. Its entry is that of the last such cog. |
| `Irisbot.CategoryNamesExact` | main.py:31-33 | The listed categories are exactly the dict's keys, each once. |
| `Irisbot.AdminHelpFinds` | main.py:41-45 | A category is looked up case-insensitively among cogs defining `adminhelp` only. Without a match, the reply quotes the category as typed. |
| `Irisbot.AdminHelpIgnoresCase` | main.py:41 | Spellings differing only in case find the same help. |
| `Irisbot.AdminHelpNoCategories` | main.py:35-38 | With no category and no admin cogs, the reply lists "none". |

## Left out

- Every network call of the chat platform: sending messages and the help
  senders (`send_*_help`), `reply`, `add_roles`, `remove_roles`,
  `member.edit`, `change_presence`. The model stops at the decision made
  before the call.
- `on_ready` printing, `oauth2_url` and `on_command_error`: console output
  and a URL format.
- admintools.py is not part of this model. Its deletion loop is
  orchestration of platform calls. Its `purge_channel` stores `channel.id`
  in the `deleting` set (admintools.py:91), while `delete_stop` tests the
  channel object (admintools.py:68).
- `get_short_signature` and `format_command_short`: they read the chat
  library's command objects. `format_section` takes each command line as a
  ready string.
- `format_description` and `TextBlock.from_text`: Python's regex
  substitution and `str.splitlines`.
- The `BOT_CHANNEL_REGEX` match is a predicate parameter on the channel
  name, not Python's `re`.
- `utils.setting`, configuration loading and `is_local_check_failure`.
  Settings are parameters, and the age commands model the refusal message
  directly.
- The `_processing` set of autoroles.py is only read, as a parameter of
  `AutoRoles.OnMemberUpdate`. It guards against re-entrant asynchronous
  events, which the model does not have. The model does not track how the
  set changes. When `autorole_member` raises at autoroles.py:45,
  `self._processing.remove(member.id)` (autoroles.py:57) never runs. That
  member's id stays in the set, and `on_member_update` ignores the member
  from then on. With the input of `AutoRoles.ManyPartsFail`, this happens
  to every member of the guild once each has been processed.
- The `adminhelp` description texts of the cogs (optroles.py:36-45,
  autoroles.py:68-83). `Irisbot.AdminHelp` takes each cog's text as given.
- Letter case: `str.lower` is modelled for ASCII letters only.
  `str.strip` uses Python's whitespace set up to U+3000.
- Reading `_cache[guild]` of a defaultdict creates an empty entry. The
  model does not record that, because an absent entry and an empty one
  read the same everywhere.
- Roles compare as values (the library compares them by id). Iteration
  order of sets and dicts in `roles_by_key`/`all_roles` is some order
  (`Enumerate`).
- `Formatter.Split`, `Formatter.Paginate`: nodes are values. The source
  never changes a node after it is placed in a parent, so no aliasing is
  modelled.
- `Age.Register` (and `Age.Adult`, `Age.Minor`): when no role is cached
  under the key, `get_role` gives None and age.py:46/55 awaits
  `add_roles(member, None)`. `add_roles` is chat-library code outside this
  model; it is taken to return, so the confirmation of age.py:47/56 is
  modelled as sent. If the library rejects None, the command raises instead
  and, since that is not a local check failure, the error handler of
  age.py:61-65 sends nothing.
- `Irisbot.CheckChannel`: `re.match` returns a match object or None, and
  `is_allowed` may return one of these. Only truthiness is modelled.

## Findings

| source | as written | input that shows it | evidently intended | confidence | as-written member | corrected member |
|---|---|---|---|---|---|---|
| formatter.py:26 | `paginate` loops while `size() >= max_size` | a single Line whose length equals `max_size`: `split` returns `(self, None)`, and the next test calls `size()` on None | loop while `size() > max_size`, returning the node as one page | not executed; high | `Formatter.PagesFailAtBoundary` | `Formatter.PagesIntendedFit` |
| optroles.py:89 | `join all` and `leave all` test `if roles:` on the generator `all_roles` returns, which is always true | a guild with no opt-in roles: `join all` replies "You're already in all of those roles." | reply "There are no user-joinable roles at this time." | not executed; high | `OptRoles.AllCommandsMissNoRoles` | `OptRoles.AllCommandsIntended` |
| autoroles.py:45 | each key is unpacked as exactly two names | a role named `(Auto) aaa + bbb + ccc` is cached and makes `autorole_member` raise for every member of the guild | require all listed names ("two or more role names", autoroles.py:73-77) | not executed; high | `AutoRoles.ManyPartsFail` | `AutoRoles.IntendedOutcome` |
| autoroles.py:46-55 | a satisfied auto role goes into `to_add` even when already held | a member holding `(Auto) aaa + bbb`, `aaa` and `bbb` is edited to the same roles and counted by `autoroles` | add only missing roles, so `changed` means a change | not executed; medium | `AutoRoles.SettledMemberChanged` | `AutoRoles.IntendedChangedIffDiffers` |
| formatter.py:134-136 | the remainder of a split HelpSection gets the hint `(cont'd)`, so its header can reserve more than the original's; the first cut is correct, but the remainder's header `**Roles**(cont'd)\n` takes 18 characters and leaves too little for a Line that fitted under the original header | `Formatter.PaginateRolesSection`: section "Roles" of four 10-character Lines at `max_size` 25; every Line fits, yet the 18-character continued header leaves 7 of 25 characters for the next 10-character Line and `split` raises RuntimeError | every tree whose Lines each fit `max_size` paginates. No corrected `split` is modelled. Proved instead: pagination succeeds when every Line fits what `max_size` leaves after each enclosing block's larger reserve, its own or its continued header's | not executed; high | `Formatter.PaginateRolesSection` | `Formatter.PagesIntendedWithinBudget` |
