# playerctl player manager, modelled in Dafny

`PlayerctlPlayerManager` (playerctl/playerctl-player-manager.c) is the playerctl object that
watches the D-Bus session bus for MPRIS media players. It keeps two lists:

- **the name registry** (`player_names`): the player ids (`spotify`, `vlc.instance123`) of
  every bus name `org.mpris.MediaPlayer2.<id>` that currently has an owner. It is kept up to
  date from the bus daemon's `NameOwnerChanged` signal.
- **the player collection** (`players`): the `PlayerctlPlayer` objects that a client chose to
  manage. It is optionally kept sorted by a client-supplied comparator. The client can also
  move a player to the top, as a priority hint.

The manager emits four signals: `name-appeared`, `name-vanished`, `player-appeared` and
`player-vanished`.

The project has six modules:

- `Wrappers`: the `Option` type.
- `Lists`: generic sequence helpers that stand in for the GList calls `g_list_find_custom`
  and `g_list_remove_link`.
- `BusName`: the MPRIS bus-name filter `player_id_from_bus_name`.
- `PlayerList`:
  - the player objects, compared by identity;
  - the comparator type;
  - stand-ins for `g_list_insert_sorted_with_data` (`InsertSorted`) and
    `g_list_sort_with_data` (`SortBy`).
- `ManagerSpec`: the manager's observable state as a value. It holds:
  - `State`: the names, the players and the log of signals emitted;
  - one transition function per operation;
  - the lemmas that state what those operations guarantee;
  - the invariant (`Invariant`) that every operation keeps.
- `PlayerManager`: the class `Manager`. Its fields are updated in place, as the C code
  relinks its GLists. Each method's scan loop is proved to produce exactly the state that
  the matching `ManagerSpec` function describes, and to keep `Valid()`.

The comparator is a total function `(Player, Player) -> int` in the model. The ordering
lemmas assume that it is a total preorder on the players it is applied to (`TotalPreorderOn`).

## Model

| member | source | states |
|---|---|---|
| BusName.PlayerIdFromBusName | playerctl/playerctl-player-manager.c:252-262 | an id is returned exactly when the bus name starts with the MPRIS prefix and is strictly longer than it; the id is non-empty and prefix + id is the bus name |
| BusName.PlayerIdRoundTrip | playerctl/playerctl-player-manager.c:252-262 | prefixing an id and filtering gives the id back, except for the empty id, which is refused |
| Lists.Find | playerctl/playerctl-player-manager.c:316-318 | the lookup in the name registry finds nothing exactly when the name is absent; otherwise it returns the first position holding the name |
| Lists.RemoveAt | playerctl/playerctl-player-manager.c:320-321 | unlinking one entry shortens the list by one and keeps every other entry in its order |
| Lists.RemoveAtIsWithout | playerctl/playerctl-player-manager.c:320-321 | in a duplicate-free list, unlinking the entry at i is the same as removing that value, i.e. the registry loses exactly that name |
| PlayerList.FirstWithId | playerctl/playerctl-player-manager.c:267-271 | the scan by player-id finds nothing exactly when no player carries the id; otherwise it finds the first player that does |
| PlayerList.InsertSorted | playerctl/playerctl-player-manager.c:454-458 | sorted insertion adds exactly the new player and loses nobody (multiset) |
| PlayerList.InsertPositionRank | playerctl/playerctl-player-manager.c:454-458 | the new player goes after exactly the players it ranks strictly after, and before the first one it does not |
| PlayerList.InsertSortedSplit | playerctl/playerctl-player-manager.c:454-458 | sorted insertion keeps the existing players in order and puts the new one at its insertion position |
| PlayerList.InsertSortedSorted | playerctl/playerctl-player-manager.c:454-458 | inserting into a sorted list under a total preorder gives a sorted list |
| PlayerList.SortBy | playerctl/playerctl-player-manager.c:415-416 | sorting is a permutation of the collection |
| PlayerList.SortBySorted | playerctl/playerctl-player-manager.c:415-416 | under a total preorder, sorting gives a sorted collection |
| PlayerList.SortBySortedIdentity | playerctl/playerctl-player-manager.c:429-432 | re-sorting an already sorted collection leaves it unchanged (the sort is stable) |
| PlayerList.SortByNoDup | playerctl/playerctl-player-manager.c:415-416 | sorting never duplicates a player |
| PlayerList.InsertSortedNoDup | playerctl/playerctl-player-manager.c:446-458 | inserting a player that is not yet managed keeps the collection duplicate-free |
| ManagerSpec.Classify | playerctl/playerctl-player-manager.c:313-343 | a vanishing is a lost owner (new empty, previous not); an appearance is a gained owner (previous empty, new not); everything else is ignored; the three cases are exclusive and exhaustive |
| ManagerSpec.RemovePlayerByNameSpec | playerctl/playerctl-player-manager.c:264-280 | removal by name unlinks only the first player carrying the id, keeps the others in order and emits player-vanished for exactly that player; with no such player nothing changes |
| ManagerSpec.OnNameOwnerChangedSpec | playerctl/playerctl-player-manager.c:300-343 | one signal: a non-MPRIS name changes nothing; an owner hand-off changes nothing; an appearance of a new name prepends it and emits name-appeared once; an appearance of a known name changes nothing; a vanishing removes exactly that name; no duplicates arise |
| ManagerSpec.VanishEventOrder | playerctl/playerctl-player-manager.c:314-329 | on a vanishing, player-vanished for the name's managed player (if any) comes before name-vanished, and nothing else is emitted |
| ManagerSpec.ReplayKeepsNoDuplicates | playerctl/playerctl-player-manager.c:282-349 | any run of NameOwnerChanged signals keeps the registry and the collection free of duplicates |
| ManagerSpec.ManageSpec | playerctl/playerctl-player-manager.c:440-465 | managing a player already managed changes nothing; a new player is added once with one player-appeared signal, in front when no comparator is set; the registry is untouched |
| ManagerSpec.ManageIdempotent | playerctl/playerctl-player-manager.c:446-452 | managing the same player twice is the same as managing it once |
| ManagerSpec.ManageKeepsSorted | playerctl/playerctl-player-manager.c:454-458 | with a comparator, the new player lands at its insertion position and the collection stays sorted |
| ManagerSpec.MoveToTopSpec | playerctl/playerctl-player-manager.c:419-438 | moving to the top is a permutation; an unmanaged player changes nothing; without a comparator the player is first and the others keep their order |
| ManagerSpec.MoveToTopSorted | playerctl/playerctl-player-manager.c:428-433 | with a comparator the collection is sorted after the move |
| ManagerSpec.MoveToTopInserts | playerctl/playerctl-player-manager.c:425-433 | with a comparator, move-then-sort equals inserting the player into the sorted rest |
| ManagerSpec.MoveToTopPriority | playerctl/playerctl-player-manager.c:419-438 | with a comparator, only players that the moved player ranks strictly after stay in front of it, so it is first among its ties |
| ManagerSpec.AppearThenVanishIsSilentForPlayers | playerctl/playerctl-player-manager.c:313-343 | a name that appears and then vanishes without being managed leaves the lists as they were, with one name-appeared and one name-vanished signal |
| ManagerSpec.SpotifyScenario | playerctl/playerctl-player-manager.c:313-343 | with "spotify" registered, a second appearance changes nothing and its vanishing empties the registry with one name-vanished signal |
| ManagerSpec.MoveToTopExample | playerctl/playerctl-player-manager.c:425-426 | without a comparator, moving C to the top of [A, B, C] gives [C, A, B] |
| ManagerSpec.SetSortExample | playerctl/playerctl-player-manager.c:415-416 | sorting [A, B, C] by priorities B=1, A=2, C=3 gives [B, A, C] |
| ManagerSpec.RemoveAtKeepsInvariant | playerctl/playerctl-player-manager.c:272 | unlinking one player keeps the collection duplicate-free and sorted |
| ManagerSpec.RemoveNameKeepsInvariant | playerctl/playerctl-player-manager.c:320-321 | unlinking one name keeps the invariant |
| ManagerSpec.RemovePlayerByNameKeepsInvariant | playerctl/playerctl-player-manager.c:264-280 | removal by name keeps the invariant |
| ManagerSpec.OnNameOwnerChangedKeepsInvariant | playerctl/playerctl-player-manager.c:282-349 | every NameOwnerChanged signal keeps the invariant |
| ManagerSpec.ManageKeepsInvariant | playerctl/playerctl-player-manager.c:440-465 | managing a player keeps the invariant, given that the comparator remains a preorder with the new player included |
| ManagerSpec.MoveToTopKeepsInvariant | playerctl/playerctl-player-manager.c:419-438 | moving a player to the top keeps the invariant |
| ManagerSpec.MoveToTopStep | playerctl/playerctl-player-manager.c:424-435 | the relink done when the scan finds the player at i (unlink, concat in front, re-sort) is the move-to-top result and keeps the invariant |
| ManagerSpec.SetSortKeepsInvariant | playerctl/playerctl-player-manager.c:406-417 | installing a comparator and sorting by it establishes the sorted invariant |
| PlayerManager.Manager.constructor | playerctl/playerctl-player-manager.c:47-56 | a new manager is not initialised, has empty lists, no comparator and no signals emitted |
| PlayerManager.Manager.Init | playerctl/playerctl-player-manager.c:351-387 | a second call succeeds and changes nothing; a proxy error fails with that error and leaves the registry as it was; a listing error fails but the registry already holds the listing; otherwise the registry is the listing and the manager is initialised |
| PlayerManager.Manager.RemoveManagedPlayerByName | playerctl/playerctl-player-manager.c:264-280 | the scan loop produces exactly RemovePlayerByName of the old state and keeps Valid |
| PlayerManager.Manager.NameOwnerChanged | playerctl/playerctl-player-manager.c:298-349 | the callback produces exactly OnNameOwnerChanged of the old state and keeps Valid |
| PlayerManager.Manager.SetSortFunc | playerctl/playerctl-player-manager.c:406-417 | the comparator is stored, and the collection becomes a sorted permutation of what it was |
| PlayerManager.Manager.MovePlayerToTop | playerctl/playerctl-player-manager.c:419-438 | the collection becomes MoveToTop of the old one; the registry, signals and comparator are untouched; Valid is kept |
| PlayerManager.Manager.ManagePlayer | playerctl/playerctl-player-manager.c:440-465 | a NULL player changes nothing; otherwise the state becomes Manage of the old state; Valid is kept |

## Left out

- GObject boilerplate: type registration, the `player-names` and `players` properties and their getters (lines 58-246) are not modelled.
- The D-Bus proxy and signal plumbing are not modelled. This covers the signal-name check (lines 287-289) and the `(sss)` type check on the parameters (lines 291-296). `NameOwnerChanged` starts from the three strings already extracted.
- A NULL `bus_name` is not modelled, because strings in the model are never NULL. The empty name is handled and is refused like any non-MPRIS name.
- `playerctl_list_players` and the proxy creation are I/O. `Init` takes their outcomes as parameters: the connect error, the listed names and the listing error.
- PlayerManager.Manager.Init: requires the listed names to be duplicate-free. The bus daemon's name list carries each name once, but listing them lives in playerctl-common.c, which is not part of this model.
- `playerctl_player_manager_new` and `constructed` are not modelled. The constructor followed by `Init` stands for them.
- Reference counting is not modelled: `g_object_ref`, `g_object_unref`, `g_free`, dispose/finalize, and the copy and free functions of name events. Memory management has no counterpart in Dafny's model.
- Signal handlers are not modelled. The signals go into an ordered log (`events`). Handlers that re-enter the manager while a signal is being emitted are outside the model.
- A player's `player-id` is read as a constant field. Changing the property of a managed player, and a NULL id, are not modelled.
- `sort_data` is folded into the comparator closure. `sort_notify` is stored but never called by this file, so it has no counterpart.
- Passing a NULL comparator to `set_sort_func` is not modelled. In C this stores NULL and sorts with a NULL function. The model's comparator is always present once set.
- The value of `MPRIS_PREFIX` ("org.mpris.MediaPlayer2.") follows the MPRIS D-Bus interface specification. playerctl-common.h, which defines it, is not part of this model.
- Strings are sequences of characters, not UTF-8 bytes. `strlen` is modelled as sequence length, which agrees on whether a string is empty, the only way the callback uses it.
- PlayerList.SortBy: a stable insertion sort stands in for GLib's stable merge sort (`g_list_sort_with_data`). Both are stable sorts with the same result under a total preorder, but that equality is not proved here.
- PlayerManager.Manager.ManagePlayer: requires that an installed comparator is a total preorder on the managed players together with the new one. C places no such demand, but with an inconsistent comparator the collection's order is meaningless.
- PlayerManager.Manager.SetSortFunc: requires the comparator to be a total preorder on the managed players, because sortedness means nothing without that. C accepts any function.
- PlayerManager.Manager.MovePlayerToTop: the ensures does not repeat the permutation fact. It follows from the ensures `players == MoveToTop(old(players), ...)` together with `ManagerSpec.MoveToTopSpec`.
- An appearance of a name that is already registered is handled as the code does: it is looked up, found, and ignored (lines 332-335). Describing it as an irrelevant change gives the same outcome.
