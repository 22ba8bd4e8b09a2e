/** PlayerctlPlayerManager: the object that tracks MPRIS names on the session bus and
    the players a client chose to manage. Its methods update the fields in place, as
    the C code relinks its GLists; each is proved to follow the matching function of
    ManagerSpec, which also states the invariant they keep. */
module PlayerManager {
  import opened Wrappers
  import opened Lists
  import opened BusName
  import opened PlayerList
  import opened ManagerSpec

  class Manager {
    var initted: bool
    var playerNames: seq<string>
    var players: seq<Player>
    var sortFunc: Option<Comparator>
    /** The signals emitted so far, in order. */
    ghost var events: seq<Event>

    ghost function Snapshot(): State
      reads this
    {
      State(playerNames, players, events)
    }

    ghost predicate Valid()
      reads this
    {
      Invariant(Snapshot(), sortFunc)
    }

    constructor ()
      ensures Valid()
      ensures !initted && playerNames == [] && players == [] && sortFunc == None && events == []
    {
      initted := false;
      playerNames := [];
      players := [];
      sortFunc := None;
      events := [];
    }

    /** playerctl_player_manager_initable_init. connectError is the outcome of creating
        the bus proxy; listed and listError are what playerctl_list_players returns. */
    method Init(connectError: Option<string>, listed: seq<string>, listError: Option<string>)
      returns (ok: bool, error: Option<string>)
      requires Valid() && NoDup(listed)
      modifies this
      ensures Valid()
      ensures players == old(players) && sortFunc == old(sortFunc) && events == old(events)
      ensures old(initted) ==> ok && error == None && initted && playerNames == old(playerNames)
      ensures !old(initted) && connectError.Some? ==>
        !ok && error == connectError && !initted && playerNames == old(playerNames)
      ensures !old(initted) && connectError.None? && listError.Some? ==>
        !ok && error == listError && !initted && playerNames == listed
      ensures !old(initted) && connectError.None? && listError.None? ==>
        ok && error == None && initted && playerNames == listed
    {
      if initted {
        return true, None;
      }
      if connectError.Some? {
        return false, connectError;
      }
      playerNames := listed;
      if listError.Some? {
        return false, listError;
      }
      initted := true;
      return true, None;
    }

    /** manager_remove_managed_player_by_name. */
    method RemoveManagedPlayerByName(name: string)
      requires Valid()
      modifies this
      ensures Valid()
      ensures Snapshot() == RemovePlayerByName(old(Snapshot()), name)
      ensures initted == old(initted) && sortFunc == old(sortFunc)
    {
      RemovePlayerByNameKeepsInvariant(Snapshot(), sortFunc, name);
      var i := 0;
      while i < |players|
        invariant 0 <= i <= |players|
        invariant Snapshot() == old(Snapshot())
        invariant forall k :: 0 <= k < i ==> players[k].playerId != name
      {
        var player := players[i];
        var id := player.playerId;
        if id == name {
          assert FirstWithId(players, name) == Some(i);
          players := RemoveAt(players, i);
          events := events + [PlayerVanished(player)];
          return;
        }
        i := i + 1;
      }
      assert FirstWithId(players, name) == None;
    }

    /** dbus_name_owner_changed_callback, once the three strings of the signal are
        extracted. */
    method NameOwnerChanged(busName: string, previousOwner: string, newOwner: string)
      requires Valid()
      modifies this
      ensures Valid()
      ensures Snapshot() == OnNameOwnerChanged(old(Snapshot()), busName, previousOwner, newOwner)
      ensures initted == old(initted) && sortFunc == old(sortFunc)
    {
      OnNameOwnerChangedKeepsInvariant(Snapshot(), sortFunc, busName, previousOwner, newOwner);
      var playerId := PlayerIdFromBusName(busName);
      if playerId.None? {
        return;
      }
      var id := playerId.value;
      if |newOwner| == 0 && |previousOwner| != 0 {
        var entry := Find(playerNames, id);
        if entry.Some? {
          RemoveNameKeepsInvariant(Snapshot(), sortFunc, entry.value);
          playerNames := RemoveAt(playerNames, entry.value);
          RemoveManagedPlayerByName(id);
          events := events + [NameVanished(id)];
        }
      } else if |previousOwner| == 0 && |newOwner| != 0 {
        var entry := Find(playerNames, id);
        if entry.None? {
          playerNames := [id] + playerNames;
          events := events + [NameAppeared(id)];
        }
      }
    }

    /** playerctl_player_manager_set_sort_func: store the comparator and sort the
        collection by it. */
    method SetSortFunc(cmp: Comparator)
      requires Valid() && TotalPreorderOn(cmp, Elems(players))
      modifies this
      ensures Valid()
      ensures sortFunc == Some(cmp) && players == SortBy(cmp, old(players))
      ensures multiset(players) == multiset(old(players)) && Sorted(cmp, players)
      ensures playerNames == old(playerNames) && events == old(events) && initted == old(initted)
    {
      SetSortKeepsInvariant(Snapshot(), sortFunc, cmp);
      sortFunc := Some(cmp);
      players := SortBy(cmp, players);
    }

    /** playerctl_player_manager_move_player_to_top. */
    method MovePlayerToTop(player: Player?)
      requires Valid()
      modifies this
      ensures Valid()
      ensures player == null ==> players == old(players)
      ensures player != null ==> players == MoveToTop(old(players), sortFunc, player)
      ensures playerNames == old(playerNames) && events == old(events)
      ensures initted == old(initted) && sortFunc == old(sortFunc)
    {
      var i := 0;
      while i < |players|
        invariant 0 <= i <= |players|
        invariant Snapshot() == old(Snapshot()) && sortFunc == old(sortFunc)
        invariant forall k :: 0 <= k < i ==> players[k] != player
      {
        var current := players[i];
        if current == player {
          ghost var st := Snapshot();
          MoveToTopStep(st, sortFunc, i);
          players := [current] + RemoveAt(players, i);
          if sortFunc.Some? {
            players := SortBy(sortFunc.value, players);
          }
          assert Snapshot() == State(st.names, players, st.events);
          return;
        }
        i := i + 1;
      }
      assert player != null ==> Find(players, player) == None;
    }

    /** playerctl_player_manager_manage_player. When a comparator is set, the caller
        must keep it a total preorder with the new player among the others. */
    method ManagePlayer(player: Player?)
      requires Valid()
      requires player != null && sortFunc.Some? ==>
        TotalPreorderOn(sortFunc.value, Elems(players) + {player})
      modifies this
      ensures Valid()
      ensures player == null ==> Snapshot() == old(Snapshot())
      ensures player != null ==> Snapshot() == Manage(old(Snapshot()), sortFunc, player)
      ensures initted == old(initted) && sortFunc == old(sortFunc)
    {
      if player == null {
        return;
      }
      var i := 0;
      while i < |players|
        invariant 0 <= i <= |players|
        invariant players == old(players)
        invariant forall k :: 0 <= k < i ==> players[k] != player
      {
        var current := players[i];
        if player == current {
          return;
        }
        i := i + 1;
      }
      ManageKeepsInvariant(Snapshot(), sortFunc, player);
      match sortFunc {
        case Some(cmp) =>
          players := InsertSorted(cmp, players, player);
        case None =>
          players := [player] + players;
      }
      events := events + [PlayerAppeared(player)];
    }
  }
}
