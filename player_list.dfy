/** The player handles the manager keeps, and the two GLib list operations it
    orders them with: g_list_insert_sorted_with_data and g_list_sort_with_data. */
module PlayerList {
  import opened Wrappers
  import opened Lists

  /** An opaque player handle. The manager compares handles by identity and reads
      only their "player-id" property. */
  class Player {
    const playerId: string

    constructor (playerId: string)
      ensures this.playerId == playerId
    {
      this.playerId := playerId;
    }
  }

  /** A three-way comparator (a GCompareDataFunc together with its user data):
      negative, zero or positive as the first player ranks before, with or after
      the second. */
  type Comparator = (Player, Player) -> int

  /** "a ranks no later than b". */
  predicate RanksBefore(cmp: Comparator, a: Player, b: Player) {
    cmp(a, b) <= 0
  }

  /** On the players in dom, the comparator ranks every pair and ranks consistently:
      it is a total preorder there. GLib's sorting leaves any other comparator
      undefined. */
  ghost predicate TotalPreorderOn(cmp: Comparator, dom: set<Player>) {
    && (forall a, b | a in dom && b in dom :: RanksBefore(cmp, a, b) || RanksBefore(cmp, b, a))
    && (forall a, b, c | a in dom && b in dom && c in dom ::
          RanksBefore(cmp, a, b) && RanksBefore(cmp, b, c) ==> RanksBefore(cmp, a, c))
  }

  /** The players held by a list. */
  ghost function Elems(s: seq<Player>): set<Player> {
    set x | x in s
  }

  ghost predicate Sorted(cmp: Comparator, s: seq<Player>) {
    forall i, j :: 0 <= i < j < |s| ==> RanksBefore(cmp, s[i], s[j])
  }

  /** g_list_insert_sorted_with_data: p goes in front of the first element it ranks
      no later than, or at the end when there is none. */
  function InsertSorted(cmp: Comparator, s: seq<Player>, p: Player): (r: seq<Player>)
    ensures multiset(r) == multiset(s) + multiset{p}
  {
    if s == [] then [p]
    else if cmp(p, s[0]) > 0 then
      assert s == [s[0]] + s[1..];
      [s[0]] + InsertSorted(cmp, s[1..], p)
    else [p] + s
  }

  /** g_list_sort_with_data is a stable merge sort; this is a stable insertion sort.
      Elements are inserted from the back, each in front of the ones it ties with. */
  function SortBy(cmp: Comparator, s: seq<Player>): (r: seq<Player>)
    ensures multiset(r) == multiset(s)
  {
    if s == [] then []
    else
      assert s == [s[0]] + s[1..];
      InsertSorted(cmp, SortBy(cmp, s[1..]), s[0])
  }

  /** Position of the first player whose id is name (the scan of
      manager_remove_managed_player_by_name). */
  function FirstWithId(s: seq<Player>, name: string): (r: Option<nat>)
    ensures r.None? <==> forall k :: 0 <= k < |s| ==> s[k].playerId != name
    ensures r.Some? ==> r.value < |s| && s[r.value].playerId == name
    ensures r.Some? ==> forall k :: 0 <= k < r.value ==> s[k].playerId != name
  {
    if s == [] then None
    else if s[0].playerId == name then Some(0)
    else
      match FirstWithId(s[1..], name)
      case None => None
      case Some(k) => Some(k + 1)
  }

  /** Where InsertSorted puts p: after exactly the leading elements that p ranks
      strictly after. */
  function InsertPosition(cmp: Comparator, s: seq<Player>, p: Player): (k: nat)
    ensures k <= |s|
  {
    if s == [] || cmp(p, s[0]) <= 0 then 0
    else 1 + InsertPosition(cmp, s[1..], p)
  }

  /** p ranks strictly after every element in front of its insertion position, and
      no later than the element at it. */
  lemma {:induction false} InsertPositionRank(cmp: Comparator, s: seq<Player>, p: Player)
    ensures forall j :: 0 <= j < InsertPosition(cmp, s, p) ==> cmp(p, s[j]) > 0
    ensures InsertPosition(cmp, s, p) < |s| ==> RanksBefore(cmp, p, s[InsertPosition(cmp, s, p)])
  {
    if s != [] && cmp(p, s[0]) > 0 {
      var t := s[1..];
      InsertPositionRank(cmp, t, p);
      forall j | 0 < j < InsertPosition(cmp, s, p) ensures cmp(p, s[j]) > 0 {
        assert s[j] == t[j - 1];
      }
    }
  }

  /** InsertSorted adds p at InsertPosition and keeps the rest of s in its original
      order. */
  lemma {:induction false} InsertSortedSplit(cmp: Comparator, s: seq<Player>, p: Player)
    ensures InsertSorted(cmp, s, p) == s[..InsertPosition(cmp, s, p)] + [p] + s[InsertPosition(cmp, s, p)..]
  {
    var k := InsertPosition(cmp, s, p);
    if s == [] || cmp(p, s[0]) <= 0 {
      assert k == 0;
      assert s[..0] == [] && s[0..] == s;
    } else {
      var t := s[1..];
      var k' := InsertPosition(cmp, t, p);
      InsertSortedSplit(cmp, t, p);
      assert k == k' + 1;
      var a, b := t[..k'], t[k'..];
      assert InsertSorted(cmp, s, p) == [s[0]] + (a + [p] + b);
      assert s[..k] == [s[0]] + a;
      assert s[k..] == b;
      assert [s[0]] + (a + [p] + b) == ([s[0]] + a) + [p] + b;
    }
  }

  /** Inserting into a sorted list keeps it sorted. */
  lemma {:induction false} InsertSortedSorted(cmp: Comparator, s: seq<Player>, p: Player)
    requires TotalPreorderOn(cmp, Elems(s) + {p}) && Sorted(cmp, s)
    ensures Sorted(cmp, InsertSorted(cmp, s, p))
  {
    var r := InsertSorted(cmp, s, p);
    if s == [] {
    } else if cmp(p, s[0]) > 0 {
      assert Elems(s[1..]) + {p} <= Elems(s) + {p};
      InsertSortedSorted(cmp, s[1..], p);
      var t := InsertSorted(cmp, s[1..], p);
      assert r == [s[0]] + t;
      forall j | 0 <= j < |t| ensures RanksBefore(cmp, s[0], t[j]) {
        assert t[j] in multiset(t);
        if t[j] != p {
          assert t[j] in s[1..];
        }
      }
    } else {
      assert r == [p] + s;
      forall j | 0 <= j < |s| ensures RanksBefore(cmp, p, s[j]) {
        assert RanksBefore(cmp, s[0], s[j]) || j == 0;
      }
    }
  }

  /** The sort yields a sorted permutation of its input. */
  lemma {:induction false} SortBySorted(cmp: Comparator, s: seq<Player>)
    requires TotalPreorderOn(cmp, Elems(s))
    ensures Sorted(cmp, SortBy(cmp, s))
  {
    if s != [] {
      assert Elems(s[1..]) <= Elems(s);
      SortBySorted(cmp, s[1..]);
      var t := SortBy(cmp, s[1..]);
      assert Elems(t) + {s[0]} <= Elems(s) by {
        forall x | x in t ensures x in s {
          assert x in multiset(t);
        }
      }
      InsertSortedSorted(cmp, t, s[0]);
    }
  }

  /** Sorting a list that is already sorted leaves it as it is, so sorting twice by
      one comparator is sorting once. */
  lemma {:induction false} SortBySortedIdentity(cmp: Comparator, s: seq<Player>)
    requires Sorted(cmp, s)
    ensures SortBy(cmp, s) == s
  {
    if s != [] {
      assert Sorted(cmp, s[1..]);
      SortBySortedIdentity(cmp, s[1..]);
      if |s| > 1 {
        assert RanksBefore(cmp, s[0], s[1..][0]);
      }
      assert s == [s[0]] + s[1..];
    }
  }

  /** Sorting keeps a duplicate-free list duplicate-free. */
  lemma SortByNoDup(cmp: Comparator, s: seq<Player>)
    requires NoDup(s)
    ensures NoDup(SortBy(cmp, s))
  {
    PermutationNoDup(s, SortBy(cmp, s));
  }

  /** Inserting a player that is not yet present keeps a list duplicate-free. */
  lemma InsertSortedNoDup(cmp: Comparator, s: seq<Player>, p: Player)
    requires NoDup(s) && p !in s
    ensures NoDup(InsertSorted(cmp, s, p))
  {
    ConsNoDup(p, s);
    PermutationNoDup([p] + s, InsertSorted(cmp, s, p));
  }
}
