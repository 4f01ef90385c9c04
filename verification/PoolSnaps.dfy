/** Random creation and removal of the same snapshots on several pools. */
module PoolSnaps {
  import opened PyLists

  class SnapThrasher {
    const pools: seq<string>
    const minSnaps: int
    const maxSnaps: int
    var snaps: seq<int>
    var index: nat
    ghost var taken: map<string, set<int>>   // the snapshots each pool really has

    /** Every pool has exactly the listed snapshots, each listed once and numbered by its round. */
    ghost predicate Valid()
      reads this
    {
      && taken.Keys == Elements(pools)
      && (forall p :: p in taken ==> taken[p] == Elements(snaps))
      && NoDup(snaps) && forall s :: s in snaps ==> 1 <= s <= index
    }

    constructor (pools: seq<string>, minSnaps: int, maxSnaps: int)
      ensures Valid() && snaps == [] && index == 0
      ensures this.pools == pools && this.minSnaps == minSnaps && this.maxSnaps == maxSnaps
    {
      this.pools, this.minSnaps, this.maxSnaps := pools, minSnaps, maxSnaps;
      snaps, index := [], 0;
      taken := map p | p in Elements(pools) :: {};
    }

    /** What a raise between two pools leaves: the first `k` pools have `snap` added or removed, the list does not. */
    ghost predicate Torn(snap: int)
      reads this
    {
      && taken.Keys == Elements(pools) && NoDup(snaps) && 1 <= snap <= index
      && exists k :: 0 <= k <= |pools| && forall p :: p in taken ==>
           taken[p] == if p !in pools[..k] then Elements(snaps)
                       else if snap in snaps then Elements(snaps) - {snap} else Elements(snaps) + {snap}
    }

    /** `manager.add_pool_snap` or `remove_pool_snap` on each pool in turn. */
    method OnEachPool(snap: int, add: bool) returns (raised: bool)
      requires Valid() && 1 <= snap <= index && (add <==> snap !in snaps)
      modifies this`taken
      ensures raised ==> Torn(snap)
      ensures !raised ==> taken.Keys == Elements(pools)
      ensures !raised ==> forall p :: p in taken ==>
                taken[p] == if add then Elements(snaps) + {snap} else Elements(snaps) - {snap}
    {
      ghost var changed := if add then Elements(snaps) + {snap} else Elements(snaps) - {snap};
      for i := 0 to |pools|
        invariant taken.Keys == Elements(pools)
        invariant forall p :: p in taken ==> taken[p] == if p !in pools[..i] then Elements(snaps) else changed
      {
        assert pools[i] in Elements(pools);
        raised := *;
        if raised { return; }
        taken := taken[pools[i] := if add then taken[pools[i]] + {snap} else taken[pools[i]] - {snap}];
        assert pools[..i + 1] == pools[..i] + [pools[i]];
        assert forall p :: p in taken ==> taken[p] == if p !in pools[..i + 1] then Elements(snaps) else changed;
        raised := *;
        if raised { return; }
      }
      forall p | p in taken ensures p in pools[..|pools|] {
        assert p in Elements(pools);
      }
      return false;
    }

    method AddSnap(snap: int) returns (raised: bool)
      requires Valid() && 1 <= snap <= index && snap !in snaps
      modifies this`snaps, this`taken
      ensures if raised then snaps == old(snaps) && Torn(snap) else Valid() && snaps == old(snaps) + [snap]
    {
      raised := OnEachPool(snap, true);
      if raised { return; }
      snaps := snaps + [snap];
      assert Elements(snaps) == Elements(old(snaps)) + {snap};
    }

    /** Not `ok` when there is nothing to remove and the assertion fails. */
    method RemoveSnap() returns (ok: bool, raised: bool)
      requires Valid()
      modifies this`snaps, this`taken
      ensures ok <==> old(snaps) != []
      ensures raised ==> ok && snaps == old(snaps) && exists s :: s in snaps && Torn(s)
      ensures !raised ==> Valid()
      ensures ok && !raised ==> exists s :: s in old(snaps) && snaps == Remove(old(snaps), s)
      ensures !ok ==> snaps == old(snaps)
    {
      if snaps == [] { return false, false; }
      var snap := Choice(snaps);
      raised := OnEachPool(snap, false);
      if raised { return true, true; }
      NoDupCounts(snaps);
      assert Splits(snaps, [], Elements(snaps));
      MoveKeepsSplit(snaps, [], Elements(snaps), snap);
      SplitsMeaning(Remove(snaps, snap), [] + [snap], Elements(snaps));
      snaps := Remove(snaps, snap);
      forall s | s in snaps ensures 1 <= s <= index {
        assert s in Elements(snaps);
      }
      return true, false;
    }

    /** One round: forced up at or below the minimum, forced down at or above the maximum, random between. */
    method Round() returns (ok: bool, raised: bool)
      requires Valid()
      modifies this`snaps, this`taken, this`index
      ensures index == old(index) + 1
      ensures if raised then snaps == old(snaps) && exists s :: Torn(s) else Valid()
      ensures !raised && |old(snaps)| <= minSnaps ==> ok && snaps == old(snaps) + [index]
      ensures |old(snaps)| > minSnaps && |old(snaps)| >= maxSnaps ==>
                (ok <==> old(snaps) != []) && |snaps| == (if ok && !raised then |old(snaps)| - 1 else |old(snaps)|)
      ensures ok && !raised ==> snaps == old(snaps) + [index] || exists s :: s in old(snaps) && snaps == Remove(old(snaps), s)
      ensures minSnaps >= 0 ==> ok
    {
      index := index + 1;
      ok := true;
      if |snaps| <= minSnaps {
        raised := AddSnap(index);
        return;
      }
      var adding: bool := *;
      if |snaps| >= maxSnaps || !adding {
        ok, raised := RemoveSnap();
      } else {
        raised := AddSnap(index);
      }
    }

    /**
     `do_thrash`, stopped after `rounds` rounds. For the first min_snaps + 1 rounds it only
     adds; from then on the number of snapshots stays within its bounds.
     */
    method DoThrash(rounds: nat) returns (ok: bool, raised: bool)
      requires Valid() && snaps == [] && index == 0
      modifies this`snaps, this`taken, this`index
      ensures if raised then exists s :: Torn(s) else Valid()
      ensures minSnaps >= 0 ==> ok && (!raised ==> index == rounds)
      ensures minSnaps >= 0 ==> |snaps| <= (if maxSnaps > minSnaps then maxSnaps else minSnaps + 1)
      ensures minSnaps >= 0 ==> var done := if raised then index - 1 else index;
                if done <= minSnaps + 1 then |snaps| == done else |snaps| >= minSnaps
    {
      for k := 0 to rounds
        invariant Valid() && index == k
        invariant minSnaps >= 0 ==> |snaps| <= (if maxSnaps > minSnaps then maxSnaps else minSnaps + 1)
        invariant minSnaps >= 0 ==> if k <= minSnaps + 1 then |snaps| == k else |snaps| >= minSnaps
      {
        ok, raised := Round();
        if !ok || raised { return; }
      }
      return true, false;
    }
  }
}
