/** The ledger of the stores, held against the views the thrasher exposed while it was written. */
module Bookkeeping {
  import opened PyLists
  import opened OsdViews
  import opened ObjectStores

  predicate Stopped(o: int, v: View) {
    o in v.dead && o !in v.running
  }

  /** An entry a view bears out: only running daemons drift, and the tool works on stopped OSDs only. */
  ghost predicate Witnessed(e: Entry, v: View) {
    match e
    case Drifted(ran, _) => ran == v.running
    case Moved(_, src, dst) => Stopped(src, v) && Stopped(dst, v)
    case Ignored(_, src) => Stopped(src, v)
    case Stranded(_, src) => Stopped(src, v)
  }

  /**
   Each entry that `now` adds to `was` is borne out by a view exposed from `from` on, later
   entries by later views, and a change by the tool comes right after a drift entry.
   */
  ghost predicate Booked(was: seq<Entry>, now: seq<Entry>, from: nat, seen: seq<View>)
    decreases |now|, 1
  {
    if |now| <= |was| then now == was else exists p :: BookedAt(was, now, from, seen, p)
  }

  /** The last entry is borne out by view `p`, and those before it by earlier views. */
  ghost predicate BookedAt(was: seq<Entry>, now: seq<Entry>, from: nat, seen: seq<View>, p: int)
    decreases |now|, 0
  {
    && now != [] && from <= p < |seen|
    && var e, before := now[|now| - 1], now[..|now| - 1];
       && Witnessed(e, seen[p])
       && (!e.Drifted? ==> before != [] && before[|before| - 1].Drifted?)
       && Booked(was, before, from, seen[..p])
  }

  lemma {:induction false} BookedLater(was: seq<Entry>, now: seq<Entry>, from: nat, seen: seq<View>, later: seq<View>)
    requires Booked(was, now, from, seen) && seen <= later
    ensures Booked(was, now, from, later)
  {
    if |now| > |was| {
      var e, before := now[|now| - 1], now[..|now| - 1];
      var p :| BookedAt(was, now, from, seen, p);
      assert later[..p] == seen[..p] && later[p] == seen[p];
      assert BookedAt(was, now, from, later, p);
    }
  }

  lemma {:induction false} BookedOn(was: seq<Entry>, mid: seq<Entry>, now: seq<Entry>, from: nat, seen: seq<View>, later: seq<View>)
    requires Booked(was, mid, from, seen) && Booked(mid, now, |seen|, later) && seen <= later && from <= |seen|
    ensures Booked(was, now, from, later)
    decreases |now|
  {
    BookedExtends(was, mid, from, seen);
    if |now| <= |mid| {
      BookedLater(was, mid, from, seen, later);
    } else {
      var e, before := now[|now| - 1], now[..|now| - 1];
      var p :| BookedAt(mid, now, |seen|, later, p);
      BookedOn(was, mid, before, from, seen, later[..p]);
      assert BookedAt(was, now, from, later, p);
    }
  }

  lemma {:induction false} BookedExtends(was: seq<Entry>, now: seq<Entry>, from: nat, seen: seq<View>)
    requires Booked(was, now, from, seen)
    ensures was <= now
    decreases |now|
  {
    if |now| > |was| {
      var e, before := now[|now| - 1], now[..|now| - 1];
      var p :| BookedAt(was, now, from, seen, p);
      BookedExtends(was, before, from, seen[..p]);
    }
  }

  lemma {:induction false} BookOne(was: seq<Entry>, now: seq<Entry>, e: Entry, from: nat, seen: seq<View>, v: View)
    requires |was| <= |now| && Booked(was, now, from, seen) && from <= |seen| && Witnessed(e, v)
    requires !e.Drifted? ==> now != [] && now[|now| - 1].Drifted?
    ensures Booked(was, now + [e], from, seen + [v])
  {
    assert (now + [e])[..|now|] == now && (seen + [v])[..|seen|] == seen;
    assert BookedAt(was, now + [e], from, seen + [v], |seen|);
  }

  /** One kill: the drift of the daemons then running, and perhaps one change among the stopped. */
  lemma {:induction false} KillIsBooked(was: seq<Entry>, now: seq<Entry>, before: seq<View>, down: seq<View>, end: View)
    requires was < now && |now| <= |was| + 2 && down != []
    requires now[|was|].Drifted? && now[|was|].ran == down[0].running
    requires |now| == |was| + 2 ==> !now[|was| + 1].Drifted? && Witnessed(now[|was| + 1], end)
    ensures Booked(was, now, |before|, before + down + [end])
  {
    var first := was + [now[|was|]];
    BookOne(was, was, now[|was|], |before|, before, down[0]);
    assert before + [down[0]] <= before + down;
    BookedLater(was, first, |before|, before + [down[0]], before + down);
    if |now| == |was| + 1 {
      assert now == first;
      BookedLater(was, now, |before|, before + down, before + down + [end]);
    } else {
      assert now == first + [now[|was| + 1]];
      BookOne(was, first, now[|was| + 1], |before|, before + down, end);
    }
  }

  /** A run can be cut at any view: the entries before it and those after it are booked apart. */
  lemma {:induction false} CutAtView(was: seq<Entry>, now: seq<Entry>, from: nat, seen: seq<View>, cut: nat) returns (a: nat)
    requires Booked(was, now, from, seen) && from <= cut <= |seen|
    ensures |was| <= a <= |now|
    ensures Booked(was, now[..a], from, seen[..cut]) && Booked(now[..a], now, cut, seen)
    decreases |now|
  {
    BookedExtends(was, now, from, seen);
    if |now| <= |was| {
      a := |was|;
      assert now[..a] == now;
    } else {
      var e, before := now[|now| - 1], now[..|now| - 1];
      var p :| BookedAt(was, now, from, seen, p);
      if p < cut {
        a := |now|;
        assert now[..a] == now && seen[..cut][..p] == seen[..p] && seen[..cut][p] == seen[p];
        assert BookedAt(was, now, from, seen[..cut], p);
      } else {
        a := CutAtView(was, before, from, seen[..p], cut);
        assert before[..a] == now[..a] && seen[..p][..cut] == seen[..cut];
        assert BookedAt(now[..a], now, cut, seen, p);
      }
    }
  }

  /** What an entry of the tool's does to the store of one OSD. */
  function Own(store: set<Pg>, e: Entry, o: int): set<Pg> {
    match e
    case Drifted(_, _) => store
    case Moved(pg, src, dst) =>
      var rest := if src == o then store - {pg} else store;
      if dst == o then rest + {pg} else rest
    case Ignored(pg, src) => if src == o then store - {pg} else store
    case Stranded(pg, src) => if src == o then store - {pg} else store
  }

  function OwnAll(store: set<Pg>, entries: seq<Entry>, o: int): set<Pg> {
    if entries == [] then store
    else Own(OwnAll(store, entries[..|entries| - 1], o), entries[|entries| - 1], o)
  }

  predicate Names(e: Entry, o: int) {
    !e.Drifted? && (e.src == o || (e.Moved? && e.dst == o))
  }

  lemma {:induction false} UnnamedIsUntouched(store: set<Pg>, entries: seq<Entry>, o: int)
    requires forall i :: 0 <= i < |entries| ==> !Names(entries[i], o)
    ensures OwnAll(store, entries, o) == store
  {
    if entries != [] {
      UnnamedIsUntouched(store, entries[..|entries| - 1], o);
      assert !Names(entries[|entries| - 1], o);
    }
  }

  /** While an OSD's daemon does not run, its store changes only by the entries that name it. */
  lemma {:induction false} StoppedKeeps(s: Stores, was: seq<Entry>, now: seq<Entry>, from: nat, seen: seq<View>, o: int)
    requires LegalRun(s, now) && Booked(was, now, from, seen) && o in s
    requires forall i :: from <= i < |seen| ==> o !in seen[i].running
    ensures was <= now && LegalRun(s, was) && o in Replay(s, was) && o in Replay(s, now)
    ensures Replay(s, now)[o] == OwnAll(Replay(s, was)[o], now[|was|..], o)
    decreases |now|
  {
    BookedExtends(was, now, from, seen);
    if |now| <= |was| {
      ReplayKeys(s, now);
    } else {
      var e, before := now[|now| - 1], now[..|now| - 1];
      var p :| BookedAt(was, now, from, seen, p);
      ReplayLast(s, now);
      StoppedKeeps(s, was, before, from, seen[..p], o);
      assert Apply(Replay(s, before), e)[o] == Own(Replay(s, before)[o], e, o);
      var added := now[|was|..];
      assert added[..|added| - 1] == before[|was|..] && added[|added| - 1] == e;
    }
  }

  /**
   The same for any stretch of a run: the entries from `a` to `b` are those written while the
   views from `lo` to `hi` were exposed, and a store whose daemon ran in none of these views
   is changed only by those of them that name it.
   */
  lemma {:induction false} StoppedStoresKeep(s: Stores, was: seq<Entry>, now: seq<Entry>, from: nat, seen: seq<View>, lo: nat, hi: nat, o: int)
    returns (a: nat, b: nat)
    requires LegalRun(s, now) && Booked(was, now, from, seen) && from <= lo <= hi <= |seen| && o in s
    requires forall i :: lo <= i < hi ==> o !in seen[i].running
    ensures |was| <= a <= b <= |now|
    ensures Booked(was, now[..a], from, seen[..lo]) && Booked(now[..a], now[..b], lo, seen[..hi]) && Booked(now[..b], now, hi, seen)
    ensures LegalRun(s, now[..a]) && LegalRun(s, now[..b]) && o in Replay(s, now[..a]) && o in Replay(s, now[..b])
    ensures Replay(s, now[..b])[o] == OwnAll(Replay(s, now[..a])[o], now[a..b], o)
    ensures (forall i :: a <= i < b ==> !Names(now[i], o)) ==> Replay(s, now[..b])[o] == Replay(s, now[..a])[o]
  {
    b := CutAtView(was, now, from, seen, hi);
    a := CutAtView(was, now[..b], from, seen[..hi], lo);
    assert now[..b][..a] == now[..a] && seen[..hi][..lo] == seen[..lo] && now[..b][a..] == now[a..b];
    LegalPrefix(s, now, b);
    StoppedKeeps(s, now[..a], now[..b], lo, seen[..hi], o);
    if forall i :: a <= i < b ==> !Names(now[i], o) {
      UnnamedIsUntouched(Replay(s, now[..a])[o], now[a..b], o);
    }
  }

  lemma {:induction false} DriftersRan(was: seq<Entry>, now: seq<Entry>, from: nat, seen: seq<View>, i: nat)
    requires Booked(was, now, from, seen) && |was| <= i < |now| && now[i].Drifted?
    ensures exists p :: from <= p < |seen| && now[i].ran == seen[p].running
    decreases |now|
  {
    var e, before := now[|now| - 1], now[..|now| - 1];
    var p :| BookedAt(was, now, from, seen, p);
    if i < |now| - 1 {
      DriftersRan(was, before, from, seen[..p], i);
      var q :| from <= q < |seen[..p]| && before[i].ran == seen[..p][q].running;
      assert now[i].ran == seen[q].running;
    }
  }

  /**
   The account of a run: copies change by what daemons did to their own stores, each time
   exactly the daemons running in some exposed view, less one per ignored or stranded import.
   */
  lemma {:induction false} RunBalance(s: Stores, was: seq<Entry>, now: seq<Entry>, from: nat, seen: seq<View>, pg: Pg)
    requires LegalRun(s, now) && Booked(was, now, from, seen)
    ensures was <= now && LegalRun(s, was) && LegalRun(Replay(s, was), now[|was|..])
    ensures Copies(Replay(s, now), pg)
            == Copies(Replay(s, was), pg) + Drift(Replay(s, was), now[|was|..], pg) - Lost(now[|was|..], pg)
    ensures forall i :: |was| <= i < |now| && now[i].Drifted? ==>
              exists p :: from <= p < |seen| && now[i].ran == seen[p].running
  {
    BookedExtends(was, now, from, seen);
    LegalPrefix(s, now, |was|);
    assert now[..|was|] == was;
    Conservation(Replay(s, was), now[|was|..], pg);
    forall i | |was| <= i < |now| && now[i].Drifted?
      ensures exists p :: from <= p < |seen| && now[i].ran == seen[p].running
    {
      DriftersRan(was, now, from, seen, i);
    }
  }
}
