/**
 What another greenlet can see of the OSD thrasher: its four lists, next to the
 truth they are meant to track, namely which daemons run and which OSDs the
 cluster map counts as in.
 */
module OsdViews {
  import opened PyLists

  datatype View = View(ins: seq<int>, outs: seq<int>, live: seq<int>, dead: seq<int>,
                       running: set<int>, marked: set<int>)

  /** Holds at every point where a greenlet may be switched in. */
  ghost predicate Coherent(v: View, osds: set<int>) {
    && Splits(v.ins, v.outs, osds)
    && Splits(v.live, v.dead, osds)
    && Elements(v.live) <= v.running <= osds
    && v.marked <= Elements(v.ins)
    && |v.running - Elements(v.live)| + |Elements(v.ins) - v.marked| <= 1
  }

  /** Holds between primitives: the lists are exact. */
  ghost predicate Settled(v: View, osds: set<int>) {
    && Splits(v.ins, v.outs, osds)
    && Splits(v.live, v.dead, osds)
    && v.running == Elements(v.live)
    && v.marked == Elements(v.ins)
  }

  lemma SettledIsCoherent(v: View, osds: set<int>)
    requires Settled(v, osds)
    ensures Coherent(v, osds)
  {
    SplitsMeaning(v.live, v.dead, osds);
    assert v.running - Elements(v.live) == {} && Elements(v.ins) - v.marked == {};
  }

  /** `live_osds.remove(o); dead_osds.append(o)`. */
  function Forgotten(v: View, o: int): View
    requires o in v.live
  {
    v.(live := Remove(v.live, o), dead := v.dead + [o])
  }

  function Killed(v: View, o: int): View
    requires o in v.live
  {
    Forgotten(v, o).(running := v.running - {o})
  }

  function Revived(v: View, o: int): View
    requires o in v.dead
  {
    v.(running := v.running + {o}, dead := Remove(v.dead, o), live := v.live + [o])
  }

  function Outed(v: View, o: int): View
    requires o in v.ins
  {
    v.(marked := v.marked - {o}, ins := Remove(v.ins, o), outs := v.outs + [o])
  }

  /** `out_osds.remove(o); in_osds.append(o)`. */
  function Listed(v: View, o: int): View
    requires o in v.outs
  {
    v.(outs := Remove(v.outs, o), ins := v.ins + [o])
  }

  function Inned(v: View, o: int): View
    requires o in v.outs
  {
    Listed(v, o).(marked := v.marked + {o})
  }

  /**
   The views a primitive exposes while its remote commands are in flight: the lists
   are edited before a daemon is stopped or an OSD marked in, and after a daemon is
   started or an OSD marked out.
   */
  function KillSteps(v: View, o: int): seq<View>
    requires o in v.live
  {
    [Forgotten(v, o), Killed(v, o)]
  }

  function ReviveSteps(v: View, o: int): seq<View> {
    [v, v.(running := v.running + {o})]
  }

  function OutSteps(v: View, o: int): seq<View> {
    [v, v.(marked := v.marked - {o})]
  }

  function InSteps(v: View, o: int): seq<View>
    requires o in v.outs
  {
    [Listed(v, o), Inned(v, o)]
  }

  /** `in_osd` on a dead OSD only revives it. */
  function InEnd(v: View, o: int): View
    requires o in v.outs
  {
    if o in v.dead then Revived(v, o) else Inned(v, o)
  }

  function InTrail(v: View, o: int): seq<View>
    requires o in v.outs
  {
    if o in v.dead then ReviveSteps(v, o) else InSteps(v, o)
  }

  /** Every view is coherent and lists at least `low` OSDs as live. */
  ghost predicate Fine(views: seq<View>, osds: set<int>, low: int) {
    forall i :: 0 <= i < |views| ==> Coherent(views[i], osds) && |views[i].live| >= low
  }

  /** `now` continues the trace `was` with fine views. */
  ghost predicate Continues(was: seq<View>, now: seq<View>, osds: set<int>, low: int) {
    was <= now && Fine(now[|was|..], osds, low)
  }

  lemma FineAppend(a: seq<View>, b: seq<View>, osds: set<int>, low: int)
    requires Fine(a, osds, low) && Fine(b, osds, low)
    ensures Fine(a + b, osds, low)
  {
  }

  lemma Continue(was: seq<View>, mid: seq<View>, more: seq<View>, osds: set<int>, low: int, low': int)
    requires Continues(was, mid, osds, low) && Fine(more, osds, low') && low <= low'
    ensures Continues(was, mid + more, osds, low)
  {
  }

  lemma ContinuesOn(was: seq<View>, mid: seq<View>, now: seq<View>, osds: set<int>, low: int, low': int)
    requires Continues(was, mid, osds, low) && Continues(mid, now, osds, low') && low <= low'
    ensures Continues(was, now, osds, low)
  {
  }

  lemma Weaken(was: seq<View>, now: seq<View>, osds: set<int>, low: int, low': int)
    requires Continues(was, now, osds, low) && low' <= low
    ensures Continues(was, now, osds, low')
  {
  }

  lemma TwoFine(a: View, b: View, osds: set<int>, low: int)
    requires Coherent(a, osds) && Coherent(b, osds) && |a.live| >= low && |b.live| >= low
    ensures Fine([a, b], osds, low)
  {
  }

  /**
   How far an operation got. One that completes exposed all of `steps` and leaves `end`; one
   that raises does so at a switch point, and leaves what it exposed there.
   */
  ghost predicate Took(before: seq<View>, after: seq<View>, now: View, steps: seq<View>, end: View, raised: bool) {
    if raised
    then exists n :: 1 <= n <= |steps| && after == before + steps[..n] && now == steps[n - 1]
    else after == before + steps && now == end
  }

  /** One of two views at whose switch points an operation may raise. */
  lemma TookOneOfTwo(before: seq<View>, a: View, b: View, end: View)
    ensures Took(before, before + [a], a, [a, b], end, true)
    ensures Took(before, before + [a, b], b, [a, b], end, true)
  {
    assert [a, b][..1] == [a] && [a, b][..2] == [a, b];
  }

  lemma TookLess(before: seq<View>, after: seq<View>, now: View, steps: seq<View>, end: View, more: seq<View>, end': View)
    requires Took(before, after, now, steps, end, true)
    ensures Took(before, after, now, steps + more, end', true)
  {
    var n :| 1 <= n <= |steps| && after == before + steps[..n] && now == steps[n - 1];
    assert (steps + more)[..n] == steps[..n];
  }

  lemma TookMore(before: seq<View>, mid: seq<View>, after: seq<View>, now: View, steps: seq<View>,
                 more: seq<View>, end: View, raised: bool)
    requires mid == before + steps && Took(mid, after, now, more, end, raised)
    ensures Took(before, after, now, steps + more, end, raised)
  {
    if raised {
      var n :| 1 <= n <= |more| && after == mid + more[..n] && now == more[n - 1];
      assert (steps + more)[..|steps| + n] == steps + more[..n];
      assert after == before + (steps + more)[..|steps| + n] && now == (steps + more)[|steps| + n - 1];
    } else {
      assert after == before + (steps + more);
    }
  }

  /** However far it got, it left a coherent state behind. */
  lemma TookIsSafe(was: seq<View>, before: seq<View>, after: seq<View>, now: View, steps: seq<View>, end: View,
                   raised: bool, osds: set<int>, low: int, low': int)
    requires Took(before, after, now, steps, end, raised) && Fine(steps, osds, low') && Settled(end, osds)
    requires Continues(was, before, osds, low) && low <= low'
    ensures Continues(was, after, osds, low) && Coherent(now, osds)
  {
    if raised {
      var n :| 1 <= n <= |steps| && after == before + steps[..n] && now == steps[n - 1];
      Continue(was, before, steps[..n], osds, low, low');
    } else {
      SettledIsCoherent(end, osds);
      Continue(was, before, steps, osds, low, low');
    }
  }

  lemma KillIsSafe(v: View, o: int, osds: set<int>)
    requires Settled(v, osds) && o in v.live
    ensures Fine(KillSteps(v, o), osds, |v.live| - 1) && Settled(Killed(v, o), osds)
  {
    MoveKeepsSplit(v.live, v.dead, osds, o);
    var w := Forgotten(v, o);
    assert Settled(Killed(v, o), osds);
    assert Coherent(w, osds) by {
      SplitsMeaning(v.live, v.dead, osds);
      assert w.running - Elements(w.live) == {o};
      assert Elements(w.ins) - w.marked == {};
    }
    SettledIsCoherent(Killed(v, o), osds);
    TwoFine(w, Killed(v, o), osds, |v.live| - 1);
  }

  lemma ReviveIsSafe(v: View, o: int, osds: set<int>)
    requires Settled(v, osds) && o in v.dead
    ensures Fine(ReviveSteps(v, o), osds, |v.live|) && Settled(Revived(v, o), osds)
  {
    assert Splits(v.dead, v.live, osds);
    MoveKeepsSplit(v.dead, v.live, osds, o);
    var w := v.(running := v.running + {o});
    assert Coherent(w, osds) by {
      SplitsMeaning(v.live, v.dead, osds);
      assert w.running - Elements(w.live) == {o};
      assert Elements(w.ins) - w.marked == {};
    }
    SettledIsCoherent(v, osds);
    TwoFine(v, w, osds, |v.live|);
  }

  lemma OutIsSafe(v: View, o: int, osds: set<int>)
    requires Settled(v, osds) && o in v.ins
    ensures Fine(OutSteps(v, o), osds, |v.live|) && Settled(Outed(v, o), osds)
  {
    MoveKeepsSplit(v.ins, v.outs, osds, o);
    SettledIsCoherent(v, osds);
    var w := v.(marked := v.marked - {o});
    assert Coherent(w, osds) by {
      assert Elements(w.ins) - w.marked == {o};
      assert w.running - Elements(w.live) == {};
    }
    TwoFine(v, w, osds, |v.live|);
  }

  lemma InIsSafe(v: View, o: int, osds: set<int>)
    requires Settled(v, osds) && o in v.outs
    ensures Fine(InSteps(v, o), osds, |v.live|) && Settled(Inned(v, o), osds)
  {
    assert Splits(v.outs, v.ins, osds);
    MoveKeepsSplit(v.outs, v.ins, osds, o);
    var w := Listed(v, o);
    assert Settled(Inned(v, o), osds);
    assert Coherent(w, osds) by {
      SplitsMeaning(v.live, v.dead, osds);
      assert Elements(w.ins) - w.marked == {o};
      assert w.running - Elements(w.live) == {};
    }
    SettledIsCoherent(Inned(v, o), osds);
    TwoFine(w, Inned(v, o), osds, |v.live|);
  }

  /**
   Which of a primitive's two raises leaves exact lists: the second of a kill or a mark-in,
   whose list edit comes first, and the first of a revival or a mark-out, whose edit comes last.
   */
  lemma ExactAfterRaise(v: View, o: int, osds: set<int>)
    requires Settled(v, osds)
    ensures o in v.live ==> !Settled(KillSteps(v, o)[0], osds) && Settled(KillSteps(v, o)[1], osds)
    ensures o in v.dead ==> Settled(ReviveSteps(v, o)[0], osds) && !Settled(ReviveSteps(v, o)[1], osds)
    ensures o in v.ins ==> Settled(OutSteps(v, o)[0], osds) && !Settled(OutSteps(v, o)[1], osds)
    ensures o in v.outs ==> !Settled(InSteps(v, o)[0], osds) && Settled(InSteps(v, o)[1], osds)
  {
    SplitsMeaning(v.live, v.dead, osds);
    SplitsMeaning(v.ins, v.outs, osds);
    if o in v.live {
      KillIsSafe(v, o, osds);
      SplitsMeaning(Forgotten(v, o).live, Forgotten(v, o).dead, osds);
      assert o in Elements(Forgotten(v, o).dead);
    }
    if o in v.dead {
      assert o in Elements(v.dead) && o in ReviveSteps(v, o)[1].running;
    }
    if o in v.ins {
      assert o in Elements(v.ins) && o !in OutSteps(v, o)[1].marked;
    }
    if o in v.outs {
      InIsSafe(v, o, osds);
      assert o in Elements(v.outs) && o in Elements(Listed(v, o).ins);
    }
  }

  /** What `kill_osd` exposes before it turns to the object-store tool, and the state it ends in. */
  function DownTrail(v: View, o: int, markDown: bool, markOut: bool): seq<View>
    requires o in v.live
  {
    KillSteps(v, o)
    + (if markDown then [Killed(v, o)] else [])
    + (if markOut && o in v.ins then OutSteps(Killed(v, o), o) else [])
  }

  function KillEnd(v: View, o: int, markOut: bool): View
    requires o in v.live
  {
    if markOut && o in v.ins then Outed(Killed(v, o), o) else Killed(v, o)
  }

  function KillTrail(v: View, o: int, markDown: bool, markOut: bool, tool: bool): seq<View>
    requires o in v.live
  {
    DownTrail(v, o, markDown, markOut) + (if tool then [KillEnd(v, o, markOut)] else [])
  }

  lemma KillEndIsSettled(v: View, o: int, markOut: bool, osds: set<int>)
    requires Settled(v, osds) && o in v.live
    ensures Settled(KillEnd(v, o, markOut), osds)
  {
    KillIsSafe(v, o, osds);
    if markOut && o in v.ins {
      OutIsSafe(Killed(v, o), o, osds);
    }
  }

  /** An OSD killed with mark_out is out afterwards, having been in or not. */
  lemma KilledIsOut(v: View, o: int, osds: set<int>)
    requires Settled(v, osds) && o in v.live
    ensures o in KillEnd(v, o, true).outs && o in KillEnd(v, o, true).dead
  {
    SplitsMeaning(v.live, v.dead, osds);
    SplitsMeaning(v.ins, v.outs, osds);
    assert o in Elements(v.live);
    assert o in Elements(v.ins) || o in Elements(v.outs);
  }

  lemma DownTrailIsSafe(v: View, o: int, markDown: bool, markOut: bool, osds: set<int>)
    requires Settled(v, osds) && o in v.live
    ensures Fine(DownTrail(v, o, markDown, markOut), osds, |v.live| - 1)
  {
    var low := |v.live| - 1;
    var k := Killed(v, o);
    KillIsSafe(v, o, osds);
    SettledIsCoherent(k, osds);
    var down := if markDown then [k] else [];
    FineAppend(KillSteps(v, o), down, osds, low);
    if markOut && o in v.ins {
      OutIsSafe(k, o, osds);
      FineAppend(KillSteps(v, o) + down, OutSteps(k, o), osds, low);
    }
  }

  lemma KillTrailIsSafe(v: View, o: int, markDown: bool, markOut: bool, tool: bool, osds: set<int>)
    requires Settled(v, osds) && o in v.live
    ensures Fine(KillTrail(v, o, markDown, markOut, tool), osds, |v.live| - 1)
  {
    DownTrailIsSafe(v, o, markDown, markOut, osds);
    if tool {
      var end := KillEnd(v, o, markOut);
      KillEndIsSettled(v, o, markOut, osds);
      SettledIsCoherent(end, osds);
      FineAppend(DownTrail(v, o, markDown, markOut), [end], osds, |v.live| - 1);
    }
  }

  lemma InOsdIsSafe(v: View, o: int, osds: set<int>)
    requires Settled(v, osds) && o in v.outs
    ensures Fine(InTrail(v, o), osds, |v.live|) && Settled(InEnd(v, o), osds)
  {
    if o in v.dead {
      ReviveIsSafe(v, o, osds);
    } else {
      InIsSafe(v, o, osds);
    }
  }

  /**
   Marking OSDs in until there are `enough` never runs out of OSDs that are out, exactly
   when the cluster has that many.
   */
  lemma EnoughExactly(osds: set<int>, enough: int)
    ensures (forall v :: Settled(v, osds) && |v.ins| < enough ==> v.outs != []) <==> enough <= |osds|
  {
    var all := ListOf(osds);
    assert Settled(View(all, [], all, [], osds, osds), osds);
    forall v | Settled(v, osds) && |v.ins| < enough <= |osds| ensures v.outs != [] {
      SplitSizes(v.ins, v.outs, osds);
    }
  }

  /**
   One interleaving of the thrashing greenlet with `do_sighup`: the views the
   thrasher exposes, with the signals sent between them. A signal goes to a
   member of the live list as it stands when the greenlet is switched in.
   */
  datatype Event = Exposed(v: View) | Hup(osd: int)

  ghost function Latest(events: seq<Event>, start: View): View {
    if events == [] then start
    else if events[|events| - 1].Exposed? then events[|events| - 1].v
    else Latest(events[..|events| - 1], start)
  }

  function Thrashed(events: seq<Event>): (vs: seq<View>) {
    if events == [] then []
    else Thrashed(events[..|events| - 1]) +
         (if events[|events| - 1].Exposed? then [events[|events| - 1].v] else [])
  }

  ghost predicate Interleaving(events: seq<Event>, start: View, views: seq<View>) {
    && Thrashed(events) == views
    && forall i :: 0 <= i < |events| && events[i].Hup? ==> events[i].osd in Latest(events[..i], start).live
  }

  lemma {:induction false} LatestIsExposed(events: seq<Event>, start: View)
    ensures Latest(events, start) == (if Thrashed(events) == [] then start
                                      else Thrashed(events)[|Thrashed(events)| - 1])
  {
    if events != [] && events[|events| - 1].Hup? {
      LatestIsExposed(events[..|events| - 1], start);
      assert Thrashed(events) == Thrashed(events[..|events| - 1]);
    }
  }

  lemma {:induction false} ThrashedPrefix(events: seq<Event>, i: nat)
    requires i <= |events|
    ensures Thrashed(events[..i]) <= Thrashed(events)
  {
    if i < |events| {
      var front := events[..|events| - 1];
      ThrashedPrefix(front, i);
      assert front[..i] == events[..i];
    } else {
      assert events[..i] == events;
    }
  }

  lemma LatestIsFine(events: seq<Event>, i: nat, start: View, was: seq<View>, now: seq<View>, osds: set<int>, low: int)
    requires i <= |events| && Continues(was, now, osds, low) && Interleaving(events, start, now[|was|..])
    requires Coherent(start, osds) && |start.live| >= low
    ensures Coherent(Latest(events[..i], start), osds) && |Latest(events[..i], start).live| >= low
  {
    LatestIsExposed(events[..i], start);
    ThrashedPrefix(events, i);
  }

  /** Whatever the schedule, every SIGHUP finds its daemon running. */
  lemma {:induction false} SignalFindsItsDaemon(events: seq<Event>, i: nat, start: View, was: seq<View>, now: seq<View>, osds: set<int>, low: int)
    requires i < |events| && events[i].Hup?
    requires Continues(was, now, osds, low) && Interleaving(events, start, now[|was|..])
    requires Coherent(start, osds) && |start.live| >= low
    ensures events[i].osd in Latest(events[..i], start).running
  {
    LatestIsFine(events, i, start, was, now, osds, low);
    assert events[i].osd in Elements(Latest(events[..i], start).live);
  }

  /** Where the trace never lists fewer than one OSD as live, there is always one to signal. */
  lemma {:induction false} SomeoneToSignal(events: seq<Event>, i: nat, start: View, was: seq<View>, now: seq<View>, osds: set<int>, low: int)
    requires i <= |events| && low >= 1
    requires Continues(was, now, osds, low) && Interleaving(events, start, now[|was|..])
    requires Coherent(start, osds) && |start.live| >= low
    ensures Latest(events[..i], start).live != []
  {
    LatestIsFine(events, i, start, was, now, osds, low);
  }

  /**
   Every way of interleaving the signals with `views`: each signal finds its daemon running
   and, where `always`, there is at every moment an OSD to signal.
   */
  ghost predicate SignalsLand(start: View, views: seq<View>, always: bool) {
    forall events: seq<Event>, i: nat :: i <= |events| && Interleaving(events, start, views) ==>
      && (i < |events| && events[i].Hup? ==> events[i].osd in Latest(events[..i], start).running)
      && (always ==> Latest(events[..i], start).live != [])
  }

  lemma {:induction false} EveryScheduleIsSafe(start: View, was: seq<View>, now: seq<View>, osds: set<int>, low: int)
    requires Continues(was, now, osds, low) && Coherent(start, osds) && |start.live| >= low
    ensures SignalsLand(start, now[|was|..], low >= 1)
  {
    forall events: seq<Event>, i: nat | i <= |events| && Interleaving(events, start, now[|was|..])
      ensures i < |events| && events[i].Hup? ==> events[i].osd in Latest(events[..i], start).running
      ensures low >= 1 ==> Latest(events[..i], start).live != []
    {
      if i < |events| && events[i].Hup? {
        SignalFindsItsDaemon(events, i, start, was, now, osds, low);
      }
      if low >= 1 {
        SomeoneToSignal(events, i, start, was, now, osds, low);
      }
    }
  }
}
