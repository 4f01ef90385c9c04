/** The OSD thrasher: its primitives, its compound actions and its main loop. */
module Thrashing {
  import opened PyLists
  import opened OsdViews
  import opened ObjectStores
  import opened ActionChoice
  import opened Bookkeeping

  /** A round's random draws: whether it cleans first, whether it then tests the map, and which action. */
  datatype Draw = Draw(cleaning: bool, test: bool, value: real)

  class Thrasher {
    const cfg: Config
    const tool: ObjectStoreTool
    ghost const osds: set<int>

    var inOsds: seq<int>
    var outOsds: seq<int>
    var liveOsds: seq<int>
    var deadOsds: seq<int>

    ghost var running: set<int>   // daemons really running
    ghost var marked: set<int>    // OSDs the cluster map counts as in
    ghost var seen: seq<View>     // every view another greenlet could have been given
    ghost var boundaries: seq<View>  // the views between actions of the main loop

    ghost function Now(): View
      reads this
    {
      View(inOsds, outOsds, liveOsds, deadOsds, running, marked)
    }

    /** Between primitives: the lists are exact. */
    ghost predicate Exact()
      reads this
    {
      Settled(Now(), osds)
    }

    /** What an operation leaves: exact lists, or, when it raised, what it had just exposed. */
    ghost predicate Left(raised: bool)
      reads this
    {
      if raised then Coherent(Now(), osds) else Exact()
    }

    /** Between uses of the object-store tool that have not raised. */
    ghost predicate ToolReady()
      reads this, tool
    {
      tool.Valid() && tool.stores.Keys == osds && tool.files == {} && NoneStranded(tool.ledger)
    }

    /** The initial lists come from `get_osd_status`, which reads them off the cluster. */
    constructor (cfg: Config, tool: ObjectStoreTool, ins: seq<int>, outs: seq<int>, live: seq<int>, dead: seq<int>)
      requires tool.Valid() && tool.files == {} && NoneStranded(tool.ledger)
      requires Splits(ins, outs, tool.stores.Keys) && Splits(live, dead, tool.stores.Keys)
      ensures Exact() && ToolReady() && seen == [] && boundaries == [] && osds == tool.stores.Keys
      ensures this.cfg == cfg && this.tool == tool
      ensures Now() == View(ins, outs, live, dead, Elements(live), Elements(ins))
    {
      this.cfg, this.tool, osds := cfg, tool, tool.stores.Keys;
      inOsds, outOsds, liveOsds, deadOsds := ins, outs, live, dead;
      running, marked, seen, boundaries := Elements(live), Elements(ins), [], [];
    }

    /** A remote command: the other greenlets run while it is in flight. */
    ghost method Yield()
      modifies this`seen
      ensures seen == old(seen) + [Now()]
    {
      seen := seen + [Now()];
    }

    /**
     `kill_osd`; `which` is None for a random live OSD. It raises when a command fails, be it
     the stop, the marking or one of the object-store tool's.
     */
    method KillOsd(which: Option<int>, markDown: bool, markOut: bool) returns (osd: int, raised: bool)
      requires Exact() && ToolReady()
      requires if which.Some? then which.value in liveOsds else liveOsds != []
      modifies this`inOsds, this`outOsds, this`liveOsds, this`deadOsds, this`running, this`marked, this`seen, tool
      ensures tool.Valid() && tool.stores.Keys == osds && (!raised ==> ToolReady())
      ensures osd in old(liveOsds) && (which.Some? ==> osd == which.value)
      ensures Took(old(seen), seen, Now(), KillTrail(old(Now()), osd, markDown, markOut, cfg.objectStoreTool),
                   KillEnd(old(Now()), osd, markOut), raised)
      ensures tool.ledger == old(tool.ledger)
              || (cfg.objectStoreTool && Exercised(old(tool.ledger), Elements(old(liveOsds)), raised))
      ensures !raised && cfg.objectStoreTool ==> Exercised(old(tool.ledger), Elements(old(liveOsds)), raised)
      ensures Booked(old(tool.ledger), tool.ledger, |old(seen)|, seen)
      ensures !raised ==> liveOsds == Remove(old(liveOsds), osd) && deadOsds == old(deadOsds) + [osd]
                          && running == old(running) - {osd}
      ensures !raised && markOut && osd in old(inOsds) ==>
                inOsds == Remove(old(inOsds), osd) && outOsds == old(outOsds) + [osd] && marked == old(marked) - {osd}
      ensures !raised && !(markOut && osd in old(inOsds)) ==>
                inOsds == old(inOsds) && outOsds == old(outOsds) && marked == old(marked)
    {
      if which.Some? { osd := which.value; } else { osd := Choice(liveOsds); }
      raised := KillThis(osd, markDown, markOut);
    }

    method KillThis(osd: int, markDown: bool, markOut: bool) returns (raised: bool)
      requires Exact() && ToolReady() && osd in liveOsds
      modifies this`inOsds, this`outOsds, this`liveOsds, this`deadOsds, this`running, this`marked, this`seen, tool
      ensures tool.Valid() && tool.stores.Keys == osds && (!raised ==> ToolReady())
      ensures Took(old(seen), seen, Now(), KillTrail(old(Now()), osd, markDown, markOut, cfg.objectStoreTool),
                   KillEnd(old(Now()), osd, markOut), raised)
      ensures tool.ledger == old(tool.ledger)
              || (cfg.objectStoreTool && Exercised(old(tool.ledger), Elements(old(liveOsds)), raised))
      ensures !raised && cfg.objectStoreTool ==> Exercised(old(tool.ledger), Elements(old(liveOsds)), raised)
      ensures Booked(old(tool.ledger), tool.ledger, |old(seen)|, seen)
    {
      KillEndIsSettled(Now(), osd, markOut, osds);
      var ran := Elements(liveOsds);
      ghost var down, end := DownTrail(Now(), osd, markDown, markOut), KillEnd(Now(), osd, markOut);
      ghost var last := if cfg.objectStoreTool then [end] else [];
      raised := TakeDown(osd, markDown, markOut);
      if raised {
        TookLess(old(seen), seen, Now(), down, end, last, end);
        return;
      }
      assert Exact() && ToolReady();
      ghost var mid := seen;
      if cfg.objectStoreTool {
        raised := Exercise(osd, ran, old(seen), down);
        assert raised ==> last[..1] == last;
      }
      TookMore(old(seen), mid, seen, Now(), down, last, end, raised);
    }

    method TakeDown(osd: int, markDown: bool, markOut: bool) returns (raised: bool)
      requires osd in liveOsds
      modifies this`inOsds, this`outOsds, this`liveOsds, this`deadOsds, this`running, this`marked, this`seen
      ensures Took(old(seen), seen, Now(), DownTrail(old(Now()), osd, markDown, markOut),
                   KillEnd(old(Now()), osd, markOut), raised)
    {
      ghost var v := Now();
      ghost var k, end := Killed(v, osd), KillEnd(v, osd, markOut);
      ghost var stop, down := KillSteps(v, osd), if markDown then [k] else [];
      ghost var out := if markOut && osd in v.ins then OutSteps(k, osd) else [];
      raised := Stop(osd);
      if raised {
        TookLess(old(seen), seen, Now(), stop, k, down, k);
        TookLess(old(seen), seen, Now(), stop + down, k, out, end);
        return;
      }
      ghost var mid := seen;
      if markDown {
        Yield();
        raised := *;
        assert raised ==> down[..1] == down;
      }
      TookMore(old(seen), mid, seen, Now(), stop, down, k, raised);
      if raised {
        TookLess(old(seen), seen, Now(), stop + down, k, out, end);
        return;
      }
      mid := seen;
      if markOut && osd in inOsds {
        var _, r := OutOsd(Some(osd));
        raised := r;
      }
      TookMore(old(seen), mid, seen, Now(), stop + down, out, end, raised);
    }

    method Stop(osd: int) returns (raised: bool)
      requires osd in liveOsds
      modifies this`liveOsds, this`deadOsds, this`running, this`seen
      ensures Took(old(seen), seen, Now(), KillSteps(old(Now()), osd), Killed(old(Now()), osd), raised)
    {
      ghost var v := Now();
      TookOneOfTwo(seen, Forgotten(v, osd), Killed(v, osd), Killed(v, osd));
      liveOsds := Remove(liveOsds, osd);
      deadOsds := deadOsds + [osd];
      Yield();
      raised := *;
      if raised { return; }
      running := running - {osd};
      Yield();
      raised := *;
    }

    /** One kill's worth of ledger: what the daemons did until then, and one change among the stopped, unless it raised or a store was empty. */
    ghost predicate Exercised(was: seq<Entry>, ran: set<int>, raised: bool)
      reads this, tool
    {
      && was < tool.ledger && |tool.ledger| <= |was| + 2
      && tool.ledger[|was|].Drifted? && tool.ledger[|was|].ran == ran
      && (|tool.ledger| == |was| + 2 ==>
            var e := tool.ledger[|was| + 1];
            !e.Drifted? && Witnessed(e, Now()))
      && (|tool.ledger| == |was| + 1 && !raised ==>
            exists o :: o in deadOsds && o in tool.ledger[|was|].after && tool.ledger[|was|].after[o] == {})
    }

    /** The tool's part of a kill that exposed `down` before it. */
    method Exercise(osd: int, ran: set<int>, ghost before: seq<View>, ghost down: seq<View>) returns (raised: bool)
      requires Exact() && ToolReady() && deadOsds != [] && deadOsds[|deadOsds| - 1] == osd
      requires seen == before + down && down != [] && ran == down[0].running
      modifies tool, this`seen
      ensures tool.Valid() && tool.stores.Keys == osds && (!raised ==> ToolReady())
      ensures Exercised(old(tool.ledger), ran, raised) && seen == old(seen) + [Now()]
      ensures Booked(old(tool.ledger), tool.ledger, |before|, seen)
    {
      raised := UseTool(osd, ran);
      Yield();
      KillIsBooked(old(tool.ledger), tool.ledger, before, down, Now());
    }

    method UseTool(osd: int, ran: set<int>) returns (raised: bool)
      requires Exact() && ToolReady() && deadOsds != [] && deadOsds[|deadOsds| - 1] == osd
      modifies tool
      ensures tool.Valid() && tool.stores.Keys == osds && (!raised ==> ToolReady())
      ensures Exercised(old(tool.ledger), ran, raised)
    {
      SplitsMeaning(liveOsds, deadOsds, osds);
      tool.DaemonsRan(ran);
      var move: bool := *;
      var status: int := *;
      ghost var entry;
      raised, entry := tool.Exercise(osd, deadOsds, move, status, running);
    }

    /** `revive_osd`: when it times out after the restart, a running daemon stays on the dead list. */
    method ReviveOsd(which: Option<int>) returns (osd: int, raised: bool)
      requires if which.Some? then which.value in deadOsds else deadOsds != []
      modifies this`liveOsds, this`deadOsds, this`running, this`seen
      ensures osd in old(deadOsds) && (which.Some? ==> osd == which.value)
      ensures Took(old(seen), seen, Now(), ReviveSteps(old(Now()), osd), Revived(old(Now()), osd), raised)
      ensures !raised ==> deadOsds == Remove(old(deadOsds), osd) && liveOsds == old(liveOsds) + [osd]
                          && running == old(running) + {osd}
    {
      if which.Some? { osd := which.value; } else { osd := Choice(deadOsds); }
      ghost var v := Now();
      TookOneOfTwo(seen, v, v.(running := v.running + {osd}), Revived(v, osd));
      Yield();
      raised := *;
      if raised { return; }
      running := running + {osd};
      Yield();
      raised := *;
      if raised { return; }
      deadOsds := Remove(deadOsds, osd);
      liveOsds := liveOsds + [osd];
    }

    method OutOsd(which: Option<int>) returns (osd: int, raised: bool)
      requires if which.Some? then which.value in inOsds else inOsds != []
      modifies this`inOsds, this`outOsds, this`marked, this`seen
      ensures osd in old(inOsds) && (which.Some? ==> osd == which.value)
      ensures Took(old(seen), seen, Now(), OutSteps(old(Now()), osd), Outed(old(Now()), osd), raised)
      ensures !raised ==> inOsds == Remove(old(inOsds), osd) && outOsds == old(outOsds) + [osd]
                          && marked == old(marked) - {osd}
    {
      if which.Some? { osd := which.value; } else { osd := Choice(inOsds); }
      ghost var v := Now();
      TookOneOfTwo(seen, v, v.(marked := v.marked - {osd}), Outed(v, osd));
      Yield();
      raised := *;
      if raised { return; }
      marked := marked - {osd};
      Yield();
      raised := *;
      if raised { return; }
      inOsds := Remove(inOsds, osd);
      outOsds := outOsds + [osd];
    }

    /** `in_osd`: a dead OSD is only revived, and stays out. */
    method InOsd(which: Option<int>) returns (osd: int, raised: bool)
      requires if which.Some? then which.value in outOsds else outOsds != []
      modifies this`inOsds, this`outOsds, this`liveOsds, this`deadOsds, this`running, this`marked, this`seen
      ensures osd in old(outOsds) && (which.Some? ==> osd == which.value)
      ensures Took(old(seen), seen, Now(), InTrail(old(Now()), osd), InEnd(old(Now()), osd), raised)
      ensures osd in old(deadOsds) ==> inOsds == old(inOsds) && outOsds == old(outOsds) && marked == old(marked)
      ensures osd in old(deadOsds) && !raised ==> liveOsds == old(liveOsds) + [osd] && running == old(running) + {osd}
      ensures osd !in old(deadOsds) ==> liveOsds == old(liveOsds) && deadOsds == old(deadOsds) && running == old(running)
      ensures osd !in old(deadOsds) && !raised ==>
                outOsds == Remove(old(outOsds), osd) && inOsds == old(inOsds) + [osd] && marked == old(marked) + {osd}
    {
      if which.Some? { osd := which.value; } else { osd := Choice(outOsds); }
      ghost var v := Now();
      if osd in deadOsds {
        var _, r := ReviveOsd(Some(osd));
        return osd, r;
      }
      TookOneOfTwo(seen, Listed(v, osd), Inned(v, osd), Inned(v, osd));
      outOsds := Remove(outOsds, osd);
      inOsds := inOsds + [osd];
      Yield();
      raised := *;
      if raised { return; }
      marked := marked + {osd};
      Yield();
      raised := *;
    }

    /** The four primitives again, each carrying on a trace of fine views. */
    method KillOn(which: Option<int>, markDown: bool, markOut: bool, ghost was: seq<View>, ghost low: int)
      returns (osd: int, raised: bool)
      requires Exact() && ToolReady() && Continues(was, seen, osds, low) && |liveOsds| > low
      requires if which.Some? then which.value in liveOsds else liveOsds != []
      modifies this`inOsds, this`outOsds, this`liveOsds, this`deadOsds, this`running, this`marked, this`seen, tool
      ensures tool.Valid() && tool.stores.Keys == osds && (!raised ==> ToolReady())
      ensures osd in old(liveOsds) && (which.Some? ==> osd == which.value)
      ensures old(seen) <= seen && Left(raised) && Continues(was, seen, osds, low)
      ensures !raised ==> Now() == KillEnd(old(Now()), osd, markOut)
      ensures Booked(old(tool.ledger), tool.ledger, |old(seen)|, seen)
    {
      ghost var v, before := Now(), seen;
      osd, raised := KillOsd(which, markDown, markOut);
      KillTrailIsSafe(v, osd, markDown, markOut, cfg.objectStoreTool, osds);
      KillEndIsSettled(v, osd, markOut, osds);
      TookIsSafe(was, before, seen, Now(), KillTrail(v, osd, markDown, markOut, cfg.objectStoreTool),
                 KillEnd(v, osd, markOut), raised, osds, low, |v.live| - 1);
    }

    method ReviveOn(which: Option<int>, ghost was: seq<View>, ghost low: int) returns (osd: int, raised: bool)
      requires Exact() && Continues(was, seen, osds, low) && |liveOsds| >= low
      requires if which.Some? then which.value in deadOsds else deadOsds != []
      modifies this`liveOsds, this`deadOsds, this`running, this`seen
      ensures osd in old(deadOsds) && (which.Some? ==> osd == which.value)
      ensures Left(raised) && Continues(was, seen, osds, low)
      ensures !raised ==> Now() == Revived(old(Now()), osd)
    {
      ghost var v, before := Now(), seen;
      osd, raised := ReviveOsd(which);
      ReviveIsSafe(v, osd, osds);
      TookIsSafe(was, before, seen, Now(), ReviveSteps(v, osd), Revived(v, osd), raised, osds, low, |v.live|);
    }

    method OutOn(which: Option<int>, ghost was: seq<View>, ghost low: int) returns (osd: int, raised: bool)
      requires Exact() && Continues(was, seen, osds, low) && |liveOsds| >= low
      requires if which.Some? then which.value in inOsds else inOsds != []
      modifies this`inOsds, this`outOsds, this`marked, this`seen
      ensures osd in old(inOsds) && (which.Some? ==> osd == which.value)
      ensures Left(raised) && Continues(was, seen, osds, low)
      ensures !raised ==> Now() == Outed(old(Now()), osd)
    {
      ghost var v, before := Now(), seen;
      osd, raised := OutOsd(which);
      OutIsSafe(v, osd, osds);
      TookIsSafe(was, before, seen, Now(), OutSteps(v, osd), Outed(v, osd), raised, osds, low, |v.live|);
    }

    method InOn(which: Option<int>, ghost was: seq<View>, ghost low: int) returns (osd: int, raised: bool)
      requires Exact() && Continues(was, seen, osds, low) && |liveOsds| >= low
      requires if which.Some? then which.value in outOsds else outOsds != []
      modifies this`inOsds, this`outOsds, this`liveOsds, this`deadOsds, this`running, this`marked, this`seen
      ensures osd in old(outOsds) && (which.Some? ==> osd == which.value)
      ensures Left(raised) && Continues(was, seen, osds, low)
      ensures !raised ==> Now() == InEnd(old(Now()), osd)
    {
      ghost var v, before := Now(), seen;
      osd, raised := InOsd(which);
      InOsdIsSafe(v, osd, osds);
      TookIsSafe(was, before, seen, Now(), InTrail(v, osd), InEnd(v, osd), raised, osds, low, |v.live|);
    }

    /** A sleep, a wait, or a command that changes nothing modelled here. */
    ghost method Pause(was: seq<View>, low: int)
      requires Exact() && Continues(was, seen, osds, low) && |liveOsds| >= low
      modifies this`seen
      ensures seen == old(seen) + [Now()] && Continues(was, seen, osds, low) && Coherent(Now(), osds)
    {
      SettledIsCoherent(Now(), osds);
      Yield();
      Continue(was, old(seen), [Now()], osds, low, |liveOsds|);
    }

    /** `all_up`: whatever OSDs are drawn, it ends, with nothing dead and nothing out unless it raises. */
    method AllUp() returns (raised: bool)
      requires Exact()
      modifies this`inOsds, this`outOsds, this`liveOsds, this`deadOsds, this`running, this`marked, this`seen
      ensures Left(raised) && Continues(old(seen), seen, osds, |old(liveOsds)|)
      ensures !raised ==> deadOsds == [] && outOsds == [] && |liveOsds| >= |old(liveOsds)|
      ensures !raised ==> multiset(liveOsds) == multiset(inOsds) == multiset(osds) && running == marked == osds
    {
      raised := ReviveDown(0);
      if raised { return; }
      while |outOsds| > 0
        invariant Exact() && Continues(old(seen), seen, osds, |old(liveOsds)|) && |liveOsds| >= |old(liveOsds)|
        invariant deadOsds == []
        decreases |outOsds|
      {
        var _, r := InOn(None, old(seen), |old(liveOsds)|);
        if r { return true; }
      }
      assert multiset(liveOsds) == multiset(liveOsds) + multiset(deadOsds);
      assert multiset(inOsds) == multiset(inOsds) + multiset(outOsds);
      SplitsMeaning(liveOsds, deadOsds, osds);
      SplitsMeaning(inOsds, outOsds, osds);
    }

    /** `while len(dead_osds) > enough: revive_osd()`. */
    method ReviveDown(enough: nat) returns (raised: bool)
      requires Exact()
      modifies this`liveOsds, this`deadOsds, this`running, this`seen
      ensures Left(raised) && Continues(old(seen), seen, osds, |old(liveOsds)|)
      ensures !raised ==> |deadOsds| <= enough && |liveOsds| >= |old(liveOsds)|
    {
      while |deadOsds| > enough
        invariant Exact() && |liveOsds| >= |old(liveOsds)|
        invariant Continues(old(seen), seen, osds, |old(liveOsds)|)
        decreases |deadOsds|
      {
        var _, r := ReviveOn(None, old(seen), |old(liveOsds)|);
        if r { return true; }
      }
      return false;
    }

    /** The four list comprehensions of `test_pool_min_size`, each over a list split off from what stays. */
    method KillEach(xs: seq<int>, ghost rest: multiset<int>) returns (raised: bool)
      requires Exact() && ToolReady() && LeftOver(liveOsds, xs, 0, rest)
      modifies this`inOsds, this`outOsds, this`liveOsds, this`deadOsds, this`running, this`marked, this`seen, tool
      ensures tool.Valid() && tool.stores.Keys == osds && (!raised ==> ToolReady())
      ensures Left(raised) && Continues(old(seen), seen, osds, 0)
      ensures !raised ==> multiset(liveOsds) == rest && deadOsds == old(deadOsds) + xs
                          && inOsds == old(inOsds) && outOsds == old(outOsds)
      ensures Booked(old(tool.ledger), tool.ledger, |old(seen)|, seen)
    {
      for k := 0 to |xs|
        invariant Exact() && ToolReady() && LeftOver(liveOsds, xs, k, rest)
        invariant deadOsds == old(deadOsds) + xs[..k]
        invariant inOsds == old(inOsds) && outOsds == old(outOsds)
        invariant Continues(old(seen), seen, osds, 0)
        invariant Booked(old(tool.ledger), tool.ledger, |old(seen)|, seen)
      {
        TakeOne(liveOsds, xs, k, rest);
        ghost var before, ledger, live := seen, tool.ledger, liveOsds;
        var _, r := KillOn(Some(xs[k]), false, false, old(seen), 0);
        BookedOn(old(tool.ledger), ledger, tool.ledger, |old(seen)|, before, seen);
        if r { return true; }
        assert Exact() && liveOsds == Remove(live, xs[k]);
        assert deadOsds == old(deadOsds) + xs[..k + 1];
      }
      TookAll(liveOsds, xs, rest);
      return false;
    }

    method OutEach(xs: seq<int>, ghost rest: multiset<int>) returns (raised: bool)
      requires Exact() && LeftOver(inOsds, xs, 0, rest)
      modifies this`inOsds, this`outOsds, this`marked, this`seen
      ensures Left(raised) && Continues(old(seen), seen, osds, |liveOsds|)
      ensures !raised ==> multiset(inOsds) == rest && outOsds == old(outOsds) + xs
    {
      for k := 0 to |xs|
        invariant Exact() && LeftOver(inOsds, xs, k, rest) && outOsds == old(outOsds) + xs[..k]
        invariant Continues(old(seen), seen, osds, |liveOsds|)
      {
        TakeOne(inOsds, xs, k, rest);
        ghost var ins := inOsds;
        var _, r := OutOn(Some(xs[k]), old(seen), |liveOsds|);
        if r { return true; }
        assert Exact() && inOsds == Remove(ins, xs[k]);
        assert outOsds == old(outOsds) + xs[..k + 1];
      }
      TookAll(inOsds, xs, rest);
      return false;
    }

    method ReviveEach(xs: seq<int>, ghost rest: multiset<int>) returns (raised: bool)
      requires Exact() && LeftOver(deadOsds, xs, 0, rest)
      modifies this`liveOsds, this`deadOsds, this`running, this`seen
      ensures Left(raised) && Continues(old(seen), seen, osds, |old(liveOsds)|)
      ensures !raised ==> multiset(deadOsds) == rest && liveOsds == old(liveOsds) + xs
    {
      for k := 0 to |xs|
        invariant Exact() && LeftOver(deadOsds, xs, k, rest) && liveOsds == old(liveOsds) + xs[..k]
        invariant Continues(old(seen), seen, osds, |old(liveOsds)|)
      {
        TakeOne(deadOsds, xs, k, rest);
        ghost var dead := deadOsds;
        var _, r := ReviveOn(Some(xs[k]), old(seen), |old(liveOsds)|);
        if r { return true; }
        assert Exact() && deadOsds == Remove(dead, xs[k]);
        assert liveOsds == old(liveOsds) + xs[..k + 1];
      }
      TookAll(deadOsds, xs, rest);
      return false;
    }

    method InEach(xs: seq<int>, ghost rest: multiset<int>) returns (raised: bool)
      requires Exact() && LeftOver(outOsds, xs, 0, rest)
      requires forall x :: x in xs ==> x !in deadOsds
      modifies this`inOsds, this`outOsds, this`liveOsds, this`deadOsds, this`running, this`marked, this`seen
      ensures Left(raised) && Continues(old(seen), seen, osds, |old(liveOsds)|)
      ensures !raised ==> multiset(outOsds) == rest && inOsds == old(inOsds) + xs
                          && liveOsds == old(liveOsds) && deadOsds == old(deadOsds)
    {
      for k := 0 to |xs|
        invariant Exact() && LeftOver(outOsds, xs, k, rest) && inOsds == old(inOsds) + xs[..k]
        invariant liveOsds == old(liveOsds) && deadOsds == old(deadOsds)
        invariant Continues(old(seen), seen, osds, |old(liveOsds)|)
      {
        TakeOne(outOsds, xs, k, rest);
        assert xs[k] in xs;
        var _, r := InOn(Some(xs[k]), old(seen), |old(liveOsds)|);
        if r { return true; }
      }
      TookAll(outOsds, xs, rest);
      return false;
    }

    /**
     `test_pool_min_size`. Its message about the one OSD to keep passes two arguments to
     `self.log`, which takes one: unless the log accepts that, it raises right there.
     */
    method TestPoolMinSize() returns (raised: bool)
      requires Exact() && ToolReady() && osds != {}
      modifies this`inOsds, this`outOsds, this`liveOsds, this`deadOsds, this`running, this`marked, this`seen, tool
      ensures tool.Valid() && tool.stores.Keys == osds && Left(raised) && (!raised ==> ToolReady())
      ensures !cfg.logTakesArgs ==> raised
      ensures Continues(old(seen), seen, osds, if cfg.logTakesArgs then 0 else |old(liveOsds)|)
      ensures !raised ==> |deadOsds| == 1 && outOsds == deadOsds
                          && |liveOsds| == |inOsds| == |osds| - 1
                          && (Floors(Now(), cfg) <==> cfg.minIn < |osds| && cfg.minLive < |osds|)
                          && exists i :: |old(seen)| <= i < |seen| && seen[i].live == []
      ensures Booked(old(tool.ledger), tool.ledger, |old(seen)|, seen)
    {
      raised := AllUpAndRecovered();
      ghost var low := if cfg.logTakesArgs then 0 else |old(liveOsds)|;
      Weaken(old(seen), seen, osds, |old(liveOsds)|, low);
      if raised { return; }
      assert ToolReady();
      var one := Choice(inOsds);
      if !cfg.logTakesArgs {
        SettledIsCoherent(Now(), osds);
        return true;
      }
      ghost var before := seen;
      raised := MinSizeRound(one);
      ContinuesOn(old(seen), before, seen, osds, low, 0);
      BookedOn(old(tool.ledger), old(tool.ledger), tool.ledger, |old(seen)|, before, seen);
    }

    /** `all_up`, and the wait for recovery that may time out. */
    method AllUpAndRecovered() returns (raised: bool)
      requires Exact()
      modifies this`inOsds, this`outOsds, this`liveOsds, this`deadOsds, this`running, this`marked, this`seen
      ensures Left(raised) && Continues(old(seen), seen, osds, |old(liveOsds)|)
      ensures !raised ==> deadOsds == [] && outOsds == []
                          && multiset(liveOsds) == multiset(inOsds) == multiset(osds)
    {
      raised := AllUp();
      if raised { return; }
      Pause(old(seen), |old(liveOsds)|);
      raised := *;
    }

    method MinSizeRound(one: int) returns (raised: bool)
      requires Exact() && ToolReady() && one in inOsds && deadOsds == [] && outOsds == []
      requires multiset(liveOsds) == multiset(inOsds) == multiset(osds)
      modifies this`inOsds, this`outOsds, this`liveOsds, this`deadOsds, this`running, this`marked, this`seen, tool
      ensures tool.Valid() && tool.stores.Keys == osds && Left(raised) && (!raised ==> ToolReady())
      ensures Continues(old(seen), seen, osds, 0)
      ensures !raised ==> deadOsds == [one] && outOsds == [one]
                          && |liveOsds| == |inOsds| == |osds| - 1
                          && exists i :: |old(seen)| <= i < |seen| && seen[i].live == []
      ensures Booked(old(tool.ledger), tool.ledger, |old(seen)|, seen)
    {
      var toKill := Without(inOsds, one);
      AllButOne(inOsds, liveOsds, one, osds);
      raised := EveryoneDown(toKill, one);
      if raised { return; }
      ghost var before := seen;
      raised := OthersUp(toKill, one);
      ContinuesOn(old(seen), before, seen, osds, 0, 0);
      BookedLater(old(tool.ledger), tool.ledger, |old(seen)|, before, seen);
      if raised { return; }
      SplitSizes(liveOsds, deadOsds, osds);
    }

    method EveryoneDown(toKill: seq<int>, one: int) returns (raised: bool)
      requires Exact() && ToolReady() && deadOsds == [] && outOsds == []
      requires LeftOver(liveOsds, toKill, 0, multiset{one}) && LeftOver(inOsds, toKill, 0, multiset{one})
      modifies this`inOsds, this`outOsds, this`liveOsds, this`deadOsds, this`running, this`marked, this`seen, tool
      ensures tool.Valid() && tool.stores.Keys == osds && Left(raised) && (!raised ==> ToolReady())
      ensures Continues(old(seen), seen, osds, 0)
      ensures !raised ==> liveOsds == [] && inOsds == [] && deadOsds == toKill + [one] == outOsds
                          && exists i :: |old(seen)| <= i < |seen| && seen[i].live == []
      ensures Booked(old(tool.ledger), tool.ledger, |old(seen)|, seen)
    {
      raised := OthersDown(toKill, one);
      if raised { return; }
      ghost var mid, ledger := seen, tool.ledger;
      raised := LastOneDown(one);
      ContinuesOn(old(seen), mid, seen, osds, 0, 0);
      BookedOn(old(tool.ledger), ledger, tool.ledger, |old(seen)|, mid, seen);
      assert seen[|mid|].live == [];
    }

    method OthersDown(toKill: seq<int>, one: int) returns (raised: bool)
      requires Exact() && ToolReady()
      requires LeftOver(liveOsds, toKill, 0, multiset{one}) && LeftOver(inOsds, toKill, 0, multiset{one})
      modifies this`inOsds, this`outOsds, this`liveOsds, this`deadOsds, this`running, this`marked, this`seen, tool
      ensures tool.Valid() && tool.stores.Keys == osds && Left(raised) && (!raised ==> ToolReady())
      ensures Continues(old(seen), seen, osds, 0)
      ensures !raised ==> liveOsds == [one] && inOsds == [one]
                          && deadOsds == old(deadOsds) + toKill && outOsds == old(outOsds) + toKill
      ensures Booked(old(tool.ledger), tool.ledger, |old(seen)|, seen)
    {
      raised := KillEach(toKill, multiset{one});
      if raised { return; }
      OnlyOne(liveOsds, one);
      ghost var mid := seen;
      raised := OutEach(toKill, multiset{one});
      ContinuesOn(old(seen), mid, seen, osds, 0, |liveOsds|);
      BookedLater(old(tool.ledger), tool.ledger, |old(seen)|, mid, seen);
      if raised { return; }
      assert ToolReady();
      OnlyOne(inOsds, one);
      mid := seen;
      Pause(old(seen), 0);
      BookedLater(old(tool.ledger), tool.ledger, |old(seen)|, mid, seen);
    }

    method OthersUp(toKill: seq<int>, one: int) returns (raised: bool)
      requires Exact() && one !in toKill
      requires liveOsds == [] && inOsds == [] && deadOsds == toKill + [one] == outOsds
      modifies this`inOsds, this`outOsds, this`liveOsds, this`deadOsds, this`running, this`marked, this`seen
      ensures Left(raised) && Continues(old(seen), seen, osds, 0)
      ensures !raised ==> deadOsds == [one] == outOsds && liveOsds == toKill == inOsds
    {
      assert toKill[0..] == toKill;
      raised := ReviveEach(toKill, multiset{one});
      if raised { return; }
      OnlyOne(deadOsds, one);
      ghost var mid, most := seen, |liveOsds|;
      raised := InEach(toKill, multiset{one});
      ContinuesOn(old(seen), mid, seen, osds, 0, most);
      if raised { return; }
      OnlyOne(outOsds, one);
      Pause(old(seen), 0);
      raised := *;
    }

    /** The last live OSD goes down and out: for a moment nothing at all is listed as live. */
    method LastOneDown(one: int) returns (raised: bool)
      requires Exact() && ToolReady() && liveOsds == [one] && inOsds == [one]
      modifies this`inOsds, this`outOsds, this`liveOsds, this`deadOsds, this`running, this`marked, this`seen, tool
      ensures tool.Valid() && tool.stores.Keys == osds && Left(raised) && (!raised ==> ToolReady())
      ensures Continues(old(seen), seen, osds, 0)
      ensures |seen| > |old(seen)| && seen[|old(seen)|].live == []
      ensures !raised ==> liveOsds == [] && inOsds == []
                          && deadOsds == old(deadOsds) + [one] && outOsds == old(outOsds) + [one]
      ensures Booked(old(tool.ledger), tool.ledger, |old(seen)|, seen)
    {
      ghost var v := Now();
      ghost var o;
      o, raised := KillOsd(Some(one), false, false);
      KillTrailIsSafe(v, o, false, false, cfg.objectStoreTool, osds);
      KillEndIsSettled(v, o, false, osds);
      TookIsSafe(old(seen), old(seen), seen, Now(), KillTrail(v, o, false, false, cfg.objectStoreTool),
                 KillEnd(v, o, false), raised, osds, 0, |v.live| - 1);
      if raised { return; }
      ghost var mid := seen;
      o, raised := OutOn(Some(one), mid, 0);
      ContinuesOn(old(seen), mid, seen, osds, 0, 0);
      BookedLater(old(tool.ledger), tool.ledger, |old(seen)|, mid, seen);
    }

    /** `while len(in_osds) < minin + 1: in_osd()` and the waits after it; each turn revives a dead OSD or moves one in. */
    method InUntil(enough: int) returns (raised: bool)
      requires Exact() && enough <= |osds|
      modifies this`inOsds, this`outOsds, this`liveOsds, this`deadOsds, this`running, this`marked, this`seen
      ensures Left(raised) && Continues(old(seen), seen, osds, |old(liveOsds)|)
      ensures !raised ==> |inOsds| >= enough && |inOsds| >= |old(inOsds)| && |liveOsds| >= |old(liveOsds)|
    {
      while |inOsds| < enough
        invariant Exact() && Continues(old(seen), seen, osds, |old(liveOsds)|)
        invariant |inOsds| >= |old(inOsds)| && |liveOsds| >= |old(liveOsds)|
        decreases |deadOsds| + |outOsds|
      {
        SplitSizes(inOsds, outOsds, osds);
        var _, r := InOn(None, old(seen), |old(liveOsds)|);
        if r { return true; }
      }
      Pause(old(seen), |old(liveOsds)|);
      raised := *;                      // not all up, or not clean, in time
    }

    /** `test_map_discontinuity`: kills without a floor, and is back at the floors at its end. */
    method TestMapDiscontinuity() returns (raised: bool)
      requires Exact() && ToolReady() && cfg.minIn < |osds| && liveOsds != []
      modifies this`inOsds, this`outOsds, this`liveOsds, this`deadOsds, this`running, this`marked, this`seen, tool
      ensures tool.Valid() && tool.stores.Keys == osds && Left(raised) && (!raised ==> ToolReady())
      ensures Continues(old(seen), seen, osds, |old(liveOsds)| - 1)
      ensures !raised ==> |inOsds| >= cfg.minIn && |liveOsds| >= |old(liveOsds)|
      ensures !raised ==> seen != [] && |seen[|seen| - 1].live| == |liveOsds| - 1
      ensures Booked(old(tool.ledger), tool.ledger, |old(seen)|, seen)
      ensures !raised ==> outOsds != []
    {
      ghost var low := |liveOsds| - 1;
      raised := InUntil(cfg.minIn + 1);
      Weaken(old(seen), seen, osds, low + 1, low);
      if raised { return; }
      assert ToolReady();
      ghost var before, least := seen, |liveOsds| - 1;
      raised := KillThenRevive();
      ContinuesOn(old(seen), before, seen, osds, low, least);
      BookedOn(old(tool.ledger), old(tool.ledger), tool.ledger, |old(seen)|, before, seen);
    }

    method KillThenRevive() returns (raised: bool)
      requires Exact() && ToolReady() && liveOsds != []
      modifies this`inOsds, this`outOsds, this`liveOsds, this`deadOsds, this`running, this`marked, this`seen, tool
      ensures tool.Valid() && tool.stores.Keys == osds && (!raised ==> ToolReady())
      ensures Left(raised) && Continues(old(seen), seen, osds, |old(liveOsds)| - 1)
      ensures !raised ==> |inOsds| >= |old(inOsds)| - 1 && |liveOsds| == |old(liveOsds)|
      ensures !raised ==> seen != [] && |seen[|seen| - 1].live| == |liveOsds| - 1
      ensures Booked(old(tool.ledger), tool.ledger, |old(seen)|, seen)
      ensures !raised ==> exists o :: o in old(liveOsds) && o in outOsds
    {
      ghost var low := |liveOsds| - 1;
      raised := KillAny();
      if raised { return; }
      ghost var before := seen;
      raised := ReviveAny();
      ContinuesOn(old(seen), before, seen, osds, low, low);
      BookedLater(old(tool.ledger), tool.ledger, |old(seen)|, before, seen);
    }

    method KillAny() returns (raised: bool)
      requires Exact() && ToolReady() && liveOsds != []
      modifies this`inOsds, this`outOsds, this`liveOsds, this`deadOsds, this`running, this`marked, this`seen, tool
      ensures tool.Valid() && tool.stores.Keys == osds && (!raised ==> ToolReady())
      ensures Left(raised) && Continues(old(seen), seen, osds, |old(liveOsds)| - 1)
      ensures !raised ==> |inOsds| >= |old(inOsds)| - 1 && |liveOsds| == |old(liveOsds)| - 1 && deadOsds != []
      ensures Booked(old(tool.ledger), tool.ledger, |old(seen)|, seen)
      ensures !raised ==> exists o :: o in old(liveOsds) && o in deadOsds && o in outOsds
    {
      ghost var low := |liveOsds| - 1;
      ghost var o;
      o, raised := KillOn(None, true, true, old(seen), low);
      if raised { return; }
      assert ToolReady();
      KilledIsOut(old(Now()), o, osds);
      ghost var before := seen;
      Pause(old(seen), low);
      BookedLater(old(tool.ledger), tool.ledger, |old(seen)|, before, seen);
      raised := *;                      // not clean again in time
    }

    method ReviveAny() returns (raised: bool)
      requires Exact() && deadOsds != []
      modifies this`liveOsds, this`deadOsds, this`running, this`seen
      ensures Left(raised) && Continues(old(seen), seen, osds, |old(liveOsds)|)
      ensures !raised ==> |liveOsds| == |old(liveOsds)| + 1
                          && seen != [] && |seen[|seen| - 1].live| == |liveOsds| - 1
    {
      ghost var v := Now();
      ghost var o;
      o, raised := ReviveOsd(None);
      ReviveIsSafe(v, o, osds);
      TookIsSafe(old(seen), old(seen), seen, Now(), ReviveSteps(v, o), Revived(v, o), raised, osds, |v.live|, |v.live|);
    }

    /** What the floor leaves: only `test_map_discontinuity` kills an OSD at the floor. */
    ghost function Least(): int {
      cfg.minLive - (if cfg.mapDiscontinuity then 1 else 0)
    }

    /** How few OSDs any greenlet can ever see listed as live. */
    ghost function LowWater(): int {
      if cfg.testMinSize > 0.0 && cfg.logTakesArgs && Least() >= 0 then 0 else Least()
    }

    /** `now` continues `was` with views that are exact and at the floors. */
    ghost predicate AtFloors(was: seq<View>, now: seq<View>) {
      was <= now && FloorsFrom(|was|, now)
    }

    ghost predicate FloorsFrom(n: nat, views: seq<View>)
      decreases |views|, 1
    {
      |views| <= n || FloorsLast(n, views)
    }

    ghost predicate FloorsLast(n: nat, views: seq<View>)
      requires views != []
      decreases |views|, 0
    {
      && Settled(views[|views| - 1], osds) && Floors(views[|views| - 1], cfg)
      && FloorsFrom(n, views[..|views| - 1])
    }

    /** What that says of each boundary. */
    lemma {:induction false} FloorsAt(was: seq<View>, now: seq<View>, i: nat)
      requires AtFloors(was, now) && |was| <= i < |now|
      ensures Settled(now[i], osds) && Floors(now[i], cfg)
      decreases |now|
    {
      assert FloorsLast(|was|, now);
      if i < |now| - 1 {
        FloorsAt(was, now[..|now| - 1], i);
      }
    }

    lemma {:induction false} FloorsOn(was: seq<View>, mid: seq<View>, now: seq<View>)
      requires AtFloors(was, mid) && AtFloors(mid, now)
      ensures AtFloors(was, now)
      decreases |now|
    {
      if |now| > |mid| {
        assert FloorsLast(|mid|, now);
        FloorsOn(was, mid, now[..|now| - 1]);
        assert FloorsLast(|was|, now);
      } else {
        assert now == mid;
      }
    }

    /** The settings the thrasher's own list operations depend on. */
    ghost predicate Workable() {
      && NonNegative(cfg) && SaneFloors(cfg) && cfg.maxDead >= 0
      && osds != {}
      && (cfg.testMinSize > 0.0 && cfg.logTakesArgs ==> cfg.minIn < |osds| && cfg.minLive < |osds|)
      && (cfg.mapDiscontinuity ==> cfg.minIn < |osds| && (cfg.minLive >= 1 || cfg.maxDead < |osds|))
    }

    /** Between the two views the action that `value` chooses was performed. */
    ghost predicate Acted(v: View, w: View, value: real) {
      exists a :: Chosen(v, cfg, value, a) && Offered(v, cfg, a) && Effect(a, v, w)
    }

    /** Each of the first `k` rounds, from boundary `n` on, performed the action its draw chooses. */
    ghost predicate AllActed(n: nat, views: seq<View>, plan: seq<Draw>, k: nat)
      requires k <= |plan| && n + 2 * k <= |views|
      decreases k, 1
    {
      k == 0 || ActedUpTo(n, views, plan, k)
    }

    ghost predicate ActedUpTo(n: nat, views: seq<View>, plan: seq<Draw>, k: nat)
      requires 1 <= k <= |plan| && n + 2 * k <= |views|
      decreases k, 0
    {
      AllActed(n, views, plan, k - 1) && Acted(views[n + 2 * k - 2], views[n + 2 * k - 1], plan[k - 1].value)
    }

    lemma {:induction false} ActedStill(n: nat, was: seq<View>, now: seq<View>, plan: seq<Draw>, k: nat)
      requires k <= |plan| && n + 2 * k <= |was| && was <= now && AllActed(n, was, plan, k)
      ensures AllActed(n, now, plan, k)
    {
      if k > 0 {
        assert ActedUpTo(n, was, plan, k);
        ActedStill(n, was, now, plan, k - 1);
        assert ActedUpTo(n, now, plan, k);
      }
    }

    /** What that says of each round. */
    lemma {:induction false} ActedInRound(n: nat, views: seq<View>, plan: seq<Draw>, k: nat, i: nat)
      requires i < k <= |plan| && n + 2 * k <= |views| && AllActed(n, views, plan, k)
      ensures Acted(views[n + 2 * i], views[n + 2 * i + 1], plan[i].value)
    {
      assert ActedUpTo(n, views, plan, k);
      if i < k - 1 {
        ActedInRound(n, views, plan, k - 1, i);
      }
    }

    lemma {:induction false} ActedAgain(n: nat, was: seq<View>, v: View, w: View, plan: seq<Draw>, k: nat)
      requires k < |plan| && n + 2 * k == |was| && AllActed(n, was, plan, k) && Acted(v, w, plan[k].value)
      ensures AllActed(n, was + [v, w], plan, k + 1)
    {
      ActedStill(n, was, was + [v, w], plan, k);
      assert ActedUpTo(n, was + [v, w], plan, k + 1);
    }

    /** Calls the action `choose_action` returned. */
    method Perform(a: Action) returns (raised: bool)
      requires Exact() && ToolReady() && Workable() && Floors(Now(), cfg) && Offered(Now(), cfg, a)
      modifies this`inOsds, this`outOsds, this`liveOsds, this`deadOsds, this`running, this`marked, this`seen, tool
      ensures tool.Valid() && tool.stores.Keys == osds && Left(raised)
      ensures !raised ==> ToolReady() && Floors(Now(), cfg) && Effect(a, old(Now()), Now())
      ensures Continues(old(seen), seen, osds, LowWater())
      ensures Booked(old(tool.ledger), tool.ledger, |old(seen)|, seen)
    {
      PickIsSafe(Now(), cfg, osds, a);
      if a.OutOsd? || a.InOsd? || a.ReviveOsd? {
        raised := Move(a);
      } else if a.KillOsd? {
        ghost var o;
        o, raised := KillOn(None, false, false, seen, |liveOsds| - 1);
      } else if a.TestPoolMinSize? {
        raised := TestPoolMinSize();
      } else {
        raised := Observe(a);
      }
    }

    /** What an action that did not raise has done to the lists, the daemons and the map. */
    ghost predicate Effect(a: Action, v: View, w: View) {
      match a
      case OutOsd => exists o :: o in v.ins && w == Outed(v, o)
      case InOsd => exists o :: o in v.outs && w == InEnd(v, o)
      case ReviveOsd => exists o :: o in v.dead && w == Revived(v, o)
      case KillOsd => exists o :: o in v.live && w == Killed(v, o)
      case TestPoolMinSize => |w.dead| == 1 && w.outs == w.dead
      case _ => w == v
    }

    method Move(a: Action) returns (raised: bool)
      requires Exact() && (a.OutOsd? || a.InOsd? || a.ReviveOsd?) && PickList(Now(), a).value != []
      modifies this`inOsds, this`outOsds, this`liveOsds, this`deadOsds, this`running, this`marked, this`seen
      ensures Left(raised) && Continues(old(seen), seen, osds, |old(liveOsds)|)
      ensures !raised ==> Effect(a, old(Now()), Now()) && |liveOsds| >= |old(liveOsds)|
                          && |inOsds| >= |old(inOsds)| - (if a.OutOsd? then 1 else 0)
    {
      ghost var o;
      if a.OutOsd? {
        o, raised := OutOn(None, seen, |liveOsds|);
      } else if a.InOsd? {
        o, raised := InOn(None, seen, |liveOsds|);
      } else {
        o, raised := ReviveOn(None, seen, |liveOsds|);
      }
    }

    /** The actions that touch none of the four lists, though most draw an OSD from one. */
    method Observe(a: Action) returns (raised: bool)
      requires Exact() && (PickList(Now(), a).Some? ==> PickList(Now(), a).value != [])
      requires !a.OutOsd? && !a.KillOsd? && !a.InOsd? && !a.ReviveOsd? && !a.TestPoolMinSize?
      modifies this`seen
      ensures Now() == old(Now()) && Coherent(Now(), osds) && Continues(old(seen), seen, osds, |liveOsds|)
    {
      match a {
        case RmPastIntervals => if cfg.rmPastIntervals { var _ := Choice(deadOsds); }
        case PrimaryAffinity => var _ := Choice(inOsds);
        case Reweight => var one: bool := *; if one { var _ := Choice(inOsds); }
        case InjectPause(_, _) => var _ := Choice(liveOsds);
        case _ =>
      }
      Pause(old(seen), |liveOsds|);
      raised := *;
    }

    /** `while len(dead_osds) > maxdead: revive_osd()`, the reweights, and the wait for recovery or the scrub. */
    method ReviveAndWait() returns (raised: bool)
      requires Exact() && cfg.maxDead >= 0
      modifies this`liveOsds, this`deadOsds, this`running, this`seen
      ensures Left(raised) && Continues(old(seen), seen, osds, |old(liveOsds)|)
      ensures !raised ==> |liveOsds| >= |old(liveOsds)| && |deadOsds| <= cfg.maxDead
                          && |seen| > |old(seen)| && |seen[|seen| - 1].dead| <= cfg.maxDead
    {
      raised := ReviveDown(cfg.maxDead);
      if raised { return; }
      Pause(old(seen), |old(liveOsds)|);
      raised := *;
    }

    /** The cleaning half of a round: revive down to `max_dead`, then test or wait. */
    method Clean(test: bool) returns (raised: bool, ghost at: nat)
      requires Exact() && ToolReady() && Workable() && Floors(Now(), cfg)
      modifies this`inOsds, this`outOsds, this`liveOsds, this`deadOsds, this`running, this`marked, this`seen, tool
      ensures tool.Valid() && tool.stores.Keys == osds && Left(raised)
      ensures Continues(old(seen), seen, osds, Least())
      ensures !raised ==> ToolReady() && Floors(Now(), cfg)
      ensures !raised ==> |old(seen)| <= at < |seen| && |seen[at].dead| <= cfg.maxDead
      ensures Booked(old(tool.ledger), tool.ledger, |old(seen)|, seen)
      ensures cfg.mapDiscontinuity && test && !raised ==> outOsds != []
    {
      ghost var most := |liveOsds|;
      at := 0;
      raised := ReviveAndWait();
      Weaken(old(seen), seen, osds, most, Least());
      if raised { return; }
      assert ToolReady();
      at := |seen| - 1;
      if !(cfg.mapDiscontinuity && test) { return; }
      ghost var before, low := seen, |liveOsds| - 1;
      SplitSizes(liveOsds, deadOsds, osds);
      raised := TestMapDiscontinuity();
      ContinuesOn(old(seen), before, seen, osds, Least(), low);
      BookedOn(old(tool.ledger), old(tool.ledger), tool.ledger, |old(seen)|, before, seen);
      assert seen[..|before|][at] == before[at];
      if !raised {
        SettledIsCoherent(Now(), osds);
        raised := *;                    // the scrubber
      }
    }

    /**
     `do_thrash`, stopped after as many rounds as `plan` has draws. It raises when a step raises or when
     `choose_action` returned nothing to call; otherwise it ends with everything up and in.
     */
    method DoThrash(plan: seq<Draw>) returns (raised: bool, ghost done: nat)
      requires Exact() && ToolReady() && Workable() && Floors(Now(), cfg) && forall d :: d in plan ==> d.value >= 0.0
      modifies this, tool
      ensures tool.Valid() && tool.stores.Keys == osds && Coherent(Now(), osds)
      ensures !raised ==> Exact() && ToolReady() && deadOsds == [] && outOsds == [] && running == marked == osds
      ensures done <= |plan| && |old(boundaries)| + 2 * done <= |boundaries| <= |old(boundaries)| + 2 * done + 1
      ensures !raised ==> done == |plan| && |boundaries| == |old(boundaries)| + 2 * done
      ensures AllActed(|old(boundaries)|, boundaries, plan, done)
      ensures AtFloors(old(boundaries), boundaries)
      ensures Continues(old(seen), seen, osds, LowWater())
      ensures SignalsLand(old(Now()), seen[|old(seen)|..], LowWater() >= 1)
      ensures Booked(old(tool.ledger), tool.ledger, |old(seen)|, seen)
    {
      ghost var low := LowWater();
      raised, done := Rounds(plan);
      if !raised {
        ghost var before, most := seen, |liveOsds|;
        raised := AllUp();
        ContinuesOn(old(seen), before, seen, osds, low, most);
        BookedLater(old(tool.ledger), tool.ledger, |old(seen)|, before, seen);
      }
      SettledIsCoherent(old(Now()), osds);
      EveryScheduleIsSafe(old(Now()), old(seen), seen, osds, low);
    }

    method Rounds(plan: seq<Draw>) returns (raised: bool, ghost done: nat)
      requires Exact() && ToolReady() && Workable() && Floors(Now(), cfg) && forall d :: d in plan ==> d.value >= 0.0
      modifies this, tool
      ensures tool.Valid() && tool.stores.Keys == osds && Left(raised)
      ensures !raised ==> ToolReady() && Floors(Now(), cfg)
      ensures done <= |plan| && |old(boundaries)| + 2 * done <= |boundaries| <= |old(boundaries)| + 2 * done + 1
      ensures !raised ==> done == |plan| && |boundaries| == |old(boundaries)| + 2 * done
      ensures AllActed(|old(boundaries)|, boundaries, plan, done)
      ensures AtFloors(old(boundaries), boundaries)
      ensures Continues(old(seen), seen, osds, LowWater())
      ensures Booked(old(tool.ledger), tool.ledger, |old(seen)|, seen)
    {
      ghost var low := LowWater();
      for k := 0 to |plan|
        invariant Exact() && ToolReady() && Floors(Now(), cfg)
        invariant AtFloors(old(boundaries), boundaries) && |boundaries| == |old(boundaries)| + 2 * k
        invariant AllActed(|old(boundaries)|, boundaries, plan, k)
        invariant Continues(old(seen), seen, osds, low)
        invariant Booked(old(tool.ledger), tool.ledger, |old(seen)|, seen)
      {
        ghost var before, ledger, bounds := seen, tool.ledger, boundaries;
        raised := Round(plan[k], |old(boundaries)|, plan, k);
        ContinuesOn(old(seen), before, seen, osds, low, low);
        BookedOn(old(tool.ledger), ledger, tool.ledger, |old(seen)|, before, seen);
        FloorsOn(old(boundaries), bounds, boundaries);
        done := k;
        if raised { return; }
      }
      raised, done := false, |plan|;
    }

    ghost method Mark(was: seq<View>)
      requires Exact() && Floors(Now(), cfg) && AtFloors(was, boundaries)
      modifies this`boundaries
      ensures boundaries == old(boundaries) + [Now()] && AtFloors(was, boundaries)
    {
      boundaries := boundaries + [Now()];
      assert boundaries[..|boundaries| - 1] == old(boundaries);
      assert FloorsLast(|was|, boundaries);
    }

    method Round(draw: Draw, ghost n: nat, ghost plan: seq<Draw>, ghost k: nat) returns (raised: bool)
      requires Exact() && ToolReady() && Workable() && Floors(Now(), cfg) && draw.value >= 0.0
      requires k < |plan| && draw == plan[k] && |boundaries| == n + 2 * k && AllActed(n, boundaries, plan, k)
      modifies this, tool
      ensures tool.Valid() && tool.stores.Keys == osds && Left(raised)
      ensures !raised ==> ToolReady() && Floors(Now(), cfg) && |boundaries| == |old(boundaries)| + 2
      ensures AtFloors(old(boundaries), boundaries)
      ensures Continues(old(seen), seen, osds, LowWater())
      ensures Booked(old(tool.ledger), tool.ledger, |old(seen)|, seen)
      ensures raised ==> |boundaries| <= |old(boundaries)| + 1
      ensures |old(boundaries)| <= |boundaries| && AllActed(n, boundaries, plan, if raised then k else k + 1)
      ensures !raised && !draw.cleaning ==> boundaries[|old(boundaries)|] == old(Now())
      ensures !raised && draw.cleaning ==> exists i :: |old(seen)| <= i < |seen| && |seen[i].dead| <= cfg.maxDead
    {
      ghost var low := LowWater();
      if draw.cleaning {
        ghost var at;
        raised, at := Clean(draw.test);
        Weaken(old(seen), seen, osds, Least(), low);
        if raised { return; }
      }
      ghost var before, ledger := seen, tool.ledger;
      raised := Act(draw.value, n, plan, k);
      ContinuesOn(old(seen), before, seen, osds, low, low);
      BookedOn(old(tool.ledger), ledger, tool.ledger, |old(seen)|, before, seen);
    }

    /** The acting half of a round, between its two boundaries. */
    method Act(value: real, ghost n: nat, ghost plan: seq<Draw>, ghost k: nat) returns (raised: bool)
      requires Exact() && ToolReady() && Workable() && Floors(Now(), cfg) && value >= 0.0
      requires k < |plan| && value == plan[k].value && |boundaries| == n + 2 * k && AllActed(n, boundaries, plan, k)
      modifies this, tool
      ensures tool.Valid() && tool.stores.Keys == osds && Left(raised)
      ensures !raised ==> ToolReady() && Floors(Now(), cfg)
      ensures |boundaries| == |old(boundaries)| + (if raised then 1 else 2) && boundaries[|old(boundaries)|] == old(Now())
      ensures AtFloors(old(boundaries), boundaries) && AllActed(n, boundaries, plan, if raised then k else k + 1)
      ensures Continues(old(seen), seen, osds, LowWater())
      ensures Booked(old(tool.ledger), tool.ledger, |old(seen)|, seen)
    {
      Mark(old(boundaries));
      raised := ChooseAndPerform(value);
      if raised {
        ActedStill(n, old(boundaries), boundaries, plan, k);
        return;
      }
      ActedAgain(n, old(boundaries), old(Now()), Now(), plan, k);
      Mark(old(boundaries));
      assert boundaries == old(boundaries) + [old(Now()), Now()];
    }

    method Choose(value: real) returns (a: Option<Action>)
      requires NonNegative(cfg) && value >= 0.0
      ensures a.None? <==> value >= Total(Actions(Now(), cfg))
      ensures a.Some? ==> Chosen(Now(), cfg, value, a.value) && Offered(Now(), cfg, a.value)
    {
      SameEntries(Now(), View(inOsds, outOsds, liveOsds, deadOsds, {}, {}), cfg, ENTRIES);
      a := ChooseAction(View(inOsds, outOsds, liveOsds, deadOsds, {}, {}), cfg, value);
    }

    /** `self.choose_action()()`, then the sleep between operations. */
    method ChooseAndPerform(value: real) returns (raised: bool)
      requires Exact() && ToolReady() && Workable() && Floors(Now(), cfg) && value >= 0.0
      modifies this`inOsds, this`outOsds, this`liveOsds, this`deadOsds, this`running, this`marked, this`seen, tool
      ensures tool.Valid() && tool.stores.Keys == osds && Left(raised)
      ensures !raised ==> ToolReady() && Floors(Now(), cfg)
      ensures !raised ==> Acted(old(Now()), Now(), value)
      ensures value >= Total(Actions(old(Now()), cfg)) ==> raised
      ensures Continues(old(seen), seen, osds, LowWater())
      ensures Booked(old(tool.ledger), tool.ledger, |old(seen)|, seen)
    {
      var a := Choose(value);
      SettledIsCoherent(Now(), osds);
      if a.None? { return true; }
      raised := Perform(a.value);
      if raised { return; }
      ghost var before := seen;
      Pause(old(seen), LowWater());
      BookedLater(old(tool.ledger), tool.ledger, |old(seen)|, before, seen);
    }
  }
}
