/** The monitor thrasher: rounds of killing, freezing and reviving monitors. */
module MonThrash {
  import opened PyLists
  import opened Quorums

  /** `math.ceil(m / 2.0) - 1`, at least 0, when quorum is to be kept. */
  function MaxKillable(m: nat, maintainQuorum: bool): nat {
    if maintainQuorum then (if (m + 1) / 2 >= 1 then (m + 1) / 2 - 1 else 0) else m
  }

  /** The bound is tight: as many monitors may go as leave a strict majority, and not one more. */
  lemma MaxKillableExactly<T>(all: set<T>, killed: set<T>)
    requires all != {} && killed <= all
    ensures Majority(all - killed, all) <==> |killed| <= MaxKillable(|all|, true)
  {
  }

  /** While monitors are frozen those that answer are a majority only under this condition. */
  lemma FrozenQuorumExactly<T>(all: set<T>, killed: set<T>, frozen: set<T>)
    requires killed <= all && frozen <= all && killed !! frozen
    ensures Majority(all - killed - frozen, all) <==> 2 * (|killed| + |frozen|) < |all|
  {
  }

  /** A wait for a quorum of `awaited` monitors, and who could be in it. */
  datatype Check = Check(awaited: int, answering: set<string>)

  datatype Record = Record(killed: set<string>, frozen: set<string>)

  /** One number from 0 to 100 for each monitor. */
  predicate Draws(mons: seq<string>, draws: seq<int>) {
    |draws| == |mons| && forall i :: 0 <= i < |draws| ==> 0 <= draws[i] <= 100
  }

  /** The monitors whose number falls below the probability, of those not to be killed. */
  ghost function Drawn(mons: seq<string>, killed: set<string>, probability: real, draws: seq<int>): set<string>
    requires |draws| == |mons|
  {
    set i | 0 <= i < |mons| && mons[i] !in killed && draws[i] as real < probability :: mons[i]
  }

  /** A round the generator can draw. */
  ghost predicate Legal(mons: seq<string>, maintainQuorum: bool, probability: real, r: Record) {
    && r.killed <= Elements(mons)
    && 1 <= |r.killed| <= MaxKillable(|mons|, maintainQuorum)
    && exists draws :: Draws(mons, draws) && r.frozen == Drawn(mons, r.killed, probability, draws)
  }

  /** Those that answer while `r` has its monitors killed and frozen. */
  function Core(mons: seq<string>, r: Record): set<string> {
    Elements(mons) - r.killed - r.frozen
  }

  /** At a positive probability any monitor that is not to be killed may be frozen. */
  lemma SomeoneFreezes(mons: seq<string>, killed: set<string>, probability: real, mon: string)
    requires mon in Elements(mons) - killed && probability > 0.0
    ensures exists draws :: Draws(mons, draws) && mon in Drawn(mons, killed, probability, draws)
  {
    var draws := seq(|mons|, i => 0);
    assert Draws(mons, draws);
    var i :| 0 <= i < |mons| && mons[i] == mon;
    assert draws[i] as real < probability;
  }

  /**
   `maintain_quorum` keeps what it promises, whatever a round draws, exactly when freezing
   is switched off.
   */
  lemma AlwaysQuorumExactly(mons: seq<string>, probability: real)
    requires NoDup(mons) && MaxKillable(|mons|, true) > 0
    ensures (forall r :: Legal(mons, true, probability, r) ==> Majority(Core(mons, r), Elements(mons)))
            <==> probability <= 0.0
  {
    NoDupSize(mons);
    if probability <= 0.0 {
      forall r | Legal(mons, true, probability, r) ensures Majority(Core(mons, r), Elements(mons)) {
        LegalIsDisjoint(mons, true, probability, r);
        FrozenQuorumExactly(Elements(mons), r.killed, r.frozen);
      }
    } else {
      var r := LosingRound(mons, probability);
    }
  }

  lemma LegalIsDisjoint(mons: seq<string>, maintainQuorum: bool, probability: real, r: Record)
    requires Legal(mons, maintainQuorum, probability, r)
    ensures r.frozen <= Elements(mons) - r.killed && (probability <= 0.0 ==> r.frozen == {})
  {
    var draws :| Draws(mons, draws) && r.frozen == Drawn(mons, r.killed, probability, draws);
  }

  /** As many killed as may be, and one frozen besides: no majority is left to answer. */
  lemma LosingRound(mons: seq<string>, probability: real) returns (r: Record)
    requires NoDup(mons) && MaxKillable(|mons|, true) > 0 && probability > 0.0
    ensures Legal(mons, true, probability, r) && !Majority(Core(mons, r), Elements(mons))
  {
    var most := MaxKillable(|mons|, true);
    var killed, mon := Elements(mons[..most]), mons[most];
    NoDupSize(mons);
    NoDupSize(mons[..most]);
    SomeoneFreezes(mons, killed, probability, mon);
    var draws :| Draws(mons, draws) && mon in Drawn(mons, killed, probability, draws);
    r := Record(killed, Drawn(mons, killed, probability, draws));
    SubsetSize({mon}, r.frozen);
    FrozenQuorumExactly(Elements(mons), r.killed, r.frozen);
  }

  /** Three monitors at the default probability of 10: one killed and one frozen leave no majority. */
  lemma DefaultLosesQuorum()
    ensures var mons, r := ["a", "b", "c"], Record({"a"}, {"b"});
            Legal(mons, true, 10.0, r) && !Majority(Core(mons, r), Elements(mons))
  {
    var mons, r := ["a", "b", "c"], Record({"a"}, {"b"});
    var draws := [0, 9, 10];
    assert Draws(mons, draws) && mons[1] in Drawn(mons, r.killed, 10.0, draws);
    assert Core(mons, r) == {"c"} && Elements(mons) == {"a", "b", "c"};
  }

  /** A majority answers throughout a round exactly when its killed and frozen are fewer than half. */
  lemma RoundQuorumExactly(mons: seq<string>, probability: real, r: Record, was: seq<set<string>>, now: seq<set<string>>)
    requires NoDup(mons) && Legal(mons, true, probability, r) && Keeps(was, now, Core(mons, r), Elements(mons))
    requires r.frozen != {} ==> Core(mons, r) in now[|was|..]
    ensures (forall q :: q in now[|was|..] ==> Majority(q, Elements(mons)))
            <==> 2 * (|r.killed| + |r.frozen|) < |mons|
  {
    NoDupSize(mons);
    LegalIsDisjoint(mons, true, probability, r);
    FrozenQuorumExactly(Elements(mons), r.killed, r.frozen);
    if Majority(Core(mons, r), Elements(mons)) {
      forall q | q in now[|was|..] ensures Majority(q, Elements(mons)) {
        SubsetSize(Core(mons, r), q);
      }
    }
  }

  ghost predicate AllMajorities(answering: seq<set<string>>, mons: seq<string>) {
    forall q :: q in answering ==> Majority(q, Elements(mons))
  }

  ghost predicate AllSmall(history: seq<Record>, mons: seq<string>) {
    forall r :: r in history ==> 2 * (|r.killed| + |r.frozen|) < |mons|
  }

  ghost predicate AllAwaited(checks: seq<Check>, mons: seq<string>, maintainQuorum: bool) {
    forall c :: c in checks ==>
      c.awaited == |c.answering| && (maintainQuorum ==> Majority(c.answering, Elements(mons)))
  }

  lemma QuorumOn(mons: seq<string>, probability: real, past: seq<Record>, r: Record,
                 was: seq<set<string>>, now: seq<set<string>>)
    requires NoDup(mons) && Legal(mons, true, probability, r) && Keeps(was, now, Core(mons, r), Elements(mons))
    requires r.frozen != {} ==> Core(mons, r) in now[|was|..]
    requires AllMajorities(was, mons) <==> AllSmall(past, mons)
    ensures AllMajorities(now, mons) <==> AllSmall(past + [r], mons)
  {
    RoundQuorumExactly(mons, probability, r, was, now);
    assert now == was + now[|was|..];
  }

  /** Half of that for a round cut short, which may not have got to its freezes. */
  lemma QuorumWhileSmall(mons: seq<string>, probability: real, past: seq<Record>, r: Record,
                         was: seq<set<string>>, now: seq<set<string>>)
    requires NoDup(mons) && Legal(mons, true, probability, r) && Keeps(was, now, Core(mons, r), Elements(mons))
    requires AllMajorities(was, mons) <==> AllSmall(past, mons)
    ensures AllSmall(past + [r], mons) ==> AllMajorities(now, mons)
  {
    if AllSmall(past + [r], mons) {
      NoDupSize(mons);
      LegalIsDisjoint(mons, true, probability, r);
      assert r in past + [r] && forall x :: x in past ==> x in past + [r];
      FrozenQuorumExactly(Elements(mons), r.killed, r.frozen);
      forall q | q in now ensures Majority(q, Elements(mons)) {
        if q !in was {
          SubsetSize(Core(mons, r), q);
        }
      }
    }
  }

  /** The waits of a round. */
  function Waits(mons: seq<string>, maintainQuorum: bool, r: Record): seq<Check> {
    [Check(|mons|, Elements(mons))]
    + (if maintainQuorum then [Check(|mons| - |r.killed|, Elements(mons) - r.killed)] else [])
    + [Check(|mons|, Elements(mons))]
  }

  lemma AwaitedOn(checks: seq<Check>, mons: seq<string>, maintainQuorum: bool, probability: real, r: Record)
    requires NoDup(mons) && mons != [] && Legal(mons, maintainQuorum, probability, r)
    requires AllAwaited(checks, mons, maintainQuorum)
    ensures AllAwaited(checks + Waits(mons, maintainQuorum, r), mons, maintainQuorum)
  {
    NoDupSize(mons);
    assert |Elements(mons) - r.killed| == |mons| - |r.killed|;
    if maintainQuorum {
      MaxKillableExactly(Elements(mons), r.killed);
    }
  }

  lemma AwaitedFirst(checks: seq<Check>, mons: seq<string>, maintainQuorum: bool)
    requires NoDup(mons) && mons != [] && AllAwaited(checks, mons, maintainQuorum)
    ensures AllAwaited(checks + [Check(|mons|, Elements(mons))], mons, maintainQuorum)
  {
    NoDupSize(mons);
  }

  lemma AwaitedPrefix(checks: seq<Check>, more: seq<Check>, mons: seq<string>, maintainQuorum: bool)
    requires checks <= more && AllAwaited(more, mons, maintainQuorum)
    ensures AllAwaited(checks, mons, maintainQuorum)
  {
    forall c | c in checks ensures c in more {
      var i :| 0 <= i < |checks| && checks[i] == c;
      assert more[i] == c;
    }
  }

  lemma StillAmong(q: set<string>, n: nat, mid: seq<set<string>>, now: seq<set<string>>)
    requires n <= |mid| && mid <= now
    ensures q in mid[n..] ==> q in now[n..]
  {
    if q in mid[n..] {
      var i :| 0 <= i < |mid[n..]| && mid[n..][i] == q;
      assert now[n..][i] == q;
    }
  }

  class MonitorThrasher {
    const mons: seq<string>
    const maintainQuorum: bool
    const freezeProbability: real

    ghost var running: set<string>
    ghost var frozen: set<string>
    ghost var answering: seq<set<string>>   // after every signal, kill and revival
    ghost var checks: seq<Check>
    ghost var history: seq<Record>

    ghost predicate Valid()
      reads this
    {
      NoDup(mons) && MaxKillable(|mons|, maintainQuorum) > 0
    }

    /** All monitors run and none is frozen. */
    ghost predicate Whole()
      reads this
    {
      running == Elements(mons) && frozen == {}
    }

    constructor (mons: seq<string>, maintainQuorum: bool, freezeProbability: real)
      requires NoDup(mons) && MaxKillable(|mons|, maintainQuorum) > 0
      ensures Valid() && Whole() && answering == [] && checks == [] && history == []
      ensures this.mons == mons && this.maintainQuorum == maintainQuorum && this.freezeProbability == freezeProbability
    {
      this.mons, this.maintainQuorum, this.freezeProbability := mons, maintainQuorum, freezeProbability;
      running, frozen, answering, checks, history := Elements(mons), {}, [], [], [];
    }

    ghost method Note()
      modifies this`answering
      ensures answering == old(answering) + [running - frozen]
    {
      answering := answering + [running - frozen];
    }

    /** Kills each in turn; a command that raises may or may not have had its effect. */
    method Kill(victims: seq<string>) returns (raised: bool)
      requires running == Elements(mons) && frozen == {}
      requires Elements(victims) <= Elements(mons)
      modifies this`running, this`answering
      ensures Elements(mons) - Elements(victims) <= running <= Elements(mons)
      ensures !raised ==> running == Elements(mons) - Elements(victims)
      ensures Keeps(old(answering), answering, Elements(mons) - Elements(victims), Elements(mons))
      ensures !raised && victims != [] ==> running in answering[|old(answering)|..]
    {
      for i := 0 to |victims|
        invariant running == old(running) - Elements(victims[..i])
        invariant Keeps(old(answering), answering, Elements(mons) - Elements(victims), Elements(mons))
        invariant i > 0 ==> |answering| > |old(answering)| && answering[|answering| - 1] == running
      {
        assert victims[..i + 1] == victims[..i] + [victims[i]];
        raised := *;
        if raised { return; }
        running := running - {victims[i]};
        Note();
        raised := *;
        if raised { return; }
      }
      assert victims[..|victims|] == victims;
      assert victims != [] ==> answering[|old(answering)|..][|answering| - 1 - |old(answering)|] == running;
      return false;
    }

    method Revive(victims: seq<string>) returns (raised: bool)
      requires running == Elements(mons) - Elements(victims) && frozen == {}
      requires Elements(victims) <= Elements(mons)
      modifies this`running, this`answering
      ensures Elements(mons) - Elements(victims) <= running <= Elements(mons)
      ensures !raised ==> running == Elements(mons)
      ensures Keeps(old(answering), answering, Elements(mons) - Elements(victims), Elements(mons))
    {
      for i := 0 to |victims|
        invariant running == old(running) + Elements(victims[..i])
        invariant Keeps(old(answering), answering, Elements(mons) - Elements(victims), Elements(mons))
      {
        assert victims[..i + 1] == victims[..i] + [victims[i]];
        raised := *;
        if raised { return; }
        running := running + {victims[i]};
        Note();
        raised := *;
        if raised { return; }
      }
      assert victims[..|victims|] == victims;
      return false;
    }

    /** STOP each of `some`, wait, CONT each of them. */
    method FreezeAndThaw(some: seq<string>, ghost killed: set<string>) returns (raised: bool)
      requires running == Elements(mons) - killed && frozen == {}
      modifies this`frozen, this`answering
      ensures frozen <= Elements(some) && (!raised ==> frozen == {})
      ensures Keeps(old(answering), answering, Elements(mons) - killed - Elements(some), Elements(mons))
      ensures !raised && some != [] ==> running - Elements(some) in answering[|old(answering)|..]
    {
      for i := 0 to |some|
        invariant frozen == Elements(some[..i])
        invariant Keeps(old(answering), answering, Elements(mons) - killed - Elements(some), Elements(mons))
        invariant i > 0 ==> |answering| > |old(answering)| && answering[|answering| - 1] == running - frozen
      {
        assert some[..i + 1] == some[..i] + [some[i]];
        raised := *;
        if raised { return; }
        frozen := frozen + {some[i]};
        Note();
        raised := *;
        if raised { return; }
      }
      assert some[..|some|] == some;
      ghost var held := answering;
      for i := 0 to |some|
        invariant frozen <= Elements(some) && frozen == Elements(some) - Elements(some[..i])
        invariant held <= answering && Keeps(old(answering), answering, Elements(mons) - killed - Elements(some), Elements(mons))
      {
        assert some[..i + 1] == some[..i] + [some[i]];
        raised := *;
        if raised { return; }
        frozen := frozen - {some[i]};
        Note();
        raised := *;
        if raised { return; }
      }
      assert some != [] ==> answering[|old(answering)|..][|held| - 1 - |old(answering)|] == held[|held| - 1];
      return false;
    }

    /** A draw from 0..100 against the probability, for each monitor that is not to be killed. */
    method ToFreeze(toKill: seq<string>, draws: seq<int>) returns (some: seq<string>)
      requires NoDup(mons) && Draws(mons, draws)
      ensures NoDup(some) && Elements(some) == Drawn(mons, Elements(toKill), freezeProbability, draws)
      ensures Elements(some) <= Elements(mons) - Elements(toKill)
      ensures freezeProbability <= 0.0 ==> some == []
      ensures freezeProbability > 100.0 ==> Elements(some) == Elements(mons) - Elements(toKill)
    {
      some := [];
      for i := 0 to |mons|
        invariant NoDup(some) && Elements(some) <= Elements(mons[..i])
        invariant forall j :: 0 <= j < i ==>
                    (mons[j] in some <==> mons[j] !in toKill && draws[j] as real < freezeProbability)
      {
        assert mons[..i + 1] == mons[..i] + [mons[i]];
        assert mons[i] !in Elements(mons[..i]);
        assert Elements(mons[..i + 1]) == Elements(mons[..i]) + {mons[i]};
        if mons[i] !in toKill {
          if draws[i] as real < freezeProbability {
            assert mons[i] !in Elements(some);
            assert Elements(some + [mons[i]]) == Elements(some) + {mons[i]};
            some := some + [mons[i]];
          }
        }
      }
      assert mons[..|mons|] == mons;
      assert forall x :: x in some ==> x in Elements(some);
      assert some != [] ==> some[0] in Elements(some);
    }

    /** A wait for a quorum and the look at each monitor's status; either may raise. */
    method Await(size: int) returns (raised: bool)
      modifies this`checks
      ensures checks == old(checks) + [Check(size, running - frozen)]
    {
      checks := checks + [Check(size, running - frozen)];
      raised := *;
    }

    /** One round of `do_thrash`. A round that raises leaves what it had killed and frozen by then. */
    method Round() returns (raised: bool)
      requires Valid() && Whole()
      modifies this
      ensures old(history) <= history && |old(history)| <= |history| <= |old(history)| + 1
      ensures |history| == |old(history)| ==>
                raised && Whole() && answering == old(answering) && checks == old(checks) + [Check(|mons|, Elements(mons))]
      ensures |history| > |old(history)| ==>
                var r := history[|old(history)|];
                && Legal(mons, maintainQuorum, freezeProbability, r)
                && Elements(mons) - r.killed <= running <= Elements(mons) && frozen <= r.frozen
                && Keeps(old(answering), answering, Core(mons, r), Elements(mons))
                && checks <= old(checks) + Waits(mons, maintainQuorum, r)
      ensures !raised ==>
                && Whole() && |history| == |old(history)| + 1
                && var r := history[|old(history)|];
                   && checks == old(checks) + [Check(|mons|, Elements(mons))]
                                + (if maintainQuorum then [Check(|mons| - |r.killed|, Elements(mons) - r.killed)] else [])
                                + [Check(|mons|, Elements(mons))]
                   && Elements(mons) - r.killed in answering[|old(answering)|..]
                   && (r.frozen != {} ==> Core(mons, r) in answering[|old(answering)|..]
                                          && Elements(mons) - r.frozen in answering[|old(answering)|..])
    {
      assert running - frozen == Elements(mons);
      raised := Await(|mons|);
      if raised { return; }
      var most := MaxKillable(|mons|, maintainQuorum);
      var k :| 1 <= k < most + 1;
      var toKill := Sample(mons, k);
      NoDupSize(toKill);
      assert Draws(mons, seq(|mons|, i => 0));
      var draws :| Draws(mons, draws);
      var some := ToFreeze(toKill, draws);
      ghost var r := Record(Elements(toKill), Elements(some));
      history := history + [r];
      ghost var waits := Waits(mons, maintainQuorum, r);
      raised := KillHalf(toKill, some);
      if raised { return; }
      ghost var mid := answering;
      assert toKill != [] && Elements(mons) - r.killed in mid[|old(answering)|..];
      assert checks + [Check(|mons|, Elements(mons))] == old(checks) + waits;
      raised := ReviveHalf(toKill, some);
      KeepsOn(old(answering), mid, answering, Core(mons, r), Elements(mons));
      StillAmong(Elements(mons) - r.killed, |old(answering)|, mid, answering);
    }

    method KillHalf(toKill: seq<string>, some: seq<string>) returns (raised: bool)
      requires Whole() && Elements(toKill) <= Elements(mons)
      modifies this`running, this`frozen, this`answering, this`checks
      ensures Elements(mons) - Elements(toKill) <= running <= Elements(mons) && frozen <= Elements(some)
      ensures !raised ==> running == Elements(mons) - Elements(toKill) && frozen == {}
      ensures Keeps(old(answering), answering, Elements(mons) - Elements(toKill) - Elements(some), Elements(mons))
      ensures var wait := if maintainQuorum then [Check(|mons| - |toKill|, Elements(mons) - Elements(toKill))] else [];
              checks <= old(checks) + wait && old(checks) <= checks && (!raised ==> checks == old(checks) + wait)
      ensures !raised && some != [] ==> Elements(mons) - Elements(toKill) - Elements(some) in answering[|old(answering)|..]
      ensures !raised && toKill != [] ==> Elements(mons) - Elements(toKill) in answering[|old(answering)|..]
    {
      raised := Kill(toKill);
      if raised { return; }
      ghost var mid := answering;
      assert toKill != [] ==> running in mid[|old(answering)|..];
      raised := FreezeAndThaw(some, Elements(toKill));
      KeepsOn(old(answering), mid, answering, Elements(mons) - Elements(toKill) - Elements(some), Elements(mons));
      if raised { return; }
      StillAmong(running, |old(answering)|, mid, answering);
      if maintainQuorum {
        assert running - frozen == running;
        raised := Await(|mons| - |toKill|);
      }
    }

    method ReviveHalf(toKill: seq<string>, some: seq<string>) returns (raised: bool)
      requires running == Elements(mons) - Elements(toKill) && frozen == {} && Elements(toKill) <= Elements(mons)
      modifies this`running, this`frozen, this`answering, this`checks
      ensures Elements(mons) - Elements(toKill) <= running <= Elements(mons) && frozen <= Elements(some)
      ensures !raised ==> Whole()
      ensures Keeps(old(answering), answering, Elements(mons) - Elements(toKill) - Elements(some), Elements(mons))
      ensures checks == old(checks) || checks == old(checks) + [Check(|mons|, Elements(mons))]
      ensures !raised ==> checks == old(checks) + [Check(|mons|, Elements(mons))]
      ensures !raised && some != [] ==> Elements(mons) - Elements(some) in answering[|old(answering)|..]
    {
      raised := Revive(toKill);
      if raised { return; }
      ghost var mid := answering;
      assert running == Elements(mons) - {};
      raised := FreezeAndThaw(some, {});
      KeepsOn(old(answering), mid, answering, Elements(mons) - Elements(toKill) - Elements(some), Elements(mons));
      if raised { return; }
      assert running - frozen == Elements(mons);
      raised := Await(|mons|);
    }

    /** `do_thrash`, stopped after `rounds` rounds or by what raises. */
    method DoThrash(rounds: nat) returns (raised: bool)
      requires Valid() && Whole() && history == [] && answering == [] && checks == []
      modifies this
      ensures !raised ==> Whole() && |history| == rounds
      ensures |history| <= rounds && forall r :: r in history ==> Legal(mons, maintainQuorum, freezeProbability, r)
      // every wait is for exactly the monitors then able to form a quorum
      ensures forall c :: c in checks ==> c.awaited == |c.answering|
      ensures maintainQuorum ==> forall c :: c in checks ==> Majority(c.answering, Elements(mons))
      // any two rounds leave survivors in common
      ensures maintainQuorum ==> forall r, r' :: r in history && r' in history ==>
                (Elements(mons) - r.killed) * (Elements(mons) - r'.killed) != {}
      // a majority answers at every moment if every round kills and freezes fewer than half, and only then
      ensures maintainQuorum && (forall r :: r in history ==> 2 * (|r.killed| + |r.frozen|) < |mons|) ==>
                forall q :: q in answering ==> Majority(q, Elements(mons))
      ensures maintainQuorum && !raised && (forall q :: q in answering ==> Majority(q, Elements(mons))) ==>
                forall r :: r in history ==> 2 * (|r.killed| + |r.frozen|) < |mons|
      // as it does without freezing
      ensures maintainQuorum && freezeProbability <= 0.0 ==>
                forall q :: q in answering ==> Majority(q, Elements(mons))
      // what is left running after a raise are all but one round's victims
      ensures raised ==> exists killed :: |killed| <= MaxKillable(|mons|, maintainQuorum)
                                          && Elements(mons) - killed <= running <= Elements(mons)
      ensures !raised ==> |checks| == (if maintainQuorum then 3 * rounds else 2 * rounds)
    {
      raised := Rounds(rounds);
      if maintainQuorum {
        SurvivorsMeet();
        if freezeProbability <= 0.0 {
          assert AllSmall(history, mons) by {
            SmallWithoutFreezing();
          }
        }
      }
    }

    method Rounds(rounds: nat) returns (raised: bool)
      requires Valid() && Whole() && history == [] && answering == [] && checks == []
      modifies this
      ensures !raised ==> Whole() && |history| == rounds
      ensures |history| <= rounds && forall r :: r in history ==> Legal(mons, maintainQuorum, freezeProbability, r)
      ensures AllAwaited(checks, mons, maintainQuorum)
      ensures maintainQuorum && AllSmall(history, mons) ==> AllMajorities(answering, mons)
      ensures maintainQuorum && !raised && AllMajorities(answering, mons) ==> AllSmall(history, mons)
      ensures raised ==> exists killed :: |killed| <= MaxKillable(|mons|, maintainQuorum)
                                          && Elements(mons) - killed <= running <= Elements(mons)
      ensures !raised ==> |checks| == (if maintainQuorum then 3 * rounds else 2 * rounds)
    {
      for k := 0 to rounds
        invariant Whole() && |history| == k
        invariant forall r :: r in history ==> Legal(mons, maintainQuorum, freezeProbability, r)
        invariant AllAwaited(checks, mons, maintainQuorum)
        invariant |checks| == (if maintainQuorum then 3 * k else 2 * k)
        invariant maintainQuorum ==> (AllMajorities(answering, mons) <==> AllSmall(history, mons))
      {
        ghost var before, past, waits := answering, history, checks;
        raised := Round();
        if |history| == k {
          AwaitedFirst(waits, mons, maintainQuorum);
          assert Elements(mons) - {} <= running <= Elements(mons);
        } else {
          ghost var r := history[k];
          assert history == past + [r];
          AwaitedOn(waits, mons, maintainQuorum, freezeProbability, r);
          AwaitedPrefix(checks, waits + Waits(mons, maintainQuorum, r), mons, maintainQuorum);
          if maintainQuorum {
            QuorumWhileSmall(mons, freezeProbability, past, r, before, answering);
          }
        }
        if raised { return; }
        if maintainQuorum {
          QuorumOn(mons, freezeProbability, past, history[k], before, answering);
        }
      }
      return false;
    }

    lemma SmallWithoutFreezing()
      requires Valid() && maintainQuorum && freezeProbability <= 0.0
      requires forall r :: r in history ==> Legal(mons, maintainQuorum, freezeProbability, r)
      ensures AllSmall(history, mons)
    {
      forall r | r in history ensures 2 * (|r.killed| + |r.frozen|) < |mons| {
        LegalIsDisjoint(mons, maintainQuorum, freezeProbability, r);
      }
    }

    lemma SurvivorsMeet()
      requires Valid() && maintainQuorum
      requires forall r :: r in history ==> Legal(mons, maintainQuorum, freezeProbability, r)
      ensures forall r, r' :: r in history && r' in history ==>
                (Elements(mons) - r.killed) * (Elements(mons) - r'.killed) != {}
    {
      NoDupSize(mons);
      forall r, r' | r in history && r' in history
        ensures (Elements(mons) - r.killed) * (Elements(mons) - r'.killed) != {}
      {
        MaxKillableExactly(Elements(mons), r.killed);
        MaxKillableExactly(Elements(mons), r'.killed);
        MajoritiesMeet(Elements(mons) - r.killed, Elements(mons) - r'.killed, Elements(mons));
      }
    }
  }

  /** Since the trace `was`, the monitors in `core` have always been answering. */
  ghost predicate Keeps(was: seq<set<string>>, now: seq<set<string>>, core: set<string>, all: set<string>) {
    was <= now && forall i :: |was| <= i < |now| ==> core <= now[i] <= all
  }

  lemma KeepsOn(was: seq<set<string>>, mid: seq<set<string>>, now: seq<set<string>>, core: set<string>, all: set<string>)
    requires exists wide :: core <= wide && Keeps(was, mid, wide, all)
    requires exists wide :: core <= wide && Keeps(mid, now, wide, all)
    ensures Keeps(was, now, core, all)
  {
  }

  lemma {:induction false} NoDupSize<T>(s: seq<T>)
    requires NoDup(s)
    ensures |Elements(s)| == |s|
  {
    NoDupCounts(s);
    assert |multiset(Elements(s))| == |Elements(s)|;
  }
}
