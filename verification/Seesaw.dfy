/** Replacing a monitor by a new one, and replacing it back. */
module Seesaw {
  import opened PyLists
  import opened Quorums

  const FIRST_PORT := 6789

  ghost predicate Sorted(s: seq<int>) {
    forall i, j :: 0 <= i < j < |s| ==> s[i] <= s[j]
  }

  function Insert(x: int, s: seq<int>): (r: seq<int>)
    requires Sorted(s)
    ensures Sorted(r) && multiset(r) == multiset(s) + multiset{x}
    ensures r != [] && (r[0] == x || (s != [] && r[0] == s[0]))
  {
    if s == [] || x <= s[0] then [x] + s else
      assert s == [s[0]] + s[1..];
      var t := Insert(x, s[1..]);
      assert s[0] <= t[0];
      [s[0]] + t
  }

  /** `used.sort()`. */
  function Sort(s: seq<int>): (r: seq<int>)
    ensures Sorted(r) && multiset(r) == multiset(s)
  {
    if s == [] then [] else
      assert s == [s[0]] + s[1..];
      Insert(s[0], Sort(s[1..]))
  }

  /**
   What throws the search off: a port below the first one while that one is taken, or a
   port listed twice when it and its successor lie in the run of taken ports.
   */
  ghost predicate Misleading(used: seq<int>) {
    || (FIRST_PORT in used && exists p :: p in used && p < FIRST_PORT)
    || (exists p :: p >= FIRST_PORT && multiset(used)[p] >= 2 && forall q :: FIRST_PORT <= q <= p + 1 ==> q in used)
  }

  /** `_get_next_port`: the least free port, exactly when the list is not misleading. */
  method NextPort(used: seq<int>) returns (port: int)
    ensures port >= FIRST_PORT && forall q :: FIRST_PORT <= q < port ==> q in used
    ensures port !in used <==> !Misleading(used)
  {
    port := FIRST_PORT;
    var s := Sort(used);
    SameMembers(s, used);
    var i := 0;
    while i < |s|
      invariant 0 <= i <= |s| && port == FIRST_PORT + i
      invariant forall j :: 0 <= j < i ==> s[j] == FIRST_PORT + j
    {
      if s[i] != port { break; }
      port := port + 1;
      i := i + 1;
    }
    forall q | FIRST_PORT <= q < port ensures q in used {
      assert s[q - FIRST_PORT] == q;
    }
    if port in used {
      Misled(used, s, i);
    }
    if Misleading(used) {
      MisledToUsed(used, s, i);
    }
  }

  /** Two lists that throw it off: a low port beside the first one, and a port listed twice. */
  lemma MisleadingPorts()
    ensures Misleading([6788, 6789]) && Misleading([6789, 6789, 6790])
  {
    var low, twice := [6788, 6789], [6789, 6789, 6790];
    assert low[0] in low && low[1] == FIRST_PORT;
    assert multiset(twice)[FIRST_PORT] == 2;
    assert forall q :: FIRST_PORT <= q <= FIRST_PORT + 1 ==> q in twice by {
      assert twice[1] == FIRST_PORT && twice[2] == FIRST_PORT + 1;
    }
  }

  lemma SameMembers(s: seq<int>, t: seq<int>)
    requires multiset(s) == multiset(t)
    ensures forall x :: x in s <==> x in t
  {
    forall x ensures x in s <==> x in t {
      assert x in s <==> x in multiset(s);
      assert x in t <==> x in multiset(t);
    }
  }

  lemma Misled(used: seq<int>, s: seq<int>, k: nat)
    requires Sorted(s) && multiset(s) == multiset(used)
    requires k <= |s| && (forall j :: 0 <= j < k ==> s[j] == FIRST_PORT + j) && (k < |s| ==> s[k] != FIRST_PORT + k)
    requires FIRST_PORT + k in used
    ensures Misleading(used)
  {
    SameMembers(s, used);
    var m :| 0 <= m < |s| && s[m] == FIRST_PORT + k;
    assert m > k;
    assert s[k] < FIRST_PORT + k;
    assert s[k] in used;
    if k > 0 {
      var p := FIRST_PORT + k - 1;
      assert s[k - 1] <= s[k];
      TwiceCounted(s, k - 1, k);
      forall q | FIRST_PORT <= q <= p + 1 ensures q in used {
        if q <= p { assert s[q - FIRST_PORT] == q; }
      }
    }
  }

  lemma MisledToUsed(used: seq<int>, s: seq<int>, k: nat)
    requires Sorted(s) && multiset(s) == multiset(used)
    requires k <= |s| && forall j :: 0 <= j < k ==> s[j] == FIRST_PORT + j
    requires Misleading(used)
    ensures FIRST_PORT + k in used
  {
    SameMembers(s, used);
    if FIRST_PORT in used && exists p :: p in used && p < FIRST_PORT {
      var p :| p in used && p < FIRST_PORT;
      var m :| 0 <= m < |s| && s[m] == p;
      assert s[0] <= s[m];
    } else {
      var p :| p >= FIRST_PORT && multiset(used)[p] >= 2 && forall q :: FIRST_PORT <= q <= p + 1 ==> q in used;
      var a, b := TwoPlaces(s, p);
      assert b >= k;
      assert k > 0 ==> s[k - 1] <= s[b];
    }
  }

  lemma {:induction false} TwoPlaces(s: seq<int>, x: int) returns (a: nat, b: nat)
    requires multiset(s)[x] >= 2
    ensures a < b < |s| && s[a] == s[b] == x
  {
    var t := s[..|s| - 1];
    assert s == t + [s[|s| - 1]];
    if s[|s| - 1] == x {
      assert x in multiset(t);
      a :| 0 <= a < |t| && t[a] == x;
      b := |t|;
    } else {
      a, b := TwoPlaces(t, x);
    }
  }

  datatype Address = Address(ip: string, port: int)

  /** How the task ended: well, with its body's exception, or at the stage that raised. */
  datatype Exit =
    | Normal | BodyRaised
    | NotPrepared   // the replacer's set-up
    | NotJoined     // the wait for it
    | NotReplaced   // the victim's removal, or the waits after it
    | NotRevived    // setting up and starting the victim again
    | NotRejoined   // the wait for it
    | NotReverted   // the replacer's removal, or the wait after it
    | NotTornDown   // stopping the replacer, or its clean-up

  /** Configurations at most one member apart. */
  ghost predicate Neighbours(a: set<string>, b: set<string>) {
    a == b || exists x :: b == a + {x} || a == b + {x}
  }

  lemma QuorumsCarryOver(a: set<string>, b: set<string>, p: set<string>, q: set<string>)
    requires Neighbours(a, b) && Majority(p, a) && Majority(q, b)
    ensures p * q != {}
  {
    if a == b {
      MajoritiesMeet(p, q, a);
      return;
    }
    var x :| b == a + {x} || a == b + {x};
    if b == a + {x} {
      NeighbouringMajoritiesMeet(p, q, a, b, x);
    } else {
      NeighbouringMajoritiesMeet(q, p, b, a, x);
      assert p * q == q * p;
    }
  }

  /** Any two quorums of successive monitor maps share a member. */
  ghost predicate QuorumsMeet(maps: seq<set<string>>) {
    forall i, p, q :: 0 < i < |maps| && Majority(p, maps[i - 1]) && Majority(q, maps[i]) ==> p * q != {}
  }

  class MonSeesaw {
    var conf: map<string, Address>
    ghost var monmap: set<string>
    ghost var maps: seq<set<string>>      // the monitor map after every change
    ghost var waits: seq<(int, int)>      // size awaited, size of the map

    ghost predicate Stepwise()
      reads this
    {
      maps != [] && maps[|maps| - 1] == monmap && forall i :: 0 < i < |maps| ==> Neighbours(maps[i - 1], maps[i])
    }

    constructor (conf: map<string, Address>, monmap: set<string>)
      ensures Stepwise() && this.conf == conf && this.monmap == monmap && maps == [monmap] && waits == []
    {
      this.conf, this.monmap, maps, waits := conf, monmap, [monmap], [];
    }

    ghost method Join(mon: string)
      requires Stepwise()
      modifies this`monmap, this`maps
      ensures Stepwise() && monmap == old(monmap) + {mon} && maps == old(maps) + [monmap]
    {
      monmap := monmap + {mon};
      maps := maps + [monmap];
    }

    ghost method Leave(mon: string)
      requires Stepwise()
      modifies this`monmap, this`maps
      ensures Stepwise() && monmap == old(monmap) - {mon} && maps == old(maps) + [monmap]
    {
      monmap := monmap - {mon};
      maps := maps + [monmap];
      assert mon in old(monmap) ==> old(monmap) == monmap + {mon};
    }

    ghost method Await(size: int)
      modifies this`waits
      ensures waits == old(waits) + [(size, |monmap|)]
    {
      waits := waits + [(size, |monmap|)];
    }

    /** A monitor has been started; a wait that times out may or may not have seen it join. */
    method JoinAndAwait(mon: string, size: int) returns (ok: bool)
      requires Stepwise()
      modifies this`monmap, this`maps, this`waits
      ensures Stepwise() && old(maps) <= maps && (monmap == old(monmap) || monmap == old(monmap) + {mon})
      ensures ok ==> monmap == old(monmap) + {mon} && maps == old(maps) + [monmap] && waits == old(waits) + [(size, |monmap|)]
    {
      ok := *;
      var joins: bool := *;
      if ok || joins {
        Join(mon);
      }
      Await(size);
    }

    /** `mon remove`, and the wait for the quorum without it; a command that raises may or may not have removed it. */
    method RemoveAndAwait(mon: string, size: int) returns (ok: bool)
      requires Stepwise()
      modifies this`monmap, this`maps, this`waits
      ensures Stepwise() && old(maps) <= maps && (monmap == old(monmap) || monmap == old(monmap) - {mon})
      ensures ok ==> monmap == old(monmap) - {mon} && maps == old(maps) + [monmap] && waits == old(waits) + [(size, |monmap|)]
    {
      ok := *;
      var removed: bool := *;
      if ok || removed {
        Leave(mon);
      }
      if ok {
        Await(size);
        ok := *;
      }
    }

    /** Every step changes the map by one member at most, so that no two majorities miss each other. */
    lemma StepwiseIsSafe()
      requires Stepwise()
      ensures QuorumsMeet(maps)
    {
      forall i, p, q | 0 < i < |maps| && Majority(p, maps[i - 1]) && Majority(q, maps[i]) ensures p * q != {} {
        QuorumsCarryOver(maps[i - 1], maps[i], p, q);
      }
    }

    /** The ports of the named monitors on one machine, in the order of their names. */
    function PortsOn(names: seq<string>, ip: string): seq<int>
      reads this`conf
      requires forall n :: n in names ==> n in conf
    {
      if names == [] then []
      else
        var last := conf[names[|names| - 1]];
        PortsOn(names[..|names| - 1], ip) + (if last.ip == ip then [last.port] else [])
    }

    /** The named monitors at one address, by position. */
    ghost function UsersOf(names: seq<string>, a: Address): set<int>
      reads this`conf
      requires forall n :: n in names ==> n in conf
    {
      set i | 0 <= i < |names| && conf[names[i]] == a
    }

    lemma UsersGrow(names: seq<string>, a: Address)
      requires names != [] && forall n :: n in names ==> n in conf
      ensures |UsersOf(names, a)| == |UsersOf(names[..|names| - 1], a)| + (if conf[names[|names| - 1]] == a then 1 else 0)
    {
      var front, last := names[..|names| - 1], |names| - 1;
      assert UsersOf(names, a) == if conf[names[last]] == a then UsersOf(front, a) + {last} else UsersOf(front, a);
    }

    /** Which ports these are: each as often as a named monitor has it on that machine. */
    lemma {:induction false} PortsExactly(names: seq<string>, ip: string, port: int)
      requires forall n :: n in names ==> n in conf
      ensures multiset(PortsOn(names, ip))[port] == |UsersOf(names, Address(ip, port))|
    {
      if names != [] {
        var front := names[..|names| - 1];
        PortsExactly(front, ip, port);
        UsersGrow(names, Address(ip, port));
        var last := conf[names[|names| - 1]];
        assert multiset(PortsOn(names, ip)) == multiset(PortsOn(front, ip)) + multiset(if last.ip == ip then [last.port] else []);
      }
    }

    /** `_setup_mon` with a configuration to update; what raises does so before or after the update. */
    method SetUp(name: string, ip: string, names: seq<string>) returns (raised: bool)
      requires forall n :: n in names ==> n in conf
      modifies this`conf
      ensures (raised && conf == old(conf))
              || exists port :: conf == old(conf)[name := Address(ip, port)] && port >= FIRST_PORT
                             && (forall q :: FIRST_PORT <= q < port ==> q in old(PortsOn(names, ip)))
                             && (port !in old(PortsOn(names, ip)) <==> !Misleading(old(PortsOn(names, ip))))
    {
      raised := *;
      if raised { return; }
      var port := NextPort(PortsOn(names, ip));
      conf := conf[name := Address(ip, port)];
      raised := *;
    }

    /** Bringing the replacer in and sending the victim away. */
    method Replace(victim: string, replacer: string, quorum: nat) returns (exit: Exit)
      requires Stepwise()
      modifies this`monmap, this`maps, this`waits
      ensures Stepwise() && (exit == Normal || exit == NotJoined || exit == NotReplaced) && old(maps) <= maps
      ensures exit == NotJoined ==> monmap == old(monmap) || monmap == old(monmap) + {replacer}
      ensures exit == NotReplaced ==> monmap == old(monmap) + {replacer} || monmap == old(monmap) + {replacer} - {victim}
      ensures exit == Normal ==> monmap == old(monmap) + {replacer} - {victim}
      ensures exit == Normal ==> waits == old(waits) + [(quorum + 1, |old(monmap) + {replacer}|), (quorum, |monmap|)]
      ensures exit == Normal ==> maps == old(maps) + [old(monmap) + {replacer}, monmap]
    {
      var ok := JoinAndAwait(replacer, quorum + 1);
      if !ok { return NotJoined; }
      ok := RemoveAndAwait(victim, quorum);
      if !ok { return NotReplaced; }
      ok := *;                          // the victim does not stop in time
      return if ok then Normal else NotReplaced;
    }

    /** The `finally` block: bringing the victim back and sending the replacer away. */
    method Revert(victim: string, replacer: string, quorum: nat) returns (exit: Exit)
      requires Stepwise()
      modifies this`monmap, this`maps, this`waits
      ensures Stepwise() && old(maps) <= maps
      ensures exit == Normal || exit == NotRevived || exit == NotRejoined || exit == NotReverted
      ensures exit == NotRevived ==> monmap == old(monmap)
      ensures exit == NotRejoined ==> monmap == old(monmap) || monmap == old(monmap) + {victim}
      ensures exit == NotReverted ==> monmap == old(monmap) + {victim} || monmap == old(monmap) + {victim} - {replacer}
      ensures exit == Normal ==> monmap == old(monmap) + {victim} - {replacer}
      ensures exit == Normal ==> waits == old(waits) + [(quorum + 1, |old(monmap) + {victim}|), (quorum, |monmap|)]
      ensures exit == Normal ==> maps == old(maps) + [old(monmap) + {victim}, monmap]
    {
      var ok: bool := *;
      if !ok { return NotRevived; }
      ok := JoinAndAwait(victim, quorum + 1);
      if !ok { return NotRejoined; }
      ok := RemoveAndAwait(replacer, quorum);
      return if ok then Normal else NotReverted;
    }

    /** The membership changes of `task`, around a body that may raise. */
    method SwapAndBack(victim: string, replacer: string, quorum: nat, bodyRaises: bool) returns (exit: Exit)
      requires Stepwise() && victim in monmap
      modifies this`monmap, this`maps, this`waits
      ensures Stepwise() && old(maps) <= maps && exit != NotPrepared && exit != NotTornDown
      ensures Finished(exit) ==> (exit == BodyRaised <==> bodyRaises)
      ensures Finished(exit) ==> (monmap == old(monmap) <==> replacer !in old(monmap))
      ensures Finished(exit) ==> |maps| == |old(maps)| + 4 && maps[|old(maps)| + 1] == old(monmap) + {replacer} - {victim}
      ensures Finished(exit) ==> |waits| == |old(waits)| + 4
      ensures Finished(exit) && quorum == |old(monmap)| && replacer !in old(monmap) ==>
                forall i :: |old(waits)| <= i < |waits| ==> waits[i].0 == waits[i].1
      ensures !Finished(exit) ==> monmap - {victim, replacer} == old(monmap) - {victim, replacer}
    {
      exit := Replace(victim, replacer, quorum);
      if exit != Normal { return; }
      ThereAndBack(old(monmap), victim, replacer);
      exit := Revert(victim, replacer, quorum);
      if exit == Normal && bodyRaises { return BodyRaised; }
    }

    /**
     `task`. The monitor map is put back whether or not the body raises; the configuration
     only if it does not, since `_prepare_mon` tears down after a plain yield.
     */
    method Task(victim: string, replacer: string, ip: string, names: seq<string>, quorum: nat, bodyRaises: bool)
      returns (exit: Exit)
      requires Stepwise() && victim in monmap && forall n :: n in names ==> n in conf
      modifies this
      ensures Stepwise() && old(maps) <= maps && QuorumsMeet(maps)
      ensures Finished(exit) ==> (exit == BodyRaised <==> bodyRaises)
      ensures Finished(exit) ==> (monmap == old(monmap) <==> replacer !in old(monmap))
      ensures Finished(exit) ==> |maps| == |old(maps)| + 4 && maps[|old(maps)| + 1] == old(monmap) + {replacer} - {victim}
      ensures Finished(exit) ==> |waits| == |old(waits)| + 4
      ensures Finished(exit) && quorum == |old(monmap)| && replacer !in old(monmap) ==>
                forall i :: |old(waits)| <= i < |waits| ==> waits[i].0 == waits[i].1
      ensures !Finished(exit) ==> monmap - {victim, replacer} == old(monmap) - {victim, replacer}
      ensures exit == Normal ==> (conf == old(conf) <==> MonName(replacer) !in old(conf))
      ensures conf - {MonName(replacer)} == old(conf) - {MonName(replacer)}
      ensures exit != NotPrepared && exit != NotTornDown ==> (MonName(replacer) in conf <==> exit != Normal)
    {
      var raised := SetUp(MonName(replacer), ip, names);
      exit := NotPrepared;
      if !raised {
        exit := SwapAndBack(victim, replacer, quorum, bodyRaises);
        if exit == Normal {
          exit := TearDown(MonName(replacer));
        }
      }
      StepwiseIsSafe();
    }

    /** The way out of the `with` statements after a body that did not raise. */
    method TearDown(name: string) returns (exit: Exit)
      modifies this`conf
      ensures exit == Normal || exit == NotTornDown
      ensures exit == Normal ==> conf == old(conf) - {name}
      ensures conf == old(conf) || conf == old(conf) - {name}
    {
      var ok: bool := *;
      if !ok { return NotTornDown; }
      conf := conf - {name};
      ok := *;
      return if ok then Normal else NotTornDown;
    }
  }

  predicate Finished(exit: Exit) {
    exit == Normal || exit == BodyRaised || exit == NotTornDown
  }

  lemma ThereAndBack(m: set<string>, victim: string, replacer: string)
    requires victim in m
    ensures m + {replacer} - {victim} + {victim} - {replacer} == m <==> replacer !in m
    ensures replacer !in m ==> |m + {replacer}| == |m| + 1 && |m + {replacer} - {victim}| == |m|
                               && |m + {replacer} - {victim} + {victim}| == |m| + 1
  {
  }

  function MonName(mon: string): string {
    "mon." + mon
  }
}
