/** The verdict of the monitor clock-skew check, over any trace of health reports. */
module ClockSkew {
  import opened PyLists

  datatype Status = Finished | OnGoing | Other

  datatype Check = Check(name: string, skew: real, warned: bool, details: string)

  /** The `timechecks` part of a health report; `mons` may be absent. */
  datatype Report = Report(status: Status, round: int, mons: Option<seq<Check>>)

  /**
   One test of the loop condition, whether the wait for a full quorum and the health command
   then succeeded, and the report read if they did.
   */
  datatype Turn = Turn(stopping: bool, now: real, quorate: bool, report: Report)

  datatype Config = Config(maxSkew: real, expectSkew: bool, neverFail: bool, atLeastOnce: bool, onceTimeout: real)

  type Skews = map<string, (real, string)>

  function Abs(x: real): real {
    if x < 0.0 then -x else x
  }

  /** An on-going round with too few reports is passed over. */
  predicate Skipped(r: Report) {
    r.status.OnGoing? && (r.mons.None? || |r.mons.value| <= 1)
  }

  predicate Over(c: Config, k: Check): (r: bool)
    ensures r <==> k.skew > c.maxSkew || -k.skew > c.maxSkew
  {
    Abs(k.skew) > c.maxSkew
  }

  /** A report one of the assertions rejects. */
  ghost predicate Bad(c: Config, r: Report) {
    || r.status.Other?
    || (r.status.Finished? && (r.round % 2 != 0 || r.mons.None? || |r.mons.value| <= 1))
    || (!Skipped(r) && r.mons.Some? && exists k :: k in r.mons.value && Over(c, k) && !k.warned)
  }

  /** What the checks of one report add to the table. */
  function Added(c: Config, ks: seq<Check>, skews: Skews): Skews {
    if ks == [] then skews
    else
      var k := ks[|ks| - 1];
      var before := Added(c, ks[..|ks| - 1], skews);
      if Over(c, k) then before[k.name := (k.skew, k.details)] else before
  }

  /** The table after the first `n` turns. */
  function Table(c: Config, turns: seq<Turn>, n: nat): Skews
    requires n <= |turns|
  {
    if n == 0 then map[]
    else
      var r := turns[n - 1].report;
      if Skipped(r) || r.mons.None? then Table(c, turns, n - 1) else Added(c, r.mons.value, Table(c, turns, n - 1))
  }

  /** Turn `i` is one that lets the check stop. */
  ghost predicate Qualifies(c: Config, turns: seq<Turn>, i: nat)
    requires i < |turns|
  {
    !Skipped(turns[i].report) && (turns[i].report.status.Finished? || (c.expectSkew && Table(c, turns, i + 1) != map[]))
  }

  ghost predicate Ran(c: Config, turns: seq<Turn>, n: nat)
    requires n <= |turns|
  {
    exists i :: 0 <= i < n && Qualifies(c, turns, i)
  }

  /** The loop condition at turn `n` is false. */
  ghost predicate Leaves(c: Config, turns: seq<Turn>, n: nat)
    requires n < |turns|
  {
    turns[n].stopping && (c.atLeastOnce ==> Ran(c, turns, n))
  }

  /** When the check was first seen to be stopping, among the first `n` turns. */
  function FirstStop(turns: seq<Turn>, n: nat): Option<real>
    requires n <= |turns|
  {
    if n == 0 then None
    else if FirstStop(turns, n - 1).Some? then FirstStop(turns, n - 1)
    else if turns[n - 1].stopping then Some(turns[n - 1].now) else None
  }

  /** Told to stop a whole timeout ago, and still without a round. */
  ghost predicate TimedOut(c: Config, turns: seq<Turn>, n: nat)
    requires n < |turns|
  {
    && c.atLeastOnce && turns[n].stopping && !Ran(c, turns, n) && c.onceTimeout > 0.0
    && FirstStop(turns, n).Some? && turns[n].now - FirstStop(turns, n).value >= c.onceTimeout
  }

  /** The loop goes past turn `n`. */
  ghost predicate GoesOn(c: Config, turns: seq<Turn>, n: nat)
    requires n < |turns|
  {
    !Leaves(c, turns, n) && !TimedOut(c, turns, n) && turns[n].quorate && !Bad(c, turns[n].report)
  }

  /** It is the time of the first turn that found the check stopping. */
  lemma {:induction false} FirstStopExactly(turns: seq<Turn>, n: nat)
    requires n <= |turns|
    ensures FirstStop(turns, n).None? <==> forall i :: 0 <= i < n ==> !turns[i].stopping
    ensures FirstStop(turns, n).Some? ==>
              exists i :: 0 <= i < n && turns[i].stopping && turns[i].now == FirstStop(turns, n).value
                          && forall j :: 0 <= j < i ==> !turns[j].stopping
  {
    if n > 0 {
      FirstStopExactly(turns, n - 1);
    }
  }

  /** The last check of `name` over the maximum in one report is the one with these values. */
  ghost predicate LastOver(c: Config, ks: seq<Check>, name: string, value: (real, string)) {
    exists j :: 0 <= j < |ks| && ks[j].name == name && Over(c, ks[j]) && value == (ks[j].skew, ks[j].details)
                && forall i :: j < i < |ks| && ks[i].name == name ==> !Over(c, ks[i])
  }

  lemma {:induction false} AddedLatest(c: Config, ks: seq<Check>, skews: Skews, name: string)
    requires name in Added(c, ks, skews)
    ensures LastOver(c, ks, name, Added(c, ks, skews)[name])
            || (name in skews && Added(c, ks, skews)[name] == skews[name]
                && forall i :: 0 <= i < |ks| && ks[i].name == name ==> !Over(c, ks[i]))
  {
    if ks != [] {
      var front, k := ks[..|ks| - 1], ks[|ks| - 1];
      var value := Added(c, ks, skews)[name];
      if Over(c, k) && k.name == name {
        assert ks[|ks| - 1] == k;
      } else {
        AddedLatest(c, front, skews, name);
        if LastOver(c, front, name, value) {
          var j :| 0 <= j < |front| && front[j].name == name && Over(c, front[j]) && value == (front[j].skew, front[j].details)
                   && forall i :: j < i < |front| && front[i].name == name ==> !Over(c, front[i]);
          assert ks[j] == front[j];
          assert forall i :: j < i < |front| ==> ks[i] == front[i];
        } else {
          assert forall i :: 0 <= i < |front| ==> ks[i] == front[i];
        }
      }
    }
  }

  lemma {:induction false} AddedExactly(c: Config, ks: seq<Check>, skews: Skews, name: string)
    ensures name in Added(c, ks, skews) <==> name in skews || exists k :: k in ks && k.name == name && Over(c, k)
  {
    if ks != [] {
      AddedExactly(c, ks[..|ks| - 1], skews, name);
      assert ks == ks[..|ks| - 1] + [ks[|ks| - 1]];
    }
  }

  /** Turn `i` reports `name` as off by more than the maximum. */
  ghost predicate Exceeds(c: Config, t: Turn, name: string) {
    !Skipped(t.report) && t.report.mons.Some? && exists k :: k in t.report.mons.value && k.name == name && Over(c, k)
  }

  /** The table names exactly the monitors that exceeded the maximum in some report that was used. */
  lemma {:induction false} TableExactly(c: Config, turns: seq<Turn>, n: nat, name: string)
    requires n <= |turns|
    ensures name in Table(c, turns, n) <==> exists i :: 0 <= i < n && Exceeds(c, turns[i], name)
  {
    if n > 0 {
      TableExactly(c, turns, n - 1, name);
      var r := turns[n - 1].report;
      if !Skipped(r) && r.mons.Some? {
        AddedExactly(c, r.mons.value, Table(c, turns, n - 1), name);
      }
      assert Exceeds(c, turns[n - 1], name) ==> name in Table(c, turns, n);
    }
  }

  /** And gives for each the values of its last such check. */
  lemma {:induction false} TableLatest(c: Config, turns: seq<Turn>, n: nat, name: string) returns (i: nat)
    requires n <= |turns| && name in Table(c, turns, n)
    ensures i < n && Exceeds(c, turns[i], name)
    ensures LastOver(c, turns[i].report.mons.value, name, Table(c, turns, n)[name])
    ensures forall m :: i < m < n ==> !Exceeds(c, turns[m], name)
  {
    var r := turns[n - 1].report;
    if Skipped(r) || r.mons.None? {
      i := TableLatest(c, turns, n - 1, name);
    } else {
      AddedLatest(c, r.mons.value, Table(c, turns, n - 1), name);
      if LastOver(c, r.mons.value, name, Table(c, turns, n)[name]) {
        i := n - 1;
      } else {
        i := TableLatest(c, turns, n - 1, name);
      }
    }
  }

  /** Passed or failed at turn n, an assertion raised at turn n, or the trace ended first. */
  datatype Outcome = Passed(n: nat) | Failed(n: nat) | Raised(n: nat) | Running

  method AddChecks(c: Config, ks: seq<Check>, skews: Skews) returns (table: Skews, ok: bool)
    ensures ok <==> !exists k :: k in ks && Over(c, k) && !k.warned
    ensures ok ==> table == Added(c, ks, skews)
  {
    table := skews;
    for i := 0 to |ks|
      invariant table == Added(c, ks[..i], skews)
      invariant forall k :: k in ks[..i] && Over(c, k) ==> k.warned
    {
      assert ks[..i + 1][..i] == ks[..i];
      if Over(c, ks[i]) {
        if !ks[i].warned { return table, false; }
        table := table[ks[i].name := (ks[i].skew, ks[i].details)];
      }
    }
    assert ks[..|ks|] == ks;
    return table, true;
  }

  /** `do_check`. */
  method DoCheck(c: Config, turns: seq<Turn>) returns (outcome: Outcome, skews: Skews)
    ensures !outcome.Running? ==> outcome.n < |turns|
    ensures forall i :: 0 <= i < (if outcome.Running? then |turns| else outcome.n) ==> GoesOn(c, turns, i)
    ensures outcome.Passed? || outcome.Failed? ==> Leaves(c, turns, outcome.n) && skews == Table(c, turns, outcome.n)
    ensures outcome.Passed? ==> c.neverFail || (c.expectSkew <==> skews != map[])
    ensures outcome.Failed? ==> !c.neverFail && (c.expectSkew <==> skews == map[])
    ensures outcome.Raised? ==> !Leaves(c, turns, outcome.n)
                                && (TimedOut(c, turns, outcome.n) || !turns[outcome.n].quorate || Bad(c, turns[outcome.n].report))
  {
    skews := map[];
    var ranOnce := false;
    var startedOn: Option<real> := None;
    var i := 0;
    while i < |turns|
      invariant 0 <= i <= |turns| && skews == Table(c, turns, i)
      invariant ranOnce <==> Ran(c, turns, i)
      invariant c.atLeastOnce && !ranOnce ==> startedOn == FirstStop(turns, i)
      invariant forall j :: 0 <= j < i ==> GoesOn(c, turns, j)
    {
      var t := turns[i];
      if t.stopping && !(c.atLeastOnce && !ranOnce) {
        var found := if c.expectSkew then skews == map[] else skews != map[];
        return if found && !c.neverFail then Failed(i) else Passed(i), skews;
      }
      if c.atLeastOnce && !ranOnce && t.stopping {
        if startedOn.None? {
          startedOn := Some(t.now);
        } else if c.onceTimeout > 0.0 && t.now - startedOn.value >= c.onceTimeout {
          return Raised(i), skews;
        }
      }
      if !t.quorate { return Raised(i), skews; }
      var r := t.report;
      if r.status.Other? || (r.status.Finished? && r.round % 2 != 0) { return Raised(i), skews; }
      if !Skipped(r) {
        if r.mons.None? || |r.mons.value| <= 1 { return Raised(i), skews; }
        var ok;
        skews, ok := AddChecks(c, r.mons.value, skews);
        if !ok { return Raised(i), skews; }
        if r.status.Finished? || (c.expectSkew && skews != map[]) { ranOnce := true; }
      }
      assert skews == Table(c, turns, i + 1);
      assert Ran(c, turns, i + 1) <==> Ran(c, turns, i) || Qualifies(c, turns, i);
      i := i + 1;
    }
    return Running, skews;
  }
}
