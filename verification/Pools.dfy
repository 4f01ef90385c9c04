/** The manager's pool table against the cluster's own. */
module Pools {
  import opened PyLists

  const EAGAIN := 11
  const MAX_TRIES := 50

  /**
   The bound given to `expand_pool`. The thrasher computes it by multiplying a number by a
   list, so what it passes is a list; in Python 2 no integer is greater than a list.
   */
  datatype Limit = Number(n: int) | ListOfOsds

  predicate Greater(x: int, limit: Limit) {
    limit.Number? && x > limit.n
  }

  datatype Pool = Pool(pgNum: int, pgpNum: int)

  /** `cache` is `self.pools`; `cluster` is the truth; `issued` are the unique names handed out. */
  datatype State = State(cache: map<string, int>, cluster: map<string, Pool>, nextId: nat, issued: seq<string>)

  /** The retry loop's fate: how the set command answered in the end, or too many EAGAINs. */
  datatype Answer = Code(r: int) | Raised

  /** How far a creation got: its command failed, a later command failed, or it reached the cache. */
  datatype Creation = Failed | Uncached | Done

  datatype Op =
    | CreateOp(name: string, pgNum: int, fate: Creation)
    | CreateUniqueOp(pgNum: int, fate: Creation)
    | RemoveOp(name: string, removed: bool)   // whether the cluster's own removal succeeded
    | ExpandOp(name: string, grow: int, limit: Limit, creating: nat, answer: Answer)
    | FixOp(name: string, creating: nat, answer: Answer)

  function Digits(n: nat): (r: string)
    ensures r != []
  {
    if n < 10 then ["0123456789"[n]] else Digits(n / 10) + ["0123456789"[n % 10]]
  }

  function Value(s: string): int {
    if s == [] then 0 else 10 * Value(s[..|s| - 1]) + (s[|s| - 1] as int - '0' as int)
  }

  /** The digits are those of the number. */
  lemma {:induction false} DigitsRoundTrip(n: nat)
    ensures Value(Digits(n)) == n
  {
    assert forall d :: 0 <= d < 10 ==> "0123456789"[d] as int - '0' as int == d;
    if n < 10 {
      assert Digits(n)[..0] == [];
    } else {
      DigitsRoundTrip(n / 10);
      assert Digits(n)[..|Digits(n)| - 1] == Digits(n / 10);
    }
  }

  lemma DigitsInjective(m: nat, n: nat)
    requires Digits(m) == Digits(n)
    ensures m == n
  {
    DigitsRoundTrip(m);
    DigitsRoundTrip(n);
  }

  function UniqueName(id: nat): string {
    "unique_pool_" + Digits(id)
  }

  lemma UniqueNamesDiffer(m: nat, n: nat)
    requires UniqueName(m) == UniqueName(n)
    ensures m == n
  {
    assert Digits(m) == UniqueName(m)[|"unique_pool_"|..] && Digits(n) == UniqueName(n)[|"unique_pool_"|..];
    DigitsInjective(m, n);
  }

  /** The assertions at the head of each method. */
  predicate Accepts(s: State, op: Op) {
    match op
    case CreateOp(name, _, _) => name !in s.cache
    case CreateUniqueOp(_, _) => UniqueName(s.nextId) !in s.cache
    case RemoveOp(name, _) => name in s.cache
    case ExpandOp(name, _, _, _, _) => name in s.cache
    case FixOp(name, _, _) => name in s.cache
  }

  /** Creating a pool the cluster already has is no error and changes nothing there. */
  function Put(s: State, name: string, pgNum: int, fate: Creation): State {
    s.(cache := if fate.Done? then s.cache[name := pgNum] else s.cache,
       cluster := if fate.Failed? || name in s.cluster then s.cluster else s.cluster[name := Pool(pgNum, pgNum)])
  }

  /** Only a zero answer changed the cluster. */
  function SetPgNum(s: State, name: string, pgNum: int, a: Answer): State {
    if a == Code(0) && name in s.cluster then s.(cluster := s.cluster[name := s.cluster[name].(pgNum := pgNum)]) else s
  }

  function SetPgpNum(s: State, name: string, pgpNum: int, a: Answer): State {
    if a == Code(0) && name in s.cluster then s.(cluster := s.cluster[name := s.cluster[name].(pgpNum := pgpNum)]) else s
  }

  function Apply(s: State, op: Op): State {
    match op
    case CreateOp(name, pgNum, fate) => if Accepts(s, op) then Put(s, name, pgNum, fate) else s
    case CreateUniqueOp(pgNum, fate) =>
      var name, t := UniqueName(s.nextId), s.(nextId := s.nextId + 1);
      if !Accepts(s, op) then t
      else Put(t, name, pgNum, fate).(issued := if fate.Done? then s.issued + [name] else s.issued)
    case RemoveOp(name, removed) =>
      if !Accepts(s, op) then s
      else s.(cache := s.cache - {name}, cluster := if removed then s.cluster - {name} else s.cluster)
    case ExpandOp(name, grow, limit, creating, answer) =>
      if !Accepts(s, op) || creating > 0 || Greater(s.cache[name] + grow, limit) then s
      else
        var pgNum := s.cache[name] + grow;
        var t := SetPgNum(s, name, pgNum, answer);
        if answer.Raised? then t else t.(cache := t.cache[name := pgNum])
    case FixOp(name, creating, answer) =>
      if !Accepts(s, op) || creating > 0 then s else SetPgpNum(s, name, s.cache[name], answer)
  }

  function Run(s: State, ops: seq<Op>): State {
    if ops == [] then s else Apply(Run(s, ops[..|ops| - 1]), ops[|ops| - 1])
  }

  /** The cache agrees with the cluster. */
  ghost predicate Synced(s: State) {
    && s.cache.Keys == s.cluster.Keys
    && forall p :: p in s.cache ==> s.cluster[p].pgNum == s.cache[p]
  }

  /**
   What the cache takes on trust: that a growth command which stopped answering EAGAIN
   succeeded or was given up on, that a pool struck from the cache was removed, and that
   one it does not hold was not created.
   */
  ghost predicate Faithful(op: Op) {
    && (op.CreateOp? || op.CreateUniqueOp? ==> !op.fate.Uncached?)
    && (op.ExpandOp? ==> op.answer == Code(0) || op.answer.Raised?)
    && (op.RemoveOp? ==> op.removed)
  }

  /** One growth step keeps the cache right exactly when its command was not silently refused. */
  lemma ExpandSyncsExactly(s: State, op: Op)
    requires Synced(s) && op.ExpandOp? && op.name in s.cache && op.grow != 0
    requires op.creating == 0 && !Greater(s.cache[op.name] + op.grow, op.limit)
    ensures Synced(Apply(s, op)) <==> Faithful(op)
  {
  }

  /** So does a creation or removal exactly when no command fails between its two tables. */
  lemma TableSyncsExactly(s: State, op: Op)
    requires Synced(s) && Accepts(s, op) && (op.CreateOp? || op.CreateUniqueOp? || op.RemoveOp?)
    ensures Synced(Apply(s, op)) <==> Faithful(op)
  {
    var t := Apply(s, op);
    var name := if op.CreateUniqueOp? then UniqueName(s.nextId) else op.name;
    assert !Faithful(op) ==> name !in t.cache && name in t.cluster;
  }

  lemma {:induction false} RunSyncs(s: State, ops: seq<Op>)
    requires Synced(s) && forall op :: op in ops ==> Faithful(op)
    ensures Synced(Run(s, ops))
  {
    if ops != [] {
      RunSyncs(s, ops[..|ops| - 1]);
      assert Faithful(ops[|ops| - 1]);
    }
  }

  /** The operation gets as far as a command that may set the two tables apart. */
  predicate Effective(s: State, op: Op) {
    && Accepts(s, op) && !op.FixOp?
    && (op.ExpandOp? ==> op.creating == 0 && op.grow != 0 && !Greater(s.cache[op.name] + op.grow, op.limit))
  }

  lemma StepSyncsExactly(s: State, op: Op)
    requires Synced(s)
    ensures Synced(Apply(s, op)) <==> (Effective(s, op) ==> Faithful(op))
  {
    if Effective(s, op) {
      if op.ExpandOp? {
        ExpandSyncsExactly(s, op);
      } else {
        TableSyncsExactly(s, op);
      }
    }
  }

  lemma RunStep(s: State, ops: seq<Op>, k: nat)
    requires k < |ops|
    ensures Run(s, ops[..k + 1]) == Apply(Run(s, ops[..k]), ops[k])
  {
    assert ops[..k + 1][..k] == ops[..k];
  }

  ghost predicate SyncedThroughout(s: State, ops: seq<Op>) {
    forall k :: 0 <= k <= |ops| ==> Synced(Run(s, ops[..k]))
  }

  ghost predicate FaithfulThroughout(s: State, ops: seq<Op>) {
    forall k :: 0 <= k < |ops| && Effective(Run(s, ops[..k]), ops[k]) ==> Faithful(ops[k])
  }

  lemma {:induction false} FaithfulKeepsSynced(s: State, ops: seq<Op>, k: nat)
    requires Synced(s) && FaithfulThroughout(s, ops) && k <= |ops|
    ensures Synced(Run(s, ops[..k]))
  {
    if k > 0 {
      FaithfulKeepsSynced(s, ops, k - 1);
      RunStep(s, ops, k - 1);
      StepSyncsExactly(Run(s, ops[..k - 1]), ops[k - 1]);
    }
  }

  /** Cache and cluster agree after every operation of a run exactly when each effective one was faithful. */
  lemma {:induction false} RunSyncsExactly(s: State, ops: seq<Op>)
    requires Synced(s)
    ensures SyncedThroughout(s, ops) <==> FaithfulThroughout(s, ops)
  {
    if SyncedThroughout(s, ops) {
      forall k | 0 <= k < |ops| && Effective(Run(s, ops[..k]), ops[k]) ensures Faithful(ops[k]) {
        assert Synced(Run(s, ops[..k])) && Synced(Run(s, ops[..k + 1]));
        RunStep(s, ops, k);
        StepSyncsExactly(Run(s, ops[..k]), ops[k]);
      }
    }
    if FaithfulThroughout(s, ops) {
      forall k | 0 <= k <= |ops| ensures Synced(Run(s, ops[..k])) {
        FaithfulKeepsSynced(s, ops, k);
      }
    }
  }

  /** Every pool is within its bound, by either table: its size when made, or the largest size growth may reach. */
  ghost predicate Bounded(s: State, most: int) {
    && (forall p :: p in s.cluster ==> s.cluster[p].pgNum <= most)
    && forall p :: p in s.cache ==> s.cache[p] <= most
  }

  ghost predicate Within(op: Op, most: int) {
    match op
    case CreateOp(_, pgNum, _) => pgNum <= most
    case CreateUniqueOp(pgNum, _) => pgNum <= most
    case RemoveOp(_, _) => true
    case ExpandOp(_, grow, limit, _, _) => grow >= 0 && limit.Number? && limit.n <= most
    case FixOp(_, _, _) => true
  }

  lemma {:induction false} RunStaysBounded(s: State, ops: seq<Op>, most: int)
    requires Bounded(s, most) && forall op :: op in ops ==> Within(op, most)
    ensures Bounded(Run(s, ops), most)
  {
    if ops != [] {
      RunStaysBounded(s, ops[..|ops| - 1], most);
      assert Within(ops[|ops| - 1], most);
    }
  }

  ghost predicate PgpBelow(s: State) {
    forall p :: p in s.cluster ==> s.cluster[p].pgpNum <= s.cluster[p].pgNum
  }

  /** An answered fix keeps pgp_num below pg_num exactly when the cache has not run ahead of the cluster. */
  lemma FixStaysBelowExactly(s: State, op: Op)
    requires PgpBelow(s) && op.FixOp? && op.name in s.cache && op.name in s.cluster
    requires op.creating == 0 && op.answer == Code(0)
    ensures PgpBelow(Apply(s, op)) <==> s.cache[op.name] <= s.cluster[op.name].pgNum
  {
    assert Apply(s, op).cluster[op.name].pgpNum == s.cache[op.name];
  }

  ghost predicate Grows(op: Op) {
    op.ExpandOp? ==> op.grow >= 0
  }

  lemma {:induction false} PgpStaysBelow(s: State, ops: seq<Op>)
    requires Synced(s) && PgpBelow(s) && forall op :: op in ops ==> Faithful(op) && Grows(op)
    ensures PgpBelow(Run(s, ops))
  {
    if ops != [] {
      PgpStaysBelow(s, ops[..|ops| - 1]);
      RunSyncs(s, ops[..|ops| - 1]);
      assert Grows(ops[|ops| - 1]);
    }
  }

  /** Without that: a growth refused with status 22 and then a fix, and pgp_num exceeds pg_num. */
  lemma RefusedGrowthOvershoots(name: string)
    ensures var s := State(map[name := 8], map[name := Pool(8, 8)], 0, []);
            var ops := [ExpandOp(name, 4, Number(100), 0, Code(22)), FixOp(name, 0, Code(0))];
            Synced(s) && PgpBelow(s) && !PgpBelow(Run(s, ops))
  {
    var s := State(map[name := 8], map[name := Pool(8, 8)], 0, []);
    var ops := [ExpandOp(name, 4, Number(100), 0, Code(22)), FixOp(name, 0, Code(0))];
    RunStep(s, ops, 0);
    RunStep(s, ops, 1);
    assert ops[..0] == [] && ops[..2] == ops;
    assert Run(s, ops).cluster[name] == Pool(8, 12);
  }

  function Repeated(op: Op, k: nat): seq<Op> {
    if k == 0 then [] else Repeated(op, k - 1) + [op]
  }

  /** `t` is in step with the cluster, and its pool `op.name` has grown by `total` since `s`. */
  ghost predicate GrownBy(s: State, t: State, op: Op, total: int)
    requires op.ExpandOp? && op.name in s.cache
  {
    Synced(t) && op.name in t.cache && t.cache[op.name] == s.cache[op.name] + total
  }

  lemma ListLimitAdmits(s: State, t: State, op: Op, total: int)
    requires op.ExpandOp? && op.limit.ListOfOsds? && op.creating == 0 && op.answer == Code(0)
    requires op.name in s.cache && GrownBy(s, t, op, total)
    ensures GrownBy(s, Apply(t, op), op, total + op.grow)
  {
  }

  lemma RunOnceMore(s: State, op: Op, k: nat)
    ensures Run(s, Repeated(op, k + 1)) == Apply(Run(s, Repeated(op, k)), op)
  {
    var ops := Repeated(op, k + 1);
    assert ops[..|ops| - 1] == Repeated(op, k);
  }

  lemma OneMoreTime(k: int, x: int)
    ensures k * x == (k - 1) * x + x
  {
  }

  /** With the list the thrasher passes there is no bound: every growth step goes through. */
  lemma {:induction false} ListLimitNeverStops(s: State, op: Op, k: nat)
    requires op.ExpandOp? && op.limit.ListOfOsds? && op.creating == 0 && op.answer == Code(0)
    requires Synced(s) && op.name in s.cache
    ensures GrownBy(s, Run(s, Repeated(op, k)), op, k * op.grow)
  {
    if k > 0 {
      ListLimitNeverStops(s, op, k - 1);
      ListLimitAdmits(s, Run(s, Repeated(op, k - 1)), op, (k - 1) * op.grow);
      RunOnceMore(s, op, k - 1);
      OneMoreTime(k, op.grow);
    }
  }

  ghost predicate HandedOut(name: string, nextId: nat) {
    exists id: nat :: id < nextId && name == UniqueName(id)
  }

  /** Names handed out never repeat, whatever is removed in between. */
  ghost predicate NamesFresh(s: State) {
    && NoDup(s.issued)
    && forall i :: 0 <= i < |s.issued| ==> HandedOut(s.issued[i], s.nextId)
  }

  lemma {:induction false} UniqueNamesNeverRepeat(s: State, ops: seq<Op>)
    requires NamesFresh(s)
    ensures NamesFresh(Run(s, ops))
  {
    if ops != [] {
      var t := Run(s, ops[..|ops| - 1]);
      UniqueNamesNeverRepeat(s, ops[..|ops| - 1]);
      var u := Apply(t, ops[|ops| - 1]);
      forall i | 0 <= i < |t.issued| ensures HandedOut(t.issued[i], u.nextId) && t.issued[i] != UniqueName(t.nextId) {
        assert HandedOut(t.issued[i], t.nextId);
        var id: nat :| id < t.nextId && t.issued[i] == UniqueName(id);
        assert id < u.nextId;
        if UniqueName(id) == UniqueName(t.nextId) {
          UniqueNamesDiffer(id, t.nextId);
        }
      }
      if u.issued != t.issued {
        assert HandedOut(UniqueName(t.nextId), u.nextId);
      }
    }
  }

  class PoolManager {
    var pools: map<string, int>
    var nextPoolId: nat
    ghost var cluster: map<string, Pool>
    ghost var issued: seq<string>

    ghost function Now(): State
      reads this
    {
      State(pools, cluster, nextPoolId, issued)
    }

    constructor ()
      ensures Now() == State(map[], map[], 0, []) && Synced(Now()) && NamesFresh(Now())
    {
      pools, nextPoolId, cluster, issued := map[], 0, map[], [];
    }

    /** `create_pool`; false when its assertion or one of its commands fails. */
    method CreatePool(name: string, pgNum: int) returns (ok: bool, ghost fate: Creation)
      modifies this`pools, this`cluster
      ensures ok <==> name !in old(pools) && fate.Done?
      ensures Now() == Apply(old(Now()), CreateOp(name, pgNum, fate))
      ensures pools == (if ok then old(pools)[name := pgNum] else old(pools)) && (ok ==> name in cluster)
    {
      fate := Failed;
      if name in pools { return false, fate; }
      ok := *;
      if !ok { return; }
      fate := Uncached;
      cluster := if name in cluster then cluster else cluster[name := Pool(pgNum, pgNum)];
      ok := *;
      if !ok { return; }
      fate := Done;
      pools := pools[name := pgNum];
    }

    method CreatePoolWithUniqueName(pgNum: int) returns (name: string, ok: bool, ghost fate: Creation)
      modifies this
      ensures name == UniqueName(old(nextPoolId)) && (ok <==> name !in old(pools) && fate.Done?)
      ensures Now() == Apply(old(Now()), CreateUniqueOp(pgNum, fate))
    {
      name := UniqueName(nextPoolId);
      nextPoolId := nextPoolId + 1;
      ok, fate := CreatePool(name, pgNum);
      if ok { issued := issued + [name]; }
    }

    /** `remove_pool`: `ok` is false when its assertion fails or `rmpool` does, by then too late for the cache. */
    method RemovePool(name: string) returns (ok: bool, ghost removed: bool)
      modifies this`pools, this`cluster
      ensures ok <==> name in old(pools) && removed
      ensures Now() == Apply(old(Now()), RemoveOp(name, removed))
      ensures pools == old(pools) - {name} && (ok ==> cluster == old(cluster) - {name}) && (!ok ==> cluster == old(cluster))
    {
      if name !in pools { return false, false; }
      pools := pools - {name};
      ok := *;
      removed := ok;
      if ok { cluster := cluster - {name}; }
    }

    /**
     The retry loop of `set_pool_property`: `answers(i)` is the exit status of attempt i.
     It gives up after the 51st EAGAIN, and takes any other status for success.
     */
    method Retry(answers: nat -> int) returns (a: Answer, attempts: nat)
      ensures 1 <= attempts <= MAX_TRIES + 1
      ensures forall i: nat :: i < attempts - 1 ==> answers(i) == EAGAIN
      ensures a.Raised? <==> forall i: nat :: i <= MAX_TRIES ==> answers(i) == EAGAIN
      ensures a.Raised? ==> attempts == MAX_TRIES + 1
      ensures a.Code? ==> a.r == answers(attempts - 1) != EAGAIN
    {
      var tries := 0;
      attempts := 0;
      while true
        invariant attempts == tries <= MAX_TRIES
        invariant forall i: nat :: i < attempts ==> answers(i) == EAGAIN
        decreases MAX_TRIES - tries
      {
        var r := answers(attempts);
        attempts := attempts + 1;
        if r != EAGAIN { return Code(r), attempts; }
        tries := tries + 1;
        if tries > MAX_TRIES { return Raised, attempts; }
      }
    }

    method ExpandPool(name: string, grow: int, limit: Limit, creating: nat, answers: nat -> int)
      returns (ok: bool, ghost answer: Answer)
      modifies this`pools, this`cluster
      ensures Now() == Apply(old(Now()), ExpandOp(name, grow, limit, creating, answer))
      ensures !ok ==> pools == old(pools)
      ensures name in old(pools) && creating == 0 && !Greater(old(pools)[name] + grow, limit) ==>
                (ok <==> !answer.Raised?)
                && (answer.Raised? <==> forall i: nat :: i <= MAX_TRIES ==> answers(i) == EAGAIN)
      ensures ok && name in old(pools) && creating == 0 && !Greater(old(pools)[name] + grow, limit) ==>
                pools == old(pools)[name := old(pools)[name] + grow]
    {
      answer := Raised;
      if name !in pools { return false, answer; }
      if creating > 0 || Greater(pools[name] + grow, limit) { return true, answer; }
      var pgNum := pools[name] + grow;
      var a, _ := Retry(answers);
      answer := a;
      cluster := SetPgNum(Now(), name, pgNum, a).cluster;
      if a.Raised? { return false, answer; }
      pools := pools[name := pgNum];
      return true, answer;
    }

    method SetPoolPgpNum(name: string, creating: nat, answers: nat -> int) returns (ok: bool, ghost answer: Answer)
      modifies this`cluster
      ensures Now() == Apply(old(Now()), FixOp(name, creating, answer))
      ensures name in pools && name in cluster && creating == 0 && answer == Code(0) ==> cluster[name].pgpNum == pools[name]
      ensures name in pools && creating == 0 ==>
                (ok <==> !answer.Raised?)
                && (answer.Raised? <==> forall i: nat :: i <= MAX_TRIES ==> answers(i) == EAGAIN)
    {
      answer := Raised;
      if name !in pools { return false, answer; }
      if creating > 0 { return true, answer; }
      var a, _ := Retry(answers);
      answer := a;
      cluster := SetPgpNum(Now(), name, pools[name], a).cluster;
      return !a.Raised?, answer;
    }
  }
}
