/** The guarded, weighted choice of the thrasher's next action. */
module ActionChoice {
  import opened PyLists
  import opened OsdViews

  datatype Action =
    | OutOsd | KillOsd | RmPastIntervals | InOsd | ReviveOsd | PrimaryAffinity | Reweight
    | GrowPool | FixPgpNum | TestPoolMinSize | TestBackfillFull
    | InjectPause(key: string, long: bool)

  /** `chance_down` is a percentage when given as an integer. */
  datatype Chance = Percent(n: int) | Fraction(p: real)

  datatype Config = Config(
    minIn: int, minOut: int, minLive: int, minDead: int, maxDead: int,
    chanceDown: Chance, primaryAffinity: bool, reweight: real, pgNumGrow: real, pgpNumFix: real,
    testMinSize: real, testBackfillFull: real, pauseShort: real, pauseLong: real,
    mapDiscontinuity: bool, rmPastIntervals: bool, objectStoreTool: bool, logTakesArgs: bool)

  function Down(c: Config): real {
    match c.chanceDown
    case Percent(n) => n as real / 100.0
    case Fraction(p) => p
  }

  predicate NonNegative(c: Config) {
    && Down(c) >= 0.0 && c.reweight >= 0.0 && c.pgNumGrow >= 0.0 && c.pgpNumFix >= 0.0
    && c.testMinSize >= 0.0 && c.testBackfillFull >= 0.0 && c.pauseShort >= 0.0 && c.pauseLong >= 0.0
  }

  const PAUSE_KEYS: seq<string> := ["heartbeat_inject_failure", "filestore_inject_stall"]

  /** The lambdas are called after the loop over the keys ended, so `key` is its last value for all of them. */
  function KeyWhenCalled(): string {
    PAUSE_KEYS[|PAUSE_KEYS| - 1]
  }

  const ENTRIES := 15

  /** The action of the k-th `append`: the guarded ones first, then those always there. */
  function ActionAt(k: nat): Action
    requires k < ENTRIES
  {
    match k
    case 0 => OutOsd
    case 1 => KillOsd
    case 2 => RmPastIntervals
    case 3 => InOsd
    case 4 => ReviveOsd
    case 5 => PrimaryAffinity
    case 6 => Reweight
    case 7 => GrowPool
    case 8 => FixPgpNum
    case 9 => TestPoolMinSize
    case 10 => TestBackfillFull
    case 11 => InjectPause(KeyWhenCalled(), false)
    case 12 => InjectPause(KeyWhenCalled(), true)
    case 13 => InjectPause(KeyWhenCalled(), false)
    case 14 => InjectPause(KeyWhenCalled(), true)
  }

  /** The guard of an action's `append`. */
  predicate Allowed(v: View, c: Config, a: Action) {
    match a
    case OutOsd => |v.ins| > c.minIn
    case KillOsd => |v.live| > c.minLive && Down(c) > 0.0
    case RmPastIntervals => |v.dead| > 1
    case InOsd => |v.outs| > c.minOut
    case ReviveOsd => |v.dead| > c.minDead
    case PrimaryAffinity => c.primaryAffinity
    case _ => true
  }

  /** The weight an action's entries carry. */
  function Weight(c: Config, a: Action): real {
    match a
    case OutOsd => 1.0
    case KillOsd => Down(c)
    case RmPastIntervals => 1.0
    case InOsd => 1.7
    case ReviveOsd => 1.0
    case PrimaryAffinity => 1.0
    case Reweight => c.reweight
    case GrowPool => c.pgNumGrow
    case FixPgpNum => c.pgpNumFix
    case TestPoolMinSize => c.testMinSize
    case TestBackfillFull => c.testBackfillFull
    case InjectPause(_, long) => if long then c.pauseLong else c.pauseShort
  }

  function Nth(v: View, c: Config, k: nat): seq<(Action, real)>
    requires k < ENTRIES
  {
    if Allowed(v, c, ActionAt(k)) then [(ActionAt(k), Weight(c, ActionAt(k)))] else []
  }

  function Entries(v: View, c: Config, k: nat): seq<(Action, real)>
    requires k <= ENTRIES
  {
    if k == 0 then [] else Entries(v, c, k - 1) + Nth(v, c, k - 1)
  }

  function Actions(v: View, c: Config): seq<(Action, real)> {
    Entries(v, c, ENTRIES)
  }

  /** What the guards and a positive weight promise about an action that was chosen. */
  ghost predicate Offered(v: View, c: Config, a: Action) {
    match a
    case OutOsd => |v.ins| > c.minIn
    case KillOsd => |v.live| > c.minLive && Down(c) > 0.0
    case RmPastIntervals => |v.dead| > 1
    case InOsd => |v.outs| > c.minOut
    case ReviveOsd => |v.dead| > c.minDead
    case PrimaryAffinity => c.primaryAffinity
    case Reweight => c.reweight > 0.0
    case GrowPool => c.pgNumGrow > 0.0
    case FixPgpNum => c.pgpNumFix > 0.0
    case TestPoolMinSize => c.testMinSize > 0.0
    case TestBackfillFull => c.testBackfillFull > 0.0
    case InjectPause(key, long) => key == "filestore_inject_stall" && (if long then c.pauseLong else c.pauseShort) > 0.0
  }

  lemma {:induction false} EntriesExactly(v: View, c: Config, k: nat, e: (Action, real))
    requires k <= ENTRIES
    ensures e in Entries(v, c, k) <==> exists j: nat :: j < k && e in Nth(v, c, j)
  {
    if k > 0 {
      EntriesExactly(v, c, k - 1, e);
    }
  }

  /** The step at which an action is appended, the first one for a pause. */
  function Step(a: Action): nat {
    match a
    case OutOsd => 0
    case KillOsd => 1
    case RmPastIntervals => 2
    case InOsd => 3
    case ReviveOsd => 4
    case PrimaryAffinity => 5
    case Reweight => 6
    case GrowPool => 7
    case FixPgpNum => 8
    case TestPoolMinSize => 9
    case TestBackfillFull => 10
    case InjectPause(_, long) => if long then 12 else 11
  }

  lemma WeightsNonNegative(c: Config, a: Action)
    requires NonNegative(c)
    ensures Weight(c, a) >= 0.0
  {
  }

  lemma {:induction false} WeightedOneMore(ws: seq<(Action, real)>, a: Action, w: real)
    requires Weighted(ws) && w >= 0.0
    ensures Weighted(ws + [(a, w)])
  {
  }

  lemma {:induction false} EntriesWeighted(v: View, c: Config, k: nat)
    requires NonNegative(c) && k <= ENTRIES
    ensures Weighted(Entries(v, c, k))
  {
    if k > 0 {
      EntriesWeighted(v, c, k - 1);
      var a := ActionAt(k - 1);
      if Allowed(v, c, a) {
        WeightsNonNegative(c, a);
        WeightedOneMore(Entries(v, c, k - 1), a, Weight(c, a));
      } else {
        assert Entries(v, c, k) == Entries(v, c, k - 1);
      }
    }
  }

  lemma NthOffered(v: View, c: Config, k: nat, a: Action, w: real)
    requires NonNegative(c) && k < ENTRIES && (a, w) in Nth(v, c, k)
    ensures w == Weight(c, a) && (w > 0.0 ==> Offered(v, c, a))
  {
  }

  /** The actions a positive-weight entry stands for are exactly those offered. */
  lemma PositiveWeightMeansOffered(v: View, c: Config, a: Action)
    requires NonNegative(c)
    ensures Offered(v, c, a) <==> exists w: real :: (a, w) in Actions(v, c) && w > 0.0
  {
    if Offered(v, c, a) {
      EntriesExactly(v, c, ENTRIES, (a, Weight(c, a)));
      assert (a, Weight(c, a)) in Nth(v, c, Step(a));
    }
    if exists w: real :: (a, w) in Actions(v, c) && w > 0.0 {
      var w: real :| (a, w) in Actions(v, c) && w > 0.0;
      EntriesExactly(v, c, ENTRIES, (a, w));
      var j: nat :| j < ENTRIES && (a, w) in Nth(v, c, j);
      NthOffered(v, c, j, a, w);
    }
  }

  function Prefix(ws: seq<(Action, real)>, n: nat): real
    requires n <= |ws|
  {
    if n == 0 then 0.0 else Prefix(ws, n - 1) + ws[n - 1].1
  }

  function Total(ws: seq<(Action, real)>): real {
    Prefix(ws, |ws|)
  }

  ghost predicate Weighted(ws: seq<(Action, real)>) {
    forall i :: 0 <= i < |ws| ==> ws[i].1 >= 0.0
  }

  lemma {:induction false} PrefixMonotone(ws: seq<(Action, real)>, i: nat, j: nat)
    requires Weighted(ws) && i <= j <= |ws|
    ensures Prefix(ws, i) <= Prefix(ws, j)
  {
    if i < j {
      PrefixMonotone(ws, i, j - 1);
    }
  }

  /** The selection loop: entry `i` is chosen exactly for the values in its own interval. */
  method Select(ws: seq<(Action, real)>, value: real) returns (r: Option<nat>)
    requires Weighted(ws) && value >= 0.0
    ensures r.Some? ==> r.value < |ws| && ws[r.value].1 > 0.0
    ensures forall i: nat :: i < |ws| ==> (r == Some(i) <==> Prefix(ws, i) <= value < Prefix(ws, i) + ws[i].1)
    ensures r.None? <==> value >= Total(ws)
  {
    var val := value;
    for k := 0 to |ws|
      invariant val == value - Prefix(ws, k) && val >= 0.0
    {
      if val < ws[k].1 {
        PrefixMonotone(ws, k + 1, |ws|);
        forall i: nat | i < |ws| && i != k ensures !(Prefix(ws, i) <= value < Prefix(ws, i) + ws[i].1) {
          if i < k { PrefixMonotone(ws, i + 1, k); } else { PrefixMonotone(ws, k + 1, i); }
        }
        return Some(k);
      }
      val := val - ws[k].1;
    }
    forall i: nat | i < |ws| ensures !(Prefix(ws, i) <= value < Prefix(ws, i) + ws[i].1) {
      PrefixMonotone(ws, i + 1, |ws|);
    }
    return None;
  }

  /** The action in whose interval the value lies. */
  ghost predicate ChosenFrom(ws: seq<(Action, real)>, value: real, a: Action) {
    exists i :: 0 <= i < |ws| && ws[i].0 == a && ws[i].1 > 0.0 && Prefix(ws, i) <= value < Prefix(ws, i) + ws[i].1
  }

  ghost predicate Chosen(v: View, c: Config, value: real, a: Action) {
    ChosenFrom(Actions(v, c), value, a)
  }

  method SelectAction(ws: seq<(Action, real)>, value: real) returns (r: Option<Action>)
    requires Weighted(ws) && value >= 0.0
    ensures r.None? <==> value >= Total(ws)
    ensures r.Some? ==> ChosenFrom(ws, value, r.value)
    ensures forall a :: ChosenFrom(ws, value, a) ==> r == Some(a)
    ensures forall i: nat :: i < |ws| && Prefix(ws, i) <= value < Prefix(ws, i) + ws[i].1 ==> r == Some(ws[i].0)
  {
    var i := Select(ws, value);
    if i.None? { return None; }
    assert Prefix(ws, i.value) <= value < Prefix(ws, i.value) + ws[i.value].1;
    return Some(ws[i.value].0);
  }

  lemma ChosenIsOffered(v: View, c: Config, value: real, a: Action)
    requires NonNegative(c) && Chosen(v, c, value, a)
    ensures Offered(v, c, a)
  {
    var ws := Actions(v, c);
    var i :| 0 <= i < |ws| && ws[i].0 == a && ws[i].1 > 0.0 && Prefix(ws, i) <= value < Prefix(ws, i) + ws[i].1;
    assert ws[i] in ws && ws[i] == (a, ws[i].1);
    PositiveWeightMeansOffered(v, c, a);
  }

  function WeightUpTo(ws: seq<(Action, real)>, n: nat, a: Action): real
    requires n <= |ws|
  {
    if n == 0 then 0.0 else WeightUpTo(ws, n - 1, a) + (if ws[n - 1].0 == a then ws[n - 1].1 else 0.0)
  }

  function WeightOf(ws: seq<(Action, real)>, a: Action): real {
    WeightUpTo(ws, |ws|, a)
  }

  lemma {:induction false} WeightOfFront(ws: seq<(Action, real)>, ws': seq<(Action, real)>, n: nat, a: Action)
    requires n <= |ws|
    ensures WeightUpTo(ws + ws', n, a) == WeightUpTo(ws, n, a)
  {
    if n > 0 {
      WeightOfFront(ws, ws', n - 1, a);
    }
  }

  lemma {:induction false} WeightOfBack(ws: seq<(Action, real)>, ws': seq<(Action, real)>, n: nat, a: Action)
    requires n <= |ws'|
    ensures WeightUpTo(ws + ws', |ws| + n, a) == WeightOf(ws, a) + WeightUpTo(ws', n, a)
  {
    if n == 0 {
      WeightOfFront(ws, ws', |ws|, a);
    } else {
      WeightOfBack(ws, ws', n - 1, a);
    }
  }

  lemma {:induction false} WeightsAdd(ws: seq<(Action, real)>, ws': seq<(Action, real)>, a: Action)
    ensures WeightOf(ws + ws', a) == WeightOf(ws, a) + WeightOf(ws', a)
  {
    WeightOfBack(ws, ws', |ws'|, a);
  }

  /** The total weight of each action, which is the length of the values that choose it. */
  lemma {:induction false} ActionWeights(v: View, c: Config, a: Action)
    ensures WeightOf(Actions(v, c), a) ==
            match a
            case OutOsd => if |v.ins| > c.minIn then 1.0 else 0.0
            case KillOsd =>
              var down := match c.chanceDown { case Percent(n) => n as real / 100.0 case Fraction(p) => p };
              if |v.live| > c.minLive && down > 0.0 then down else 0.0
            case RmPastIntervals => if |v.dead| > 1 then 1.0 else 0.0
            case InOsd => if |v.outs| > c.minOut then 1.7 else 0.0
            case ReviveOsd => if |v.dead| > c.minDead then 1.0 else 0.0
            case PrimaryAffinity => if c.primaryAffinity then 1.0 else 0.0
            case Reweight => c.reweight
            case GrowPool => c.pgNumGrow
            case FixPgpNum => c.pgpNumFix
            case TestPoolMinSize => c.testMinSize
            case TestBackfillFull => c.testBackfillFull
            case InjectPause(key, long) =>
              if key == "filestore_inject_stall" then 2.0 * (if long then c.pauseLong else c.pauseShort) else 0.0
  {
    WeightBySteps(v, c, a, ENTRIES);
    HowOften(a, if Allowed(v, c, a) then Weight(c, a) else 0.0);
  }

  /** `w` for each of the first `k` steps that is about `a`. */
  function Times(k: nat, a: Action, w: real): real
    requires k <= ENTRIES
  {
    if k == 0 then 0.0 else Times(k - 1, a, w) + (if ActionAt(k - 1) == a then w else 0.0)
  }

  lemma {:induction false} WeightOfOne(b: Action, w: real, a: Action)
    ensures WeightOf([(b, w)], a) == if a == b then w else 0.0
  {
    assert WeightUpTo([(b, w)], 1, a) == WeightUpTo([(b, w)], 0, a) + (if a == b then w else 0.0);
  }

  lemma {:induction false} WeightBySteps(v: View, c: Config, a: Action, k: nat)
    requires k <= ENTRIES
    ensures WeightOf(Entries(v, c, k), a) == Times(k, a, if Allowed(v, c, a) then Weight(c, a) else 0.0)
  {
    if k > 0 {
      WeightBySteps(v, c, a, k - 1);
      var b := ActionAt(k - 1);
      if Allowed(v, c, b) {
        WeightsAdd(Entries(v, c, k - 1), [(b, Weight(c, b))], a);
        WeightOfOne(b, Weight(c, b), a);
      } else {
        assert Entries(v, c, k) == Entries(v, c, k - 1);
      }
    }
  }

  lemma {:induction false} FirstSteps(a: Action, w: real)
    ensures Times(6, a, w) == if a.OutOsd? || a.KillOsd? || a.RmPastIntervals? || a.InOsd? || a.ReviveOsd? || a.PrimaryAffinity? then w else 0.0
  {
    assert Times(1, a, w) == if a.OutOsd? then w else 0.0;
    assert Times(3, a, w) == if a.OutOsd? || a.KillOsd? || a.RmPastIntervals? then w else 0.0;
    assert Times(5, a, w) == Times(3, a, w) + if a.InOsd? || a.ReviveOsd? then w else 0.0;
  }

  lemma {:induction false} MiddleSteps(a: Action, w: real)
    ensures Times(11, a, w) == if a.InjectPause? then 0.0 else w
  {
    FirstSteps(a, w);
    assert Times(8, a, w) == Times(6, a, w) + if a.Reweight? || a.GrowPool? then w else 0.0;
    assert Times(10, a, w) == Times(8, a, w) + if a.FixPgpNum? || a.TestPoolMinSize? then w else 0.0;
  }

  /** Each action has one entry, but a pause two, and only under the last key. */
  lemma {:induction false} HowOften(a: Action, w: real)
    ensures Times(ENTRIES, a, w) ==
            if !a.InjectPause? then w else if a.key == "filestore_inject_stall" then 2.0 * w else 0.0
  {
    MiddleSteps(a, w);
    var pause := a.InjectPause? && a.key == KeyWhenCalled();
    assert Times(13, a, w) == Times(11, a, w) + if pause then w else 0.0;
    assert Times(15, a, w) == Times(13, a, w) + if pause then w else 0.0;
  }

  /** `choose_action`, given the random value: None only when the value reaches the total weight. */
  method ChooseAction(v: View, c: Config, value: real) returns (r: Option<Action>)
    requires NonNegative(c) && value >= 0.0
    ensures r.None? <==> value >= Total(Actions(v, c))
    ensures r.Some? ==> Offered(v, c, r.value) && Chosen(v, c, value, r.value)
    ensures forall a :: Chosen(v, c, value, a) ==> r == Some(a)
  {
    EntriesWeighted(v, c, ENTRIES);
    r := SelectAction(Actions(v, c), value);
    if r.Some? {
      ChosenIsOffered(v, c, value, r.value);
    }
  }

  /** The choice looks at the four lists only. */
  lemma {:induction false} SameEntries(v: View, w: View, c: Config, k: nat)
    requires k <= ENTRIES && v.ins == w.ins && v.outs == w.outs && v.live == w.live && v.dead == w.dead
    ensures Entries(v, c, k) == Entries(w, c, k)
  {
    if k > 0 {
      SameEntries(v, w, c, k - 1);
    }
  }

  /** The list the action draws a random OSD from before it does anything else. */
  function PickList(v: View, a: Action): Option<seq<int>> {
    match a
    case OutOsd => Some(v.ins)
    case KillOsd => Some(v.live)
    case RmPastIntervals => Some(v.dead)
    case InOsd => Some(v.outs)
    case ReviveOsd => Some(v.dead)
    case PrimaryAffinity => Some(v.ins)
    case Reweight => Some(v.ins)
    case InjectPause(_, _) => Some(v.live)
    case GrowPool => None
    case FixPgpNum => None
    case TestPoolMinSize => None
    case TestBackfillFull => None
  }

  ghost predicate Floors(v: View, c: Config) {
    |v.ins| >= c.minIn && |v.live| >= c.minLive
  }

  /** No action offered at the floors or above ever picks from an empty list. */
  ghost predicate PicksSafe(c: Config) {
    forall v: View, osds: set<int>, a ::
      Settled(v, osds) && osds != {} && Floors(v, c) && Offered(v, c, a) && PickList(v, a).Some? ==> PickList(v, a).value != []
  }

  /** The settings that make every pick safe, in terms a caller can check. */
  predicate SaneFloors(c: Config) {
    && c.minOut >= 0 && c.minDead >= 0 && c.minIn >= 0
    && (c.primaryAffinity || c.reweight > 0.0 ==> c.minIn >= 1)
    && (Down(c) > 0.0 ==> c.minLive >= 0)
    && (c.pauseShort > 0.0 || c.pauseLong > 0.0 ==> c.minLive >= 1)
  }

  function UpTo(n: nat): seq<int> {
    seq(n, i => i)
  }

  function Built(n: nat, out: bool, down: bool): View {
    var all := UpTo(n);
    var ids := Elements(UpTo(n));
    View(if out then [] else all, if out then all else [], if down then [] else all, if down then all else [],
         if down then {} else ids, if out then {} else ids)
  }

  lemma BuiltIsSettled(n: nat, out: bool, down: bool)
    ensures Settled(Built(n, out, down), Elements(UpTo(n)))
  {
    var all := UpTo(n);
    var ids := Elements(UpTo(n));
    SplitsMeaning(all, [], ids);
    SplitsMeaning([], all, ids);
  }

  /** An OSD list that is empty although an action offered at the floors draws from it. */
  lemma UnsafePick(c: Config) returns (n: nat, v: View, a: Action)
    requires NonNegative(c) && !SaneFloors(c)
    ensures n >= 1 && Settled(v, Elements(UpTo(n)))
    ensures Floors(v, c) && Offered(v, c, a) && PickList(v, a) == Some([])
  {
    n := 1 + (if c.minIn > 0 then c.minIn else 0) + (if c.minLive > 0 then c.minLive else 0);
    var noneIn := c.minIn < 0 || ((c.primaryAffinity || c.reweight > 0.0) && c.minIn < 1);
    var noneLive := c.minDead >= 0 && !noneIn && c.minOut >= 0;
    v := Built(n, noneIn, noneLive);
    BuiltIsSettled(n, noneIn, noneLive);
    a := if c.minDead < 0 then ReviveOsd
         else if noneIn then (if c.minIn < 0 then OutOsd else if c.primaryAffinity then PrimaryAffinity else Reweight)
         else if c.minOut < 0 then InOsd
         else if Down(c) > 0.0 && c.minLive < 0 then KillOsd
         else InjectPause(KeyWhenCalled(), c.pauseLong > 0.0);
  }

  lemma PickIsSafe(v: View, c: Config, osds: set<int>, a: Action)
    requires SaneFloors(c) && Settled(v, osds) && osds != {} && Floors(v, c) && Offered(v, c, a)
    ensures PickList(v, a).Some? ==> PickList(v, a).value != []
  {
  }

  lemma PicksSafeExactly(c: Config)
    requires NonNegative(c)
    ensures PicksSafe(c) <==> SaneFloors(c)
  {
    if SaneFloors(c) {
      forall v: View, osds: set<int>, a |
        Settled(v, osds) && osds != {} && Floors(v, c) && Offered(v, c, a) && PickList(v, a).Some?
        ensures PickList(v, a).value != []
      {
        PickIsSafe(v, c, osds, a);
      }
    } else {
      var n, v, a := UnsafePick(c);
      assert UpTo(n)[0] in Elements(UpTo(n));
    }
  }
}
