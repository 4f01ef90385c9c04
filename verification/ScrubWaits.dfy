/** Waiting for scrubs: all placement groups at exit, and one group with resent requests. */
module ScrubWaits {

  /** Which groups carry a scrub stamp later than the request, in one dump of the statistics. */
  type Dump = seq<bool>

  function Good(d: Dump): (n: nat)
    ensures n <= |d|
  {
    if d == [] then 0 else
      assert d == d[..|d| - 1] + [d[|d| - 1]];
      Good(d[..|d| - 1]) + (if d[|d| - 1] then 1 else 0)
  }

  ghost function Scrubbed(d: Dump): set<int> {
    set i | 0 <= i < |d| && d[i]
  }

  lemma {:induction false} GoodCounts(d: Dump)
    ensures Good(d) == |Scrubbed(d)|
  {
    if d != [] {
      var front := d[..|d| - 1];
      GoodCounts(front);
      assert Scrubbed(d) == if d[|d| - 1] then Scrubbed(front) + {|d| - 1} else Scrubbed(front);
    }
  }

  ghost predicate AllScrubbed(d: Dump) {
    forall i :: 0 <= i < |d| ==> d[i]
  }

  /** The best count among the first `k` polls. */
  ghost function Best(dumps: nat -> Dump, k: nat): nat {
    if k == 0 then 0
    else if Good(dumps(k - 1)) > Best(dumps, k - 1) then Good(dumps(k - 1))
    else Best(dumps, k - 1)
  }

  ghost predicate Improves(dumps: nat -> Dump, k: nat) {
    Best(dumps, k + 1) > Best(dumps, k)
  }

  /** A poll improves when it finds more groups scrubbed than none and than any poll before it. */
  lemma {:induction false} ImprovesMeans(dumps: nat -> Dump, k: nat)
    ensures Improves(dumps, k) <==>
            Scrubbed(dumps(k)) != {} && forall i: nat :: i < k ==> |Scrubbed(dumps(k))| > |Scrubbed(dumps(i))|
  {
    GoodCounts(dumps(k));
    BestIsBest(dumps, k);
  }

  lemma {:induction false} BestIsBest(dumps: nat -> Dump, k: nat)
    ensures forall i: nat :: i < k ==> |Scrubbed(dumps(i))| <= Best(dumps, k)
    ensures Best(dumps, k) == 0 || exists i: nat :: i < k && |Scrubbed(dumps(i))| == Best(dumps, k)
  {
    if k > 0 {
      BestIsBest(dumps, k - 1);
      GoodCounts(dumps(k - 1));
    }
  }

  /** How many polls in a row, ending before poll `p`, brought nothing new. */
  ghost function Streak(dumps: nat -> Dump, p: nat): nat {
    if p == 0 || Improves(dumps, p - 1) then 0 else Streak(dumps, p - 1) + 1
  }

  ghost predicate Stalled(dumps: nat -> Dump, p: nat, retries: nat) {
    Streak(dumps, p) > retries
  }

  /** A stall is `retries + 1` polls in a row none of which beat every poll before it. */
  lemma {:induction false} StalledMeans(dumps: nat -> Dump, p: nat, retries: nat)
    ensures Stalled(dumps, p, retries) <==>
            p > retries && forall i: nat :: p - retries - 1 <= i < p ==> !Improves(dumps, i)
    decreases p, retries
  {
    if p > 0 {
      if Improves(dumps, p - 1) {
        assert p > retries ==> p - retries - 1 <= p - 1 < p;
      } else if retries > 0 {
        StalledMeans(dumps, p - 1, retries - 1);
        assert Stalled(dumps, p, retries) <==> Stalled(dumps, p - 1, retries - 1);
      }
    }
  }

  /** Poll `q` finds everything scrubbed or completes a stall. */
  ghost predicate Decides(dumps: nat -> Dump, q: nat, retries: nat) {
    AllScrubbed(dumps(q)) || Stalled(dumps, q + 1, retries)
  }

  /** None of the first `p` polls found everything scrubbed or ended a stall. */
  ghost predicate Undecided(dumps: nat -> Dump, p: nat, retries: nat) {
    p == 0 || (Undecided(dumps, p - 1, retries) && !Decides(dumps, p - 1, retries))
  }

  lemma {:induction false} UndecidedMeans(dumps: nat -> Dump, p: nat, retries: nat)
    ensures Undecided(dumps, p, retries) <==> forall q: nat :: q < p ==> !Decides(dumps, q, retries)
  {
    if p > 0 {
      UndecidedMeans(dumps, p - 1, retries);
    }
  }

  method CountScrubbed(d: Dump) returns (count: nat, missing: bool)
    ensures count == Good(d) == |Scrubbed(d)| && (missing <==> !AllScrubbed(d))
  {
    count, missing := 0, false;
    for i := 0 to |d|
      invariant count == Good(d[..i]) && (missing <==> exists j :: 0 <= j < i && !d[j])
    {
      assert d[..i + 1][..i] == d[..i];
      if d[i] { count := count + 1; } else { missing := true; }
    }
    assert d[..|d|] == d;
    GoodCounts(d);
  }

  /**
   The polling loop of `osd_scrub_pgs`, over any sequence of dumps of at most `n` groups.
   It ends, within (n + 1) * (retries + 1) polls: at the first poll with every group
   scrubbed, or at the first stall.
   */
  method AwaitScrubs(dumps: nat -> Dump, ghost n: nat, retries: nat) returns (polls: nat, gaveUp: bool)
    requires forall i: nat :: |dumps(i)| <= n
    ensures 1 <= polls <= (n + 1) * (retries + 1)
    ensures gaveUp <==> Stalled(dumps, polls, retries)
    ensures !gaveUp ==> AllScrubbed(dumps(polls - 1))
    ensures forall q: nat :: q < polls - 1 ==> !Decides(dumps, q, retries)
  {
    polls, gaveUp := PollScrubs(dumps, n, retries);
    BudgetIsProduct(n + 1, retries);
    UndecidedMeans(dumps, polls - 1, retries);
  }

  method PollScrubs(dumps: nat -> Dump, ghost n: nat, retries: nat) returns (polls: nat, gaveUp: bool)
    requires forall i: nat :: |dumps(i)| <= n
    ensures 1 <= polls <= Budget(n + 1, retries)
    ensures gaveUp <==> Stalled(dumps, polls, retries)
    ensures !gaveUp ==> AllScrubbed(dumps(polls - 1))
    ensures Undecided(dumps, polls - 1, retries)
  {
    var prevGood, gap := 0, 0;
    polls := 0;
    var loop := true;
    while loop
      invariant prevGood == Best(dumps, polls) <= n && gap <= retries
      invariant polls <= Budget(prevGood, retries) + gap
      invariant gap == Streak(dumps, polls)
      invariant if loop then Undecided(dumps, polls, retries)
                else polls > 0 && Undecided(dumps, polls - 1, retries)
                     && AllScrubbed(dumps(polls - 1)) && !Stalled(dumps, polls, retries)
      decreases loop, n - prevGood, retries - gap
    {
      var count;
      count, loop := CountScrubbed(dumps(polls));
      polls := polls + 1;
      if count > prevGood {
        BudgetGrows(prevGood, count, retries);
        prevGood, gap := count, 0;
      } else {
        gap := gap + 1;
        if gap > retries {
          BudgetGrows(prevGood, n + 1, retries);
          return polls, true;
        }
      }
    }
    BudgetGrows(prevGood, n + 1, retries);
    return polls, false;
  }

  /** Polls affordable before the count must have reached `good`. */
  ghost function Budget(good: nat, retries: nat): nat {
    if good == 0 then 0 else Budget(good - 1, retries) + retries + 1
  }

  lemma {:induction false} BudgetGrows(a: nat, b: nat, retries: nat)
    requires a < b
    ensures Budget(a, retries) + retries + 1 <= Budget(b, retries)
  {
    if a < b - 1 {
      BudgetGrows(a, b - 1, retries);
    }
  }

  lemma {:induction false} BudgetIsProduct(a: nat, retries: nat)
    ensures Budget(a, retries) == a * (retries + 1)
  {
    if a > 0 {
      BudgetIsProduct(a - 1, retries);
      assert a * (retries + 1) == (a - 1) * (retries + 1) + (retries + 1);
    }
  }

  const RESEND_TIMEOUT := 120
  const FATAL_TIMEOUT := 360
  const SLEEP_TIME := 10

  /**
   `do_pg_scrub`: `stamp(i)` is what the i-th check reads. It returns at the first changed
   stamp, and fails exactly when 37 checks in a row still read the initial one. By then it
   has slept ten seconds a turn and sent a request at every full two minutes, from the first.
   */
  method DoPgScrub(init: string, stamp: nat -> string) returns (turns: nat, sentAt: seq<int>, ok: bool)
    ensures turns <= 36 && |sentAt| == (turns + 11) / 12 && forall i :: 0 <= i < |sentAt| ==> sentAt[i] == 120 * i
    ensures forall t :: t in sentAt <==> 0 <= t < 10 * turns && t % 120 == 0
    ensures forall i: nat :: i < turns ==> stamp(i) == init
    ensures ok <==> stamp(turns) != init
    ensures !ok ==> turns == 36
  {
    var timer := 0;
    turns, sentAt := 0, [];
    while stamp(turns) == init
      invariant timer == SLEEP_TIME * turns && turns <= 36
      invariant |sentAt| == (turns + 11) / 12 && forall i :: 0 <= i < |sentAt| ==> sentAt[i] == 120 * i
      invariant forall t :: t in sentAt <==> 0 <= t < 10 * turns && t % 120 == 0
      invariant forall i: nat :: i < turns ==> stamp(i) == init
      decreases 36 - turns
    {
      if !(timer < FATAL_TIMEOUT) { return turns, sentAt, false; }
      if timer % RESEND_TIMEOUT == 0 {
        sentAt := sentAt + [timer];
      }
      timer := timer + SLEEP_TIME;
      turns := turns + 1;
    }
    return turns, sentAt, true;
  }
}
