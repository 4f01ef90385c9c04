/**
 The waits whose timeout restarts on progress: `wait_for_clean`, `wait_for_recovery`,
 `wait_for_active` and `wait_for_active_or_down`, over an arbitrary trace of polls.
 */
module ProgressWaits {
  import opened PyLists

  /**
   One turn of the loop. `checkedAt` is the time compared with the timeout, `resetAt` the
   time stored on recovery progress, `countedAt` the time stored when the count changed.
   A wait that does not look at recovery progress has `progress` false throughout.
   */
  datatype Poll = Poll(finished: bool, progress: bool, count: int,
                       checkedAt: real, resetAt: real, countedAt: real)

  /** Finished at poll k, timed out at poll k, or still waiting when the trace ends. */
  datatype Outcome = Finished(k: nat) | TimedOut(k: nat) | Waiting

  datatype Wait = Wait(startedAt: real, firstCount: int, timeout: Option<real>, polls: seq<Poll>) {

    function CountBefore(k: nat): int
      requires k <= |polls|
    {
      if k == 0 then firstCount else polls[k - 1].count
    }

    predicate Changed(k: nat)
      requires k < |polls|
    {
      polls[k].count != CountBefore(k)
    }

    /** Poll k restarts the clock. */
    predicate Reset(k: nat)
      requires k < |polls|
    {
      Changed(k) || (timeout.Some? && polls[k].progress)
    }

    function ResetTime(k: nat): real
      requires k < |polls|
    {
      if Changed(k) then polls[k].countedAt else polls[k].resetAt
    }

    /** The clock that poll k is measured against was started at `s`, and nothing restarted it since. */
    ghost predicate Since(k: nat, s: real)
      requires k <= |polls|
    {
      || (s == startedAt && forall i :: 0 <= i < k ==> !Reset(i))
      || (exists j :: 0 <= j < k && Reset(j) && s == ResetTime(j) && forall i :: j < i < k ==> !Reset(i))
    }

    /** Poll k sees no progress, and a whole timeout has passed since the last restart. */
    ghost predicate Expired(k: nat)
      requires k < |polls|
    {
      && timeout.Some? && !polls[k].finished && !polls[k].progress
      && exists s :: Since(k, s) && polls[k].checkedAt - s >= timeout.value
    }

    ghost predicate Verdict(o: Outcome) {
      match o
      case Finished(k) => k < |polls| && polls[k].finished
                          && forall i :: 0 <= i < k ==> !polls[i].finished && !Expired(i)
      case TimedOut(k) => k < |polls| && Expired(k)
                          && forall i :: 0 <= i < k ==> !polls[i].finished && !Expired(i)
      case Waiting => forall i :: 0 <= i < |polls| ==> !polls[i].finished && !Expired(i)
    }

    /** Times never run backwards, and consecutive turns are three seconds apart. */
    ghost predicate Timed() {
      && (polls != [] ==> startedAt <= polls[0].checkedAt)
      && (forall i :: 0 <= i < |polls| ==> polls[i].checkedAt <= polls[i].resetAt <= polls[i].countedAt)
      && (forall i :: 0 < i < |polls| ==> polls[i - 1].countedAt + 3.0 <= polls[i].checkedAt)
    }

    function Resets(n: nat): nat
      requires n <= |polls|
    {
      if n == 0 then 0 else Resets(n - 1) + (if Reset(n - 1) then 1 else 0)
    }
  }

  /** The loop itself. */
  method WaitFor(w: Wait) returns (o: Outcome)
    ensures w.Verdict(o)
  {
    var start, num := w.startedAt, w.firstCount;
    var k := 0;
    while k < |w.polls|
      invariant 0 <= k <= |w.polls|
      invariant num == w.CountBefore(k) && w.Since(k, start)
      invariant forall i :: 0 <= i < k ==> !w.polls[i].finished && !w.Expired(i)
    {
      var p := w.polls[k];
      if p.finished { return Finished(k); }
      SinceUnique(w, k, start);
      ghost var was := start;
      if w.timeout.Some? {
        if p.progress {
          start := p.resetAt;
        } else if p.checkedAt - start >= w.timeout.value {
          return TimedOut(k);
        }
      }
      if p.count != num {
        start, num := p.countedAt, p.count;
      }
      SinceNext(w, k, was, start);
      k := k + 1;
    }
    return Waiting;
  }

  lemma SinceUnique(w: Wait, k: nat, s: real)
    requires k <= |w.polls| && w.Since(k, s)
    ensures forall t :: w.Since(k, t) ==> t == s
  {
  }

  lemma SinceNext(w: Wait, k: nat, s: real, t: real)
    requires k < |w.polls| && w.Since(k, s) && t == (if w.Reset(k) then w.ResetTime(k) else s)
    ensures w.Since(k + 1, t)
  {
  }

  /** The trace decides the outcome: no two verdicts fit it. */
  lemma VerdictUnique(w: Wait, o: Outcome, o': Outcome)
    requires w.Verdict(o) && w.Verdict(o')
    ensures o == o'
  {
  }

  /** Poll `i` reads another count than the one before it. */
  ghost predicate Moved(w: Wait, i: nat)
    requires i < |w.polls|
  {
    w.polls[i].count != (if i == 0 then w.firstCount else w.polls[i - 1].count)
  }

  /**
   When a poll expires, said of the polls themselves: it sees neither completion nor progress,
   and the start, every earlier progress and every earlier change of the count all lie a
   whole timeout back.
   */
  lemma ExpiredExactly(w: Wait, k: nat)
    requires w.Timed() && k < |w.polls|
    ensures w.Expired(k) <==>
            && w.timeout.Some? && !w.polls[k].finished && !w.polls[k].progress
            && w.polls[k].checkedAt - w.startedAt >= w.timeout.value
            && (forall i :: 0 <= i < k && w.polls[i].progress ==> w.polls[k].checkedAt - w.polls[i].resetAt >= w.timeout.value)
            && (forall i :: 0 <= i < k && Moved(w, i) ==> w.polls[k].checkedAt - w.polls[i].countedAt >= w.timeout.value)
  {
    if w.timeout.Some? {
      var j := LastReset(w, k);
      var s := if j == 0 then w.startedAt else w.ResetTime(j - 1);
      assert w.Since(k, s);
      SinceUnique(w, k, s);
      if j == 0 {
        forall i | 0 <= i < k ensures !w.polls[i].progress && !Moved(w, i) {
          assert !w.Reset(i);
        }
      } else {
        StartsFirst(w, j - 1);
        forall i | 0 <= i < k && w.Reset(i) ensures w.polls[i].resetAt <= s && (Moved(w, i) ==> w.polls[i].countedAt <= s) {
          if i < j - 1 { TimePasses(w, i, j - 1); }
        }
        assert w.Reset(j - 1) && (if Moved(w, j - 1) then s == w.polls[j - 1].countedAt else s == w.polls[j - 1].resetAt);
        forall i | 0 <= i < k && (Moved(w, i) || w.polls[i].progress) ensures w.Reset(i) {
        }
      }
    }
  }

  lemma StartsFirst(w: Wait, j: nat)
    requires w.Timed() && j < |w.polls|
    ensures w.startedAt <= w.polls[j].checkedAt
  {
    TimePasses(w, 0, j);
  }

  /** A timeout means silence: from poll `j` on, when the clock last started, nothing moved for a whole timeout. */
  lemma TimeoutMeansSilence(w: Wait, k: nat) returns (j: nat)
    requires w.Verdict(TimedOut(k))
    ensures j <= k && (j > 0 ==> Moved(w, j - 1) || w.polls[j - 1].progress)
    ensures w.polls[k].checkedAt
            - (if j == 0 then w.startedAt else if Moved(w, j - 1) then w.polls[j - 1].countedAt else w.polls[j - 1].resetAt)
            >= w.timeout.value
    ensures forall i :: j <= i <= k ==> !w.polls[i].progress && (i < k ==> !Moved(w, i))
  {
    var s :| w.Since(k, s) && w.polls[k].checkedAt - s >= w.timeout.value;
    if s == w.startedAt && forall i :: 0 <= i < k ==> !w.Reset(i) {
      j := 0;
    } else {
      var l :| 0 <= l < k && w.Reset(l) && s == w.ResetTime(l) && forall i :: l < i < k ==> !w.Reset(i);
      j := l + 1;
    }
    forall i | j <= i <= k ensures !w.polls[i].progress && (i < k ==> !Moved(w, i)) {
      assert i < k ==> !w.Reset(i);
    }
  }

  /** Three seconds pass per turn. */
  lemma {:induction false} TimePasses(w: Wait, i: nat, k: nat)
    requires w.Timed() && i <= k < |w.polls|
    ensures w.polls[k].checkedAt >= w.polls[i].checkedAt + 3.0 * (k - i) as real
    ensures i < k ==> w.polls[k].checkedAt >= w.polls[i].countedAt + 3.0 * (k - i) as real
  {
    if i < k {
      TimePasses(w, i, k - 1);
    }
  }

  ghost predicate Restarts(w: Wait, i: nat)
    requires i < |w.polls|
  {
    Moved(w, i) || (w.timeout.Some? && w.polls[i].progress)
  }

  /** How many polls restart the clock. */
  lemma {:induction false} ResetsCount(w: Wait, n: nat)
    requires n <= |w.polls|
    ensures w.Resets(n) == |set i | 0 <= i < n && Restarts(w, i)|
  {
    if n > 0 {
      ResetsCount(w, n - 1);
      var before := set i | 0 <= i < n - 1 && Restarts(w, i);
      assert (set i | 0 <= i < n && Restarts(w, i)) == if Restarts(w, n - 1) then before + {n - 1} else before;
      assert Restarts(w, n - 1) <==> w.Reset(n - 1);
    }
  }

  lemma {:induction false} NoResetsBetween(w: Wait, j: nat, n: nat)
    requires j <= n <= |w.polls| && forall i :: j <= i < n ==> !w.Reset(i)
    ensures w.Resets(n) == w.Resets(j)
  {
    if j < n {
      NoResetsBetween(w, j, n - 1);
    }
  }

  lemma {:induction false} LastReset(w: Wait, n: nat) returns (j: nat)
    requires n <= |w.polls|
    ensures j <= n && (j > 0 ==> w.Reset(j - 1)) && forall i :: j <= i < n ==> !w.Reset(i)
  {
    if n == 0 || w.Reset(n - 1) {
      j := n;
    } else {
      j := LastReset(w, n - 1);
    }
  }

  lemma OneWindowMore(resets: nat, rounds: nat, j: int, n: int)
    requires j <= (resets + 1) * rounds + 1 && n - j <= rounds
    ensures n <= (resets + 2) * rounds + 1
  {
    assert (resets + 2) * rounds == (resets + 1) * rounds + rounds;
  }

  /**
   Bounded waiting: a loop that has gone round `n` times had at most `rounds` turns per
   restart, where `rounds` is the timeout divided by three seconds, rounded up.
   */
  lemma {:induction false} TurnsAreBounded(w: Wait, n: nat, rounds: nat)
    requires w.Timed() && w.timeout.Some? && w.timeout.value > 0.0
    requires 3.0 * (rounds as real - 1.0) < w.timeout.value <= 3.0 * rounds as real
    requires 1 <= n <= |w.polls|
    requires forall i :: 0 <= i < n ==> !w.polls[i].finished
    requires forall i :: 0 <= i < n - 1 ==> !w.Expired(i)
    ensures n <= (w.Resets(n - 1) + 1) * rounds + 1
    decreases n
  {
    if n >= 2 {
      var j := LastReset(w, n - 1);
      NoResetsBetween(w, j, n - 1);
      WindowIsShort(w, j, n - 2, rounds);
      if j > 0 {
        TurnsAreBounded(w, j, rounds);
        assert w.Resets(n - 1) == w.Resets(j - 1) + 1;
        OneWindowMore(w.Resets(j - 1), rounds, j, n);
      }
    }
  }

  /** A window without restarts, from poll `j` to a poll `k` that does not expire. */
  lemma WindowIsShort(w: Wait, j: nat, k: nat, rounds: nat)
    requires w.Timed() && w.timeout.Some? && w.timeout.value <= 3.0 * rounds as real && rounds >= 1
    requires k < |w.polls| && j <= k + 1 && (j > 0 ==> w.Reset(j - 1)) && forall i :: j <= i <= k ==> !w.Reset(i)
    requires !w.polls[k].finished && !w.Expired(k)
    ensures k + 2 - j <= (if j == 0 then rounds + 1 else rounds)
  {
    if j <= k {
      var s := if j == 0 then w.startedAt else w.ResetTime(j - 1);
      assert !w.Reset(k) && w.Since(k, s);
      assert w.polls[k].checkedAt - s < w.timeout.value;
      if j == 0 {
        TimePasses(w, 0, k);
      } else {
        TimePasses(w, j - 1, k);
      }
    }
  }
}
