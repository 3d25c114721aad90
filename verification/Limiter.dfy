/** The fixed-window rate limiter and the constant-time comparison of src/spore_peer.rs. */
module Limiter {
  import opened Basics

  /** The stored window of one address: a second, and the calls let through in it. */
  datatype Window = Window(second: nat, used: nat)

  type Windows = map<Bytes, Window>

  datatype Call = Call(ip: Bytes, second: nat)

  /** One call of `allow`: the new table, and the answer. */
  function Touch(max: nat, w: Windows, c: Call): (Windows, bool) {
    if max == 0 then (w, true) else
    var e := if c.ip in w then w[c.ip] else Window(c.second, 0);
    if e.second != c.second then (w[c.ip := Window(c.second, 1)], true)
    else if e.used >= max then (w[c.ip := e], false)
    else (w[c.ip := Window(c.second, e.used + 1)], true)
  }

  function Replay(max: nat, calls: seq<Call>): Windows {
    if calls == [] then map[] else
    Touch(max, Replay(max, calls[..|calls| - 1]), calls[|calls| - 1]).0
  }

  /** All calls of `ip` in second `t`. */
  function Hits(calls: seq<Call>, ip: Bytes, t: nat): nat {
    if calls == [] then 0 else
    Hits(calls[..|calls| - 1], ip, t) + if calls[|calls| - 1] == Call(ip, t) then 1 else 0
  }

  /** The calls of `ip` since it was last seen in a second other than `t`. */
  function Streak(calls: seq<Call>, ip: Bytes, t: nat): nat {
    if calls == [] then 0 else
    var last := calls[|calls| - 1];
    if last.ip != ip then Streak(calls[..|calls| - 1], ip, t)
    else if last.second == t then 1 + Streak(calls[..|calls| - 1], ip, t)
    else 0
  }

  /** What the stored window of `ip` knows about the history. */
  ghost predicate Remembers(max: nat, w: Windows, calls: seq<Call>, ip: Bytes) {
    forall t: nat :: Streak(calls, ip, t) >= 0 &&
      if ip in w && w[ip].second == t
      then Streak(calls, ip, t) >= 1 && w[ip].used == Min(max, Streak(calls, ip, t))
      else Streak(calls, ip, t) == 0
  }

  lemma {:induction false} ReplayRemembers(max: nat, calls: seq<Call>, ip: Bytes)
    requires max >= 1
    ensures Remembers(max, Replay(max, calls), calls, ip)
  {
    if calls != [] {
      ReplayRemembers(max, calls[..|calls| - 1], ip);
    }
  }

  /** On any history at all: a call passes exactly when its streak is below the limit. */
  lemma AllowExactly(max: nat, calls: seq<Call>, c: Call)
    ensures Touch(max, Replay(max, calls), c).1 <==> max == 0 || Streak(calls, c.ip, c.second) < max
  {
    if max >= 1 {
      ReplayRemembers(max, calls, c.ip);
      assert Streak(calls, c.ip, c.second) >= 0;
    }
  }

  /** The clock never goes back for `ip`, and is at most `t` at the end. */
  predicate Ordered(calls: seq<Call>, ip: Bytes, t: nat) {
    calls == [] ||
    var last := calls[|calls| - 1];
    if last.ip == ip then last.second <= t && Ordered(calls[..|calls| - 1], ip, last.second)
    else Ordered(calls[..|calls| - 1], ip, t)
  }

  lemma {:induction false} NoHitsBefore(calls: seq<Call>, ip: Bytes, t: nat, later: nat)
    requires Ordered(calls, ip, t) && t < later
    ensures Hits(calls, ip, later) == 0
  {
    if calls != [] {
      var last := calls[|calls| - 1];
      NoHitsBefore(calls[..|calls| - 1], ip, if last.ip == ip then last.second else t, later);
    }
  }

  lemma {:induction false} StreakIsHits(calls: seq<Call>, ip: Bytes, t: nat)
    requires Ordered(calls, ip, t)
    ensures Streak(calls, ip, t) == Hits(calls, ip, t)
  {
    if calls != [] {
      var last, before := calls[|calls| - 1], calls[..|calls| - 1];
      if last.ip == ip && last.second < t {
        NoHitsBefore(before, ip, last.second, t);
      } else {
        StreakIsHits(before, ip, t);
      }
    }
  }

  /**
   * One window per address refines the full history: with a clock that never goes back for this
   * address, a call passes exactly when fewer than `max` earlier calls fell in the same second.
   */
  lemma LimiterRefinesHistory(max: nat, calls: seq<Call>, c: Call)
    requires Ordered(calls, c.ip, c.second)
    ensures Touch(max, Replay(max, calls), c).1 <==> max == 0 || Hits(calls, c.ip, c.second) < max
  {
    AllowExactly(max, calls, c);
    StreakIsHits(calls, c.ip, c.second);
  }

  lemma {:induction false} StreakAtMostHits(calls: seq<Call>, ip: Bytes, t: nat)
    ensures Streak(calls, ip, t) <= Hits(calls, ip, t)
  {
    if calls != [] {
      StreakAtMostHits(calls[..|calls| - 1], ip, t);
    }
  }

  /**
   * On any history, the clock going anywhere: the answer is that of the full history exactly when the
   * history is not full in that second, or is full since the address was last seen in another.
   */
  lemma AgreesWithHistoryExactly(max: nat, calls: seq<Call>, c: Call)
    ensures Touch(max, Replay(max, calls), c).1 == (max == 0 || Hits(calls, c.ip, c.second) < max)
            <==> max == 0 || Hits(calls, c.ip, c.second) < max || Streak(calls, c.ip, c.second) >= max
  {
    hide Touch;
    AllowExactly(max, calls, c);
    StreakAtMostHits(calls, c.ip, c.second);
  }

  /** A clock that goes back gives the address a fresh window: the refinement then fails. */
  lemma BackwardClockRefreshes(ip: Bytes)
    ensures var calls := [Call(ip, 1), Call(ip, 2)];
            !Ordered(calls, ip, 1) && Hits(calls, ip, 1) == 1 && Touch(1, Replay(1, calls), Call(ip, 1)).1
  {
    var one, two := [Call(ip, 1)], [Call(ip, 1), Call(ip, 2)];
    assert two[..1] == one && one[..0] == [];
    assert Hits([], ip, 1) == 0 && Hits(one, ip, 1) == 1;
    AllowExactly(1, two, Call(ip, 1));
    assert Streak(two, ip, 1) == 0;
  }

  class RateLimiter {
    const max: nat
    var wins: Windows
    ghost var history: seq<Call>

    ghost predicate Valid()
      reads this
    {
      wins == Replay(max, history)
    }

    constructor (max: nat)
      ensures Valid() && this.max == max && history == []
    {
      this.max := max;
      wins := map[];
      history := [];
    }

    method Allow(ip: Bytes, nowSec: nat) returns (ok: bool)
      requires Valid()
      modifies this
      ensures Valid() && history == old(history) + [Call(ip, nowSec)]
      ensures (wins, ok) == Touch(max, old(wins), Call(ip, nowSec))
      ensures ok <==> max == 0 || Streak(old(history), ip, nowSec) < max
      ensures Ordered(old(history), ip, nowSec) ==> (ok <==> max == 0 || Hits(old(history), ip, nowSec) < max)
    {
      ghost var c := Call(ip, nowSec);
      AllowExactly(max, history, c);
      if Ordered(history, ip, nowSec) {
        StreakIsHits(history, ip, nowSec);
      }
      assert (history + [c])[..|history|] == history;
      history := history + [c];
      if max == 0 {
        return true;
      }
      if ip !in wins {
        wins := wins[ip := Window(nowSec, 0)];
      }
      var e := wins[ip];
      if e.second != nowSec {
        wins := wins[ip := Window(nowSec, 1)];
        return true;
      }
      if e.used >= max {
        assert ip in old(wins) && wins == old(wins)[ip := e];
        return false;
      }
      wins := wins[ip := Window(nowSec, e.used + 1)];
      assert wins == old(wins)[ip := Window(nowSec, e.used + 1)];
      ok := true;
    }
  }

  // --- ct_eq ---

  /** The low `k` bits of `x ^ y`, and of `x | y`. */
  function Xor(x: nat, y: nat, k: nat): nat {
    if k == 0 then 0 else 2 * Xor(x / 2, y / 2, k - 1) + if x % 2 != y % 2 then 1 else 0
  }

  function Or(x: nat, y: nat, k: nat): nat {
    if k == 0 then 0 else 2 * Or(x / 2, y / 2, k - 1) + if x % 2 == 1 || y % 2 == 1 then 1 else 0
  }

  function Pow2(k: nat): nat {
    if k == 0 then 1 else 2 * Pow2(k - 1)
  }

  lemma {:induction false} XorZero(x: nat, y: nat, k: nat)
    requires x < Pow2(k) && y < Pow2(k)
    ensures Xor(x, y, k) == 0 <==> x == y
    ensures Xor(x, y, k) < Pow2(k)
  {
    if k > 0 {
      XorZero(x / 2, y / 2, k - 1);
    }
  }

  lemma {:induction false} OrZero(x: nat, y: nat, k: nat)
    requires x < Pow2(k) && y < Pow2(k)
    ensures Or(x, y, k) == 0 <==> x == 0 && y == 0
    ensures Or(x, y, k) < Pow2(k)
  {
    if k > 0 {
      OrZero(x / 2, y / 2, k - 1);
    }
  }

  lemma EightBits()
    ensures Pow2(8) == 256
  {
    assert Pow2(4) == 2 * Pow2(3) == 16;
    assert Pow2(8) == 2 * Pow2(7) && Pow2(7) == 2 * Pow2(6) && Pow2(6) == 2 * Pow2(5) && Pow2(5) == 2 * Pow2(4);
  }

  /** No early exit on a differing byte, and still exactly equality. */
  method CtEq(a: Bytes, b: Bytes) returns (same: bool)
    ensures same <==> a == b
  {
    hide Xor, Or, Pow2;
    EightBits();
    if |a| != |b| {
      return false;
    }
    var d: nat := 0;
    for i := 0 to |a|
      invariant d < Pow2(8)
      invariant d == 0 <==> a[..i] == b[..i]
    {
      XorZero(a[i], b[i], 8);
      OrZero(d, Xor(a[i], b[i], 8), 8);
      assert a[..i + 1] == a[..i] + [a[i]] && b[..i + 1] == b[..i] + [b[i]];
      d := Or(d, Xor(a[i], b[i], 8), 8);
    }
    assert a[..|a|] == a && b[..|b|] == b;
    same := d == 0;
  }
}
