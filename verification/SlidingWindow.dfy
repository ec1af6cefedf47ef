/**
 * The sliding-window counter that the policy engine and the registration challenges share: a list of
 * times, pruned at every use, that admits an action while fewer than `max` lie in the last `window`.
 */
module SlidingWindow {

  /** A use at some time; a dry one is answered but not recorded. */
  datatype Op = Op(now: real, dry: bool)

  /** The times after a cutoff. */
  function After(ts: seq<real>, cutoff: real): (r: seq<real>)
    ensures |r| <= |ts|
  {
    if ts == [] then []
    else (if ts[0] > cutoff then [ts[0]] else []) + After(ts[1..], cutoff)
  }

  predicate Admits(ts: seq<real>, max: int, window: real, now: real) {
    |After(ts, now - window)| < max
  }

  /** What the code keeps: the list is pruned first, and the time added when the use counts. */
  function Use(ts: seq<real>, max: int, window: real, op: Op): seq<real> {
    var recent := After(ts, op.now - window);
    if |recent| < max && !op.dry then recent + [op.now] else recent
  }

  function Kept(max: int, window: real, ops: seq<Op>): seq<real> {
    if ops == [] then [] else Use(Kept(max, window, ops[..|ops| - 1]), max, window, ops[|ops| - 1])
  }

  /** The reference: the times of all counted uses, never pruned. */
  function History(max: int, window: real, ops: seq<Op>): seq<real> {
    if ops == [] then []
    else
      var before := History(max, window, ops[..|ops| - 1]);
      var op := ops[|ops| - 1];
      if Admits(before, max, window, op.now) && !op.dry then before + [op.now] else before
  }

  predicate Chronological(ops: seq<Op>) {
    forall i, j | 0 <= i < j < |ops| :: ops[i].now <= ops[j].now
  }

  // ----- pruning loses nothing -----

  lemma {:induction false} AfterConcat(s: seq<real>, t: seq<real>, cutoff: real)
    ensures After(s + t, cutoff) == After(s, cutoff) + After(t, cutoff)
  {
    if s == [] {
      assert s + t == t;
    } else {
      assert (s + t)[1..] == s[1..] + t;
      AfterConcat(s[1..], t, cutoff);
    }
  }

  lemma {:induction false} AfterAfter(ts: seq<real>, a: real, b: real)
    requires a <= b
    ensures After(After(ts, a), b) == After(ts, b)
  {
    if ts != [] {
      AfterAfter(ts[1..], a, b);
      AfterConcat(if ts[0] > a then [ts[0]] else [], After(ts[1..], a), b);
    }
  }

  /** From some cutoff on, both lists look the same. */
  ghost predicate AgreeFrom(s: seq<real>, t: seq<real>, cutoff: real) {
    forall c :: c >= cutoff ==> After(s, c) == After(t, c)
  }

  lemma {:induction false} KeptAgrees(max: int, window: real, ops: seq<Op>, now: real)
    requires Chronological(ops) && (ops != [] ==> ops[|ops| - 1].now <= now)
    ensures AgreeFrom(Kept(max, window, ops), History(max, window, ops), now - window)
    decreases |ops|
  {
    hide After;
    if ops != [] {
      var before, op := ops[..|ops| - 1], ops[|ops| - 1];
      KeptAgrees(max, window, before, op.now);
      var kept, history := Kept(max, window, before), History(max, window, before);
      forall c | c >= now - window ensures After(Kept(max, window, ops), c) == After(History(max, window, ops), c) {
        AfterAfter(kept, op.now - window, c);
        AfterConcat(After(kept, op.now - window), [op.now], c);
        AfterConcat(history, [op.now], c);
      }
    }
  }

  /** The pruned list answers exactly as the full history would. */
  lemma PrunedAnswersAsFull(max: int, window: real, ops: seq<Op>, now: real)
    requires Chronological(ops) && (ops != [] ==> ops[|ops| - 1].now <= now)
    ensures Admits(Kept(max, window, ops), max, window, now) <==> Admits(History(max, window, ops), max, window, now)
  {
    KeptAgrees(max, window, ops, now);
  }

  // ----- the bound -----

  /** The times in the interval (t - window, t]. */
  function InWindow(ts: seq<real>, t: real, window: real): seq<real> {
    if ts == [] then []
    else (if t - window < ts[0] <= t then [ts[0]] else []) + InWindow(ts[1..], t, window)
  }

  lemma {:induction false} InWindowConcat(s: seq<real>, x: real, t: real, window: real)
    ensures InWindow(s + [x], t, window) == InWindow(s, t, window) + (if t - window < x <= t then [x] else [])
  {
    if s == [] {
      assert s + [x] == [x];
    } else {
      assert (s + [x])[1..] == s[1..] + [x];
      InWindowConcat(s[1..], x, t, window);
    }
  }

  lemma {:induction false} InWindowIsRecent(ts: seq<real>, t: real, window: real, now: real)
    requires now <= t
    ensures |InWindow(ts, t, window)| <= |After(ts, now - window)|
  {
    if ts != [] {
      InWindowIsRecent(ts[1..], t, window, now);
    }
  }

  /** However the uses fall, no interval as long as the window holds more than `max` counted ones. */
  lemma {:induction false} WindowBound(max: int, window: real, ops: seq<Op>, t: real)
    ensures |InWindow(History(max, window, ops), t, window)| <= if max > 0 then max else 0
    decreases |ops|
  {
    hide After;
    if ops != [] {
      var before, op := History(max, window, ops[..|ops| - 1]), ops[|ops| - 1];
      WindowBound(max, window, ops[..|ops| - 1], t);
      InWindowConcat(before, op.now, t, window);
      if op.now <= t {
        InWindowIsRecent(before, t, window, op.now);
      }
    }
  }

  // ----- dry uses leave no trace -----

  function Counted(ops: seq<Op>): (r: seq<Op>)
    ensures |r| <= |ops|
  {
    if ops == [] then []
    else Counted(ops[..|ops| - 1]) + (if ops[|ops| - 1].dry then [] else [ops[|ops| - 1]])
  }

  lemma {:induction false} DryUsesLeaveNoTrace(max: int, window: real, ops: seq<Op>)
    ensures History(max, window, Counted(ops)) == History(max, window, ops)
    decreases |ops|
  {
    hide Admits;
    if ops != [] {
      var before, op := ops[..|ops| - 1], ops[|ops| - 1];
      DryUsesLeaveNoTrace(max, window, before);
      if !op.dry {
        assert (Counted(before) + [op])[..|Counted(before)|] == Counted(before);
      } else {
        assert Counted(before) + [] == Counted(before);
      }
    }
  }
}
