/**
  The best-value scan of the driver-laps deep-dive page: a running best that
  starts at a sentinel (+Infinity when looking for the lowest value,
  -Infinity for the highest) and is replaced only by a strictly better value,
  together with the index of the lap that set it.
 */
module BestScan {
  import opened Wrappers
  import opened JsNumber

  datatype Goal = Lowest | Highest

  /** `x < best` for times, `x > best` for speeds. */
  predicate Beats(goal: Goal, x: Num, best: Num) {
    match goal
    case Lowest => Lt(x, best)
    case Highest => Gt(x, best)
  }

  /** The starting value of a running best: `Infinity` or `-Infinity`. */
  function Sentinel(goal: Goal): Num {
    match goal
    case Lowest => PosInf
    case Highest => NegInf
  }

  /** A running best and the index of the value that set it (None while the
      sentinel is still standing). */
  datatype Best = Best(value: Num, owner: Option<nat>)

  /** One iteration of the scan: value x at index i replaces the best only
      when it is strictly better. */
  function Step(goal: Goal, b: Best, x: Num, i: nat): Best {
    if Beats(goal, x, b.value) then Best(x, Some(i)) else b
  }

  /** The scan over vals, in order. */
  function Scan(goal: Goal, vals: seq<Num>): (r: Best)
    ensures r.owner.Some? ==> r.owner.value < |vals|
  {
    if vals == [] then Best(Sentinel(goal), None)
    else Step(goal, Scan(goal, vals[..|vals| - 1]), vals[|vals| - 1], |vals| - 1)
  }

  /** What the scan promises, independent of how it runs:
      - the best is never NaN, and no value is strictly better than it;
      - the sentinel survives (with no owner) exactly when no value beats it;
      - otherwise the owner holds the best, beats the sentinel, and is the
        first index holding that value. */
  predicate ScanFacts(goal: Goal, vals: seq<Num>, r: Best) {
    && !r.value.NaN?
    && (forall i :: 0 <= i < |vals| ==> !Beats(goal, vals[i], r.value))
    && (r.owner.None? <==> forall i :: 0 <= i < |vals| ==> !Beats(goal, vals[i], Sentinel(goal)))
    && (r.owner.None? ==> r.value == Sentinel(goal))
    && (r.owner.Some? ==>
          && r.owner.value < |vals|
          && vals[r.owner.value] == r.value
          && Beats(goal, r.value, Sentinel(goal))
          && forall j :: 0 <= j < r.owner.value ==> vals[j] != r.value)
  }

  lemma {:induction false} ScanSpec(goal: Goal, vals: seq<Num>)
    ensures ScanFacts(goal, vals, Scan(goal, vals))
  {
    if vals != [] {
      var init, x := vals[..|vals| - 1], vals[|vals| - 1];
      ScanSpec(goal, init);
      assert vals == init + [x];
      ScanFactsStep(goal, init, x, Scan(goal, init));
    }
  }

  lemma ScanFactsStep(goal: Goal, init: seq<Num>, x: Num, b: Best)
    requires ScanFacts(goal, init, b)
    ensures ScanFacts(goal, init + [x], Step(goal, b, x, |init|))
  {
    var vals := init + [x];
    assert forall i :: 0 <= i < |init| ==> vals[i] == init[i];
    if Beats(goal, x, b.value) {
      forall i | 0 <= i < |init|
        ensures !Beats(goal, vals[i], x) && vals[i] != x
      {
        NotBeatenAfter(goal, vals[i], x, b.value);
      }
      if b.owner.Some? {
        BeatsTransitive(goal, x, b.value, Sentinel(goal));
      }
      assert vals[|init|] == x;
    } else if b.owner.Some? {
      assert vals[b.owner.value] == init[b.owner.value];
    }
  }

  /** A value that did not beat the old best does not beat (nor equal) a
      value that did. */
  lemma NotBeatenAfter(goal: Goal, v: Num, x: Num, b: Num)
    requires Beats(goal, x, b) && !Beats(goal, v, b)
    ensures !Beats(goal, v, x) && v != x
  {
    if goal == Lowest {
      if Lt(v, x) {
        LtTransitive(v, x, b);
      }
    } else {
      if Lt(x, v) {
        LtTransitive(b, x, v);
      }
    }
  }

  lemma BeatsTransitive(goal: Goal, a: Num, b: Num, c: Num)
    requires Beats(goal, a, b) && Beats(goal, b, c)
    ensures Beats(goal, a, c)
  {
    if goal == Lowest {
      LtTransitive(a, b, c);
    } else {
      LtTransitive(c, b, a);
    }
  }

  /** Extending the input by one value is one more step of the scan. */
  lemma ScanPrefix(goal: Goal, vals: seq<Num>, i: nat)
    requires i < |vals|
    ensures Scan(goal, vals[..i + 1]) == Step(goal, Scan(goal, vals[..i]), vals[i], i)
  {
    assert vals[..i + 1][..i] == vals[..i];
  }

  /** Scanning one more value at the end is one more step. */
  lemma ScanSnoc(goal: Goal, vals: seq<Num>, x: Num)
    ensures Scan(goal, vals + [x]) == Step(goal, Scan(goal, vals), x, |vals|)
  {
    assert (vals + [x])[..|vals|] == vals;
  }

  /** For values that are not NaN, "nothing beats the best" means the best is
      at most (at least) every one of them. */
  lemma BestBounds(goal: Goal, vals: seq<Num>, i: nat)
    requires i < |vals| && !vals[i].NaN?
    ensures var b := Scan(goal, vals).value;
      goal == Lowest ==> Lt(b, vals[i]) || b == vals[i]
    ensures var b := Scan(goal, vals).value;
      goal == Highest ==> Lt(vals[i], b) || b == vals[i]
  {
    ScanSpec(goal, vals);
    LtTrichotomy(Scan(goal, vals).value, vals[i]);
  }
}
