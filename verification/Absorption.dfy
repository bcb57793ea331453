/** Closing panes of a split: the share of a closed one goes to its left neighbour, or to the next one
  * when there is none. */
module Absorption {
  /** The sum of the first `n` shares. */
  function SumTo(ratios: seq<real>, n: nat): real
    requires n <= |ratios|
  {
    if n == 0 then 0.0 else SumTo(ratios, n - 1) + ratios[n - 1]
  }

  function Sum(ratios: seq<real>): real {
    SumTo(ratios, |ratios|)
  }

  lemma {:induction false} SumToDependsOnPrefix(a: seq<real>, b: seq<real>, n: nat)
    requires n <= |a| && n <= |b| && forall i :: 0 <= i < n ==> a[i] == b[i]
    ensures SumTo(a, n) == SumTo(b, n)
    decreases n
  {
    if n > 0 {
      SumToDependsOnPrefix(a, b, n - 1);
    }
  }

  /** The sequence without the element at `k`, if there is one. */
  function RemoveAt<T>(s: seq<T>, k: nat): seq<T> {
    if k < |s| then seq(|s| - 1, i requires 0 <= i < |s| - 1 => if i < k then s[i] else s[i + 1]) else s
  }

  /** What is left from position `n` on. */
  function Tail<T>(s: seq<T>, n: nat): seq<T> {
    if n < |s| then seq(|s| - n, i requires 0 <= i < |s| - n => s[n + i]) else []
  }

  function AddAt(ratios: seq<real>, k: nat, more: real): seq<real> {
    seq(|ratios|, i requires 0 <= i < |ratios| => if i == k then ratios[i] + more else ratios[i])
  }

  /** Closes the one at `at`, as the program does it; shares that are missing are left alone. */
  function RemoveAndAbsorb(ratios: seq<real>, at: nat): seq<real> {
    if at < |ratios| then AddAt(RemoveAt(ratios, at), if at > 0 then at - 1 else 0, ratios[at]) else ratios
  }

  // ----- all closings at once -----

  /** How many of the first `n` are not marked. */
  function Survivors(drop: seq<bool>, n: nat): (count: nat)
    requires n <= |drop|
    ensures count <= n
  {
    if n == 0 then 0 else Survivors(drop, n - 1) + (if drop[n - 1] then 0 else 1)
  }

  /** The shares of the survivors so far, and what was closed before the first of them. */
  datatype Shares = Shares(kept: seq<real>, carry: real)

  /** One more: a survivor takes over what was closed before it, a closed one goes to the survivor before it. */
  function Next(s: Shares, drop: bool, ratio: real): Shares {
    if !drop then Shares(s.kept + [s.carry + ratio], 0.0)
    else if s.kept == [] then Shares([], s.carry + ratio)
    else Shares(s.kept[|s.kept| - 1 := s.kept[|s.kept| - 1] + ratio], s.carry)
  }

  function Settled(drop: seq<bool>, ratios: seq<real>, n: nat): Shares
    requires n <= |drop|
  {
    if n == 0 then Shares([], 0.0)
    else
      var earlier := Settled(drop, ratios, n - 1);
      if n <= |ratios| then Next(earlier, drop[n - 1], ratios[n - 1]) else earlier
  }

  function Whole(s: Shares, rest: seq<real>): seq<real> {
    s.kept + AddAt(rest, 0, s.carry)
  }

  /** The shares once the first `n` marks have been dealt with, from left to right. */
  function AbsorbTo(drop: seq<bool>, ratios: seq<real>, n: nat): seq<real>
    requires n <= |drop|
  {
    Whole(Settled(drop, ratios, n), Tail(ratios, n))
  }

  /** The shares after all the marked ones have been closed; those past the marks stay. */
  function Absorb(drop: seq<bool>, ratios: seq<real>): seq<real> {
    AbsorbTo(drop, ratios, |drop|)
  }

  lemma AbsorbNothing(drop: seq<bool>, ratios: seq<real>)
    ensures AbsorbTo(drop, ratios, 0) == ratios
  {
  }

  lemma {:induction false} SettledShape(drop: seq<bool>, ratios: seq<real>, n: nat)
    requires n <= |drop|
    ensures n <= |ratios| ==> |Settled(drop, ratios, n).kept| == Survivors(drop, n)
    ensures |Settled(drop, ratios, n).kept| <= Survivors(drop, n)
    ensures Settled(drop, ratios, n).kept != [] ==> Settled(drop, ratios, n).carry == 0.0
    decreases n
  {
    if n > 0 {
      SettledShape(drop, ratios, n - 1);
    }
  }

  lemma TailSplits<T>(s: seq<T>, n: nat)
    requires n < |s|
    ensures Tail(s, n) == [s[n]] + Tail(s, n + 1)
  {
    var split := [s[n]] + Tail(s, n + 1);
    assert |Tail(s, n)| == |split|;
    forall i | 0 <= i < |split| ensures Tail(s, n)[i] == split[i] {
    }
  }

  lemma WholeAfterKeeping(s: Shares, ratio: real, rest: seq<real>)
    ensures Whole(Next(s, false, ratio), rest) == Whole(s, [ratio] + rest)
  {
  }

  lemma DroppingAtStart(carry: real, ratio: real, rest: seq<real>)
    ensures AddAt(rest, 0, carry + ratio) == RemoveAndAbsorb(AddAt([ratio] + rest, 0, carry), 0)
  {
    assert RemoveAt(AddAt([ratio] + rest, 0, carry), 0) == rest;
  }

  lemma DroppingLater(kept: seq<real>, ratio: real, rest: seq<real>)
    requires kept != []
    ensures kept[|kept| - 1 := kept[|kept| - 1] + ratio] + rest == RemoveAndAbsorb(kept + ([ratio] + rest), |kept|)
  {
    assert RemoveAt(kept + ([ratio] + rest), |kept|) == kept + rest;
  }

  lemma AddNothing(ratios: seq<real>, k: nat)
    ensures AddAt(ratios, k, 0.0) == ratios
  {
  }

  lemma WholeOfNothing(s: Shares, rest: seq<real>)
    requires s.kept == []
    ensures Whole(s, rest) == AddAt(rest, 0, s.carry)
  {
  }

  lemma WholeWithoutCarry(s: Shares, rest: seq<real>)
    requires s.carry == 0.0
    ensures Whole(s, rest) == s.kept + rest
  {
    AddNothing(rest, 0);
  }

  lemma WholeAfterDropping(s: Shares, ratio: real, rest: seq<real>)
    requires s.kept != [] ==> s.carry == 0.0
    ensures Whole(Next(s, true, ratio), rest) == RemoveAndAbsorb(Whole(s, [ratio] + rest), |s.kept|)
  {
    if s.kept == [] {
      DroppingAtStart(s.carry, ratio, rest);
      WholeOfNothing(s, [ratio] + rest);
      WholeOfNothing(Next(s, true, ratio), rest);
    } else {
      DroppingLater(s.kept, ratio, rest);
      WholeWithoutCarry(s, [ratio] + rest);
      WholeWithoutCarry(Next(s, true, ratio), rest);
    }
  }

  /** One mark more: a survivor changes nothing; closing is what the program does to the shares as they
    * stand by then. */
  lemma AbsorbStep(drop: seq<bool>, ratios: seq<real>, n: nat)
    requires n < |drop|
    ensures AbsorbTo(drop, ratios, n + 1)
         == if drop[n] then RemoveAndAbsorb(AbsorbTo(drop, ratios, n), Survivors(drop, n)) else AbsorbTo(drop, ratios, n)
  {
    SettledShape(drop, ratios, n);
    if n < |ratios| {
      TailSplits(ratios, n);
      if drop[n] {
        WholeAfterDropping(Settled(drop, ratios, n), ratios[n], Tail(ratios, n + 1));
      } else {
        WholeAfterKeeping(Settled(drop, ratios, n), ratios[n], Tail(ratios, n + 1));
      }
    }
  }

  // ----- nothing is lost -----

  lemma NextAddsToSum(s: Shares, drop: bool, ratio: real)
    ensures Sum(Next(s, drop, ratio).kept) + Next(s, drop, ratio).carry == Sum(s.kept) + s.carry + ratio
  {
    var next := Next(s, drop, ratio).kept;
    if !drop {
      SumToDependsOnPrefix(s.kept, next, |s.kept|);
    } else if s.kept != [] {
      SumToDependsOnPrefix(s.kept, next, |s.kept| - 1);
    }
  }

  lemma {:induction false} SettledSum(drop: seq<bool>, ratios: seq<real>, n: nat)
    requires n <= |drop| && n <= |ratios|
    ensures Sum(Settled(drop, ratios, n).kept) + Settled(drop, ratios, n).carry == SumTo(ratios, n)
    decreases n
  {
    if n > 0 {
      SettledSum(drop, ratios, n - 1);
      NextAddsToSum(Settled(drop, ratios, n - 1), drop[n - 1], ratios[n - 1]);
    }
  }

  lemma {:induction false} SomeSurvive(drop: seq<bool>, n: nat)
    requires n <= |drop|
    ensures Survivors(drop, n) > 0 <==> exists i :: 0 <= i < n && !drop[i]
    decreases n
  {
    if n > 0 {
      SomeSurvive(drop, n - 1);
    }
  }

  lemma AbsorbAll(drop: seq<bool>, ratios: seq<real>)
    requires |drop| == |ratios|
    ensures Absorb(drop, ratios) == Settled(drop, ratios, |drop|).kept && |Absorb(drop, ratios)| == Survivors(drop, |drop|)
  {
    SettledShape(drop, ratios, |drop|);
  }

  /** As long as one survives, the shares still add up to what they did. */
  lemma SumIsPreserved(drop: seq<bool>, ratios: seq<real>)
    requires |drop| == |ratios| && false in drop
    ensures Sum(Absorb(drop, ratios)) == Sum(ratios) && |Absorb(drop, ratios)| == Survivors(drop, |drop|)
  {
    SettledSum(drop, ratios, |drop|);
    SettledShape(drop, ratios, |drop|);
    SomeSurvive(drop, |drop|);
    AbsorbAll(drop, ratios);
  }

  /** Shares already settled to the left of a survivor no longer change. */
  lemma {:induction false} EarlierSharesStay(drop: seq<bool>, ratios: seq<real>, i: nat, n: nat)
    requires i < n <= |drop| && n <= |ratios| && !drop[i]
    ensures Survivors(drop, i) < |Settled(drop, ratios, n).kept|
    ensures Settled(drop, ratios, n).kept[..Survivors(drop, i)] == Settled(drop, ratios, i).kept
    decreases n
  {
    SettledShape(drop, ratios, i);
    if i < n - 1 {
      EarlierSharesStay(drop, ratios, i, n - 1);
    }
  }

  /** Every survivor but the first begins where it did before: the shares left of it add up to the same. */
  lemma EdgesStay(drop: seq<bool>, ratios: seq<real>, i: nat)
    requires |drop| == |ratios| && i < |drop| && !drop[i] && Survivors(drop, i) > 0
    ensures Survivors(drop, i) <= |Absorb(drop, ratios)|
    ensures SumTo(Absorb(drop, ratios), Survivors(drop, i)) == SumTo(ratios, i)
  {
    EarlierSharesStay(drop, ratios, i, |drop|);
    SettledSum(drop, ratios, i);
    SettledShape(drop, ratios, i);
    AbsorbAll(drop, ratios);
    var earlier := Settled(drop, ratios, i).kept;
    assert forall k :: 0 <= k < |earlier| ==> Absorb(drop, ratios)[..|earlier|][k] == earlier[k];
    SumToDependsOnPrefix(Absorb(drop, ratios), earlier, |earlier|);
  }

  // ----- the things themselves -----

  /** Of the first `n` things, those that are not marked, in order. */
  function Filtered<T>(drop: seq<bool>, things: seq<T>, n: nat): seq<T>
    requires n <= |drop|
  {
    if n == 0 then []
    else if n > |things| || drop[n - 1] then Filtered(drop, things, n - 1)
    else Filtered(drop, things, n - 1) + [things[n - 1]]
  }

  /** The things when the first `n` have been dealt with: of these the survivors, as they are by then. */
  function FilteredTo<T>(drop: seq<bool>, things: seq<T>, settled: seq<T>, n: nat): seq<T>
    requires n <= |drop|
  {
    Filtered(drop, settled, n) + Tail(things, n)
  }

  lemma {:induction false} FilteredLength<T>(drop: seq<bool>, things: seq<T>, n: nat)
    requires n <= |drop|
    ensures |Filtered(drop, things, n)| <= Survivors(drop, n)
    ensures n <= |things| ==> |Filtered(drop, things, n)| == Survivors(drop, n)
    decreases n
  {
    if n > 0 {
      FilteredLength(drop, things, n - 1);
    }
  }

  lemma FilteredStart<T>(drop: seq<bool>, things: seq<T>, settled: seq<T>)
    ensures FilteredTo(drop, things, settled, 0) == things
  {
  }

  lemma FilteredSize<T>(drop: seq<bool>, things: seq<T>, settled: seq<T>, n: nat)
    requires n <= |drop| == |things| == |settled|
    ensures |FilteredTo(drop, things, settled, n)| == Survivors(drop, n) + |things| - n
    ensures FilteredTo(drop, things, settled, |things|) == Filtered(drop, settled, |things|)
  {
    FilteredLength(drop, settled, n);
  }

  lemma InTheMiddle<T>(kept: seq<T>, x: T, rest: seq<T>, y: T)
    ensures var now := kept + ([x] + rest);
      && now[|kept|] == x && RemoveAt(now, |kept|) == kept + rest && now[|kept| := y] == (kept + [y]) + rest
  {
  }

  /** Dealing with one more: it stands where the survivors before it end, and is taken out or settled there. */
  lemma FilteredStep<T>(drop: seq<bool>, things: seq<T>, settled: seq<T>, n: nat)
    requires n < |drop| && |settled| == |things|
    ensures var now, k := FilteredTo(drop, things, settled, n), Survivors(drop, n);
      && (k < |now| <==> n < |things|)
      && (k < |now| ==> now[k] == things[n])
      && FilteredTo(drop, things, settled, n + 1)
         == if drop[n] then RemoveAt(now, k) else if k < |now| then now[k := settled[n]] else now
  {
    FilteredLength(drop, settled, n);
    if n < |things| {
      TailSplits(things, n);
      InTheMiddle(Filtered(drop, settled, n), things[n], Tail(things, n + 1), settled[n]);
    }
  }

  lemma {:induction false} FilteredMembers<T>(drop: seq<bool>, things: seq<T>, n: nat)
    requires n <= |drop| == |things|
    ensures forall x :: x in Filtered(drop, things, n) <==> exists i :: 0 <= i < n && !drop[i] && things[i] == x
    decreases n
  {
    if n > 0 {
      FilteredMembers(drop, things, n - 1);
    }
  }

  /** A survivor's new place is the number of survivors before it. */
  lemma {:induction false} FilteredAt<T>(drop: seq<bool>, things: seq<T>, n: nat, i: nat)
    requires i < n <= |drop| == |things| && !drop[i]
    ensures Survivors(drop, i) < |Filtered(drop, things, n)|
    ensures Filtered(drop, things, n)[Survivors(drop, i)] == things[i]
    decreases n
  {
    FilteredLength(drop, things, n - 1);
    if i < n - 1 {
      FilteredAt(drop, things, n - 1, i);
    }
  }
}
