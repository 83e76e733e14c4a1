/** The order in which registered test cases run: registration, shuffling and
    unshuffling. */
module TestOrders {
  import opened Bytes
  import opened Globs

  const MAX_RANGE: nat := 0x8000_0000

  /** The constants of glibc's rand, in 32-bit unsigned arithmetic. */
  function NextState(state: nat): nat {
    (1103515245 * state + 12345) % 0x1_0000_0000 % MAX_RANGE
  }

  /** The linear congruential generator. */
  class Random {
    var state: nat

    constructor (seed: nat)
      ensures state == seed
    {
      state := seed;
    }

    method Generate(range: nat) returns (r: nat)
      requires 0 < range <= MAX_RANGE
      modifies this
      ensures state == NextState(old(state)) && r == state % range < range
    {
      state := NextState(state);
      r := state % range;
    }
  }

  class Vector<E> {
    var elems: seq<E>

    constructor (elems: seq<E>)
      ensures this.elems == elems
    {
      this.elems := elems;
    }

    method Swap(i: nat, j: nat)
      requires i < |elems| && j < |elems|
      modifies this
      ensures elems == Swapped(old(elems), i, j)
    {
      elems := elems[i := elems[j]][j := elems[i]];
    }
  }

  /** The elements of [begin, end) are rearranged, the others untouched. */
  ghost predicate Rearranged<E>(a: seq<E>, b: seq<E>, begin: nat, end: nat) {
    && begin <= end <= |a| == |b|
    && multiset(a[begin..end]) == multiset(b[begin..end])
    && a[..begin] == b[..begin] && a[end..] == b[end..]
  }

  function Swapped<E>(s: seq<E>, i: nat, j: nat): (t: seq<E>)
    requires i < |s| && j < |s|
    ensures |t| == |s|
  {
    s[i := s[j]][j := s[i]]
  }

  lemma SwapRearranges<E>(a: seq<E>, begin: nat, end: nat, i: nat, j: nat)
    requires begin <= i < end <= |a| && begin <= j < end
    ensures Rearranged(a, Swapped(a, i, j), begin, end)
  {
    var m, b := a[begin..end], Swapped(a, i, j);
    assert b[begin..end] == m[i - begin := m[j - begin]][j - begin := m[i - begin]];
  }

  /** The order that a generator in this state gives the range, and the state
      it ends in. */
  function Shuffled<E>(state: nat, s: seq<E>, begin: nat, width: nat): (r: (seq<E>, nat))
    requires begin + width <= |s| && width <= MAX_RANGE
    ensures |r.0| == |s|
    decreases width
  {
    if width < 2 then (s, state)
    else
      var next := NextState(state);
      Shuffled(next, Swapped(s, begin + next % width, begin + width - 1), begin, width - 1)
  }

  lemma ShuffledStep<E>(state: nat, s: seq<E>, begin: nat, width: nat)
    requires begin + width <= |s| && 2 <= width <= MAX_RANGE
    ensures var next := NextState(state);
            Shuffled(state, s, begin, width)
            == Shuffled(next, Swapped(s, begin + next % width, begin + width - 1), begin, width - 1)
  {
  }

  lemma RearrangedTransitive<E>(a: seq<E>, b: seq<E>, c: seq<E>, begin: nat, end: nat)
    requires Rearranged(a, b, begin, end) && Rearranged(b, c, begin, end)
    ensures Rearranged(a, c, begin, end)
  {
  }

  lemma RearrangedSelf<E>(a: seq<E>, begin: nat, end: nat)
    requires begin <= end <= |a|
    ensures Rearranged(a, a, begin, end)
  {
  }

  lemma ShuffledNone<E>(state: nat, s: seq<E>, begin: nat, width: nat)
    requires begin + width <= |s| && width < 2
    ensures Shuffled(state, s, begin, width) == (s, state)
  {
  }

  /** A Fisher-Yates shuffle of part of a vector, in place; the state of the
      generator determines the order. */
  method ShuffleRange<E>(random: Random, begin: nat, end: nat, v: Vector<E>)
    requires begin <= end <= |v.elems| && end - begin <= MAX_RANGE
    modifies random, v
    ensures Rearranged(old(v.elems), v.elems, begin, end)
    ensures (v.elems, random.state) == Shuffled(old(random.state), old(v.elems), begin, end - begin)
  {
    hide Shuffled, Swapped, Rearranged, NextState;
    var width := end - begin;
    RearrangedSelf(v.elems, begin, end);
    while width >= 2
      invariant 0 <= width <= end - begin && |v.elems| == |old(v.elems)|
      invariant Rearranged(old(v.elems), v.elems, begin, end)
      invariant Shuffled(random.state, v.elems, begin, width)
                == Shuffled(old(random.state), old(v.elems), begin, end - begin)
    {
      var last := begin + width - 1;
      ghost var state := random.state;
      var chosen := random.Generate(width);
      ShuffledStep(state, v.elems, begin, width);
      SwapRearranges(v.elems, begin, end, begin + chosen, last);
      RearrangedTransitive(old(v.elems), v.elems, Swapped(v.elems, begin + chosen, last), begin, end);
      v.Swap(begin + chosen, last);
      width := width - 1;
    }
    ShuffledNone(random.state, v.elems, begin, width);
  }

  // ---------------------------------------------------------------------
  // Every order is dealt by exactly one sequence of draws

  /** One draw for each step, from as many numbers as are left. */
  ghost predicate AreDraws(draws: seq<nat>, width: nat) {
    |draws| == (if width < 2 then 0 else width - 1) && forall k | 0 <= k < |draws| :: draws[k] < width - k
  }

  /** The order that these draws give the range. */
  ghost function Dealt<E>(draws: seq<nat>, s: seq<E>, begin: nat, width: nat): (t: seq<E>)
    requires begin + width <= |s| && AreDraws(draws, width)
    ensures |t| == |s|
    decreases width
  {
    if width < 2 then s
    else Dealt(draws[1..], Swapped(s, begin + draws[0], begin + width - 1), begin, width - 1)
  }

  ghost function DrawsFrom(state: nat, width: nat): (draws: seq<nat>)
    ensures AreDraws(draws, width)
    decreases width
  {
    if width < 2 then []
    else
      var rest := DrawsFrom(NextState(state), width - 1);
      var all := [NextState(state) % width] + rest;
      assert forall k | 0 < k < |all| :: all[k] == rest[k - 1];
      all
  }

  lemma {:induction false} ShuffledDeals<E>(state: nat, s: seq<E>, begin: nat, width: nat)
    requires begin + width <= |s| && width <= MAX_RANGE
    ensures Shuffled(state, s, begin, width).0 == Dealt(DrawsFrom(state, width), s, begin, width)
    decreases width
  {
    hide NextState, Swapped;
    if width >= 2 {
      var next := NextState(state);
      var draws := DrawsFrom(state, width);
      assert draws[0] == next % width && draws[1..] == DrawsFrom(next, width - 1);
      ShuffledDeals(next, Swapped(s, begin + next % width, begin + width - 1), begin, width - 1);
    }
  }

  lemma DealtNone<E>(draws: seq<nat>, s: seq<E>, begin: nat, width: nat)
    requires begin + width <= |s| && AreDraws(draws, width) && width < 2
    ensures draws == [] && Dealt(draws, s, begin, width) == s
  {
  }

  lemma DealtStep<E>(draws: seq<nat>, s: seq<E>, begin: nat, width: nat)
    requires begin + width <= |s| && AreDraws(draws, width) && width >= 2
    ensures draws != [] && draws[0] < width && AreDraws(draws[1..], width - 1)
    ensures Dealt(draws, s, begin, width)
            == Dealt(draws[1..], Swapped(s, begin + draws[0], begin + width - 1), begin, width - 1)
  {
  }

  lemma SwappedAt<E>(s: seq<E>, i: nat, j: nat)
    requires i < |s| && j < |s|
    ensures Swapped(s, i, j)[j] == s[i]
  {
  }

  lemma RearrangedOn<E>(s: seq<E>, next: seq<E>, t: seq<E>, begin: nat, end: nat)
    requires Rearranged(s, next, begin, end + 1) && Rearranged(next, t, begin, end)
    ensures Rearranged(s, t, begin, end + 1)
  {
    WiderRange(next, t, begin, end);
    RearrangedTransitive(s, next, t, begin, end + 1);
  }

  lemma {:induction false} DealtRearranges<E>(draws: seq<nat>, s: seq<E>, begin: nat, width: nat)
    requires begin + width <= |s| && AreDraws(draws, width)
    ensures Rearranged(s, Dealt(draws, s, begin, width), begin, begin + width)
    decreases width
  {
    hide *;
    if width < 2 {
      DealtNone(draws, s, begin, width);
      RearrangedSelf(s, begin, begin + width);
    } else {
      DealtStep(draws, s, begin, width);
      var last := begin + width - 1;
      var next := Swapped(s, begin + draws[0], last);
      DealtRearranges(draws[1..], next, begin, width - 1);
      SwapRearranges(s, begin, begin + width, begin + draws[0], last);
      RearrangedOn(s, next, Dealt(draws, s, begin, width), begin, last);
    }
  }

  lemma WiderRange<E>(a: seq<E>, b: seq<E>, begin: nat, end: nat)
    requires Rearranged(a, b, begin, end) && end < |a|
    ensures a[end] == b[end] && Rearranged(a, b, begin, end + 1)
  {
    assert a[end] == a[end..][0] && b[end] == b[end..][0];
    assert a[begin..end + 1] == a[begin..end] + [a[end]] && b[begin..end + 1] == b[begin..end] + [b[end]];
    assert a[end + 1..] == a[end..][1..] && b[end + 1..] == b[end..][1..];
  }

  ghost predicate Different<E>(s: seq<E>, begin: nat, end: nat) {
    begin <= end <= |s| && forall i, j | begin <= i < j < end :: s[i] != s[j]
  }

  /** Different draws give different orders. */
  lemma {:induction false} DealtOnce<E>(a: seq<nat>, b: seq<nat>, s: seq<E>, begin: nat, width: nat)
    requires begin + width <= |s| && AreDraws(a, width) && AreDraws(b, width)
    requires Different(s, begin, begin + width)
    requires Dealt(a, s, begin, width) == Dealt(b, s, begin, width)
    ensures a == b
    decreases width
  {
    hide Dealt, AreDraws, Different, Swapped;
    if width < 2 {
      DealtNone(a, s, begin, width);
      DealtNone(b, s, begin, width);
    } else {
      DealtStep(a, s, begin, width);
      DealtStep(b, s, begin, width);
      LastDealt(a, s, begin, width);
      LastDealt(b, s, begin, width);
      SamePlace(s, begin, begin + width, begin + a[0], begin + b[0]);
      StillDifferent(s, begin, begin + width, begin + a[0]);
      DealtOnce(a[1..], b[1..], Swapped(s, begin + a[0], begin + width - 1), begin, width - 1);
      assert a == [a[0]] + a[1..] && b == [b[0]] + b[1..];
    }
  }

  lemma SamePlace<E>(s: seq<E>, begin: nat, end: nat, i: nat, j: nat)
    requires Different(s, begin, end) && begin <= i < end && begin <= j < end && s[i] == s[j]
    ensures i == j
  {
  }

  lemma StillDifferent<E>(s: seq<E>, begin: nat, end: nat, i: nat)
    requires Different(s, begin, end) && begin <= i < end
    ensures Different(Swapped(s, i, end - 1), begin, end - 1)
  {
  }

  /** The first draw settles the last place. */
  lemma LastDealt<E>(draws: seq<nat>, s: seq<E>, begin: nat, width: nat)
    requires begin + width <= |s| && AreDraws(draws, width) && width >= 2
    ensures Dealt(draws, s, begin, width)[begin + width - 1] == s[begin + draws[0]]
  {
    hide Dealt, AreDraws, Swapped, Rearranged;
    DealtStep(draws, s, begin, width);
    var last := begin + width - 1;
    var next := Swapped(s, begin + draws[0], last);
    SwappedAt(s, begin + draws[0], last);
    DealtRearranges(draws[1..], next, begin, width - 1);
    WiderRange(next, Dealt(draws[1..], next, begin, width - 1), begin, last);
  }

  /** Every rearrangement is dealt by some draws. */
  lemma {:induction false} DealtAll<E>(s: seq<E>, t: seq<E>, begin: nat, width: nat) returns (draws: seq<nat>)
    requires begin + width <= |s| && Rearranged(s, t, begin, begin + width)
    ensures AreDraws(draws, width) && Dealt(draws, s, begin, width) == t
    decreases width
  {
    hide Rearranged, Swapped, AreDraws, Dealt;
    if width < 2 {
      NarrowRange(s, t, begin, width);
      draws := [];
      DealtNothing(s, begin, width);
    } else {
      var d := DrawOf(s, t, begin, width);
      var next := Swapped(s, begin + d, begin + width - 1);
      DrawSettles(s, t, begin, width, d);
      var rest := DealtAll(next, t, begin, width - 1);
      draws := [d] + rest;
      DealtCons(d, rest, s, begin, width);
    }
  }

  lemma DealtNothing<E>(s: seq<E>, begin: nat, width: nat)
    requires begin + width <= |s| && width < 2
    ensures AreDraws([], width) && Dealt([], s, begin, width) == s
  {
  }

  lemma DealtCons<E>(d: nat, rest: seq<nat>, s: seq<E>, begin: nat, width: nat)
    requires begin + width <= |s| && width >= 2 && d < width && AreDraws(rest, width - 1)
    ensures AreDraws([d] + rest, width)
    ensures Dealt([d] + rest, s, begin, width)
            == Dealt(rest, Swapped(s, begin + d, begin + width - 1), begin, width - 1)
  {
    var draws := [d] + rest;
    assert draws[1..] == rest;
    assert forall k | 0 < k < |draws| :: draws[k] == rest[k - 1];
  }

  /** Drawing the element that belongs in the last place settles that place. */
  lemma DrawSettles<E>(s: seq<E>, t: seq<E>, begin: nat, width: nat, d: nat)
    requires width >= 2 && d < width && begin + width <= |s|
    requires Rearranged(s, t, begin, begin + width) && s[begin + d] == t[begin + width - 1]
    ensures Rearranged(Swapped(s, begin + d, begin + width - 1), t, begin, begin + width - 1)
  {
    hide Swapped, Rearranged;
    var last := begin + width - 1;
    var next := Swapped(s, begin + d, last);
    SwapRearranges(s, begin, begin + width, begin + d, last);
    SwappedAt(s, begin + d, last);
    LastSettled(s, next, t, begin, last);
  }

  lemma NarrowRange<E>(s: seq<E>, t: seq<E>, begin: nat, width: nat)
    requires begin + width <= |s| && Rearranged(s, t, begin, begin + width) && width < 2
    ensures s == t
  {
    var m, n := s[begin..begin + width], t[begin..begin + width];
    if width == 1 {
      assert m == [s[begin]] && n == [t[begin]];
      assert t[begin] in multiset(n);
      assert t[begin] in multiset(m);
    }
    assert s == s[..begin] + m + s[begin + width..];
    assert t == t[..begin] + n + t[begin + width..];
  }

  lemma DrawOf<E>(s: seq<E>, t: seq<E>, begin: nat, width: nat) returns (d: nat)
    requires Rearranged(s, t, begin, begin + width) && width >= 2
    ensures d < width && s[begin + d] == t[begin + width - 1]
  {
    var m, n := s[begin..begin + width], t[begin..begin + width];
    assert n[width - 1] in multiset(n);
    assert n[width - 1] in multiset(m);
    d :| d < |m| && m[d] == n[width - 1];
  }

  lemma LastSettled<E>(s: seq<E>, next: seq<E>, t: seq<E>, begin: nat, last: nat)
    requires begin <= last < |s|
    requires Rearranged(s, t, begin, last + 1) && Rearranged(s, next, begin, last + 1) && next[last] == t[last]
    ensures Rearranged(next, t, begin, last)
  {
    var x, y := next[begin..last], t[begin..last];
    assert next[begin..last + 1] == x + [next[last]] && t[begin..last + 1] == y + [t[last]];
    SameWithout(x, y, t[last]);
    assert next[last..] == [next[last]] + next[last + 1..] && t[last..] == [t[last]] + t[last + 1..];
  }

  lemma SameWithout<E>(x: seq<E>, y: seq<E>, e: E)
    requires multiset(x + [e]) == multiset(y + [e])
    ensures multiset(x) == multiset(y)
  {
    assert multiset(x) == multiset(x + [e]) - multiset{e};
    assert multiset(y) == multiset(y + [e]) - multiset{e};
  }

  // ---------------------------------------------------------------------
  // All cases and their tests

  /** What a shuffle of all cases does to their order: the first d among
      themselves, then the others. */
  function CasesShuffled(state: nat, s: seq<nat>, d: nat): (r: (seq<nat>, nat))
    requires d <= |s| <= MAX_RANGE
  {
    var (first, middle) := Shuffled(state, s, 0, d);
    Shuffled(middle, first, d, |s| - d)
  }

  /** What it then does to the orders of the tests in each, one after the
      other. */
  function OrdersShuffled(state: nat, orders: seq<seq<nat>>): (r: (seq<seq<nat>>, nat))
    requires forall i | 0 <= i < |orders| :: |orders[i]| <= MAX_RANGE
    ensures |r.0| == |orders|
  {
    if orders == [] then ([], state)
    else
      var n := |orders| - 1;
      var (before, middle) := OrdersShuffled(state, orders[..n]);
      var (last, end) := Shuffled(middle, orders[n], 0, |orders[n]|);
      (before + [last], end)
  }

  lemma OrdersStep(state: nat, orders: seq<seq<nat>>, i: nat)
    requires i < |orders| && forall k | 0 <= k < |orders| :: |orders[k]| <= MAX_RANGE
    ensures var (before, middle) := OrdersShuffled(state, orders[..i]);
            OrdersShuffled(state, orders[..i + 1])
            == (before + [Shuffled(middle, orders[i], 0, |orders[i]|).0], Shuffled(middle, orders[i], 0, |orders[i]|).1)
  {
    hide Shuffled;
    assert orders[..i + 1][..i] == orders[..i];
  }

  lemma BothGroups(state: nat, s: seq<nat>, d: nat, middle: nat, first: seq<nat>, r: (seq<nat>, nat))
    requires d <= |s| <= MAX_RANGE && |first| == |s|
    requires (first, middle) == Shuffled(state, s, 0, d) && r == Shuffled(middle, first, d, |s| - d)
    ensures CasesShuffled(state, s, d) == r
  {
    hide Shuffled;
  }

  // ---------------------------------------------------------------------
  // Index vectors

  function Identity(n: nat): seq<nat> {
    seq(n, i => i)
  }

  ghost predicate IsPermutation(s: seq<nat>) {
    multiset(s) == multiset(Identity(|s|))
  }

  /** A permutation of the case numbers in which the first d stay first. */
  ghost predicate DeathFirst(s: seq<nat>, d: nat) {
    && d <= |s|
    && multiset(s[..d]) == multiset(Identity(|s|)[..d])
    && multiset(s[d..]) == multiset(Identity(|s|)[d..])
  }

  lemma {:induction false} IdentityCount(n: nat, k: nat)
    ensures multiset(Identity(n))[k] == if k < n then 1 else 0
  {
    if n > 0 {
      IdentityCount(n - 1, k);
      assert Identity(n) == Identity(n - 1) + [n - 1];
    }
  }

  /** Every case number occurs exactly once, and position and number are on
      the same side of d. */
  lemma DeathFirstVisits(s: seq<nat>, d: nat)
    requires DeathFirst(s, d)
    ensures IsPermutation(s)
    ensures forall k: nat :: multiset(s)[k] == if k < |s| then 1 else 0
    ensures forall i | 0 <= i < |s| :: s[i] < |s| && (s[i] < d <==> i < d)
  {
    var all := Identity(|s|);
    assert s == s[..d] + s[d..] && all == all[..d] + all[d..];
    forall k: nat
      ensures multiset(s)[k] == if k < |s| then 1 else 0
    {
      IdentityCount(|s|, k);
    }
    forall i | 0 <= i < |s|
      ensures s[i] < |s| && (s[i] < d <==> i < d)
    {
      if i < d {
        assert s[..d][i] in multiset(s[..d]);
        var j :| 0 <= j < d && all[..d][j] == s[i];
      } else {
        assert s[d..][i - d] in multiset(s[d..]);
        var j :| 0 <= j < |s| - d && all[d..][j] == s[i];
      }
    }
  }

  lemma RearrangedDeathFirst(a: seq<nat>, b: seq<nat>, begin: nat, end: nat, d: nat)
    requires DeathFirst(a, d) && Rearranged(a, b, begin, end)
    requires (begin == 0 && end == d) || (begin == d && end == |a|)
    ensures DeathFirst(b, d)
  {
    if begin == 0 && end == d {
      assert a[begin..end] == a[..d] && b[begin..end] == b[..d];
    } else {
      assert a[begin..end] == a[d..] && b[begin..end] == b[d..];
    }
  }

  lemma RearrangedLength<E>(a: seq<E>, b: seq<E>, begin: nat, end: nat)
    requires Rearranged(a, b, begin, end)
    ensures |a| == |b|
  {
  }

  lemma IdentityDeathFirst(n: nat, d: nat)
    requires d <= n
    ensures DeathFirst(Identity(n), d)
  {
  }

  lemma IdentityPermutation(n: nat)
    ensures IsPermutation(Identity(n)) && |Identity(n)| == n
  {
  }

  lemma RearrangedPermutation(a: seq<nat>, b: seq<nat>, begin: nat, end: nat)
    requires Rearranged(a, b, begin, end) && IsPermutation(a)
    ensures IsPermutation(b)
  {
    assert a == a[..begin] + a[begin..end] + a[end..];
    assert b == b[..begin] + b[begin..end] + b[end..];
  }

  // ---------------------------------------------------------------------
  // Test cases

  const DEATH_FILTER := "*DeathTest:*DeathTest/*"

  ghost predicate IsDeath(name: string) {
    SomePiece(DEATH_FILTER, name)
  }

  class TestCase {
    const name: string
    const indices: Vector<nat>  // the order of its tests

    constructor (name: string, tests: nat)
      ensures this.name == name && fresh(indices) && indices.elems == Identity(tests)
    {
      this.name := name;
      indices := new Vector(Identity(tests));
    }

    method ShuffleTests(random: Random)
      requires |indices.elems| <= MAX_RANGE
      modifies random, indices
      ensures |indices.elems| == old(|indices.elems|)
      ensures old(IsPermutation(indices.elems)) ==> IsPermutation(indices.elems)
      ensures (indices.elems, random.state)
              == Shuffled(old(random.state), old(indices.elems), 0, |old(indices.elems)|)
    {
      hide Shuffled, Rearranged;
      ghost var was := indices.elems;
      ShuffleRange(random, 0, |indices.elems|, indices);
      if IsPermutation(was) {
        RearrangedPermutation(was, indices.elems, 0, |was|);
      }
    }

    method UnshuffleTests()
      modifies indices
      ensures |indices.elems| == old(|indices.elems|) && InOrder(indices)
    {
      NoneYet(indices.elems);
      for i := 0 to |indices.elems|
        invariant |indices.elems| == old(|indices.elems|)
        invariant indices.elems[..i] == Identity(i)
      {
        indices.elems := indices.elems[i := i];
        OneMore(indices.elems, i);
      }
      assert indices.elems[..|indices.elems|] == indices.elems;
    }
  }

  ghost predicate InOrder(v: Vector<nat>)
    reads v
  {
    v.elems == Identity(|v.elems|)
  }

  lemma NoneYet(s: seq<nat>)
    ensures s[..0] == Identity(0)
  {
  }

  lemma OneMore(s: seq<nat>, i: nat)
    requires i < |s| && s[i] == i && s[..i] == Identity(i)
    ensures s[..i + 1] == Identity(i + 1)
  {
  }

  /** Each case has an order of its own. */
  ghost predicate Apart(cases: seq<TestCase>) {
    forall i, j | 0 <= i < j < |cases| :: cases[i].indices != cases[j].indices
  }

  lemma ApartInsert(cases: seq<TestCase>, at: nat, c: TestCase)
    requires Apart(cases) && at <= |cases| && forall x | x in cases :: x.indices != c.indices
    ensures Apart(cases[..at] + [c] + cases[at..])
  {
    var all := cases[..at] + [c] + cases[at..];
    forall i, j | 0 <= i < j < |all|
      ensures all[i].indices != all[j].indices
    {
      assert i != at ==> all[i] == cases[if i < at then i else i - 1];
      assert j != at ==> all[j] == cases[if j < at then j else j - 1];
    }
  }

  class UnitTest {
    const random: Random
    const indices: Vector<nat>
    var cases: seq<TestCase>
    var lastDeath: int

    ghost predicate Valid()
      reads this, indices, set c | c in cases :: c.indices
    {
      && |indices.elems| == |cases| <= MAX_RANGE
      && -1 <= lastDeath < |cases|
      && DeathFirst(indices.elems, lastDeath + 1)
      && (forall i | 0 <= i < |cases| :: IsDeath(cases[i].name) <==> i <= lastDeath)
      && (forall c | c in cases ::
            c.indices != indices && |c.indices.elems| <= MAX_RANGE && IsPermutation(c.indices.elems))
      && Apart(cases)
    }

    /** The order of the tests in each case. */
    ghost function Orders(): (orders: seq<seq<nat>>)
      reads this, set c | c in cases :: c.indices
      ensures |orders| == |cases| && forall i | 0 <= i < |cases| :: orders[i] == cases[i].indices.elems
    {
      seq(|cases|, i requires 0 <= i < |cases| reads this, set c | c in cases :: c.indices => cases[i].indices.elems)
    }

    ghost predicate Unshuffled()
      reads this, indices
    {
      indices.elems == Identity(|cases|)
    }

    constructor (random: Random)
      ensures Valid() && Unshuffled() && cases == [] && fresh(indices) && this.random == random
    {
      hide DeathFirst, IsDeath, IsPermutation, Identity;
      this.random, cases, lastDeath := random, [], -1;
      indices := new Vector<nat>([]);
      new;
      NoneYet([]);
      IdentityDeathFirst(0, 0);
    }

    /** Inserts a new case: a death test after the last death test so far, any
        other at the end. */
    method Register(c: TestCase, death: bool)
      requires Valid() && Unshuffled() && |cases| < MAX_RANGE && death == IsDeath(c.name)
      requires c.indices != indices && |c.indices.elems| <= MAX_RANGE && IsPermutation(c.indices.elems)
      requires forall x | x in cases :: x.indices != c.indices
      modifies this, indices
      ensures Valid() && Unshuffled()
      ensures var at := if death then old(lastDeath) + 1 else |old(cases)|;
              cases == old(cases)[..at] + [c] + old(cases)[at..]
    {
      hide DeathFirst, IsPermutation, IsDeath, Identity, Apart;
      ghost var was := cases;
      ApartInsert(cases, if death then lastDeath + 1 else |cases|, c);
      if death {
        lastDeath := lastDeath + 1;
        cases := cases[..lastDeath] + [c] + cases[lastDeath..];
      } else {
        cases := cases + [c];
        assert cases == was[..|was|] + [c] + was[|was|..];
      }
      indices.elems := indices.elems + [|indices.elems|];
      assert indices.elems[..|was|] == Identity(|was|);
      OneMore(indices.elems, |was|);
      assert indices.elems[..|was| + 1] == indices.elems;
      IdentityDeathFirst(|cases|, lastDeath + 1);
      assert forall x | x in cases :: x == c || x in was;
    }

    /** `GetTestCase` by name: finds the case or registers a new one. Only
        before any shuffle, as the source says. */
    method GetTestCase(name: string, tests: nat) returns (c: TestCase)
      requires Valid() && Unshuffled() && |cases| < MAX_RANGE && tests <= MAX_RANGE
      modifies this, indices
      ensures Valid() && Unshuffled()
      ensures c in cases && c.name == name
      ensures (exists k :: 0 <= k < |old(cases)| && old(cases)[k].name == name) ==>
                cases == old(cases) && lastDeath == old(lastDeath)
      ensures (forall k | 0 <= k < |old(cases)| :: old(cases)[k].name != name) ==>
                && c.indices.elems == Identity(tests)
                && var at := if IsDeath(name) then old(lastDeath) + 1 else |old(cases)|;
                cases == old(cases)[..at] + [c] + old(cases)[at..] && fresh(c) && fresh(c.indices)
    {
      hide DeathFirst, IsPermutation, SomePiece, Identity;
      for k := 0 to |cases|
        invariant forall j | 0 <= j < k :: cases[j].name != name
      {
        if cases[k].name == name {
          return cases[k];
        }
      }
      c := new TestCase(name, tests);
      IdentityPermutation(tests);
      var death := MatchesFilter(name, DEATH_FILTER);
      Register(c, death);
    }

    /** Shuffles the death test cases among themselves, then the others. */
    method ShuffleCases()
      requires Valid()
      modifies random, indices
      ensures Valid() && old(lastDeath) + 1 <= |cases|
      ensures (indices.elems, random.state)
              == CasesShuffled(old(random.state), old(indices.elems), old(lastDeath) + 1)
    {
      hide IsDeath, IsPermutation, DeathFirst, CasesShuffled, Shuffled;
      ghost var was, state := indices.elems, random.state;
      ShuffleGroup(0, lastDeath + 1, lastDeath + 1);
      ghost var first, middle := indices.elems, random.state;
      ShuffleGroup(lastDeath + 1, |cases|, lastDeath + 1);
      BothGroups(state, was, lastDeath + 1, middle, first, (indices.elems, random.state));
    }

    /** Shuffles one of the two groups. */
    method ShuffleGroup(begin: nat, end: nat, d: nat)
      requires |indices.elems| <= MAX_RANGE && DeathFirst(indices.elems, d) && begin <= end <= |indices.elems|
      requires (begin == 0 && end == d) || (begin == d && end == |indices.elems|)
      modifies random, indices
      ensures |indices.elems| == old(|indices.elems|) && DeathFirst(indices.elems, d)
      ensures (indices.elems, random.state) == Shuffled(old(random.state), old(indices.elems), begin, end - begin)
    {
      hide DeathFirst, Rearranged, Shuffled;
      ghost var was := indices.elems;
      ShuffleRange(random, begin, end, indices);
      RearrangedLength(was, indices.elems, begin, end);
      RearrangedDeathFirst(was, indices.elems, begin, end, d);
    }

    /** Shuffles the order of the cases, then that of the tests in each, all
        from one stream of numbers. */
    method ShuffleTests()
      requires Valid()
      modifies random, indices, set c | c in cases :: c.indices
      ensures Valid() && cases == old(cases) && lastDeath == old(lastDeath)
      ensures old(lastDeath) + 1 <= |cases| && forall o | o in old(Orders()) :: |o| <= MAX_RANGE
      ensures var (order, middle) := CasesShuffled(old(random.state), old(indices.elems), old(lastDeath) + 1);
              && indices.elems == order
              && (Orders(), random.state) == OrdersShuffled(middle, old(Orders()))
    {
      hide IsDeath, IsPermutation, DeathFirst, Shuffled, CasesShuffled, OrdersShuffled, Apart;
      ghost var was := Orders();
      ShuffleCases();
      ghost var order, middle := indices.elems, random.state;
      NoOrders(middle);
      assert was[..0] == [];
      ghost var done := [];
      for i := 0 to |cases|
        invariant Valid() && indices.elems == order && |done| == i
        invariant forall j | 0 <= j < i :: cases[j].indices.elems == done[j]
        invariant forall j | i <= j < |cases| :: cases[j].indices.elems == was[j]
        invariant (done, random.state) == OrdersShuffled(middle, was[..i])
      {
        assert cases[i] in cases;
        ShuffleCase(i);
        OrdersStep(middle, was, i);
        done := done + [cases[i].indices.elems];
      }
      assert was[..|was|] == was && done == Orders();
    }

    /** Shuffles the tests of one case and touches no other order. */
    method ShuffleCase(i: nat)
      requires Valid() && i < |cases|
      modifies random, cases[i].indices
      ensures Valid() && indices.elems == old(indices.elems)
      ensures forall j | 0 <= j < |cases| && j != i :: cases[j].indices.elems == old(cases[j].indices.elems)
      ensures (cases[i].indices.elems, random.state)
              == Shuffled(old(random.state), old(cases[i].indices.elems), 0, |old(cases[i].indices.elems)|)
    {
      hide IsDeath, IsPermutation, DeathFirst, Shuffled;
      assert cases[i] in cases;
      cases[i].ShuffleTests(random);
    }

    lemma NoOrders(state: nat)
      ensures OrdersShuffled(state, []) == ([], state)
    {
    }

    /** Afterwards every order is that of registration. */
    method UnshuffleTests()
      requires Valid()
      modifies indices, set c | c in cases :: c.indices
      ensures Valid() && Unshuffled() && cases == old(cases) && lastDeath == old(lastDeath)
      ensures forall c | c in cases :: InOrder(c.indices)
    {
      hide IsDeath, DeathFirst, IsPermutation, Identity;
      ghost var n := |cases|;
      NoneYet(indices.elems);
      for i := 0 to |cases|
        invariant |indices.elems| == |cases| == n
        invariant indices.elems[..i] == Identity(i)
        invariant forall c | c in cases :: c.indices != indices && |c.indices.elems| <= MAX_RANGE
        invariant forall j | 0 <= j < i :: InOrder(cases[j].indices)
      {
        assert cases[i] in cases;
        cases[i].UnshuffleTests();
        indices.elems := indices.elems[i := i];
        OneMore(indices.elems, i);
      }
      assert indices.elems[..n] == indices.elems;
      IdentityDeathFirst(n, lastDeath + 1);
      forall c | c in cases
        ensures InOrder(c.indices) && IsPermutation(c.indices.elems)
      {
        var j :| 0 <= j < n && cases[j] == c;
        IdentityPermutation(|c.indices.elems|);
      }
    }

    /** The case that runs i-th. */
    function GetMutableTestCase(i: nat): (c: Option<TestCase>)
      requires Valid()
      reads this, indices, set c | c in cases :: c.indices
      ensures c.Some? <==> i < |cases|
      ensures c.Some? ==> (IsDeath(c.value.name) <==> i <= lastDeath)
    {
      DeathFirstVisits(indices.elems, lastDeath + 1);
      if i < |indices.elems| then Some(cases[indices.elems[i]]) else None
    }

    /** The const accessor, which tests the shuffled index but then uses i. */
    function GetTestCaseAt(i: nat): Option<TestCase>
      requires Valid()
      reads this, indices, set c | c in cases :: c.indices
    {
      if i < |indices.elems| then Some(cases[i]) else None
    }

    /** The run loop: every case number exactly once, all death tests before
        all others. */
    method RunAll() returns (ran: seq<TestCase>, ghost visits: seq<nat>)
      requires Valid()
      ensures visits == indices.elems && |ran| == |visits| == |cases|
      ensures forall i | 0 <= i < |ran| :: visits[i] < |cases| && ran[i] == cases[visits[i]]
      ensures forall k: nat :: multiset(visits)[k] == if k < |cases| then 1 else 0
      ensures forall i, j | 0 <= i < j < |ran| :: IsDeath(ran[j].name) ==> IsDeath(ran[i].name)
    {
      hide IsDeath, IsPermutation, DeathFirst;
      ran, visits := [], indices.elems;
      DeathFirstVisits(visits, lastDeath + 1);
      for i := 0 to |cases|
        invariant |ran| == i
        invariant forall j | 0 <= j < i :: ran[j] == cases[visits[j]]
      {
        var c := GetMutableTestCase(i);
        ran := ran + [c.value];
      }
    }
  }

  /** The two accessors agree on every position exactly when no shuffle is in
      effect. */
  lemma AccessorsAgreeExactlyUnshuffled(u: UnitTest)
    requires u.Valid()
    ensures (forall i: nat :: u.GetTestCaseAt(i) == u.GetMutableTestCase(i)) <==> u.Unshuffled()
  {
    var s := u.indices.elems;
    DeathFirstVisits(s, u.lastDeath + 1);
    if forall i: nat :: u.GetTestCaseAt(i) == u.GetMutableTestCase(i) {
      forall i | 0 <= i < |s|
        ensures s[i] == i
      {
        assert u.GetTestCaseAt(i) == u.GetMutableTestCase(i);
        assert s[i] < |s|;
      }
    }
  }

  lemma DeathPieces()
    ensures DEATH_FILTER == ("*" + "DeathTest") + (":" + ("*" + ("DeathTest/" + "*")))
  {
  }

  /** The names that the filter for death tests means. */
  lemma DeathMeans(name: string)
    ensures IsDeath(name) <==> EndsWith(name, "DeathTest") || Contains(name, "DeathTest/")
  {
    hide SomePiece, PatternMatchesString, Contains, EndsWith;
    DeathPieces();
    TwoPieces("*" + "DeathTest", "*" + ("DeathTest/" + "*"), name);
    StarLiteral("DeathTest", name);
    StarLiteral("DeathTest/", name);
  }

  lemma NotDeath(name: string)
    requires |name| < 9
    ensures !IsDeath(name)
  {
    hide IsDeath;
    DeathMeans(name);
  }

  /** Two cases shuffled with seed 1 change places, and then the accessors
      disagree on both. */
  method AccessorsDisagree() returns (u: UnitTest)
    ensures u.Valid() && |u.cases| == 2 && u.cases[0] != u.cases[1]
    ensures u.GetTestCaseAt(0) == u.GetMutableTestCase(1) == Some(u.cases[0])
    ensures u.GetTestCaseAt(1) == u.GetMutableTestCase(0) == Some(u.cases[1])
  {
    hide *;
    RangeIs();
    NotDeath("A");
    NotDeath("B");
    var random := new Random(1);
    u := new UnitTest(random);
    var a := u.GetTestCase("A", 1);
    var b := u.GetTestCase("B", 1);
    assert u.cases == [a, b];
    NoDeaths(u);
    IsUnshuffled(u);
    u.ShuffleTests();
    SwappedBySeed();
    assert u.indices.elems == [1, 0];
    CrossedOver(u);
  }

  lemma NoDeaths(u: UnitTest)
    requires u.Valid() && forall c | c in u.cases :: !IsDeath(c.name)
    ensures u.lastDeath == -1
  {
    hide IsDeath, DeathFirst, IsPermutation, Apart;
    if u.cases != [] {
      assert u.cases[0] in u.cases && (IsDeath(u.cases[0].name) <==> 0 <= u.lastDeath);
    }
  }

  lemma RangeIs()
    ensures MAX_RANGE == 0x8000_0000
  {
  }

  lemma IsUnshuffled(u: UnitTest)
    requires u.Valid() && u.Unshuffled()
    ensures u.indices.elems == Identity(|u.cases|)
  {
  }

  lemma CrossedOver(u: UnitTest)
    requires u.Valid() && |u.cases| == 2 && u.indices.elems == [1, 0]
    ensures u.cases[0] != u.cases[1]
    ensures u.GetTestCaseAt(0) == u.GetMutableTestCase(1) == Some(u.cases[0])
    ensures u.GetTestCaseAt(1) == u.GetMutableTestCase(0) == Some(u.cases[1])
  {
    hide IsDeath, DeathFirst, IsPermutation;
  }

  lemma SwappedBySeed()
    ensures Identity(2) == [0, 1] && CasesShuffled(1, [0, 1], 0).0 == [1, 0]
  {
  }

  /** The generator's constants, at two states. */
  lemma GeneratorStates()
    ensures NextState(0) == 12345 && NextState(1) == 1103527590
  {
  }

  /** One case with two tests, shuffled with seed 1: the shuffles of the case
      order draw nothing, that of the tests draws once and swaps them. */
  method TestsSwapped() returns (u: UnitTest)
    ensures u.Valid() && |u.cases| == 1
    ensures u.Orders() == [[1, 0]] && u.random.state == 1103527590
  {
    hide *;
    RangeIs();
    NotDeath("A");
    var random := new Random(1);
    u := new UnitTest(random);
    var a := u.GetTestCase("A", 2);
    assert u.cases == [a] && u.Orders() == [Identity(2)];
    NoDeaths(u);
    IsUnshuffled(u);
    u.ShuffleTests();
    TestsSwappedBySeed();
  }

  lemma TestsSwappedBySeed()
    ensures CasesShuffled(1, Identity(1), 0).1 == 1
    ensures Identity(2) == [0, 1] && OrdersShuffled(1, [Identity(2)]) == ([[1, 0]], 1103527590)
  {
    GeneratorStates();
    var orders: seq<seq<nat>> := [[0, 1]];
    assert Identity(2) == [0, 1];
    assert orders[..0] == [] && OrdersShuffled(1, []) == ([], 1);
    ShuffledStep(1, [0, 1], 0, 2);
    assert Swapped([0, 1], 0, 1) == [1, 0];
    ShuffledNone(1103527590, [1, 0], 0, 1);
    hide Shuffled, NextState;
    OrdersStep(1, orders, 0);
    hide OrdersShuffled;
    assert orders[..1] == orders && orders == [Identity(2)];
    var shuffled: seq<seq<nat>> := [[1, 0]];
    assert OrdersShuffled(1, orders) == ([] + shuffled, 1103527590);
    assert [] + shuffled == shuffled;
  }
}
