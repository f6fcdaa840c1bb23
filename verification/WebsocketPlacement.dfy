// Least-loaded placement balances the stacks.
module WebsocketPlacement {
  import opened Base
  import opened WebsocketHub

  // A run without departures in which every client is placed on a stack of least Count
  // and registered before the next one is placed.
  predicate PlacementRun(key: u64, n: u64, run: seq<Event>) {
    run == [] ||
    (|run| >= 2 &&
     var before, a, r := run[..|run| - 2], run[|run| - 2], run[|run| - 1];
     && PlacementRun(key, n, before)
     && Minimal(Exec(key, n, before), a.stack)
     && a.Allocate?
     && r == Register(a.stack, Increment(Exec(key, n, before).stacks[a.stack].i)))
  }

  predicate HasStacks(h: Hub, n: nat) {
    forall s: u64 :: 1 <= s <= n ==> s in h.stacks
  }

  // How many of stacks 1..n have more than q clients.
  function Above(h: Hub, n: nat, q: int): (a: nat)
    requires n < TWO_64 && HasStacks(h, n)
    ensures a <= n
  {
    if n == 0 then 0 else Above(h, n - 1, q) + if h.stacks[n].count > q then 1 else 0
  }

  lemma {:induction false} AboveExtremes(h: Hub, n: nat, q: int)
    requires n < TWO_64 && HasStacks(h, n)
    ensures Above(h, n, q) == 0 <==> forall s: u64 :: 1 <= s <= n ==> h.stacks[s].count <= q
    ensures Above(h, n, q) == n <==> forall s: u64 :: 1 <= s <= n ==> h.stacks[s].count > q
  {
    if n == 0 {
    } else {
      AboveExtremes(h, n - 1, q);
    }
  }

  lemma {:induction false} AboveAfterRaise(h: Hub, h': Hub, n: nat, q: int, s: u64)
    requires n < TWO_64 && HasStacks(h, n) && HasStacks(h', n) && s >= 1
    requires forall j: u64 :: 1 <= j <= n && j != s ==> h'.stacks[j].count == h.stacks[j].count
    requires s <= n ==> h.stacks[s].count == q && h'.stacks[s].count == q + 1
    ensures Above(h', n, q) == Above(h, n, q) + if s <= n then 1 else 0
  {
    if n == 0 {
    } else {
      AboveAfterRaise(h, h', n - 1, q, s);
    }
  }

  // After m placements over n stacks every Count is floor(m/n) or ceil(m/n), with exactly
  // m mod n stacks at the higher value; so any two stacks differ by at most one.
  lemma PlacementBalances(key: u64, n: u64, run: seq<Event>)
    requires n > 0 && |run| < TWO_64 && PlacementRun(key, n, run)
    ensures var m, h := |run| / 2, Exec(key, n, run);
      && (forall s :: s in h.stacks <==> 1 <= s <= n)
      && (forall s :: s in h.stacks ==> m / n <= h.stacks[s].count <= (m + n - 1) / n)
      && (forall s, s' :: s in h.stacks && s' in h.stacks ==> h.stacks[s].count <= h.stacks[s'].count + 1)
      && Above(h, n, m / n) == m % n
  {
    var q, r := LevelsOf(key, n, run);
    QuotientIs(|run| / 2, n, q, r);
    if r == 0 {
      QuotientIs(|run| / 2 + n - 1, n, q, n - 1);
      AboveExtremes(Exec(key, n, run), n, q);
    } else {
      assert (q + 1) * n == q * n + n;
      QuotientIs(|run| / 2 + n - 1, n, q + 1, r - 1);
    }
  }

  // m == q * n + r: r stacks have q + 1 clients, the others q.
  lemma {:induction false} LevelsOf(key: u64, n: u64, run: seq<Event>) returns (q: nat, r: nat)
    requires n > 0 && |run| < TWO_64 && PlacementRun(key, n, run)
    ensures |run| / 2 == q * n + r && r < n
    ensures var h := Exec(key, n, run);
      && (forall s :: s in h.stacks <==> 1 <= s <= n)
      && (forall s :: s in h.stacks ==> q <= h.stacks[s].count <= q + 1)
      && Above(h, n, q) == r
  {
    var h := Exec(key, n, run);
    if run == [] {
      q, r := 0, 0;
      NewStacksAreEmpty(n);
      AboveExtremes(h, n, 0);
    } else {
      var before, s := run[..|run| - 2], run[|run| - 2].stack;
      q, r := LevelsOf(key, n, before);
      var h0 := Exec(key, n, before);
      var st := LastPlacement(key, n, run);
      q, r := LevelStep(h0, h, n, |run| / 2 - 1, q, r, s, st);
    }
  }

  lemma LevelStep(h0: Hub, h: Hub, n: u64, m: nat, q: nat, r: nat, s: u64, st: Stack) returns (q': nat, r': nat)
    requires n > 0 && m < TWO_64 - 1 && m == q * n + r && r < n
    requires forall j :: j in h0.stacks <==> 1 <= j <= n
    requires forall j :: j in h0.stacks ==> q <= h0.stacks[j].count <= q + 1
    requires Above(h0, n, q) == r && Minimal(h0, s)
    requires h == h0.(stacks := h0.stacks[s := st]) && st.count == Increment(h0.stacks[s].count)
    ensures m + 1 == q' * n + r' && r' < n
    ensures forall j :: j in h.stacks <==> 1 <= j <= n
    ensures forall j :: j in h.stacks ==> q' <= h.stacks[j].count <= q' + 1
    ensures Above(h, n, q') == r'
  {
    if q > 0 { AtLeastOnce(n, q); }
    MinimalIsLow(h0, n, q, s);
    PlaceOne(h0, h, n, q, s, st);
    q', r' := NextLevel(h, n, m + 1, q, r + 1);
  }

  lemma NextLevel(h: Hub, n: u64, m: nat, q: nat, r: nat) returns (q': nat, r': nat)
    requires n > 0 && m == q * n + r && HasStacks(h, n) && Above(h, n, q) == r
    requires forall s: u64 :: 1 <= s <= n ==> q <= h.stacks[s].count <= q + 1
    ensures m == q' * n + r' && r' < n && Above(h, n, q') == r'
    ensures forall s: u64 :: 1 <= s <= n ==> q' <= h.stacks[s].count <= q' + 1
  {
    q', r' := q, r;
    if r == n {
      AboveExtremes(h, n, q);
      AboveExtremes(h, n, q + 1);
      assert (q + 1) * n == q * n + n;
      q', r' := q + 1, 0;
    }
  }

  lemma MinimalIsLow(h: Hub, n: u64, q: nat, s: u64)
    requires Minimal(h, s) && HasStacks(h, n) && 1 <= s <= n && Above(h, n, q) < n
    requires forall j: u64 :: 1 <= j <= n ==> h.stacks[j].count >= q
    ensures h.stacks[s].count == q
  {
    AboveExtremes(h, n, q);
    var j: u64 :| 1 <= j <= n && h.stacks[j].count <= q;
    assert h.stacks[s].count <= h.stacks[j].count;
  }

  lemma PlaceOne(h0: Hub, h: Hub, n: u64, q: nat, s: u64, st: Stack)
    requires 1 <= s <= n && h == h0.(stacks := h0.stacks[s := st])
    requires forall j :: j in h0.stacks <==> 1 <= j <= n
    requires forall j :: j in h0.stacks ==> q <= h0.stacks[j].count <= q + 1
    requires h0.stacks[s].count == q && st.count == q + 1
    ensures forall j :: j in h.stacks <==> 1 <= j <= n
    ensures forall j :: j in h.stacks ==> q <= h.stacks[j].count <= q + 1
    ensures Above(h, n, q) == Above(h0, n, q) + 1
  {
    AboveAfterRaise(h0, h, n, q, s);
  }

  lemma LastPlacement(key: u64, n: u64, run: seq<Event>) returns (st: Stack)
    requires run != [] && PlacementRun(key, n, run)
    ensures var h0, s := Exec(key, n, run[..|run| - 2]), run[|run| - 2].stack;
      && Minimal(h0, s)
      && Exec(key, n, run) == h0.(stacks := h0.stacks[s := st])
      && st.count == Increment(h0.stacks[s].count)
  {
    var before, a, r := run[..|run| - 2], run[|run| - 2], run[|run| - 1];
    var h0, prefix := Exec(key, n, before), run[..|run| - 1];
    assert prefix[..|prefix| - 1] == before && prefix[|prefix| - 1] == a;
    assert Exec(key, n, prefix) == Step(h0, a);
    AllocateThenRegister(h0, a, r);
    st := Joined(Issued(h0.stacks[a.stack]), Client(h0.key, r.stack, r.client));
  }

  lemma AllocateThenRegister(h0: Hub, a: Event, r: Event)
    requires a.Allocate? && r.Register? && r.stack == a.stack && a.stack in h0.stacks
    ensures var st := Joined(Issued(h0.stacks[a.stack]), Client(h0.key, r.stack, r.client));
      Step(Step(h0, a), r) == h0.(stacks := h0.stacks[a.stack := st])
  {
    var st := Issued(h0.stacks[a.stack]);
    assert Step(h0, a).stacks == h0.stacks[a.stack := st];
    assert h0.stacks[a.stack := st][a.stack := Joined(st, Client(h0.key, r.stack, r.client))]
        == h0.stacks[a.stack := Joined(st, Client(h0.key, r.stack, r.client))];
  }

  lemma QuotientIs(x: int, n: int, q: int, r: int)
    requires n > 0 && 0 <= r < n && x == q * n + r
    ensures x / n == q && x % n == r
  {
    var d := q - x / n;
    assert d * n == x % n - r by {
      assert x == n * (x / n) + x % n;
      assert d * n == q * n - (x / n) * n;
    }
    if d >= 1 {
      AtLeastOnce(d, n);
    } else if d <= -1 {
      AtLeastOnce(-d, n);
    }
  }

  lemma AtLeastOnce(d: int, n: int)
    requires d >= 1 && n > 0
    ensures d * n == n * d && d * n >= n && (-d) * n <= -n
  {
    assert d * n == (d - 1) * n + n;
  }
}
