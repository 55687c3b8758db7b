/** The shared collector: counters, latency samples, and the percentiles of a snapshot. */
module Metrics {
  import opened Bytes

  datatype Op =
    | AddTx(n: nat) | AddRx(n: nat) | AddDrop(n: nat) | AddDropTimeout(n: nat) | AddDropSendErr(n: nat)
    | AddDropDecode(n: nat) | AddDropMismatch(n: nat) | AddLatency(ns: int)

  datatype Tally = Tally(
    tx: nat, rx: nat, dropTimeout: nat, dropSendErr: nat, dropDecode: nat, dropMismatch: nat, dropOther: nat,
    latencyUS: seq<int>)

  const EMPTY: Tally := Tally(0, 0, 0, 0, 0, 0, 0, [])

  // d.Microseconds(): Go's division truncates toward zero.
  function Microseconds(ns: int): (us: int)
    ensures ns >= 0 ==> 1000 * us <= ns < 1000 * us + 1000
    ensures ns <= 0 ==> 1000 * us - 1000 < ns <= 1000 * us
  {
    if ns >= 0 then ns / 1000 else -(-ns / 1000)
  }

  function Apply(t: Tally, op: Op): Tally {
    Tally(
      t.tx + (if op.AddTx? then op.n else 0),
      t.rx + (if op.AddRx? then op.n else 0),
      t.dropTimeout + (if op.AddDropTimeout? then op.n else 0),
      t.dropSendErr + (if op.AddDropSendErr? then op.n else 0),
      t.dropDecode + (if op.AddDropDecode? then op.n else 0),
      t.dropMismatch + (if op.AddDropMismatch? then op.n else 0),
      t.dropOther + (if op.AddDrop? then op.n else 0),
      t.latencyUS + (if op.AddLatency? then [Microseconds(op.ns)] else []))
  }

  function ApplyAll(t: Tally, ops: seq<Op>): Tally {
    if ops == [] then t else Apply(ApplyAll(t, ops[..|ops| - 1]), ops[|ops| - 1])
  }

  function Drop(t: Tally): nat {
    t.dropTimeout + t.dropSendErr + t.dropDecode + t.dropMismatch + t.dropOther
  }

  // No counter and no sample list ever shrinks.
  predicate AtMost(t: Tally, u: Tally) {
    t.tx <= u.tx && t.rx <= u.rx && t.dropTimeout <= u.dropTimeout && t.dropSendErr <= u.dropSendErr
    && t.dropDecode <= u.dropDecode && t.dropMismatch <= u.dropMismatch && t.dropOther <= u.dropOther
    && Drop(t) <= Drop(u) && t.latencyUS <= u.latencyUS
  }

  // ---------- Sorting ----------

  predicate Sorted(s: seq<int>) {
    forall i, j :: 0 <= i < j < |s| ==> s[i] <= s[j]
  }

  function Insert(s: seq<int>, x: int): (r: seq<int>)
    ensures |r| == |s| + 1
  {
    if s == [] || s[|s| - 1] <= x then s + [x]
    else Insert(s[..|s| - 1], x) + [s[|s| - 1]]
  }

  function Sort(s: seq<int>): (r: seq<int>)
    ensures |r| == |s|
  {
    if s == [] then [] else Insert(Sort(s[..|s| - 1]), s[|s| - 1])
  }

  lemma MultisetLast<T>(s: seq<T>)
    requires s != []
    ensures multiset(s) == multiset(s[..|s| - 1]) + multiset{s[|s| - 1]}
  {
    assert s == s[..|s| - 1] + [s[|s| - 1]];
  }

  lemma {:induction false} InsertPermutes(s: seq<int>, x: int)
    ensures multiset(Insert(s, x)) == multiset(s) + multiset{x}
  {
    if s != [] && s[|s| - 1] > x {
      InsertPermutes(s[..|s| - 1], x);
      MultisetLast(s);
    }
  }

  lemma {:induction false} InsertSorted(s: seq<int>, x: int)
    requires Sorted(s)
    ensures Sorted(Insert(s, x))
    ensures Insert(s, x)[|s|] == if s == [] || s[|s| - 1] <= x then x else s[|s| - 1]
  {
    if s != [] && s[|s| - 1] > x {
      var init := s[..|s| - 1];
      InsertSorted(init, x);
      assert Insert(s, x)[..|s|] == Insert(init, x);
    }
  }

  lemma {:induction false} SortSorts(s: seq<int>)
    ensures Sorted(Sort(s)) && multiset(Sort(s)) == multiset(s)
  {
    if s != [] {
      SortSorts(s[..|s| - 1]);
      InsertSorted(Sort(s[..|s| - 1]), s[|s| - 1]);
      InsertPermutes(Sort(s[..|s| - 1]), s[|s| - 1]);
      MultisetLast(s);
    }
  }

  lemma LastIsLargest(s: seq<int>, x: int)
    requires Sorted(s) && x in multiset(s)
    ensures s != [] && x <= s[|s| - 1]
  {
    var i :| 0 <= i < |s| && s[i] == x;
  }

  lemma CancelOne<T>(m: multiset<T>, n: multiset<T>, x: T)
    requires m + multiset{x} == n + multiset{x}
    ensures m == n
  {
    assert m == (m + multiset{x}) - multiset{x};
    assert n == (n + multiset{x}) - multiset{x};
  }

  lemma SameLast(s: seq<int>, t: seq<int>)
    requires Sorted(s) && Sorted(t) && multiset(s) == multiset(t) && s != [] && t != []
    ensures s[|s| - 1] == t[|t| - 1] && multiset(s[..|s| - 1]) == multiset(t[..|t| - 1])
  {
    var a, b := s[|s| - 1], t[|t| - 1];
    MultisetLast(s);
    MultisetLast(t);
    assert a in multiset(s) && b in multiset(t);
    LastIsLargest(s, b);
    LastIsLargest(t, a);
    CancelOne(multiset(s[..|s| - 1]), multiset(t[..|t| - 1]), a);
  }

  // A sorted arrangement of a multiset is unique.
  lemma {:induction false} SortedUnique(s: seq<int>, t: seq<int>)
    requires Sorted(s) && Sorted(t) && multiset(s) == multiset(t)
    ensures s == t
    decreases |s|
  {
    assert |s| == |multiset(s)| && |multiset(t)| == |t|;
    if s != [] {
      SameLast(s, t);
      SortedUnique(s[..|s| - 1], t[..|t| - 1]);
      assert s == s[..|s| - 1] + [s[|s| - 1]];
      assert t == t[..|t| - 1] + [t[|t| - 1]];
    }
  }

  // Moves a[i] left to its place among the sorted elements before it.
  method InsertInto(a: array<int>, i: nat)
    requires i < a.Length
    modifies a
    ensures a[..i + 1] == Insert(old(a[..i]), old(a[i]))
    ensures a[i + 1..] == old(a[i + 1..])
  {
    ghost var s := a[..i];
    var x, j := a[i], i;
    while j > 0 && a[j - 1] > x
      invariant j <= i && a[..j] == s[..j] && a[j + 1..i + 1] == s[j..] && a[i + 1..] == old(a[i + 1..])
      invariant Insert(s, x) == Insert(s[..j], x) + s[j..]
    {
      ghost var p := s[..j];
      assert p[..j - 1] == s[..j - 1] && p[j - 1] == a[j - 1];
      Associative(Insert(s[..j - 1], x), [s[j - 1]], s[j..]);
      assert [s[j - 1]] + s[j..] == s[j - 1..];
      a[j] := a[j - 1];
      assert a[j..i + 1] == [s[j - 1]] + a[j + 1..i + 1];
      j := j - 1;
    }
    a[j] := x;
    assert Insert(s[..j], x) == s[..j] + [x];
    assert a[..i + 1] == a[..j] + [x] + a[j + 1..i + 1];
  }

  // sort.Slice on the copy, in place.
  method SortInPlace(a: array<int>)
    modifies a
    ensures a[..] == Sort(old(a[..]))
  {
    ghost var b := a[..];
    var i := 0;
    while i < a.Length
      invariant i <= a.Length && a[..i] == Sort(b[..i]) && a[i..] == b[i..]
    {
      InsertInto(a, i);
      assert b[..i + 1][..i] == b[..i] && a[i + 1..] == b[i..][1..];
      i := i + 1;
    }
    assert a[..] == a[..i] && b == b[..i];
  }

  // ---------- Percentiles ----------

  // int(float64(n-1) * p/100), clamped to the list
  function Index(n: nat, p: nat): (i: nat)
    requires n > 0
    ensures i < n
  {
    var i := (n - 1) * p / 100;
    if i >= n then n - 1 else i
  }

  function Percentile(vals: seq<int>, p: nat): int {
    if vals == [] then 0 else Sort(vals)[Index(|vals|, p)]
  }

  // How many samples lie strictly below v; those at most v are Below(s, v + 1).
  function Below(s: seq<int>, v: int): (n: nat)
    ensures n <= |s|
  {
    if s == [] then 0 else Below(s[..|s| - 1], v) + if s[|s| - 1] < v then 1 else 0
  }

  lemma {:induction false} BelowInsert(s: seq<int>, x: int, v: int)
    ensures Below(Insert(s, x), v) == Below(s, v) + if x < v then 1 else 0
  {
    if s != [] && s[|s| - 1] > x {
      BelowInsert(s[..|s| - 1], x, v);
      assert Insert(s, x)[..|Insert(s, x)| - 1] == Insert(s[..|s| - 1], x);
    } else {
      assert (s + [x])[..|s|] == s;
    }
  }

  lemma {:induction false} BelowSort(s: seq<int>, v: int)
    ensures Below(Sort(s), v) == Below(s, v)
  {
    if s != [] {
      BelowSort(s[..|s| - 1], v);
      BelowInsert(Sort(s[..|s| - 1]), s[|s| - 1], v);
    }
  }

  // In a sorted list the elements before k decide the rank of k's value.
  lemma {:induction false} BelowSorted(s: seq<int>, k: nat, v: int)
    requires Sorted(s) && k <= |s|
    ensures (forall i :: 0 <= i < k ==> s[i] < v) ==> Below(s, v) >= k
    ensures (forall i :: k <= i < |s| ==> s[i] >= v) ==> Below(s, v) <= k
  {
    if k < |s| {
      BelowSorted(s[..|s| - 1], k, v);
    } else if s != [] {
      BelowSorted(s[..|s| - 1], k - 1, v);
    }
  }

  lemma MemberOfSort(vals: seq<int>, v: int)
    requires v in Sort(vals)
    ensures v in vals
  {
    SortSorts(vals);
    assert v in multiset(Sort(vals));
    assert v in multiset(vals);
  }

  lemma RankInSorted(s: seq<int>, k: nat, v: int)
    requires Sorted(s) && k < |s| && v == s[k]
    ensures Below(s, v + 1) >= k + 1 && Below(s, v) <= k
  {
    BelowSorted(s, k + 1, v + 1);
    BelowSorted(s, k, v);
  }

  lemma RankOf(vals: seq<int>, s: seq<int>, k: nat, v: int)
    requires s == Sort(vals) && k < |s| && v == s[k]
    ensures v in vals && Below(vals, v + 1) >= k + 1 && Below(vals, v) <= k
  {
    MemberOfSort(vals, v);
    SortSorts(vals);
    RankInSorted(s, k, v);
    BelowSort(vals, v + 1);
    BelowSort(vals, v);
  }

  // v is a sample of rank k, if k is p hundredths of the way from the first rank to the last, rounded down: at
  // least k + 1 samples are at most v, and at most k are below it.
  predicate RankedAt(vals: seq<int>, p: nat, k: nat, v: int) {
    100 * k <= (|vals| - 1) * p < 100 * (k + 1) ==>
      v in vals && Below(vals, v + 1) >= k + 1 && Below(vals, v) <= k
  }

  // v is the p-th percentile; of no samples it is 0.
  ghost predicate IsPercentile(vals: seq<int>, p: nat, v: int) {
    if vals == [] then v == 0 else forall k: nat :: RankedAt(vals, p, k, v)
  }

  lemma OneQuotient(a: nat, k: nat)
    requires 100 * k <= a < 100 * (k + 1)
    ensures a / 100 == k
  {
  }

  lemma IndexIs(n: nat, p: nat, k: nat)
    requires n > 0 && p <= 100 && 100 * k <= (n - 1) * p < 100 * (k + 1)
    ensures Index(n, p) == k
  {
    OneQuotient((n - 1) * p, k);
    assert (n - 1) * p <= (n - 1) * 100;
  }

  lemma RankGuarantee(vals: seq<int>, p: nat)
    requires p <= 100
    ensures IsPercentile(vals, p, Percentile(vals, p))
  {
    forall k: nat | vals != []
      ensures RankedAt(vals, p, k, Percentile(vals, p))
    {
      if 100 * k <= (|vals| - 1) * p < 100 * (k + 1) {
        IndexIs(|vals|, p, k);
        RankOf(vals, Sort(vals), k, Percentile(vals, p));
      }
    }
  }

  lemma {:induction false} BelowMonotone(s: seq<int>, u: int, v: int)
    requires u <= v
    ensures Below(s, u) <= Below(s, v)
  {
    if s != [] {
      BelowMonotone(s[..|s| - 1], u, v);
    }
  }

  // There is no other value of that rank.
  lemma PercentileUnique(vals: seq<int>, p: nat, u: int, v: int)
    requires IsPercentile(vals, p, u) && IsPercentile(vals, p, v)
    ensures u == v
  {
    if vals != [] {
      var a := (|vals| - 1) * p;
      var k: nat := a / 100;
      assert RankedAt(vals, p, k, u) && RankedAt(vals, p, k, v);
      if u < v {
        BelowMonotone(vals, u + 1, v);
      } else if v < u {
        BelowMonotone(vals, v + 1, u);
      }
    }
  }

  lemma DivMonotone(a: nat, b: nat)
    requires a <= b
    ensures a / 100 <= b / 100
  {
  }

  lemma IndexMonotone(n: nat, p: nat, q: nat)
    requires n > 0 && p <= q
    ensures Index(n, p) <= Index(n, q)
  {
    var m := n - 1;
    assert m * p <= m * q;
    DivMonotone(m * p, m * q);
  }

  lemma PercentilesOrdered(vals: seq<int>, p: nat, q: nat)
    requires p <= q
    ensures Percentile(vals, p) <= Percentile(vals, q)
  {
    if vals != [] {
      SortSorts(vals);
      IndexMonotone(|vals|, p, q);
    }
  }

  method Percentiles(vals: seq<int>) returns (p50: int, p95: int, p99: int)
    ensures p50 == Percentile(vals, 50) && p95 == Percentile(vals, 95) && p99 == Percentile(vals, 99)
    ensures IsPercentile(vals, 50, p50) && IsPercentile(vals, 95, p95) && IsPercentile(vals, 99, p99)
    ensures p50 <= p95 <= p99
  {
    RankGuarantee(vals, 50);
    RankGuarantee(vals, 95);
    RankGuarantee(vals, 99);
    PercentilesOrdered(vals, 50, 95);
    PercentilesOrdered(vals, 95, 99);
    if |vals| == 0 {
      return 0, 0, 0;
    }
    var cp := new int[|vals|](i requires 0 <= i < |vals| => vals[i]);
    assert cp[..] == vals;
    SortInPlace(cp);
    return cp[Index(cp.Length, 50)], cp[Index(cp.Length, 95)], cp[Index(cp.Length, 99)];
  }

  // ---------- Order independence ----------

  // The same counters and the same samples in some order.
  predicate Same(t: Tally, u: Tally) {
    t.tx == u.tx && t.rx == u.rx && t.dropTimeout == u.dropTimeout && t.dropSendErr == u.dropSendErr
    && t.dropDecode == u.dropDecode && t.dropMismatch == u.dropMismatch && t.dropOther == u.dropOther
    && multiset(t.latencyUS) == multiset(u.latencyUS)
  }

  lemma ApplySame(t: Tally, u: Tally, op: Op)
    requires Same(t, u)
    ensures Same(Apply(t, op), Apply(u, op))
  {
  }

  lemma ApplyLast(t: Tally, ops: seq<Op>, op: Op)
    ensures ApplyAll(t, ops + [op]) == Apply(ApplyAll(t, ops), op)
  {
    assert (ops + [op])[..|ops|] == ops;
  }

  lemma Swap(t: Tally, op: Op, o: Op)
    ensures Same(Apply(Apply(t, op), o), Apply(Apply(t, o), op))
  {
  }

  lemma Commute(t: Tally, u: Tally, op: Op, o: Op)
    requires Same(u, Apply(t, op))
    ensures Same(Apply(u, o), Apply(Apply(t, o), op))
  {
    ApplySame(u, Apply(t, op), o);
    Swap(t, op, o);
  }

  lemma {:induction false} MoveToEnd(t: Tally, a: seq<Op>, op: Op, b: seq<Op>)
    ensures Same(ApplyAll(t, a + [op] + b), Apply(ApplyAll(t, a + b), op))
    decreases |b|
  {
    if b == [] {
      assert a + [op] + b == a + [op] && a + b == a;
      ApplyLast(t, a, op);
    } else {
      var c, o := b[..|b| - 1], b[|b| - 1];
      assert a + [op] + b == (a + [op] + c) + [o];
      assert a + b == (a + c) + [o];
      ApplyLast(t, a + [op] + c, o);
      ApplyLast(t, a + c, o);
      MoveToEnd(t, a, op, c);
      Commute(ApplyAll(t, a + c), ApplyAll(t, a + [op] + c), op, o);
    }
  }

  lemma MultisetWithout<T>(a: seq<T>, x: T, b: seq<T>, init: seq<T>)
    requires multiset(a + [x] + b) == multiset(init + [x])
    ensures multiset(a + b) == multiset(init)
  {
    assert multiset(a + b) == multiset(a + [x] + b) - multiset{x};
    assert multiset(init) == multiset(init + [x]) - multiset{x};
  }

  lemma {:induction false} Permuted(t: Tally, xs: seq<Op>, ys: seq<Op>)
    requires multiset(xs) == multiset(ys)
    ensures Same(ApplyAll(t, xs), ApplyAll(t, ys))
    decreases |xs|
  {
    assert |xs| == |multiset(xs)| && |multiset(ys)| == |ys|;
    if xs != [] {
      var init, op := xs[..|xs| - 1], xs[|xs| - 1];
      assert xs == init + [op];
      assert op in multiset(ys);
      var k :| 0 <= k < |ys| && ys[k] == op;
      var a, b := ys[..k], ys[k + 1..];
      assert ys == a + [op] + b;
      MultisetWithout(a, op, b, init);
      Permuted(t, init, a + b);
      ApplySame(ApplyAll(t, init), ApplyAll(t, a + b), op);
      MoveToEnd(t, a, op, b);
    }
  }

  // ---------- The collector ----------

  datatype Snapshot = Snapshot(
    mode: string, transport: string, targetPPS: int, achievedPPS: int, tx: nat, rx: nat, drop: nat,
    dropTimeout: nat, dropSendErr: nat, dropDecode: nat, dropMismatch: nat, dropOther: nat,
    p50US: int, p95US: int, p99US: int, channels: int)

  const SECOND: nat := 1_000_000_000

  // since is in nanoseconds.
  function Summary(t: Tally, mode: string, transport: string, targetPPS: int, channels: int, since: int): Snapshot {
    Snapshot(
      mode, transport, targetPPS, if since > 0 then t.rx * SECOND / since else 0, t.tx, t.rx, Drop(t),
      t.dropTimeout, t.dropSendErr, t.dropDecode, t.dropMismatch, t.dropOther,
      Percentile(t.latencyUS, 50), Percentile(t.latencyUS, 95), Percentile(t.latencyUS, 99), channels)
  }

  // Every figure of the row is the collector's: the counters as they are, drops in all and by cause, whole
  // replies per second of since (0 unless some time has passed), and the percentiles of the samples.
  ghost predicate Shows(row: Snapshot, t: Tally, since: int) {
    && row.tx == t.tx && row.rx == t.rx
    && row.dropTimeout == t.dropTimeout && row.dropSendErr == t.dropSendErr && row.dropDecode == t.dropDecode
    && row.dropMismatch == t.dropMismatch && row.dropOther == t.dropOther
    && row.drop == row.dropTimeout + row.dropSendErr + row.dropDecode + row.dropMismatch + row.dropOther
    && (since > 0 ==> row.achievedPPS * since <= t.rx * SECOND < (row.achievedPPS + 1) * since)
    && (since <= 0 ==> row.achievedPPS == 0)
    && IsPercentile(t.latencyUS, 50, row.p50US) && IsPercentile(t.latencyUS, 95, row.p95US)
    && IsPercentile(t.latencyUS, 99, row.p99US)
  }

  lemma RateBounds(n: nat, since: int)
    requires since > 0
    ensures n / since * since <= n < (n / since + 1) * since
  {
    assert n == since * (n / since) + n % since;
  }

  lemma SummaryShows(t: Tally, mode: string, transport: string, targetPPS: int, channels: int, since: int)
    ensures var row := Summary(t, mode, transport, targetPPS, channels, since);
      Shows(row, t, since) && row.p50US <= row.p95US <= row.p99US
      && row.mode == mode && row.transport == transport && row.targetPPS == targetPPS && row.channels == channels
  {
    if since > 0 {
      RateBounds(t.rx * SECOND, since);
    }
    RankGuarantee(t.latencyUS, 50);
    RankGuarantee(t.latencyUS, 95);
    RankGuarantee(t.latencyUS, 99);
    PercentilesOrdered(t.latencyUS, 50, 95);
    PercentilesOrdered(t.latencyUS, 95, 99);
  }

  // Any two interleavings of the same updates give the same row.
  lemma OrderIndependent(xs: seq<Op>, ys: seq<Op>, mode: string, transport: string, pps: int, channels: int, since: int)
    requires multiset(xs) == multiset(ys)
    ensures Summary(ApplyAll(EMPTY, xs), mode, transport, pps, channels, since)
         == Summary(ApplyAll(EMPTY, ys), mode, transport, pps, channels, since)
  {
    Permuted(EMPTY, xs, ys);
    var t, u := ApplyAll(EMPTY, xs), ApplyAll(EMPTY, ys);
    SortSorts(t.latencyUS);
    SortSorts(u.latencyUS);
    SortedUnique(Sort(t.latencyUS), Sort(u.latencyUS));
    assert |multiset(t.latencyUS)| == |multiset(u.latencyUS)|;
  }

  class Collector {
    var tx: nat
    var rx: nat
    var dropTimeout: nat
    var dropSendErr: nat
    var dropDecode: nat
    var dropMismatch: nat
    var dropOther: nat
    var latencyUS: seq<int>

    function View(): Tally
      reads this
    {
      Tally(tx, rx, dropTimeout, dropSendErr, dropDecode, dropMismatch, dropOther, latencyUS)
    }

    constructor ()
      ensures View() == EMPTY
    {
      tx, rx, dropTimeout, dropSendErr, dropDecode, dropMismatch, dropOther := 0, 0, 0, 0, 0, 0, 0;
      latencyUS := [];
    }

    method AddTx(n: nat)
      modifies this`tx
      ensures tx == old(tx) + n && View() == Apply(old(View()), Op.AddTx(n))
    {
      tx := tx + n;
    }

    method AddRx(n: nat)
      modifies this`rx
      ensures rx == old(rx) + n && View() == Apply(old(View()), Op.AddRx(n))
    {
      rx := rx + n;
    }

    method AddDrop(n: nat)
      modifies this`dropOther
      ensures dropOther == old(dropOther) + n && View() == Apply(old(View()), Op.AddDrop(n))
    {
      dropOther := dropOther + n;
    }

    method AddDropTimeout(n: nat)
      modifies this`dropTimeout
      ensures dropTimeout == old(dropTimeout) + n && View() == Apply(old(View()), Op.AddDropTimeout(n))
    {
      dropTimeout := dropTimeout + n;
    }

    method AddDropSendErr(n: nat)
      modifies this`dropSendErr
      ensures dropSendErr == old(dropSendErr) + n && View() == Apply(old(View()), Op.AddDropSendErr(n))
    {
      dropSendErr := dropSendErr + n;
    }

    method AddDropDecode(n: nat)
      modifies this`dropDecode
      ensures dropDecode == old(dropDecode) + n && View() == Apply(old(View()), Op.AddDropDecode(n))
    {
      dropDecode := dropDecode + n;
    }

    method AddDropMismatch(n: nat)
      modifies this`dropMismatch
      ensures dropMismatch == old(dropMismatch) + n && View() == Apply(old(View()), Op.AddDropMismatch(n))
    {
      dropMismatch := dropMismatch + n;
    }

    method AddLatency(ns: int)
      modifies this`latencyUS
      ensures |latencyUS| == |old(latencyUS)| + 1 && latencyUS[..|old(latencyUS)|] == old(latencyUS)
      ensures var us := latencyUS[|old(latencyUS)|];
        if ns >= 0 then 1000 * us <= ns < 1000 * us + 1000 else 1000 * us - 1000 < ns <= 1000 * us
      ensures View() == Apply(old(View()), Op.AddLatency(ns))
    {
      latencyUS := latencyUS + [Microseconds(ns)];
    }

    method TakeSnapshot(mode: string, transport: string, targetPPS: int, channels: int, since: int)
      returns (row: Snapshot)
      ensures Shows(row, Tally(tx, rx, dropTimeout, dropSendErr, dropDecode, dropMismatch, dropOther, latencyUS), since)
      ensures row.mode == mode && row.transport == transport && row.targetPPS == targetPPS && row.channels == channels
      ensures row.p50US <= row.p95US <= row.p99US
      ensures row == Summary(View(), mode, transport, targetPPS, channels, since)
    {
      SummaryShows(View(), mode, transport, targetPPS, channels, since);
      var p50, p95, p99 := Percentiles(latencyUS);
      var achieved := if since > 0 then rx * SECOND / since else 0;
      var drop := dropTimeout + dropSendErr + dropDecode + dropMismatch + dropOther;
      return Snapshot(
        mode, transport, targetPPS, achieved, tx, rx, drop,
        dropTimeout, dropSendErr, dropDecode, dropMismatch, dropOther, p50, p95, p99, channels);
    }
  }
}
