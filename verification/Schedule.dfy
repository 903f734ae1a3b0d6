/** Jobs in any order: why the interleaving of the workers does not show, how jobs
    are dealt into packets, and which pairs of objects are compared. */
module Schedule {
  import opened QueueInvariants

  // ----- performing jobs in some order -----

  /** The world after performing the jobs in this order. */
  ghost function Perform<W, J>(act: (W, J) -> W, w: W, jobs: seq<J>): W {
    if jobs == [] then w else Perform(act, act(w, jobs[0]), jobs[1..])
  }

  /** Any two jobs may be swapped. */
  ghost predicate Commutes<W(!new), J(!new)>(act: (W, J) -> W) {
    forall w: W, i: J, j: J :: act(act(w, i), j) == act(act(w, j), i)
  }

  lemma {:induction false} PerformAppend<W, J>(act: (W, J) -> W, w: W, a: seq<J>, b: seq<J>)
    ensures Perform(act, w, a + b) == Perform(act, Perform(act, w, a), b)
  {
    if a == [] {
      assert a + b == b;
    } else {
      assert (a + b)[1..] == a[1..] + b;
      PerformAppend(act, act(w, a[0]), a[1..], b);
    }
  }

  /** A job may be performed before all the others. */
  lemma {:induction false} PerformFirst<W(!new), J(!new)>(act: (W, J) -> W, w: W, a: seq<J>, j: J)
    requires Commutes(act)
    ensures Perform(act, act(w, j), a) == act(Perform(act, w, a), j)
  {
    if a != [] {
      assert act(act(w, j), a[0]) == act(act(w, a[0]), j);
      PerformFirst(act, act(w, a[0]), a[1..], j);
    }
  }

  lemma WithoutOne<J>(a: seq<J>, k: nat)
    requires k < |a|
    ensures multiset(a[..k] + a[k + 1..]) == multiset(a) - multiset{a[k]}
  {
    assert a == a[..k] + [a[k]] + a[k + 1..];
    assert multiset(a) == multiset(a[..k]) + multiset{a[k]} + multiset(a[k + 1..]);
  }

  /** Any job of the list may be performed first. */
  lemma PullOut<W(!new), J(!new)>(act: (W, J) -> W, w: W, b: seq<J>, k: nat)
    requires Commutes(act) && k < |b|
    ensures Perform(act, w, b) == Perform(act, act(w, b[k]), b[..k] + b[k + 1..])
  {
    var j := b[k];
    assert b == b[..k] + ([j] + b[k + 1..]);
    PerformAppend(act, w, b[..k], [j] + b[k + 1..]);
    var v := Perform(act, w, b[..k]);
    assert ([j] + b[k + 1..])[1..] == b[k + 1..];
    PerformFirst(act, w, b[..k], j);
    PerformAppend(act, act(w, j), b[..k], b[k + 1..]);
  }

  /** The first job of one order in another order of the same jobs. */
  lemma FindJob<J>(a: seq<J>, b: seq<J>) returns (k: nat)
    requires a != [] && multiset(a) == multiset(b)
    ensures k < |b| && b[k] == a[0] && multiset(a[1..]) == multiset(b[..k] + b[k + 1..])
  {
    assert a[0] in multiset(b);
    k :| 0 <= k < |b| && b[k] == a[0];
    assert a == [a[0]] + a[1..];
    assert multiset(a[1..]) == multiset(a) - multiset{a[0]};
    WithoutOne(b, k);
  }

  /** With jobs that commute, every order of the same jobs leaves the same world. */
  lemma {:induction false} OrderDoesNotMatter<W(!new), J(!new)>(act: (W, J) -> W, w: W, a: seq<J>, b: seq<J>)
    requires Commutes(act) && multiset(a) == multiset(b)
    ensures Perform(act, w, a) == Perform(act, w, b)
    decreases |a|
  {
    if a == [] {
      assert |multiset(b)| == 0;
    } else {
      var k := FindJob(a, b);
      OrderDoesNotMatter(act, act(w, a[0]), a[1..], b[..k] + b[k + 1..]);
      PullOut(act, w, b, k);
    }
  }

  // ----- dealing jobs into packets -----

  /** The jobs that round robin gives to packet p of n, in order. */
  function Deal<J>(jobs: seq<J>, n: nat, p: nat): seq<J>
    requires n > 0
  {
    if jobs == [] then []
    else
      var last := |jobs| - 1;
      Deal(jobs[..last], n, p) + if last % n == p then [jobs[last]] else []
  }

  function Packets<J>(jobs: seq<J>, n: nat): seq<seq<J>>
    requires n > 0
  {
    seq(n, p requires 0 <= p < n => Deal(jobs, n, p))
  }

  lemma {:induction false} JobsUpdate<J>(packets: seq<seq<J>>, p: nat, j: J)
    requires p < |packets|
    ensures Jobs(packets[p := packets[p] + [j]]) == Jobs(packets) + multiset{j}
  {
    var last := |packets| - 1;
    var more := packets[p := packets[p] + [j]];
    if p == last {
      assert more[..last] == packets[..last];
    } else {
      assert more[..last] == packets[..last][p := packets[p] + [j]];
      JobsUpdate(packets[..last], p, j);
    }
  }

  lemma {:induction false} JobsOfEmpties<J>(packets: seq<seq<J>>)
    requires forall p :: 0 <= p < |packets| ==> packets[p] == []
    ensures Jobs(packets) == multiset{}
  {
    if packets != [] {
      JobsOfEmpties(packets[..|packets| - 1]);
    }
  }

  /** One more job goes to one packet. */
  lemma PacketsStep<J>(jobs: seq<J>, n: nat)
    requires n > 0 && jobs != []
    ensures var last := |jobs| - 1;
            var fewer := Packets(jobs[..last], n);
            var p := last % n;
            0 <= p < n && Packets(jobs, n) == fewer[p := fewer[p] + [jobs[last]]]
  {
    var last := |jobs| - 1;
    var p := last % n;
    var fewer := Packets(jobs[..last], n);
    var more := fewer[p := fewer[p] + [jobs[last]]];
    forall i | 0 <= i < n ensures Packets(jobs, n)[i] == more[i] {
      assert Packets(jobs, n)[i] == Deal(jobs, n, i);
      assert fewer[i] == Deal(jobs[..last], n, i);
    }
  }

  lemma MultisetLast<J>(jobs: seq<J>)
    requires jobs != []
    ensures multiset(jobs) == multiset(jobs[..|jobs| - 1]) + multiset{jobs[|jobs| - 1]}
  {
    assert jobs == jobs[..|jobs| - 1] + [jobs[|jobs| - 1]];
  }

  /** Round robin loses no job and doubles none, for any number of workers. */
  lemma {:induction false} PacketsHoldEveryJob<J>(jobs: seq<J>, n: nat)
    requires n > 0
    ensures Jobs(Packets(jobs, n)) == multiset(jobs)
  {
    if jobs == [] {
      JobsOfEmpties(Packets(jobs, n));
    } else {
      var last := |jobs| - 1;
      PacketsHoldEveryJob(jobs[..last], n);
      PacketsStep(jobs, n);
      JobsUpdate(Packets(jobs[..last], n), last % n, jobs[last]);
      MultisetLast(jobs);
    }
  }

  lemma MulAtMost(a: int, b: int, n: int)
    requires a <= b && n >= 0
    ensures a * n <= b * n
  {
  }

  lemma PlaceOf(f: nat, n: nat, p: nat)
    requires p < n
    ensures (f * n + p) % n == p
  {
    var x := f * n + p;
    var d := x / n;
    assert x == d * n + x % n;
    if d < f {
      MulAtMost(d + 1, f, n);
      assert false;
    } else if d > f {
      MulAtMost(f + 1, d, n);
      assert false;
    }
  }

  /** The next place of packet p, if it is the packet's turn. */
  lemma SamePlace(f: nat, last: nat, n: nat, p: nat)
    requires p < n && last % n == p && last <= f * n + p < last + n
    ensures f * n + p == last
  {
    var d := last / n;
    assert last == d * n + p;
    if f < d {
      MulAtMost(f + 1, d, n);
      assert false;
    } else if f > d {
      MulAtMost(d + 1, f, n);
      assert false;
    }
  }

  /** How many jobs packet p gets: rows of n as long as its place is filled, so no two
      packets differ by more than one job. */
  lemma {:induction false} RoundRobinLength<J>(jobs: seq<J>, n: nat, p: nat)
    requires p < n
    ensures var rows := |Deal(jobs, n, p)|;
            rows * n + p >= |jobs| && (rows > 0 ==> (rows - 1) * n + p < |jobs|)
    decreases |jobs|
  {
    if jobs != [] {
      var last := |jobs| - 1;
      var rows := |Deal(jobs[..last], n, p)|;
      RoundRobinLength(jobs[..last], n, p);
      OneMoreRow(rows - 1, n);
      OneMoreRow(rows, n);
      if last % n == p {
        SamePlace(rows, last, n, p);
      } else {
        PlaceOf(rows, n, p);
      }
    }
  }

  /** Which job is where: row k of packet p is job k * n + p. */
  lemma {:induction false} RoundRobin<J>(jobs: seq<J>, n: nat, p: nat, k: nat)
    requires p < n && k < |Deal(jobs, n, p)|
    ensures k * n + p < |jobs| && Deal(jobs, n, p)[k] == jobs[k * n + p]
    decreases |jobs|
  {
    var last := |jobs| - 1;
    var fewer := Deal(jobs[..last], n, p);
    if k < |fewer| {
      RoundRobin(jobs[..last], n, p, k);
    } else {
      RoundRobinLength(jobs[..last], n, p);
      OneMoreRow(k - 1, n);
      SamePlace(k, last, n, p);
    }
  }

  lemma OneMoreRow(k: int, n: int)
    ensures (k + 1) * n == k * n + n
  {
  }

  /** The packet loop of `sim_core::tick`. */
  method Packetise<J>(jobs: seq<J>, workers: nat) returns (packets: seq<seq<J>>)
    requires workers > 0
    ensures packets == Packets(jobs, workers)
  {
    packets := seq(workers, _ => []);
    var current := 0;
    while current < |jobs|
      invariant 0 <= current <= |jobs|
      invariant packets == Packets(jobs[..current], workers)
    {
      var p := current % workers;
      assert jobs[..current + 1][..current] == jobs[..current];
      PacketsStep(jobs[..current + 1], workers);
      packets := packets[p := packets[p] + [jobs[current]]];
      current := current + 1;
    }
    assert jobs[..current] == jobs;
  }

  // ----- the pairs of the collision phase -----

  /** Object c with every later one. */
  function PairsOf(ids: seq<nat>, c: nat, b: nat): seq<(nat, nat)>
    requires c < |ids| && b <= |ids|
  {
    if b <= c + 1 then [] else PairsOf(ids, c, b - 1) + [(ids[c], ids[b - 1])]
  }

  /** The pairs of the first c objects with every later one. */
  function AllPairs(ids: seq<nat>, c: nat): seq<(nat, nat)>
    requires c <= |ids|
  {
    if c == 0 then [] else AllPairs(ids, c - 1) + PairsOf(ids, c - 1, |ids|)
  }

  ghost predicate Ascending(ids: seq<nat>) {
    forall i, j :: 0 <= i < j < |ids| ==> ids[i] < ids[j]
  }

  /** One more key of the prefix. */
  lemma PrefixGrows(ids: seq<nat>, c: nat, x: nat)
    requires 0 < c <= |ids| && Ascending(ids)
    ensures x in ids[..c] <==> x in ids[..c - 1] || x == ids[c - 1]
    ensures ids[c - 1] !in ids[..c - 1]
  {
    assert ids[..c] == ids[..c - 1] + [ids[c - 1]];
  }

  /** How often x occurs in s. */
  ghost function Count<T>(s: seq<T>, x: T): nat {
    if s == [] then 0 else Count(s[..|s| - 1], x) + if s[|s| - 1] == x then 1 else 0
  }

  lemma {:induction false} CountIsMultiplicity<T>(s: seq<T>, x: T)
    ensures Count(s, x) == multiset(s)[x]
  {
    if s != [] {
      CountIsMultiplicity(s[..|s| - 1], x);
      assert s == s[..|s| - 1] + [s[|s| - 1]];
    }
  }

  lemma {:induction false} CountConcat<T>(a: seq<T>, b: seq<T>, x: T)
    ensures Count(a + b, x) == Count(a, x) + Count(b, x)
  {
    if b == [] {
      assert a + b == a;
    } else {
      var n := |b| - 1;
      assert (a + b)[..|a + b| - 1] == a + b[..n];
      CountConcat(a, b[..n], x);
    }
  }

  lemma {:induction false} PairsOfCount(ids: seq<nat>, c: nat, b: nat, x: nat, y: nat)
    requires c < |ids| && b <= |ids| && Ascending(ids)
    ensures Count(PairsOf(ids, c, b), (x, y)) == if x == ids[c] && x < y && y in ids[..b] then 1 else 0
    decreases b
  {
    if b > c + 1 {
      PairsOfCount(ids, c, b - 1, x, y);
      PrefixGrows(ids, b, y);
      var before := PairsOf(ids, c, b - 1);
      assert (before + [(ids[c], ids[b - 1])])[..|before|] == before;
    } else {
      forall k | 0 <= k < b ensures ids[k] <= ids[c] {
        assert k < c ==> ids[k] < ids[c];
      }
    }
  }

  lemma {:induction false} PairsOfLength(ids: seq<nat>, c: nat, b: nat)
    requires c < |ids| && b <= |ids|
    ensures |PairsOf(ids, c, b)| == if b <= c + 1 then 0 else b - c - 1
    decreases b
  {
    if b > c + 1 {
      PairsOfLength(ids, c, b - 1);
    }
  }

  ghost predicate IsPairOf(ids: seq<nat>, c: nat, x: nat, y: nat)
    requires c < |ids|
  {
    x == ids[c] && x < y && y in ids
  }

  lemma PairsOfLast(ids: seq<nat>, c: nat, x: nat, y: nat)
    requires c < |ids| && Ascending(ids)
    ensures Count(PairsOf(ids, c, |ids|), (x, y)) == if IsPairOf(ids, c, x, y) then 1 else 0
  {
    PairsOfCount(ids, c, |ids|, x, y);
    assert ids[..|ids|] == ids;
  }

  /** How often (x, y) is among the pairs of the first c objects, by recurrence. */
  ghost function PairCount(ids: seq<nat>, c: nat, x: nat, y: nat): nat
    requires c <= |ids|
  {
    if c == 0 then 0 else PairCount(ids, c - 1, x, y) + if IsPairOf(ids, c - 1, x, y) then 1 else 0
  }

  lemma {:induction false} AllPairsCount(ids: seq<nat>, c: nat, x: nat, y: nat)
    requires c <= |ids| && Ascending(ids)
    ensures Count(AllPairs(ids, c), (x, y)) == PairCount(ids, c, x, y)
    decreases c
  {
    if c > 0 {
      AllPairsCount(ids, c - 1, x, y);
      PairsOfLast(ids, c - 1, x, y);
      CountConcat(AllPairs(ids, c - 1), PairsOf(ids, c - 1, |ids|), (x, y));
    }
  }

  lemma {:induction false} PairCountIs(ids: seq<nat>, c: nat, x: nat, y: nat)
    requires c <= |ids| && Ascending(ids)
    ensures PairCount(ids, c, x, y) == if x < y && x in ids[..c] && y in ids then 1 else 0
    decreases c
  {
    if c > 0 {
      PairCountIs(ids, c - 1, x, y);
      PrefixGrows(ids, c, x);
    }
  }

  /** Every unordered pair of different objects is compared exactly once, the
      lower id first. */
  lemma EachPairOnce(ids: seq<nat>, x: nat, y: nat)
    requires Ascending(ids)
    ensures multiset(AllPairs(ids, |ids|))[(x, y)] == if x < y && x in ids && y in ids then 1 else 0
  {
    AllPairsCount(ids, |ids|, x, y);
    PairCountIs(ids, |ids|, x, y);
    assert ids[..|ids|] == ids;
    CountIsMultiplicity(AllPairs(ids, |ids|), (x, y));
  }

  /** (n - 1) + (n - 2) + ... + (n - c) */
  ghost function Steps(n: int, c: nat): int { if c == 0 then 0 else Steps(n, c - 1) + (n - c) }

  lemma {:induction false} PairsAreSteps(ids: seq<nat>, c: nat)
    requires c <= |ids| && Ascending(ids)
    ensures |AllPairs(ids, c)| == Steps(|ids|, c)
  {
    if c > 0 {
      PairsAreSteps(ids, c - 1);
      PairsOfLength(ids, c - 1, |ids|);
    }
  }

  lemma {:induction false} StepsAre(n: int, c: nat)
    ensures 2 * Steps(n, c) == c * (2 * n - c - 1)
  {
    if c > 0 {
      StepsAre(n, c - 1);
    }
  }

  lemma MulMonotone(a: nat, b: nat, c: nat, d: nat)
    requires a <= c && b <= d
    ensures a * b <= c * d
  {
    assert a * b <= c * b;
    assert c * b <= c * d;
  }

  const INT_MAX := 0x7fff_ffff

  /** The `int` that counts the pairs reaches its final value without overflow
      exactly up to 65536 objects. */
  lemma PairCounterFits(ids: seq<nat>)
    requires Ascending(ids)
    ensures |AllPairs(ids, |ids|)| <= INT_MAX <==> |ids| <= 65536
  {
    var n := |ids|;
    PairsAreSteps(ids, n);
    StepsAre(n, n);
    assert 2 * |AllPairs(ids, n)| == n * (n - 1);
    if n <= 65536 {
      if n > 0 { MulMonotone(n, n - 1, 65536, 65535); }
    } else {
      MulMonotone(65537, 65536, n, n - 1);
    }
  }

  /** The iterator loops of `sim_core::collision_check`. */
  method ListPairs(ids: seq<nat>) returns (pairs: seq<(nat, nat)>)
    ensures pairs == AllPairs(ids, |ids|)
  {
    pairs := [];
    var c := 0;
    while c != |ids|
      invariant 0 <= c <= |ids|
      invariant pairs == AllPairs(ids, c)
    {
      var b := c + 1;
      while b != |ids|
        invariant c + 1 <= b <= |ids|
        invariant pairs == AllPairs(ids, c) + PairsOf(ids, c, b)
      {
        pairs := pairs + [(ids[c], ids[b])];
        b := b + 1;
      }
      c := c + 1;
    }
  }
}
