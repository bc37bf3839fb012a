/** The generated dispatchers: the flat switch of emit_dispatch, and the sorted route
    table, binary search and per-shard switches of ng_emit_c_shards. */
module ShardedDispatch {
  import opened Machine

  const DEFAULT_FUNCTIONS_PER_SHARD := 2048

  // ---------------------------------------------------------------- switches

  /** dispatch_case_emitted: an earlier function has the same masked address. */
  predicate CaseEmitted(addrs: seq<u32>, i: nat)
    requires i < |addrs|
  {
    exists j :: 0 <= j < i && Wrap24(addrs[j]) == Wrap24(addrs[i])
  }

  /** The functions in lo..hi that are given a case, in order. */
  function Cases(addrs: seq<u32>, lo: nat, hi: nat): (r: seq<nat>)
    requires hi <= |addrs|
    ensures forall k :: 0 <= k < |r| ==> lo <= r[k] < hi && !CaseEmitted(addrs, r[k])
    decreases hi
  {
    if hi <= lo then []
    else Cases(addrs, lo, hi - 1) + if CaseEmitted(addrs, hi - 1) then [] else [hi - 1]
  }

  lemma {:induction false} HasCase(addrs: seq<u32>, lo: nat, hi: nat, i: nat)
    requires lo <= i < hi <= |addrs| && !CaseEmitted(addrs, i)
    ensures i in Cases(addrs, lo, hi)
    decreases hi
  {
    hide CaseEmitted;
    if i < hi - 1 {
      HasCase(addrs, lo, hi - 1, i);
    }
  }

  lemma {:induction false} CasesInOrder(addrs: seq<u32>, lo: nat, hi: nat)
    requires hi <= |addrs|
    ensures Increasing(Cases(addrs, lo, hi))
    decreases hi
  {
    hide CaseEmitted;
    if hi > lo {
      CasesInOrder(addrs, lo, hi - 1);
      var front, cs := Cases(addrs, lo, hi - 1), Cases(addrs, lo, hi);
      assert forall j :: 0 <= j < |front| ==> cs[j] == front[j] < hi - 1;
    }
  }

  predicate Increasing(cs: seq<nat>) {
    forall j, k :: 0 <= j < k < |cs| ==> cs[j] < cs[k]
  }

  /** The function a C switch over these cases runs, None for its default. */
  function Switch(addrs: seq<u32>, cases: seq<nat>, addr: u24): (r: Option<nat>)
    requires forall k :: 0 <= k < |cases| ==> cases[k] < |addrs|
    ensures r.Some? ==> r.value in cases && r.value < |addrs| && Wrap24(addrs[r.value]) == addr
    ensures r.None? ==> forall k :: 0 <= k < |cases| ==> Wrap24(addrs[cases[k]]) != addr
  {
    if cases == [] then None
    else if Wrap24(addrs[cases[0]]) == addr then Some(cases[0])
    else
      assert forall k :: 0 < k < |cases| ==> cases[k] == cases[1..][k - 1];
      Switch(addrs, cases[1..], addr)
  }

  /** The step function of emit_dispatch. */
  function FlatStep(addrs: seq<u32>, addr: u32): Option<nat> {
    Switch(addrs, Cases(addrs, 0, |addrs|), Wrap24(addr))
  }

  predicate IsFirst(addrs: seq<u32>, addr: u24, i: nat) {
    && i < |addrs| && Wrap24(addrs[i]) == addr
    && forall j :: 0 <= j < i ==> Wrap24(addrs[j]) != addr
  }

  /** No two cases of a switch have the same label, as C requires. */
  lemma CasesAreDistinct(addrs: seq<u32>, lo: nat, hi: nat)
    requires hi <= |addrs|
    ensures var cs := Cases(addrs, lo, hi);
            forall j, k :: 0 <= j < k < |cs| ==> Wrap24(addrs[cs[j]]) != Wrap24(addrs[cs[k]])
  {
    var cs := Cases(addrs, lo, hi);
    CasesInOrder(addrs, lo, hi);
    forall j, k | 0 <= j < k < |cs| ensures Wrap24(addrs[cs[j]]) != Wrap24(addrs[cs[k]]) {
      assert !CaseEmitted(addrs, cs[k]) && cs[j] < cs[k];
    }
  }

  lemma {:induction false} FirstFrom(addrs: seq<u32>, addr: u24, n: nat) returns (i: nat)
    requires exists j :: n <= j < |addrs| && Wrap24(addrs[j]) == addr
    requires n <= |addrs| && forall j :: 0 <= j < n ==> Wrap24(addrs[j]) != addr
    ensures IsFirst(addrs, addr, i)
    decreases |addrs| - n
  {
    if Wrap24(addrs[n]) == addr {
      i := n;
    } else {
      i := FirstFrom(addrs, addr, n + 1);
    }
  }

  /** The flat switch runs the first function with the address, and misses on exactly
      the addresses no function has. */
  lemma FlatStepIsFirst(addrs: seq<u32>, addr: u32)
    ensures match FlatStep(addrs, addr)
            case Some(i) => IsFirst(addrs, Wrap24(addr), i)
            case None => forall j :: 0 <= j < |addrs| ==> Wrap24(addrs[j]) != Wrap24(addr)
  {
    hide Wrap24, Cases;
    var r := FlatStep(addrs, addr);
    if r.Some? {
      assert !CaseEmitted(addrs, r.value);
    } else if exists j :: 0 <= j < |addrs| && Wrap24(addrs[j]) == Wrap24(addr) {
      var i := FirstFrom(addrs, Wrap24(addr), 0);
      FirstHasCase(addrs, addr, i);
    }
  }

  lemma FirstHasCase(addrs: seq<u32>, addr: u32, i: nat)
    requires IsFirst(addrs, Wrap24(addr), i)
    ensures FlatStep(addrs, addr).Some?
  {
    hide Wrap24, Cases;
    assert !CaseEmitted(addrs, i);
    var cases := Cases(addrs, 0, |addrs|);
    HasCase(addrs, 0, |addrs|, i);
    var k :| 0 <= k < |cases| && cases[k] == i;
    assert Wrap24(addrs[cases[k]]) == Wrap24(addr);
  }

  // ---------------------------------------------------------------- routes and shards

  datatype Route = Route(addr: u24, shard: nat)

  /** Zero asks for the default shard size. */
  function PerShard(asked: u32): (size: u32)
    ensures size > 0
  {
    if asked == 0 then DEFAULT_FUNCTIONS_PER_SHARD else asked
  }

  /** uint32_t arithmetic: count + size - 1 can wrap. */
  function ShardCount(count: u32, size: u32): u32
    requires size > 0
  {
    if count == 0 then 0 else Wrap32(count + size - 1) / size
  }

  datatype Range = Range(lo: u32, hi: u32)

  function ShardRange(count: u32, size: u32, shard: u32): Range {
    var lo := Wrap32(shard * size);
    var hi := Wrap32(lo + size);
    Range(lo, if hi < lo || hi > count then count else hi)
  }

  function Routes(addrs: seq<u32>, size: u32, n: nat): (r: seq<Route>)
    requires size > 0 && n <= |addrs|
  {
    if n == 0 then []
    else Routes(addrs, size, n - 1)
         + if CaseEmitted(addrs, n - 1) then [] else [Route(Wrap24(addrs[n - 1]), (n - 1) / size)]
  }

  lemma {:induction false} RoutesAreFirsts(addrs: seq<u32>, size: u32, n: nat, r: Route)
    requires size > 0 && n <= |addrs|
    ensures r in Routes(addrs, size, n)
            <==> exists i :: 0 <= i < n && IsFirst(addrs, r.addr, i) && r.shard == i / size
  {
    hide Wrap24;
    if n > 0 {
      RoutesAreFirsts(addrs, size, n - 1, r);
      if IsFirst(addrs, r.addr, n - 1) && r.shard == (n - 1) / size {
        assert !CaseEmitted(addrs, n - 1);
      }
      if r in Routes(addrs, size, n) && r !in Routes(addrs, size, n - 1) {
        assert IsFirst(addrs, r.addr, n - 1);
      }
    }
  }

  predicate Before(a: Route, b: Route) {
    a.addr < b.addr || (a.addr == b.addr && a.shard <= b.shard)
  }

  /** What qsort with compare_shard_dispatch_route leaves of the routes. */
  ghost predicate SortedRoutes(addrs: seq<u32>, size: u32, routes: seq<Route>)
    requires size > 0
  {
    && (forall j, k :: 0 <= j < k < |routes| ==> Before(routes[j], routes[k]))
    && multiset(routes) == multiset(Routes(addrs, size, |addrs|))
  }

  lemma SortedHasRoutes(addrs: seq<u32>, size: u32, routes: seq<Route>, r: Route)
    requires size > 0 && SortedRoutes(addrs, size, routes)
    ensures r in routes <==> exists i :: 0 <= i < |addrs| && IsFirst(addrs, r.addr, i) && r.shard == i / size
  {
    RoutesAreFirsts(addrs, size, |addrs|, r);
    assert r in routes <==> r in multiset(routes);
    assert r in Routes(addrs, size, |addrs|) <==> r in multiset(Routes(addrs, size, |addrs|));
  }

  // ---------------------------------------------------------------- the sharded step

  /** The switch of each shard, by shard number. */
  type Shards = seq<seq<nat>>

  ghost predicate EmittedShards(addrs: seq<u32>, size: u32, shards: Shards)
    requires size > 0 && |addrs| < 0x1_0000_0000
  {
    && |shards| == ShardCount(|addrs|, size)
    && forall k :: 0 <= k < |shards| ==>
         var range := ShardRange(|addrs|, size, k); range.hi <= |addrs| && shards[k] == Cases(addrs, range.lo, range.hi)
  }

  /** The emitted step: binary search for the first route at or above the address,
      then the switch of its shard. */
  method ShardedStep(addrs: seq<u32>, size: u32, routes: seq<Route>, shards: Shards, addr: u32) returns (r: Option<nat>)
    requires size > 0 && |addrs| < 0x1_0000_0000
    requires SortedRoutes(addrs, size, routes) && EmittedShards(addrs, size, shards)
    ensures r == if Overflows(|addrs|, size) then None else FlatStep(addrs, addr)
  {
    hide SortedRoutes, EmittedShards, Cases, Wrap24, FlatStep, IsFirst, ShardCount, ShardRange;
    var a := Wrap24(addr);
    var lo, hi := 0, |routes|;
    assert InOrder(routes) by { RoutesInOrder(addrs, size, routes); }
    while lo < hi
      invariant 0 <= lo <= hi <= |routes|
      invariant forall k :: 0 <= k < lo ==> routes[k].addr < a
      invariant forall k :: hi <= k < |routes| ==> routes[k].addr >= a
    {
      var mid := lo + (hi - lo) / 2;
      if routes[mid].addr < a {
        lo := mid + 1;
      } else {
        hi := mid;
      }
    }
    if lo < |routes| && routes[lo].addr == a {
      var shard := routes[lo].shard;
      ghost var i := RouteTaken(addrs, size, routes, lo);
      if shard < |shards| {
        ShardHolds(addrs, size, shards, addr, i, shard);
        r := Switch(addrs, shards[shard], a);
        return;
      }
      NoSuchShard(addrs, size, shards, i);
    } else {
      NoRoute(addrs, size, routes, addr);
    }
    r := None;
  }

  ghost predicate InOrder(routes: seq<Route>) {
    forall j, k :: 0 <= j < k < |routes| ==> routes[j].addr <= routes[k].addr
  }

  lemma RoutesInOrder(addrs: seq<u32>, size: u32, routes: seq<Route>)
    requires size > 0 && SortedRoutes(addrs, size, routes)
    ensures InOrder(routes)
  {
    hide Routes;
    forall j, k | 0 <= j < k < |routes| ensures routes[j].addr <= routes[k].addr {
      assert Before(routes[j], routes[k]);
    }
  }

  lemma RouteTaken(addrs: seq<u32>, size: u32, routes: seq<Route>, k: nat) returns (i: nat)
    requires size > 0 && SortedRoutes(addrs, size, routes) && k < |routes|
    ensures IsFirst(addrs, routes[k].addr, i) && routes[k].shard == i / size && i < |addrs|
  {
    hide IsFirst, SortedRoutes;
    SortedHasRoutes(addrs, size, routes, routes[k]);
    i :| 0 <= i < |addrs| && IsFirst(addrs, routes[k].addr, i) && routes[k].shard == i / size;
  }

  /** No route: the flat switch has no such case either. */
  lemma NoRoute(addrs: seq<u32>, size: u32, routes: seq<Route>, addr: u32)
    requires size > 0 && SortedRoutes(addrs, size, routes)
    requires forall k :: 0 <= k < |routes| ==> routes[k].addr != Wrap24(addr)
    ensures FlatStep(addrs, addr).None?
  {
    hide SortedRoutes, Wrap24;
    FlatStepIsFirst(addrs, addr);
    var r := FlatStep(addrs, addr);
    if r.Some? {
      assert IsFirst(addrs, Wrap24(addr), r.value);
      SortedHasRoutes(addrs, size, routes, Route(Wrap24(addr), r.value / size));
    }
  }

  /** The shard count wraps to zero. */
  predicate Overflows(count: nat, size: u32) { count > 0 && count + size - 1 >= 0x1_0000_0000 }

  /** Function i is in the range of shard i / size and of no other. */
  lemma InOneShard(count: nat, size: u32, i: nat)
    requires 0 < size && i < count < 0x1_0000_0000 && !Overflows(count, size)
    ensures i / size < ShardCount(count, size)
    ensures forall k :: 0 <= k < ShardCount(count, size) ==>
              (ShardRange(count, size, k).lo <= i < ShardRange(count, size, k).hi <==> k == i / size)
  {
    LastShard(count, size, i);
    forall k | 0 <= k < ShardCount(count, size)
      ensures ShardRange(count, size, k).lo <= i < ShardRange(count, size, k).hi <==> k == i / size
    {
      RangeOf(count, size, k);
      InInterval(i, size, k);
    }
  }

  lemma LastShard(count: nat, size: u32, i: nat)
    requires 0 < size && i < count < 0x1_0000_0000 && !Overflows(count, size)
    ensures i / size < ShardCount(count, size)
  {
    var n := (count + size - 1) / size;
    CeilingBounds(count, size, n);
    InInterval(i, size, i / size);
    SmallerFactor(i / size, n, size);
  }

  lemma CeilingBounds(count: nat, size: nat, n: nat)
    requires size > 0 && n == (count + size - 1) / size
    ensures count <= n * size < count + size
  {
    assert count + size - 1 == size * n + (count + size - 1) % size;
  }

  lemma RangeOf(count: nat, size: u32, k: nat)
    requires 0 < size && 0 < count < 0x1_0000_0000 && k < ShardCount(count, size) && !Overflows(count, size)
    ensures k * size < count
    ensures ShardRange(count, size, k) == Range(k * size, if k * size + size > count then count else k * size + size)
  {
    var n := (count + size - 1) / size;
    CeilingBounds(count, size, n);
    ProductBelow(k, n, size);
    RangeFrom(count, size, k, k * size);
  }

  lemma ProductBelow(k: nat, n: nat, size: nat)
    requires k < n
    ensures k * size + size <= n * size
  {
    assert (n - k - 1) * size >= 0;
  }

  lemma RangeFrom(count: nat, size: u32, k: nat, lo: nat)
    requires 0 < count < 0x1_0000_0000 && lo == k * size && lo < count && k < 0x1_0000_0000
    ensures ShardRange(count, size, k) == Range(lo, if lo + size > count then count else lo + size)
  {
    assert Wrap32(k * size) == lo;
    var hi := lo + size;
    if hi >= 0x1_0000_0000 {
      Euclid(hi, 0x1_0000_0000, 1, hi - 0x1_0000_0000);
    }
  }

  lemma InInterval(i: nat, size: nat, k: nat)
    requires size > 0
    ensures k * size <= i < k * size + size <==> k == i / size
  {
    var q, r := i / size, i % size;
    assert i == size * q + r;
    if k < q {
      assert (k + 1) * size <= q * size;
    } else if k > q {
      assert (q + 1) * size <= k * size;
    }
  }

  /** The switch of the right shard runs what the flat switch runs. */
  lemma ShardHolds(addrs: seq<u32>, size: u32, shards: Shards, addr: u32, i: nat, k: nat)
    requires size > 0 && |addrs| < 0x1_0000_0000 && EmittedShards(addrs, size, shards)
    requires IsFirst(addrs, Wrap24(addr), i) && k == i / size && k < |shards|
    ensures !Overflows(|addrs|, size)
    ensures forall j :: 0 <= j < |shards[k]| ==> shards[k][j] < |addrs|
    ensures Switch(addrs, shards[k], Wrap24(addr)) == FlatStep(addrs, addr) == Some(i)
  {
    hide Wrap24, Cases, ShardCount, ShardRange, IsFirst, Switch, FlatStep;
    assert i < |addrs| by { FirstIsInside(addrs, Wrap24(addr), i); }
    NotWrapped(|addrs|, size);
    InOneShard(|addrs|, size, i);
    var range := ShardRange(|addrs|, size, k);
    assert shards[k] == Cases(addrs, range.lo, range.hi);
    CasesRun(addrs, range.lo, range.hi, Wrap24(addr), i);
    CasesRun(addrs, 0, |addrs|, Wrap24(addr), i);
    FlatIsSwitch(addrs, addr);
  }

  lemma FirstIsInside(addrs: seq<u32>, addr: u24, i: nat)
    requires IsFirst(addrs, addr, i)
    ensures i < |addrs|
  {
  }

  lemma FlatIsSwitch(addrs: seq<u32>, addr: u32)
    ensures FlatStep(addrs, addr) == Switch(addrs, Cases(addrs, 0, |addrs|), Wrap24(addr))
  {
    hide Switch, Cases;
  }

  /** A switch over a range that has the first function of an address runs it. */
  lemma CasesRun(addrs: seq<u32>, lo: nat, hi: nat, addr: u24, i: nat)
    requires lo <= i < hi <= |addrs| && IsFirst(addrs, addr, i)
    ensures Switch(addrs, Cases(addrs, lo, hi), addr) == Some(i)
  {
    hide Wrap24, Cases;
    var cases := Cases(addrs, lo, hi);
    assert !CaseEmitted(addrs, i);
    HasCase(addrs, lo, hi, i);
    var r := Switch(addrs, cases, addr);
    assert r.Some? && !CaseEmitted(addrs, r.value);
    OnlyFirst(addrs, addr, i, r.value);
  }

  lemma NotWrapped(count: nat, size: u32)
    requires 0 < size && count < 0x1_0000_0000
    ensures Overflows(count, size) ==> ShardCount(count, size) == 0
  {
    if Overflows(count, size) {
      assert Wrap32(count + size - 1) == count + size - 1 - 0x1_0000_0000 < size;
    }
  }

  lemma OnlyFirst(addrs: seq<u32>, addr: u24, i: nat, j: nat)
    requires IsFirst(addrs, addr, i) && j < |addrs| && !CaseEmitted(addrs, j) && Wrap24(addrs[j]) == addr
    ensures i == j
  {
  }

  lemma NoSuchShard(addrs: seq<u32>, size: u32, shards: Shards, i: nat)
    requires size > 0 && |addrs| < 0x1_0000_0000 && EmittedShards(addrs, size, shards)
    requires i < |addrs| && i / size >= |shards|
    ensures Overflows(|addrs|, size)
  {
    if !Overflows(|addrs|, size) {
      InOneShard(|addrs|, size, i);
    }
  }

  predicate InShard(count: u32, size: u32, k: u32, i: nat) {
    ShardRange(count, size, k).lo <= i < ShardRange(count, size, k).hi
  }

  predicate HasShard(count: u32, size: u32, i: nat)
    requires size > 0
  {
    exists k :: 0 <= k < ShardCount(count, size) && InShard(count, size, k, i)
  }

  /** Every function is in some shard exactly when the shard count does not wrap;
      when it wraps there are no shards, and every dispatch misses. */
  lemma EveryFunctionHasAShard(count: u32, size: u32)
    requires 0 < size
    ensures (forall i :: 0 <= i < count ==> HasShard(count, size, i)) <==> !Overflows(count, size)
  {
    hide ShardRange, ShardCount, HasShard;
    if Overflows(count, size) {
      NoShards(count, size, 0);
    } else {
      forall i | 0 <= i < count ensures HasShard(count, size, i) {
        InItsShard(count, size, i);
      }
    }
  }

  lemma NoShards(count: u32, size: u32, i: nat)
    requires 0 < size && Overflows(count, size)
    ensures !HasShard(count, size, i)
  {
    hide InShard;
    NotWrapped(count, size);
  }

  lemma InItsShard(count: u32, size: u32, i: nat)
    requires 0 < size && i < count && !Overflows(count, size)
    ensures HasShard(count, size, i)
  {
    hide ShardRange, ShardCount;
    InOneShard(count, size, i);
    assert InShard(count, size, i / size, i);
  }

  // ---------------------------------------------------------------- emitting the shards

  /** The loop of ng_emit_c_shards over emit_shard_step. */
  method EmitShards(addrs: seq<u32>, asked: u32) returns (size: u32, routes: seq<Route>, shards: Shards)
    requires |addrs| < 0x1_0000_0000
    ensures size == PerShard(asked) && routes == Routes(addrs, size, |addrs|)
    ensures EmittedShards(addrs, size, shards)
  {
    hide Cases, ShardRange, CaseEmitted, Wrap24;
    size := PerShard(asked);
    routes := [];
    for i := 0 to |addrs|
      invariant routes == Routes(addrs, size, i)
    {
      if !CaseEmitted(addrs, i) {
        routes := routes + [Route(Wrap24(addrs[i]), i / size)];
      }
    }
    shards := [];
    var count := ShardCount(|addrs|, size);
    for k := 0 to count
      invariant |shards| == k
      invariant forall j :: 0 <= j < k ==>
        var range := ShardRange(|addrs|, size, j); range.hi <= |addrs| && shards[j] == Cases(addrs, range.lo, range.hi)
    {
      var range := ShardRange(|addrs|, size, k);
      assert range.hi <= |addrs| by { RangeInside(|addrs|, size, k); }
      var cases := EmitShardStep(addrs, range.lo, range.hi);
      shards := shards + [cases];
    }
  }

  lemma RangeInside(count: nat, size: u32, k: u32)
    requires count < 0x1_0000_0000
    ensures ShardRange(count, size, k).hi <= count
  {
  }

  /** emit_shard_step */
  method EmitShardStep(addrs: seq<u32>, lo: nat, hi: nat) returns (cases: seq<nat>)
    requires hi <= |addrs|
    ensures cases == Cases(addrs, lo, hi)
  {
    hide Wrap24, CaseEmitted, Cases;
    cases := [];
    var i := lo;
    NextCase(addrs, lo, lo);
    while i < hi
      invariant lo <= i && (i <= hi || i == lo)
      invariant i <= |addrs| ==> cases == Cases(addrs, lo, i)
      invariant i > |addrs| ==> cases == []
    {
      NextCase(addrs, lo, i);
      var earlier := IsCaseEmitted(addrs, i);
      if !earlier {
        cases := cases + [i];
      }
      i := i + 1;
    }
    NextCase(addrs, lo, hi);
  }

  lemma NextCase(addrs: seq<u32>, lo: nat, i: nat)
    ensures i <= lo && i <= |addrs| ==> Cases(addrs, lo, i) == []
    ensures lo <= i < |addrs| ==>
              Cases(addrs, lo, i + 1) == Cases(addrs, lo, i) + if CaseEmitted(addrs, i) then [] else [i]
  {
    hide CaseEmitted;
  }

  method IsCaseEmitted(addrs: seq<u32>, i: nat) returns (earlier: bool)
    requires i < |addrs|
    ensures earlier <==> CaseEmitted(addrs, i)
  {
    for j := 0 to i
      invariant forall k :: 0 <= k < j ==> Wrap24(addrs[k]) != Wrap24(addrs[i])
    {
      if Wrap24(addrs[j]) == Wrap24(addrs[i]) {
        return true;
      }
    }
    earlier := false;
  }
}
