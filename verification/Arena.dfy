// Device memory: a best-fit free list over a bump allocator, as a state and its steps.
module Arena {
  import opened Bytes

  const BASE: int := 0x3000_0000_0000
  const DEFAULT_SIZE: int := 0x2000_0000

  datatype Block = Block(size: nat, off: nat)

  // free is kept in order of size, and of arrival among equal sizes; live maps the
  // start of a block to its size.
  datatype Arena = Arena(size: nat, used: nat, free: seq<Block>, live: map<nat, nat>)

  // What the host offers when the arena is first needed: the size asked for in
  // megabytes, if any, and whether the mapping works.
  datatype Host = Host(megabytes: nat, mapped: bool)
  {
    function Wanted(): nat {
      if megabytes == 0 then DEFAULT_SIZE else (megabytes * 0x10_0000) % U64
    }

    predicate Works() {
      mapped && Wanted() > 0
    }
  }

  function Rounded(n: nat): (r: nat)
    ensures r % 256 == 0
  {
    ((n + 255) % U64) / 256 * 256
  }

  // The first free block of at least n bytes.
  function LowerBound(free: seq<Block>, n: nat): (k: nat)
    ensures k <= |free|
    ensures forall i :: 0 <= i < k ==> free[i].size < n
    ensures k < |free| ==> free[k].size >= n
  {
    if free == [] || free[0].size >= n then 0 else 1 + LowerBound(free[1..], n)
  }

  // Where a block of the given size goes: after every block no larger.
  function UpperBound(free: seq<Block>, n: nat): (k: nat)
    ensures k <= |free|
    ensures forall i :: 0 <= i < k ==> free[i].size <= n
    ensures k < |free| ==> free[k].size > n
  {
    if free == [] || free[0].size > n then 0 else 1 + UpperBound(free[1..], n)
  }

  function Emplace(free: seq<Block>, b: Block): (r: seq<Block>)
    ensures |r| == |free| + 1
  {
    var k := UpperBound(free, b.size);
    free[..k] + [b] + free[k..]
  }

  function Without(free: seq<Block>, k: nat): seq<Block>
    requires k < |free|
  {
    free[..k] + free[k + 1..]
  }

  predicate IsDevice(a: Arena, p: nat) {
    a.size != 0 && BASE <= p < BASE + a.size
  }

  // Mapping the arena on first use: it is ready exactly when it has a size, which it
  // never changes, and nothing else about it changes.
  function Initialised(a: Arena, host: Host): (r: (Arena, bool))
    ensures r.1 <==> r.0.size > 0
    ensures r.1 <==> a.size != 0 || host.Works()
    ensures r.0 == a.(size := r.0.size) && (a.size != 0 ==> r.0 == a)
  {
    if a.size != 0 then (a, true)
    else if host.Works() then (a.(size := host.Wanted()), true)
    else (a, false)
  }

  // Whether a request of r rounded bytes takes a free block, and which.
  predicate Reuses(a: Arena, r: nat) {
    var k := LowerBound(a.free, r);
    k < |a.free| && a.free[k].size <= (r * 2) % U64
  }

  function Allocated(a: Arena, r: nat): (res: (Arena, nat))
  {
    if Reuses(a, r) then
      var k := LowerBound(a.free, r);
      var b := a.free[k];
      (a.(free := Without(a.free, k), live := a.live[b.off := b.size]), BASE + b.off)
    else if (a.used + r) % U64 > a.size then
      (a, 0)
    else
      (a.(used := (a.used + r) % U64, live := a.live[a.used := r]), BASE + a.used)
  }

  function Alloc(a: Arena, host: Host, n: nat): (Arena, nat)
  {
    var (ready, ok) := Initialised(a, host);
    if ok then Allocated(ready, Rounded(n)) else (ready, 0)
  }

  function Free(a: Arena, p: nat): Arena
  {
    if IsDevice(a, p) && p - BASE in a.live then
      var off := p - BASE;
      a.(free := Emplace(a.free, Block(a.live[off], off)), live := a.live - {off})
    else
      a
  }

  // ---- tiling ---------------------------------------------------------------------------------

  predicate InBlock(off: int, size: int, b: int) {
    off <= b < off + size
  }

  predicate Apart(off: int, size: int, off': int, size': int) {
    size == 0 || size' == 0 || off + size <= off' || off' + size' <= off
  }

  ghost predicate Covered(a: Arena, b: int) {
    (exists off :: off in a.live && InBlock(off, a.live[off], b)) ||
    (exists x :: x in a.free && InBlock(x.off, x.size, b))
  }

  ghost predicate PairsApart(free: seq<Block>) {
    forall i, j :: 0 <= i < j < |free| ==> Apart(free[i].off, free[i].size, free[j].off, free[j].size)
  }

  // No block reaches past what has been handed out, and none overlap.
  ghost predicate Disjoint(a: Arena) {
    && (forall off :: off in a.live ==> off + a.live[off] <= a.used)
    && (forall x :: x in a.free ==> x.off + x.size <= a.used)
    && (forall i, j :: i in a.live && j in a.live && i != j ==> Apart(i, a.live[i], j, a.live[j]))
    && PairsApart(a.free)
    && (forall i, x :: i in a.live && x in a.free ==> Apart(i, a.live[i], x.off, x.size))
  }

  // Live and free blocks together are [0, used): none overlap, none reach past it, and
  // no byte of it is in neither.
  ghost predicate Tiles(a: Arena) {
    Disjoint(a) && forall b :: 0 <= b < a.used ==> Covered(a, b)
  }

  // No block, not even an empty one, is recorded twice.
  ghost predicate NoneTwice(a: Arena) {
    && (forall i, j :: 0 <= i < j < |a.free| ==> a.free[i] != a.free[j])
    && (forall off :: off in a.live ==> Block(a.live[off], off) !in a.free)
  }

  ghost predicate Aligned(a: Arena) {
    && a.used % 256 == 0
    && (forall off :: off in a.live ==> off % 256 == 0 && a.live[off] % 256 == 0)
    && (forall x :: x in a.free ==> x.off % 256 == 0 && x.size % 256 == 0)
  }

  predicate SortedFree(free: seq<Block>) {
    forall i, j :: 0 <= i < j < |free| ==> free[i].size <= free[j].size
  }

  // Far enough below 2^64 that no sum the allocator forms wraps.
  const LIMIT: int := 0x4000_0000_0000_0000

  ghost predicate Bounded(a: Arena) {
    a.used <= a.size <= LIMIT
  }

  // The request loses a live block's bytes: it takes an empty free block that starts
  // where a live one does.
  predicate Clobbers(a: Arena, r: nat) {
    && Reuses(a, r)
    && var b := a.free[LowerBound(a.free, r)];
       b.size == 0 && b.off in a.live && a.live[b.off] > 0
  }

  // ---- what the list operations keep ----------------------------------------------------------

  lemma EmplaceAt(free: seq<Block>, b: Block)
    ensures var k, r := UpperBound(free, b.size), Emplace(free, b);
      forall i :: 0 <= i < |r| ==> r[i] == if i < k then free[i] else if i == k then b else free[i - 1]
  {
  }

  lemma EmplaceMembers(free: seq<Block>, b: Block)
    ensures forall x :: x in Emplace(free, b) <==> x in free || x == b
  {
    var k := UpperBound(free, b.size);
    assert free == free[..k] + free[k..];
  }

  lemma EmplaceSorted(free: seq<Block>, b: Block)
    requires SortedFree(free)
    ensures SortedFree(Emplace(free, b))
  {
    EmplaceAt(free, b);
  }

  lemma EmplaceApart(free: seq<Block>, b: Block)
    requires PairsApart(free) && forall x :: x in free ==> Apart(x.off, x.size, b.off, b.size)
    ensures PairsApart(Emplace(free, b))
  {
    EmplaceAt(free, b);
    var k, r := UpperBound(free, b.size), Emplace(free, b);
    forall i, j | 0 <= i < j < |r|
      ensures Apart(r[i].off, r[i].size, r[j].off, r[j].size)
    {
      if j == k {
        assert free[i] in free;
      } else if i == k {
        assert free[j - 1] in free;
      }
    }
  }

  lemma WithoutAt(free: seq<Block>, k: nat)
    requires k < |free|
    ensures var r := Without(free, k); forall i :: 0 <= i < |r| ==> r[i] == if i < k then free[i] else free[i + 1]
  {
  }

  lemma WithoutMembers(free: seq<Block>, k: nat)
    requires k < |free|
    ensures forall x :: x in free <==> x in Without(free, k) || x == free[k]
  {
    assert free == free[..k] + [free[k]] + free[k + 1..];
  }

  lemma WithoutSorted(free: seq<Block>, k: nat)
    requires k < |free| && SortedFree(free)
    ensures SortedFree(Without(free, k))
  {
    WithoutAt(free, k);
  }

  lemma WithoutApart(free: seq<Block>, k: nat)
    requires k < |free| && PairsApart(free)
    ensures PairsApart(Without(free, k))
    ensures forall x :: x in Without(free, k) ==> Apart(x.off, x.size, free[k].off, free[k].size)
  {
    WithoutAt(free, k);
    var r := Without(free, k);
    forall i | 0 <= i < |r|
      ensures Apart(r[i].off, r[i].size, free[k].off, free[k].size)
    {
      assert r[i] == free[if i < k then i else i + 1];
    }
  }

  lemma RoundedSane(n: nat)
    requires n <= LIMIT
    ensures n <= Rounded(n) < n + 256 && Rounded(n) <= LIMIT
    ensures Rounded(n) == 0 <==> n == 0
    ensures (Rounded(n) * 2) % U64 == Rounded(n) * 2
  {
  }

  // ---- one step ----------------------------------------------------------------------------------

  lemma ReuseCovers(a: Arena, r: nat, p: int)
    requires Reuses(a, r) && !Clobbers(a, r) && Covered(a, p)
    requires forall x :: x in a.free && a.free[LowerBound(a.free, r)].off in a.live ==>
      Apart(a.free[LowerBound(a.free, r)].off, a.live[a.free[LowerBound(a.free, r)].off], x.off, x.size)
    ensures Covered(Allocated(a, r).0, p)
  {
    var k := LowerBound(a.free, r);
    var b, after := a.free[k], Allocated(a, r).0;
    WithoutMembers(a.free, k);
    if off :| off in a.live && InBlock(off, a.live[off], p) {
      assert off in after.live && InBlock(off, after.live[off], p);
    } else {
      var x :| x in a.free && InBlock(x.off, x.size, p);
      if x !in after.free {
        assert x == b && b.off in after.live && InBlock(b.off, after.live[b.off], p);
      }
    }
  }

  lemma ReuseTiles(a: Arena, r: nat)
    requires Tiles(a) && Reuses(a, r) && !Clobbers(a, r)
    ensures Tiles(Allocated(a, r).0)
  {
    var k := LowerBound(a.free, r);
    WithoutMembers(a.free, k);
    WithoutApart(a.free, k);
    assert a.free[k] in a.free;
    forall p | 0 <= p < a.used
      ensures Covered(Allocated(a, r).0, p)
    {
      ReuseCovers(a, r, p);
    }
  }

  lemma ClobberLoses(a: Arena, r: nat)
    requires Tiles(a) && Clobbers(a, r)
    ensures !Tiles(Allocated(a, r).0)
  {
    var k := LowerBound(a.free, r);
    var at, after := a.free[k].off, Allocated(a, r).0;
    WithoutMembers(a.free, k);
    forall off | off in after.live
      ensures !InBlock(off, after.live[off], at)
    {
      if off != at {
        assert Apart(off, a.live[off], at, a.live[at]);
      }
    }
    forall x | x in after.free
      ensures !InBlock(x.off, x.size, at)
    {
      assert Apart(at, a.live[at], x.off, x.size);
    }
    assert !Covered(after, at) && at < a.used;
  }

  // Where a request that takes new bytes leaves the arena.
  ghost predicate Bumped(a: Arena, after: Arena, r: nat) {
    after == a.(used := a.used + r, live := a.live[a.used := r])
  }

  // Where a request that reuses nothing goes: behind everything, or nowhere.
  lemma BumpIs(a: Arena, r: nat)
    requires Bounded(a) && r <= LIMIT && !Reuses(a, r)
    ensures Allocated(a, r).0 == a || Bumped(a, Allocated(a, r).0, r)
  {
  }

  lemma BumpCovers(a: Arena, after: Arena, r: nat, p: nat)
    requires Tiles(a) && Bumped(a, after, r) && p < after.used
    requires a.used in a.live ==> a.live[a.used] == 0
    ensures Covered(after, p)
  {
    if p < a.used {
      assert Covered(a, p);
      if off :| off in a.live && InBlock(off, a.live[off], p) {
        assert off in after.live && InBlock(off, after.live[off], p);
      }
    } else {
      assert a.used in after.live && InBlock(a.used, after.live[a.used], p);
    }
  }

  lemma BumpTiles(a: Arena, r: nat)
    requires Tiles(a) && Bounded(a) && r <= LIMIT && !Reuses(a, r)
    ensures Tiles(Allocated(a, r).0)
  {
    BumpIs(a, r);
    var after := Allocated(a, r).0;
    if after != a {
      assert a.used in a.live ==> a.used + a.live[a.used] <= a.used;
      forall p | 0 <= p < after.used ensures Covered(after, p) {
        BumpCovers(a, after, r, p);
      }
    }
  }

  // An allocation keeps the tiling exactly when it does not clobber.
  lemma AllocTiles(a: Arena, host: Host, n: nat)
    requires Tiles(a) && Bounded(a) && n <= LIMIT && host.Wanted() <= LIMIT
    ensures Tiles(Alloc(a, host, n).0) <==> !(Initialised(a, host).1 && Clobbers(a, Rounded(n)))
  {
    RoundedSane(n);
    var (ready, ok) := Initialised(a, host);
    assert Tiles(ready) by {
      forall p | 0 <= p < ready.used
        ensures Covered(ready, p)
      {
        assert Covered(a, p);
      }
    }
    if ok {
      if Clobbers(ready, Rounded(n)) {
        ClobberLoses(ready, Rounded(n));
      } else if Reuses(ready, Rounded(n)) {
        ReuseTiles(ready, Rounded(n));
      } else {
        BumpTiles(ready, Rounded(n));
      }
    }
  }

  // A request for at least one byte never clobbers.
  lemma RealRequestsAreSafe(a: Arena, n: nat)
    requires 0 < n <= LIMIT
    ensures !Clobbers(a, Rounded(n))
  {
    RoundedSane(n);
  }

  predicate Gives(before: Arena, after: Arena, p: nat, r: nat) {
    && p >= BASE && p - BASE in after.live
    && r <= after.live[p - BASE] <= 2 * r
    && after.live == before.live[p - BASE := after.live[p - BASE]]
  }

  // What an allocation hands out: nothing, or the start of a block that holds between
  // one and two times the rounded request; no other live block changes.
  lemma AllocGives(a: Arena, host: Host, n: nat)
    requires Bounded(a) && n <= LIMIT && host.Wanted() <= LIMIT
    ensures var (after, p) := Alloc(a, host, n);
      && Bounded(after)
      && (p == 0 ==> after.live == a.live && after.free == a.free && after.used == a.used)
      && (p != 0 ==> Gives(a, after, p, Rounded(n)))
  {
    RoundedSane(n);
  }

  ghost predicate Positive(a: Arena) {
    (forall off :: off in a.live ==> a.live[off] > 0) && forall x :: x in a.free ==> x.size > 0
  }

  lemma AllocatedIsFresh(a: Arena, r: nat)
    requires Tiles(a) && Bounded(a) && Positive(a) && 0 < r <= LIMIT && (r * 2) % U64 == r * 2
    ensures var (after, p) := Allocated(a, r);
      p != 0 ==> p - BASE !in a.live && IsDevice(after, p) && p + r <= BASE + after.size
  {
    if Reuses(a, r) {
      var b := a.free[LowerBound(a.free, r)];
      assert b in a.free;
    }
  }

  // A real request is given bytes that no live block holds, inside the arena.
  lemma AllocIsFresh(a: Arena, host: Host, n: nat)
    requires Tiles(a) && Bounded(a) && Positive(a) && 0 < n <= LIMIT && host.Wanted() <= LIMIT
    ensures var (after, p) := Alloc(a, host, n);
      p != 0 ==> p - BASE !in a.live && IsDevice(after, p) && p + n <= BASE + after.size
  {
    RoundedSane(n);
    var (ready, ok) := Initialised(a, host);
    if ok {
      AllocatedIsFresh(ready, Rounded(n));
    }
  }

  // Freeing changes something exactly when it is handed the start of a live block, and
  // then moves that block and nothing else.
  lemma FreeExact(a: Arena, p: nat)
    ensures Free(a, p) != a <==> IsDevice(a, p) && p - BASE in a.live
    ensures IsDevice(a, p) && p - BASE in a.live ==>
      && Free(a, p).live == a.live - {p - BASE} && Free(a, p).used == a.used
      && multiset(Free(a, p).free) == multiset(a.free) + multiset{Block(a.live[p - BASE], p - BASE)}
  {
    if IsDevice(a, p) && p - BASE in a.live {
      var b := Block(a.live[p - BASE], p - BASE);
      var k := UpperBound(a.free, b.size);
      assert a.free == a.free[..k] + a.free[k..];
    }
  }

  lemma FreeTiles(a: Arena, p: nat)
    requires Tiles(a)
    ensures Tiles(Free(a, p))
  {
    var after := Free(a, p);
    if IsDevice(a, p) && p - BASE in a.live {
      var off := p - BASE;
      var b := Block(a.live[off], off);
      EmplaceMembers(a.free, b);
      EmplaceApart(a.free, b);
      forall q | 0 <= q < a.used
        ensures Covered(after, q)
      {
        assert Covered(a, q);
        if i :| i in a.live && InBlock(i, a.live[i], q) {
          if i == off {
            assert b in after.free && InBlock(b.off, b.size, q);
          } else {
            assert i in after.live && InBlock(i, after.live[i], q);
          }
        } else {
          var x :| x in a.free && InBlock(x.off, x.size, q);
          assert x in after.free;
        }
      }
    }
  }

  // ---- whole runs ------------------------------------------------------------------------------------

  datatype Op = Request(n: nat, host: Host) | Return(p: nat)

  function Step(a: Arena, op: Op): Arena {
    match op
    case Request(n, host) => Alloc(a, host, n).0
    case Return(p) => Free(a, p)
  }

  function Run(a: Arena, ops: seq<Op>): Arena {
    if ops == [] then a else Step(Run(a, ops[..|ops| - 1]), ops[|ops| - 1])
  }

  const FRESH := Arena(0, 0, [], map[])

  // What holds of every state, empty requests or not.
  ghost predicate Orderly(a: Arena) {
    Disjoint(a) && NoneTwice(a) && Aligned(a) && SortedFree(a.free) && Bounded(a)
  }

  predicate InRange(op: Op) {
    op.Request? ==> op.n <= LIMIT && op.host.Wanted() <= LIMIT
  }

  predicate Sane(op: Op) {
    InRange(op) && (op.Request? ==> op.n > 0)
  }

  // Where a request that reuses a block leaves the arena.
  ghost predicate Reused(a: Arena, after: Arena, k: nat) {
    && k < |a.free|
    && after == a.(free := Without(a.free, k), live := a.live[a.free[k].off := a.free[k].size])
  }

  lemma ReusedDisjoint(a: Arena, after: Arena, k: nat)
    requires Disjoint(a) && Reused(a, after, k)
    ensures Disjoint(after)
  {
    WithoutMembers(a.free, k);
    WithoutApart(a.free, k);
    assert a.free[k] in a.free;
  }

  lemma ReusedOnce(a: Arena, after: Arena, k: nat)
    requires NoneTwice(a) && Reused(a, after, k)
    ensures NoneTwice(after)
  {
    WithoutAt(a.free, k);
    WithoutMembers(a.free, k);
  }

  lemma ReusedShape(a: Arena, after: Arena, k: nat)
    requires Aligned(a) && SortedFree(a.free) && Reused(a, after, k)
    ensures Aligned(after) && SortedFree(after.free)
  {
    WithoutMembers(a.free, k);
    WithoutSorted(a.free, k);
    assert a.free[k] in a.free;
  }

  lemma ReuseKeepsOrder(a: Arena, r: nat)
    requires Orderly(a) && Reuses(a, r)
    ensures Orderly(Allocated(a, r).0)
  {
    var k, after := LowerBound(a.free, r), Allocated(a, r).0;
    assert Reused(a, after, k);
    ReusedDisjoint(a, after, k);
    ReusedOnce(a, after, k);
    ReusedShape(a, after, k);
  }

  lemma BumpedDisjoint(a: Arena, after: Arena, r: nat)
    requires Disjoint(a) && Bumped(a, after, r)
    ensures Disjoint(after)
  {
  }

  lemma BumpedOnce(a: Arena, after: Arena, r: nat)
    requires NoneTwice(a) && Disjoint(a) && Bumped(a, after, r)
    requires r == 0 ==> forall x :: x in a.free ==> x.size > 0
    ensures NoneTwice(after)
  {
  }

  lemma EmptyNotReused(a: Arena)
    requires SortedFree(a.free) && !Reuses(a, 0)
    ensures forall x :: x in a.free ==> x.size > 0
  {
  }

  lemma BumpKeepsOrder(a: Arena, r: nat)
    requires Orderly(a) && r <= LIMIT && r % 256 == 0 && !Reuses(a, r)
    ensures Orderly(Allocated(a, r).0)
  {
    var after := Allocated(a, r).0;
    BumpIs(a, r);
    if after != a {
      if r == 0 {
        EmptyNotReused(a);
      }
      BumpedDisjoint(a, after, r);
      BumpedOnce(a, after, r);
    }
  }

  // Where a return leaves it.
  ghost predicate Returned(a: Arena, after: Arena, off: nat) {
    && off in a.live
    && after == a.(free := Emplace(a.free, Block(a.live[off], off)), live := a.live - {off})
  }

  lemma ReturnedDisjoint(a: Arena, after: Arena, off: nat)
    requires Disjoint(a) && Returned(a, after, off)
    ensures Disjoint(after)
  {
    var b := Block(a.live[off], off);
    EmplaceMembers(a.free, b);
    EmplaceApart(a.free, b);
  }

  lemma ReturnedOnce(a: Arena, after: Arena, off: nat)
    requires NoneTwice(a) && Returned(a, after, off)
    ensures NoneTwice(after)
  {
    var b := Block(a.live[off], off);
    EmplaceAt(a.free, b);
    EmplaceMembers(a.free, b);
    var k, r := UpperBound(a.free, b.size), after.free;
    forall i, j | 0 <= i < j < |r| ensures r[i] != r[j] {
      assert i != k ==> r[i] in a.free;
      assert j != k ==> r[j] in a.free;
    }
  }

  lemma ReturnKeepsOrder(a: Arena, p: nat)
    requires Orderly(a)
    ensures Orderly(Free(a, p))
  {
    if IsDevice(a, p) && p - BASE in a.live {
      var b, after := Block(a.live[p - BASE], p - BASE), Free(a, p);
      assert Returned(a, after, p - BASE);
      ReturnedDisjoint(a, after, p - BASE);
      ReturnedOnce(a, after, p - BASE);
      EmplaceMembers(a.free, b);
      EmplaceSorted(a.free, b);
    }
  }

  lemma RequestKeepsOrder(a: Arena, n: nat, host: Host)
    requires Orderly(a) && n <= LIMIT && host.Wanted() <= LIMIT
    ensures Orderly(Alloc(a, host, n).0)
  {
    RoundedSane(n);
    var (ready, ok) := Initialised(a, host);
    if ok {
      if Reuses(ready, Rounded(n)) {
        ReuseKeepsOrder(ready, Rounded(n));
      } else {
        BumpKeepsOrder(ready, Rounded(n));
      }
    }
  }

  lemma StepKeepsOrder(a: Arena, op: Op)
    requires Orderly(a) && InRange(op)
    ensures Orderly(Step(a, op))
  {
    match op
    case Request(n, host) => RequestKeepsOrder(a, n, host);
    case Return(p) => ReturnKeepsOrder(a, p);
  }

  // In every state that any requests, empty ones too, and any returns reach: blocks do
  // not overlap, all is a multiple of 256, the free list is in order, and no more has
  // been handed out than there is.
  lemma {:induction false} RunsKeepOrder(ops: seq<Op>)
    requires forall i :: 0 <= i < |ops| ==> InRange(ops[i])
    ensures Orderly(Run(FRESH, ops))
  {
    if ops != [] {
      RunsKeepOrder(ops[..|ops| - 1]);
      StepKeepsOrder(Run(FRESH, ops[..|ops| - 1]), ops[|ops| - 1]);
    }
  }

  // A block handed out starts where one is live only if one of the two is empty.
  lemma AllocStarts(a: Arena, host: Host, n: nat)
    requires Orderly(a) && n <= LIMIT && host.Wanted() <= LIMIT
    ensures var (after, p) := Alloc(a, host, n);
      p != 0 && p - BASE in a.live ==> a.live[p - BASE] == 0 || after.live[p - BASE] == 0
  {
    RoundedSane(n);
    var (ready, ok) := Initialised(a, host);
    if ok && Reuses(ready, Rounded(n)) {
      assert a.free[LowerBound(a.free, Rounded(n))] in a.free;
    }
  }

  lemma RequestKeepsTiles(a: Arena, n: nat, host: Host)
    requires Tiles(a) && Positive(a) && Bounded(a) && 0 < n <= LIMIT && host.Wanted() <= LIMIT
    ensures Tiles(Alloc(a, host, n).0) && Positive(Alloc(a, host, n).0)
  {
    RoundedSane(n);
    RealRequestsAreSafe(a, n);
    AllocTiles(a, host, n);
    var (ready, ok) := Initialised(a, host);
    if ok && Reuses(ready, Rounded(n)) {
      WithoutMembers(a.free, LowerBound(a.free, Rounded(n)));
      assert a.free[LowerBound(a.free, Rounded(n))] in a.free;
    }
  }

  lemma ReturnKeepsTiles(a: Arena, p: nat)
    requires Tiles(a) && Positive(a)
    ensures Tiles(Free(a, p)) && Positive(Free(a, p))
  {
    FreeTiles(a, p);
    if IsDevice(a, p) && p - BASE in a.live {
      EmplaceMembers(a.free, Block(a.live[p - BASE], p - BASE));
    }
  }

  // In every state a run of real requests and arbitrary returns reaches, live and free
  // blocks tile what has been handed out, and none is empty.
  lemma {:induction false} RunsTile(ops: seq<Op>)
    requires forall i :: 0 <= i < |ops| ==> Sane(ops[i])
    ensures Tiles(Run(FRESH, ops)) && Positive(Run(FRESH, ops)) && Orderly(Run(FRESH, ops))
  {
    RunsKeepOrder(ops);
    if ops != [] {
      RunsTile(ops[..|ops| - 1]);
      var before := Run(FRESH, ops[..|ops| - 1]);
      match ops[|ops| - 1]
      case Request(n, host) => RequestKeepsTiles(before, n, host);
      case Return(p) => ReturnKeepsTiles(before, p);
    }
  }

  // With empty requests allowed, a run keeps the tiling throughout exactly when no
  // request in it clobbers.
  predicate Harmless(a: Arena, op: Op) {
    op.Request? && Initialised(a, op.host).1 ==> !Clobbers(a, Rounded(op.n))
  }

  lemma StepTiles(a: Arena, op: Op)
    requires Tiles(a) && Bounded(a) && InRange(op)
    ensures Bounded(Step(a, op)) && (Tiles(Step(a, op)) <==> Harmless(a, op))
  {
    match op
    case Request(n, host) =>
      AllocTiles(a, host, n);
      AllocGives(a, host, n);
    case Return(p) =>
      FreeTiles(a, p);
  }

  // Tiling in the state a run reaches and in every state before it.
  ghost predicate TilesThroughout(ops: seq<Op>) {
    Tiles(Run(FRESH, ops)) && (ops == [] || TilesThroughout(ops[..|ops| - 1]))
  }

  predicate HarmlessThroughout(ops: seq<Op>) {
    ops == [] || (HarmlessThroughout(ops[..|ops| - 1]) && Harmless(Run(FRESH, ops[..|ops| - 1]), ops[|ops| - 1]))
  }

  lemma {:induction false} RunsTileExactly(ops: seq<Op>)
    requires forall i :: 0 <= i < |ops| ==> InRange(ops[i])
    ensures Bounded(Run(FRESH, ops))
    ensures TilesThroughout(ops) <==> HarmlessThroughout(ops)
  {
    if ops != [] {
      var before, op := Run(FRESH, ops[..|ops| - 1]), ops[|ops| - 1];
      RunsTileExactly(ops[..|ops| - 1]);
      if op.Request? {
        AllocGives(before, op.host, op.n);
      }
      if Tiles(before) {
        StepTiles(before, op);
      }
    }
  }

  // The rounded request behind every live block, as steps go by.
  function AskedNext(asked: map<nat, nat>, a: Arena, op: Op): map<nat, nat> {
    match op
    case Request(n, host) =>
      var p := Alloc(a, host, n).1;
      if p >= BASE then asked[p - BASE := Rounded(n)] else asked
    case Return(p) =>
      if IsDevice(a, p) then asked - {p - BASE} else asked
  }

  function Asked(ops: seq<Op>): map<nat, nat>
  {
    if ops == [] then map[] else
    AskedNext(Asked(ops[..|ops| - 1]), Run(FRESH, ops[..|ops| - 1]), ops[|ops| - 1])
  }

  predicate FitsRequests(asked: map<nat, nat>, a: Arena) {
    && asked.Keys == a.live.Keys
    && forall off :: off in a.live ==> asked[off] <= a.live[off] <= 2 * asked[off]
  }

  lemma StepFitsRequests(asked: map<nat, nat>, a: Arena, op: Op)
    requires Bounded(a) && InRange(op) && FitsRequests(asked, a)
    ensures FitsRequests(AskedNext(asked, a, op), Step(a, op))
  {
    if op.Request? {
      AllocGives(a, op.host, op.n);
    }
  }

  // Every live block holds between one and two times its rounded request.
  lemma {:induction false} RunsFitRequests(ops: seq<Op>)
    requires forall i :: 0 <= i < |ops| ==> InRange(ops[i])
    ensures FitsRequests(Asked(ops), Run(FRESH, ops))
  {
    if ops != [] {
      var before := ops[..|ops| - 1];
      RunsKeepOrder(before);
      RunsFitRequests(before);
      StepFitsRequests(Asked(before), Run(FRESH, before), ops[|ops| - 1]);
    }
  }

  // ---- an empty request can lose bytes ---------------------------------------------------------

  lemma EmptyTaken(size: nat, host: Host)
    requires host.Works() && host.Wanted() == size <= LIMIT
    ensures Step(FRESH, Request(0, host)) == Arena(size, 0, [], map[0 := 0])
  {
    RoundedSane(0);
  }

  lemma EmptyReturned(size: nat)
    requires size > 0
    ensures Step(Arena(size, 0, [], map[0 := 0]), Return(BASE)) == Arena(size, 0, [Block(0, 0)], map[])
  {
  }

  lemma RealBehindEmpty(size: nat, host: Host)
    requires 256 <= size <= LIMIT
    ensures Step(Arena(size, 0, [Block(0, 0)], map[]), Request(1, host)) == Arena(size, 256, [Block(0, 0)], map[0 := 256])
  {
    assert [Block(0, 0)][1..] == [];
  }

  lemma EmptyOverReal(size: nat, host: Host)
    requires 256 <= size <= LIMIT
    ensures Step(Arena(size, 256, [Block(0, 0)], map[0 := 256]), Request(0, host)) == Arena(size, 256, [], map[0 := 0])
  {
    RoundedSane(0);
  }

  lemma OneMore(a: Arena, ops: seq<Op>, op: Op)
    ensures Run(a, ops + [op]) == Step(Run(a, ops), op)
  {
    assert (ops + [op])[..|ops|] == ops;
  }

  lemma FourSteps(a: Arena, o1: Op, o2: Op, o3: Op, o4: Op, b: Arena, c: Arena, d: Arena, e: Arena)
    requires Step(a, o1) == b && Step(b, o2) == c && Step(c, o3) == d && Step(d, o4) == e
    ensures Run(a, [o1, o2, o3, o4]) == e
  {
    OneMore(a, [], o1);
    OneMore(a, [o1], o2);
    OneMore(a, [o1, o2], o3);
    OneMore(a, [o1, o2, o3], o4);
    assert [] + [o1] == [o1] && [o1] + [o2] == [o1, o2];
    assert [o1, o2] + [o3] == [o1, o2, o3] && [o1, o2, o3] + [o4] == [o1, o2, o3, o4];
  }

  // With an empty request the tiling can be lost: four calls after which a live block's
  // 256 bytes are in no block at all.
  lemma EmptyRequestLosesBytes(host: Host)
    requires host.Works() && 256 <= host.Wanted() <= LIMIT
    ensures var ops := [Request(0, host), Return(BASE), Request(1, host), Request(0, host)];
      && Run(FRESH, ops) == Arena(host.Wanted(), 256, [], map[0 := 0])
      && !Tiles(Run(FRESH, ops))
  {
    var size := host.Wanted();
    EmptyTaken(size, host);
    EmptyReturned(size);
    RealBehindEmpty(size, host);
    EmptyOverReal(size, host);
    FourSteps(FRESH, Request(0, host), Return(BASE), Request(1, host), Request(0, host),
              Arena(size, 0, [], map[0 := 0]), Arena(size, 0, [Block(0, 0)], map[]),
              Arena(size, 256, [Block(0, 0)], map[0 := 256]), Arena(size, 256, [], map[0 := 0]));
    assert !Covered(Arena(size, 256, [], map[0 := 0]), 0);
  }
}
