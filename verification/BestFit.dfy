// Which bytes a request for device memory is given, and when none.
module BestFit {
  import opened Bytes
  import opened Arena

  // Free block k is the one to take for r bytes: it holds them in no more than twice the
  // room, and of all that hold them it is one of the smallest, and of those the first.
  ghost predicate Best(free: seq<Block>, r: nat, k: nat) {
    && k < |free| && r <= free[k].size <= 2 * r
    && forall j :: 0 <= j < |free| && r <= free[j].size ==>
      free[k].size <= free[j].size && (free[j].size == free[k].size ==> k <= j)
  }

  // The request in whole units of 256 bytes.
  predicate Units(n: nat, r: nat) {
    r % 256 == 0 && n <= r < n + 256
  }

  // The room there is: what was mapped, or what the host maps now.
  predicate Room(a: Arena, host: Host, size: nat) {
    size == if a.size > 0 then a.size
            else if !host.mapped then 0
            else if host.megabytes == 0 then 512 * 1024 * 1024
            else host.megabytes * 1024 * 1024
  }

  lemma UnitsAreRounded(n: nat, r: nat)
    requires Units(n, r) && n <= LIMIT
    ensures Rounded(n) == r && r <= LIMIT && (r * 2) % U64 == 2 * r
  {
    RoundedSane(n);
  }

  // In a sorted list the first block that is large enough is the best.
  lemma FirstIsBest(free: seq<Block>, r: nat)
    requires SortedFree(free)
    ensures var b := LowerBound(free, r);
      && (b < |free| && free[b].size <= 2 * r ==> Best(free, r, b))
      && (b == |free| || free[b].size > 2 * r ==> forall x :: x in free ==> !(r <= x.size <= 2 * r))
  {
  }

  lemma BestIsOne(free: seq<Block>, r: nat, j: nat, k: nat)
    requires Best(free, r, j) && Best(free, r, k)
    ensures j == k
  {
  }

  lemma ReadyIs(a: Arena, host: Host, size: nat)
    requires Room(a, host, size) && host.megabytes * 0x10_0000 < U64
    ensures Initialised(a, host) == (a.(size := size), size > 0)
  {
  }

  // Asked for memory that cannot be mapped, the arena answers null.
  lemma NoRoom(a: Arena, host: Host, n: nat)
    requires Room(a, host, 0) && host.megabytes * 0x10_0000 < U64
    ensures Alloc(a, host, n) == (a, 0)
  {
    ReadyIs(a, host, 0);
  }

  lemma BestIsTaken(a: Arena, r: nat, k: nat)
    requires SortedFree(a.free) && (r * 2) % U64 == 2 * r && Best(a.free, r, k)
    ensures Allocated(a, r) == (a.(free := a.free[..k] + a.free[k + 1..], live := a.live[a.free[k].off := a.free[k].size]),
                                BASE + a.free[k].off)
  {
    var b := LowerBound(a.free, r);
    FirstIsBest(a.free, r);
    assert a.free[k] in a.free;
    BestIsOne(a.free, r, b, k);
  }

  lemma NoneIsBest(a: Arena, r: nat)
    requires SortedFree(a.free) && (r * 2) % U64 == 2 * r && Bounded(a) && r <= LIMIT
    requires forall x :: x in a.free ==> !(r <= x.size <= 2 * r)
    ensures Allocated(a, r) == if a.used + r <= a.size then (a.(used := a.used + r, live := a.live[a.used := r]), BASE + a.used)
                               else (a, 0)
  {
    var b := LowerBound(a.free, r);
    if b < |a.free| {
      assert a.free[b] in a.free;
    }
  }

  // A request is given the best free block, if there is one, and no more of the arena is
  // used than before.
  lemma GivenBest(a: Arena, host: Host, n: nat, r: nat, size: nat, k: nat)
    requires SortedFree(a.free) && n <= LIMIT && host.megabytes * 0x10_0000 < U64
    requires Units(n, r) && Room(a, host, size) && size > 0 && Best(a.free, r, k)
    ensures Alloc(a, host, n)
         == (Arena(size, a.used, a.free[..k] + a.free[k + 1..], a.live[a.free[k].off := a.free[k].size]), BASE + a.free[k].off)
  {
    UnitsAreRounded(n, r);
    ReadyIs(a, host, size);
    BestIsTaken(a.(size := size), r, k);
  }

  // Else the bytes behind all that was handed out before, if there are so many, and else
  // null.
  lemma GivenNew(a: Arena, host: Host, n: nat, r: nat, size: nat)
    requires SortedFree(a.free) && Bounded(a) && n <= LIMIT && size <= LIMIT && host.megabytes * 0x10_0000 < U64
    requires Units(n, r) && Room(a, host, size) && size > 0 && forall x :: x in a.free ==> !(r <= x.size <= 2 * r)
    ensures Alloc(a, host, n)
         == if a.used + r <= size then (Arena(size, a.used + r, a.free, a.live[a.used := r]), BASE + a.used)
            else (Arena(size, a.used, a.free, a.live), 0)
  {
    UnitsAreRounded(n, r);
    ReadyIs(a, host, size);
    NoneIsBest(a.(size := size), r);
  }

  // One or the other is the case.
  lemma BestOrNone(free: seq<Block>, r: nat)
    requires SortedFree(free)
    ensures (exists k: nat :: Best(free, r, k)) <==> exists x :: x in free && r <= x.size <= 2 * r
  {
    FirstIsBest(free, r);
    if k: nat :| Best(free, r, k) {
      assert free[k] in free;
    }
  }

  // b is put behind the k blocks that are no larger, and in front of the others.
  predicate PutLast(free: seq<Block>, b: Block, after: seq<Block>, k: nat) {
    && k <= |free| && after == free[..k] + [b] + free[k..]
    && (forall j :: 0 <= j < k ==> free[j].size <= b.size) && forall j :: k <= j < |free| ==> free[j].size > b.size
  }

  lemma EmplacedLast(free: seq<Block>, b: Block)
    requires SortedFree(free)
    ensures PutLast(free, b, Emplace(free, b), UpperBound(free, b.size))
  {
    var k := UpperBound(free, b.size);
    forall j | k <= j < |free| ensures free[j].size > b.size {
      assert free[k].size <= free[j].size;
    }
  }

  // A block is returned behind every free one that is no larger, so that of blocks of one
  // size the one returned first is taken first.
  lemma ReturnedLast(a: Arena, p: nat) returns (k: nat)
    requires SortedFree(a.free) && IsDevice(a, p) && p - BASE in a.live
    ensures PutLast(a.free, Block(a.live[p - BASE], p - BASE), Free(a, p).free, k)
  {
    var b := Block(a.live[p - BASE], p - BASE);
    k := UpperBound(a.free, b.size);
    EmplacedLast(a.free, b);
  }

  lemma TakenOut(x: seq<Block>, b: Block, y: seq<Block>, whole: seq<Block>)
    requires whole == x + [b] + y
    ensures whole[..|x|] == x && whole[|x| + 1..] == y && whole[|x|] == b
  {
  }

  // A block just freed is the best for its size, if no other free block has it.
  lemma FreedIsBest(free: seq<Block>, b: Block, k: nat)
    requires SortedFree(free) && (forall x :: x in free ==> x.size != b.size) && k == UpperBound(free, b.size)
    ensures Best(Emplace(free, b), b.size, k)
  {
    EmplaceAt(free, b);
    EmplaceSorted(free, b);
    forall j | 0 <= j < k ensures free[j].size < b.size {
      assert free[j] in free;
    }
  }

  lemma FreedStands(free: seq<Block>, b: Block, k: nat)
    requires k == UpperBound(free, b.size)
    ensures var after := Emplace(free, b); after[k] == b && after[..k] + after[k + 1..] == free
  {
    TakenOut(free[..k], b, free[k..], Emplace(free, b));
    assert free[..k] + free[k..] == free;
  }

  lemma FreedThenTaken(a: Arena, b: Block, after: Arena, k: nat, host: Host, n: nat, r: nat)
    requires a.size > 0 && b.off in a.live && a.live[b.off] == r == b.size && SortedFree(after.free)
    requires after.size == a.size && after.used == a.used && after.live == a.live - {b.off}
    requires Best(after.free, r, k) && after.free[k] == b && after.free[..k] + after.free[k + 1..] == a.free
    requires n <= LIMIT && host.megabytes * 0x10_0000 < U64 && Units(n, r)
    ensures Alloc(after, host, n) == (a, BASE + b.off)
  {
    GivenBest(after, host, n, r, a.size, k);
    assert after.live[b.off := r] == a.live;
  }

  // Freeing a block and asking for as many bytes gives that block back, and leaves the
  // arena as it was, if no other free block has its size.
  lemma FreedIsReused(a: Arena, p: nat, host: Host, n: nat, r: nat)
    requires SortedFree(a.free) && IsDevice(a, p) && p - BASE in a.live && a.live[p - BASE] == r
    requires n <= LIMIT && host.megabytes * 0x10_0000 < U64 && Units(n, r)
    requires forall x :: x in a.free ==> x.size != r
    ensures Alloc(Free(a, p), host, n) == (a, p)
  {
    var b, after := Block(r, p - BASE), Free(a, p);
    var k := UpperBound(a.free, r);
    FreedIsBest(a.free, b, k);
    FreedStands(a.free, b, k);
    EmplaceSorted(a.free, b);
    FreedThenTaken(a, b, after, k, host, n, r);
  }

  // So in a run: a request right behind the return of a block of its size.
  lemma RunsReuse(ops: seq<Op>, p: nat, host: Host, n: nat, r: nat)
    requires forall i :: 0 <= i < |ops| ==> InRange(ops[i])
    requires var a := Run(FRESH, ops);
      && IsDevice(a, p) && p - BASE in a.live && a.live[p - BASE] == r
      && forall x :: x in a.free ==> x.size != r
    requires n <= LIMIT && host.megabytes * 0x10_0000 < U64 && Units(n, r)
    ensures Alloc(Run(FRESH, ops + [Return(p)]), host, n).1 == p
    ensures Run(FRESH, ops + [Return(p), Request(n, host)]) == Run(FRESH, ops)
  {
    RunsKeepOrder(ops);
    FreedIsReused(Run(FRESH, ops), p, host, n, r);
    OneMore(FRESH, ops, Return(p));
    OneMore(FRESH, ops + [Return(p)], Request(n, host));
    assert ops + [Return(p)] + [Request(n, host)] == ops + [Return(p), Request(n, host)];
  }
}
