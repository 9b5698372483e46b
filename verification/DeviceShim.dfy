// The host half of the shim: its globals, and the calls that change them.
module DeviceShim {
  import opened Bytes
  import opened Arena
  import opened ShimFile
  import opened Session

  lemma LeastFirst(ds: map<nat, Descriptor>, keys: set<nat>, h: nat)
    requires keys <= ds.Keys && h in keys && forall j :: j in keys ==> h <= j
    ensures DescriptorBytes(ds, keys) == OneDescriptor(h, ds[h]) + DescriptorBytes(ds, keys - {h})
  {
    assert Least(keys) == h;
  }

  class DeviceShim {
    var arenaSize: nat
    var arenaUsed: nat
    var free: seq<Block>
    var live: map<nat, nat>
    var nextHandle: nat
    var descriptors: map<nat, Descriptor>

    ghost function View(): Shim
      reads this
    {
      Shim(Arena(arenaSize, arenaUsed, free, live), nextHandle, descriptors)
    }

    constructor ()
      ensures View() == Shim(FRESH, 1, map[])
      ensures Sound(View())
    {
      arenaSize, arenaUsed, free, live := 0, 0, [], map[];
      nextHandle, descriptors := 1, map[];
    }

    method ArenaInit(host: Host) returns (ok: bool)
      modifies this`arenaSize
      ensures ok == Initialised(old(View()).arena, host).1
      ensures View() == old(View()).(arena := Initialised(old(View()).arena, host).0)
    {
      if arenaSize != 0 {
        return true;
      }
      arenaSize := DEFAULT_SIZE;
      if host.megabytes != 0 {
        arenaSize := (host.megabytes * 0x10_0000) % U64;
      }
      if !host.mapped || arenaSize == 0 {
        arenaSize := 0;
        return false;
      }
      return true;
    }

    method Allocate(host: Host, n: nat) returns (p: nat)
      modifies this
      ensures View() == old(View()).(arena := Alloc(old(View()).arena, host, n).0)
      ensures p == Alloc(old(View()).arena, host, n).1
      ensures Session.Step(old(View()), Malloc(n, host)) == Some((View(), p))
    {
      var ok := ArenaInit(host);
      if !ok {
        return 0;
      }
      var r := Rounded(n);
      var k := LowerBound(free, r);
      if k < |free| && free[k].size <= (r * 2) % U64 {
        var off, had := free[k].off, free[k].size;
        free := Without(free, k);
        live := live[off := had];
        return BASE + off;
      }
      if (arenaUsed + r) % U64 > arenaSize {
        return 0;
      }
      var off := arenaUsed;
      arenaUsed := (arenaUsed + r) % U64;
      live := live[off := r];
      return BASE + off;
    }

    method Deallocate(p: nat)
      modifies this
      ensures View() == old(View()).(arena := Free(old(View()).arena, p))
      ensures Session.Step(old(View()), Release(p)) == Some((View(), 0))
    {
      if !(arenaSize != 0 && BASE <= p < BASE + arenaSize) {
        return;
      }
      var off := p - BASE;
      if off !in live {
        return;
      }
      free := Emplace(free, Block(live[off], off));
      live := live - {off};
    }

    method RememberDescriptor(d: Option<Descriptor>) returns (handle: nat)
      modifies this
      ensures d.None? ==> handle == 0 && View() == old(View())
      ensures d.Some? ==> (View(), handle) == Remember(old(View()), d.value)
      ensures d.Some? && d.value == Descriptor(d.value.kind, Default(d.value.kind)) ==>
        Session.Step(old(View()), Create(d.value.kind)) == Some((View(), handle))
    {
      if d.None? {
        return 0;
      }
      descriptors := descriptors[nextHandle := d.value];
      handle := nextHandle;
      nextHandle := (nextHandle + 1) % U64;
    }

    method ForgetDescriptor(handle: nat)
      modifies this
      ensures View() == old(View()).(descriptors := old(View()).descriptors - {handle})
      ensures Session.Step(old(View()), Destroy(handle)) == Some((View(), 0))
    {
      descriptors := descriptors - {handle};
    }

    // ---- saving -----------------------------------------------------------------------------------

    method WriteFree() returns (bs: seq<byte>)
      ensures bs == FreeBytes(free)
    {
      bs := [];
      var i := 0;
      while i < |free|
        invariant 0 <= i <= |free|
        invariant bs + FreeBytes(free[i..]) == FreeBytes(free)
      {
        Regrouped(bs, Word(free[i].size) + Word(free[i].off), FreeBytes(free[i + 1..]));
        assert free[i..][1..] == free[i + 1..];
        bs := bs + (Word(free[i].size) + Word(free[i].off));
        i := i + 1;
      }
    }

    method WriteLive() returns (bs: seq<byte>)
      ensures bs == LiveBytes(live, live.Keys)
    {
      bs := [];
      var keys := live.Keys;
      while keys != {}
        invariant keys <= live.Keys
        invariant bs + LiveBytes(live, keys) == LiveBytes(live, live.Keys)
        decreases |keys|
      {
        LeastExists(keys);
        var off :| off in keys && forall j :: j in keys ==> off <= j;
        Regrouped(bs, Word(off) + Word(live[off]), LiveBytes(live, keys - {off}));
        bs := bs + (Word(off) + Word(live[off]));
        keys := keys - {off};
      }
    }

    method WriteDescriptors() returns (bs: seq<byte>)
      ensures bs == DescriptorBytes(descriptors, descriptors.Keys)
    {
      bs := [];
      var keys := descriptors.Keys;
      while keys != {}
        invariant keys <= descriptors.Keys
        invariant bs + DescriptorBytes(descriptors, keys) == DescriptorBytes(descriptors, descriptors.Keys)
        decreases |keys|
      {
        LeastExists(keys);
        var h :| h in keys && forall j :: j in keys ==> h <= j;
        LeastFirst(descriptors, keys, h);
        Regrouped(bs, OneDescriptor(h, descriptors[h]), DescriptorBytes(descriptors, keys - {h}));
        bs := bs + OneDescriptor(h, descriptors[h]);
        keys := keys - {h};
      }
    }

    method Write() returns (bs: seq<byte>)
      ensures bs == Saved(View())
    {
      var frees := WriteFree();
      var lives := WriteLive();
      var ds := WriteDescriptors();
      var arena := MAGIC + (Word(arenaSize) + Word(arenaUsed) + (Word(|free|) + (frees + (Word(|live|) + lives))));
      bs := arena + (Word(nextHandle) + Word(|descriptors|) + ds);
    }

    // ---- restoring --------------------------------------------------------------------------------

    method LoadFree(count: nat, bs: seq<byte>) returns (ok: bool, rest: seq<byte>)
      modifies this`free
      ensures ok <==> ReadFree(bs, count, []).Some?
      ensures ok ==> ReadFree(bs, count, []) == Some((free, rest))
    {
      free, rest, ok := [], bs, true;
      var i := 0;
      while i < count && ok
        invariant 0 <= i <= count
        invariant ok ==> ReadFree(bs, count, []) == ReadFree(rest, count - i, free)
        invariant !ok ==> ReadFree(bs, count, []).None?
      {
        var pair := ReadPair(rest);
        ok := pair.Some?;
        if ok {
          free := Emplace(free, Block(pair.value.0.0, pair.value.0.1));
          rest := pair.value.1;
        }
        i := i + 1;
      }
    }

    method LoadLive(count: nat, bs: seq<byte>) returns (ok: bool, rest: seq<byte>)
      modifies this`live
      ensures ok <==> ReadLive(bs, count, map[]).Some?
      ensures ok ==> ReadLive(bs, count, map[]) == Some((live, rest))
    {
      live, rest, ok := map[], bs, true;
      var i := 0;
      while i < count && ok
        invariant 0 <= i <= count
        invariant ok ==> ReadLive(bs, count, map[]) == ReadLive(rest, count - i, live)
        invariant !ok ==> ReadLive(bs, count, map[]).None?
      {
        var pair := ReadPair(rest);
        ok := pair.Some?;
        if ok {
          live := live[pair.value.0.0 := pair.value.0.1];
          rest := pair.value.1;
        }
        i := i + 1;
      }
    }

    method LoadDescriptors(count: nat, bs: seq<byte>) returns (ok: bool, rest: seq<byte>)
      modifies this`descriptors
      ensures ok <==> ReadDescriptors(bs, count, map[]).Some?
      ensures ok ==> ReadDescriptors(bs, count, map[]) == Some((descriptors, rest))
    {
      descriptors, rest, ok := map[], bs, true;
      var i := 0;
      while i < count && ok
        invariant 0 <= i <= count
        invariant ok ==> ReadDescriptors(bs, count, map[]) == ReadDescriptors(rest, count - i, descriptors)
        invariant !ok ==> ReadDescriptors(bs, count, map[]).None?
      {
        var one := ReadDescriptor(rest);
        ok := one.Some?;
        if ok {
          descriptors := descriptors[one.value.0.0 := one.value.0.1];
          rest := one.value.1;
        }
        i := i + 1;
      }
    }

    // spans says which sizes of arena the restored address space can hold.  A refused
    // file leaves the shim's fields half replaced.
    method Load(bs: seq<byte>, spans: nat -> bool) returns (ok: bool)
      modifies this
      ensures ok <==> Read(bs).Some? && spans(Read(bs).value.0.arena.size)
      ensures ok ==> View() == Read(bs).value.0
    {
      var head := ReadHead(bs);
      if head.None? {
        return false;
      }
      arenaSize, arenaUsed := head.value.0.0, head.value.0.1;
      if !spans(arenaSize) {
        arenaSize := 0;
        return false;
      }
      var count := TakeInt(head.value.1, 8);
      if count.None? {
        return false;
      }
      var rest: seq<byte>;
      ok, rest := LoadFree(count.value.0, count.value.1);
      if !ok {
        return false;
      }
      count := TakeInt(rest, 8);
      if count.None? {
        return false;
      }
      ok, rest := LoadLive(count.value.0, count.value.1);
      if !ok {
        return false;
      }
      var pair := ReadPair(rest);
      if pair.None? {
        return false;
      }
      nextHandle := pair.value.0.0;
      ok, rest := LoadDescriptors(pair.value.0.1, pair.value.1);
    }
  }

  // A shim saved and loaded into another one is the same shim, if it had an arena; if it
  // had none, it cannot be loaded.
  method SaveThenLoad(from: DeviceShim, to: DeviceShim) returns (ok: bool)
    requires from != to && Sound(from.View())
    modifies to
    ensures from.View() == old(from.View()) && (ok <==> from.arenaSize > 0)
    ensures ok ==> to.View() == from.View()
    ensures ok <==> Restored(from.View()).Some?
  {
    SoundIsStorable(from.View());
    SavedIsRead(from.View());
    RestoredIfMapped(from.View());
    var bs := from.Write();
    ok := to.Load(bs, Spans);
  }
}
