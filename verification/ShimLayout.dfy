// Where everything is in a saved shim: the magic, and then 64-bit words, but for the
// fields of descriptors.
module ShimLayout {
  import opened Bytes
  import opened Frames
  import opened FrameLayout
  import opened Arena
  import opened ShimFile

  lemma {:induction false} WordsJoin(a: seq<nat>, b: seq<nat>)
    ensures Words(a + b) == Words(a) + Words(b)
  {
    if a == [] {
      assert a + b == b;
    } else {
      assert (a + b)[1..] == a[1..] + b;
      WordsJoin(a[1..], b);
      Regrouped(Little(a[0], 8), Words(a[1..]), Words(b));
    }
  }

  lemma WordsOfTwo(a: nat, b: nat)
    ensures Words([a, b]) == Word(a) + Word(b)
  {
    assert [a, b][1..] == [b] && [b][1..] == [];
  }

  // The words of free blocks: of each its size, and then its offset.
  function FreeWords(free: seq<Block>): (ws: seq<nat>)
    ensures |ws| == 2 * |free|
    ensures forall i :: 0 <= i < |free| ==> ws[2 * i] == free[i].size && ws[2 * i + 1] == free[i].off
  {
    if free == [] then [] else [free[0].size, free[0].off] + FreeWords(free[1..])
  }

  lemma {:induction false} FreeIsWords(free: seq<Block>)
    ensures FreeBytes(free) == Words(FreeWords(free))
  {
    if free != [] {
      FreeIsWords(free[1..]);
      WordsOfTwo(free[0].size, free[0].off);
      WordsJoin([free[0].size, free[0].off], FreeWords(free[1..]));
    }
  }

  // Keys in ascending order.
  ghost function Ascending(keys: set<nat>): (ks: seq<nat>)
    ensures forall k :: k in ks ==> k in keys
  {
    if keys == {} then [] else [Least(keys)] + Ascending(keys - {Least(keys)})
  }

  lemma {:induction false} AscendingHolds(keys: set<nat>)
    ensures |Ascending(keys)| == |keys| && forall k :: k in keys ==> k in Ascending(keys)
    decreases |keys|
  {
    if keys != {} {
      var k := Least(keys);
      AscendingHolds(keys - {k});
      assert keys == {k} + (keys - {k});
    }
  }

  lemma {:induction false} AscendingRises(keys: set<nat>, i: nat, j: nat)
    requires i < j < |Ascending(keys)|
    ensures Ascending(keys)[i] < Ascending(keys)[j]
    decreases |keys|
  {
    var k := Least(keys);
    var ks := Ascending(keys - {k});
    assert Ascending(keys) == [k] + ks;
    if i == 0 {
      assert ks[j - 1] in keys - {k};
    } else {
      AscendingRises(keys - {k}, i - 1, j - 1);
    }
  }

  // The words of live blocks: of each its offset, and then its size.
  ghost function LiveWords(live: map<nat, nat>, ks: seq<nat>): (ws: seq<nat>)
    requires forall k :: k in ks ==> k in live
    ensures |ws| == 2 * |ks|
    ensures forall i :: 0 <= i < |ks| ==> ws[2 * i] == ks[i] && ws[2 * i + 1] == live[ks[i]]
  {
    if ks == [] then [] else [ks[0], live[ks[0]]] + LiveWords(live, ks[1..])
  }

  lemma {:induction false} LiveIsWords(live: map<nat, nat>, keys: set<nat>)
    requires keys <= live.Keys
    ensures LiveBytes(live, keys) == Words(LiveWords(live, Ascending(keys)))
    decreases |keys|
  {
    if keys != {} {
      var k := Least(keys);
      var ks := Ascending(keys - {k});
      assert keys == {k} + (keys - {k});
      LiveIsWords(live, keys - {k});
      assert Ascending(keys) == [k] + ks && ([k] + ks)[1..] == ks;
      WordsOfTwo(k, live[k]);
      WordsJoin([k, live[k]], LiveWords(live, ks));
    }
  }

  // All the words before the descriptors.
  ghost function HeadWords(s: Shim): seq<nat> {
    [s.arena.size, s.arena.used, |s.arena.free|] + FreeWords(s.arena.free)
    + [|s.arena.live|] + LiveWords(s.arena.live, Ascending(s.arena.live.Keys))
    + [s.next, |s.descriptors|]
  }

  // A descriptor: its handle, its kind, how many bytes its fields are, and those.
  ghost function DescriptorsOf(ds: map<nat, Descriptor>, hs: seq<nat>): seq<byte>
    requires forall h :: h in hs ==> h in ds
  {
    if hs == [] then [] else
    Words([hs[0], ds[hs[0]].kind % U64, DescriptorSize(ds[hs[0]].kind)]) + ds[hs[0]].fields + DescriptorsOf(ds, hs[1..])
  }

  lemma WordsOfThree(a: nat, b: nat, c: nat)
    ensures Words([a, b, c]) == Word(a) + Word(b) + Word(c)
  {
    assert [a, b, c] == [a, b] + [c] && [c][1..] == [];
    WordsJoin([a, b], [c]);
    WordsOfTwo(a, b);
  }

  lemma {:induction false} DescriptorsAreWords(ds: map<nat, Descriptor>, keys: set<nat>)
    requires keys <= ds.Keys
    ensures DescriptorBytes(ds, keys) == DescriptorsOf(ds, Ascending(keys))
    decreases |keys|
  {
    if keys != {} {
      var h := Least(keys);
      var d, hs := ds[h], Ascending(keys - {h});
      assert keys == {h} + (keys - {h});
      DescriptorsAreWords(ds, keys - {h});
      assert Ascending(keys) == [h] + hs && ([h] + hs)[1..] == hs;
      WordsOfThree(h, d.kind % U64, DescriptorSize(d.kind));
      Regrouped(Word(h) + Word(d.kind % U64), Word(DescriptorSize(d.kind)), d.fields);
    }
  }

  lemma SixJoin(a: seq<nat>, b: seq<nat>, c: seq<nat>, d: seq<nat>, e: seq<nat>)
    ensures Words(a + b + c + d + e) == Words(a) + (Words(b) + (Words(c) + Words(d))) + Words(e)
  {
    WordsJoin(a + b + c + d, e);
    WordsJoin(a + b + c, d);
    WordsJoin(a + b, c);
    WordsJoin(a, b);
    Regrouped(Words(a) + Words(b), Words(c), Words(d));
    Regrouped(Words(a), Words(b), Words(c) + Words(d));
  }

  lemma Rearranged(m: seq<byte>, a: seq<byte>, b: seq<byte>, c: seq<byte>, d: seq<byte>, e: seq<byte>, f: seq<byte>, g: seq<byte>)
    ensures m + (a + (b + (c + (d + e)))) + (f + g) == m + (a + b + (c + (d + e)) + f) + g
  {
    var x := c + (d + e);
    Regrouped(a, b, x);
    Regrouped(m, a + (b + x), f + g);
    Regrouped(a + (b + x), f, g);
    Regrouped(m, a + (b + x) + f, g);
  }

  // The whole file.
  lemma SavedIsLaidOut(s: Shim)
    ensures Saved(s)
         == [0x56, 0x56, 0x53, 0x48, 0x49, 0x4D, 0x30, 0x31] + Words(HeadWords(s))
            + DescriptorsOf(s.descriptors, Ascending(s.descriptors.Keys))
  {
    var a := s.arena;
    var live := LiveWords(a.live, Ascending(a.live.Keys));
    FreeIsWords(a.free);
    LiveIsWords(a.live, a.live.Keys);
    DescriptorsAreWords(s.descriptors, s.descriptors.Keys);
    WordsOfThree(a.size, a.used, |a.free|);
    WordsOfTwo(s.next, |s.descriptors|);
    assert Words([|a.live|]) == Word(|a.live|) by {
      assert [|a.live|][1..] == [];
    }
    var sizes, frees, lives, ds := Word(a.size) + Word(a.used), Words(FreeWords(a.free)), Words(live),
      DescriptorBytes(s.descriptors, s.descriptors.Keys);
    var last := Word(s.next) + Word(|s.descriptors|);
    SixJoin([a.size, a.used, |a.free|], FreeWords(a.free), [|a.live|], live, [s.next, |s.descriptors|]);
    Rearranged(MAGIC, sizes, Word(|a.free|), frees, Word(|a.live|), lives, last, ds);
  }

  // So word k is at byte 8 + 8 * k.
  lemma WordOfSaved(s: Shim, k: nat)
    requires k < |HeadWords(s)| && HeadWords(s)[k] < U64
    ensures Holds(Saved(s), 8 + 8 * k, 8, HeadWords(s)[k])
  {
    var file, ws, ds := Saved(s), Words(HeadWords(s)), DescriptorsOf(s.descriptors, Ascending(s.descriptors.Keys));
    SavedIsLaidOut(s);
    assert file[0..|file|] == file;
    SplitsAt(file, 0, MAGIC + ws, ds, 8 + |ws|);
    SplitsAt(file, 0, MAGIC, ws, 8);
    WordIsAt(file, 8, HeadWords(s), k);
  }

  // ---- what is refused ---------------------------------------------------------------------------

  // A file with another magic.
  lemma MagicIsNeeded(bs: seq<byte>)
    requires |bs| < 8 || bs[..8] != [0x56, 0x56, 0x53, 0x48, 0x49, 0x4D, 0x30, 0x31]
    ensures Read(bs).None?
  {
  }

  // A descriptor of a kind other than 1, 2 and 3, or whose fields are not said to be 72, 44
  // and 60 bytes.
  lemma KindIsNeeded(h: nat, kind: nat, n: nat, rest: seq<byte>, bs: seq<byte>)
    requires h < U64 && kind < 0x8000_0000 && n < 0x8000_0000 && bs == Word(h) + Word(kind) + (Word(n) + rest)
    requires !((kind == 1 && n == 72) || (kind == 2 && n == 44) || (kind == 3 && n == 60))
    ensures ReadDescriptor(bs).None?
  {
    PairRead(h, kind, Word(n) + rest);
    WordRead(n, rest);
  }
}
