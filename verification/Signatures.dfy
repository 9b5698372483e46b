// The signatures of the kernels, and the table that says which of their arguments are
// addresses.
module Signatures {
  import opened Launch

  // What a parameter of a kernel is: an address, a TArray of addresses by value, or any
  // other value.
  datatype Parameter = Address | Addresses | Plain

  // The kernels' signatures, in the order of the table.
  const SIGNATURES: seq<seq<Parameter>> := [
    // (const T*, T1*, OP, int)
    [Address, Address, Plain, Plain],
    // (const T1*, const T2*, T*, OP, int)
    [Address, Address, Address, Plain, Plain],
    // (const T1*, const T2*, DivMod, T*, OP, int)
    [Address, Address, Plain, Address, Plain, Plain],
    // (const T1*, const T2*, DivMod, DivMod, T*, OP, int)
    [Address, Address, Plain, Plain, Address, Plain, Plain],
    // (int, TArray<long>, const T1*, TArray<long>, const T2*, TArray<DivMod>, T*, const OP&, int)
    [Plain, Plain, Address, Plain, Address, Plain, Address, Address, Plain],
    // (size_t, TArray<long>, const bool*, TArray<long>, const T*, TArray<long>, const T*, TArray<DivMod>, T*, int)
    [Plain, Plain, Address, Plain, Address, Plain, Address, Plain, Address, Plain],
    // (int, const T*, T*, DivMod, int, int)
    [Plain, Address, Address, Plain, Plain, Plain],
    // (int, int, const T*, T*, TArray<DivMod>, TArray<long>)
    [Plain, Plain, Address, Address, Plain, Plain],
    // (long, long, DivMod, DivMod, const void*, unsigned long, const T*, T*, int)
    [Plain, Plain, Plain, Plain, Address, Plain, Address, Address, Plain],
    // (DivMod, DivMod, DivMod, T*, TArray<const void*, 32>, int)
    [Plain, Plain, Plain, Address, Addresses, Plain],
    // (DivMod, DivMod, const long*, const long*, const long*, T*, const void**, int)
    [Plain, Plain, Address, Address, Address, Address, Address, Plain],
    // (DivMod, DivMod, DivMod, int, const T*, TArray<void*, 32>, int)
    [Plain, Plain, Plain, Plain, Address, Addresses, Plain],
    // (TArray<long>, TArray<long>, TArray<long>, TArray<DivMod>, const T*, T*, int)
    [Plain, Plain, Plain, Plain, Address, Address, Plain],
    // (int, TArray<long>, const T*, TArray<DivMod>, T*, int)
    [Plain, Plain, Address, Plain, Address, Plain],
    // (T*, size_t, const long*, long, const long*, const T*, size_t)
    [Address, Plain, Address, Plain, Address, Address, Plain],
    // (T*, const T*, int)
    [Address, Address, Plain],
    // (T*, T, int)
    [Address, Plain, Plain],
    // (T, T, int, T*)
    [Plain, Plain, Plain, Address],
    // (int, int, const TIn*, TOut*, TBuf*, int*)
    [Plain, Plain, Address, Address, Address, Address],
    // (out*, const in*, int, int, int)
    [Address, Address, Plain, Plain, Plain]
  ]

  // A row marks just the addresses of its signature.
  predicate MarksOf(row: Row, signature: seq<Parameter>) {
    && row.nargs == |signature|
    && (forall i :: 0 <= i < |signature| ==>
          (signature[i].Address? <==> i in row.ptrs) && (signature[i].Addresses? <==> i in row.arrays))
  }

  lemma TableIsRight(i: nat)
    requires i < |KERNELS|
    ensures |SIGNATURES| == |KERNELS| && MarksOf(KERNELS[i], SIGNATURES[i])
  {
  }
}
