// What descriptors hold over a session.
module Descriptors {
  import opened Bytes
  import opened ShimFile
  import opened Session

  // What a handle leads to after a call: a new descriptor if the call created it, the
  // fields it was given if it was set and they are as many as it has, nothing once it is
  // destroyed, and else what it led to before.
  lemma Lookup(s: Shim, call: Call, h: nat)
    requires Step(s, call).Some? && !call.SaveAndRestore?
    ensures var after := Step(s, call).value.0.descriptors;
      && (call.Create? && h == s.next ==> h in after && after[h] == Descriptor(call.kind, Default(call.kind)))
      && (call.Set? && h == call.handle && h in s.descriptors ==>
            h in after && after[h].kind == s.descriptors[h].kind
            && after[h].fields == if |call.fields| == |s.descriptors[h].fields| then call.fields else s.descriptors[h].fields)
      && (call.Destroy? && h == call.handle ==> h !in after)
      && (!(call.Create? && h == s.next) && !(call.Set? && h == call.handle) && !(call.Destroy? && h == call.handle) ==>
            (h in after <==> h in s.descriptors) && (h in after ==> after[h] == s.descriptors[h]))
  {
  }

  lemma {:induction false} OnesJoin(a: nat, b: nat)
    ensures Ones(a) + Ones(b) == Ones(a + b)
  {
    if a > 0 {
      OnesJoin(a - 1, b);
      Regrouped(Little(1, 4), Ones(a - 1), Ones(b));
    } else {
      assert [] + Ones(b) == Ones(b);
    }
  }

  lemma {:induction false} OnesAre(n: nat, k: nat, at: nat)
    requires k < n && at == 4 * k
    ensures Ones(n)[at..at + 4] == [1, 0, 0, 0]
  {
    assert Little(1, 4) == [1, 0, 0, 0];
    if k > 0 {
      OnesAre(n - 1, k - 1, at - 4);
      assert Ones(n)[at..at + 4] == Ones(n - 1)[at - 4..at];
    }
  }

  // A new descriptor's fields are 32-bit integers: of a tensor 18 and of a filter 11, all
  // of them 0;
  lemma TensorDefault(kind: int, k: nat, at: nat)
    requires (kind == TENSOR && k < 18) || (kind == FILTER && k < 11)
    requires at == 4 * k
    ensures at + 4 <= |Default(kind)| == (if kind == TENSOR then 72 else 44) && Default(kind)[at..at + 4] == [0, 0, 0, 0]
  {
  }

  // and of a convolution 15, of which the first five are 0 and the others 1: its strides and
  // dilations, its mode and its groups.
  lemma ConvolutionDefault(k: nat, at: nat)
    requires k < 15 && at == 4 * k
    ensures |Default(CONV)| == 60 && Default(CONV)[at..at + 4] == if k < 5 then [0, 0, 0, 0] else [1, 0, 0, 0]
  {
    var zeros: seq<byte> := seq(20, i => 0);
    OnesJoin(8, 1);
    OnesJoin(9, 1);
    Regrouped(zeros + Ones(8), Ones(1), Ones(1));
    assert Default(CONV) == zeros + Ones(10) by {
      Regrouped(zeros, Ones(8), Ones(1));
      Regrouped(zeros, Ones(9), Ones(1));
    }
    if k >= 5 {
      OnesAre(10, k - 5, at - 20);
      assert (zeros + Ones(10))[at..at + 4] == Ones(10)[at - 20..at - 16];
    }
  }
}
