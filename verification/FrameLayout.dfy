// Where everything is in a frame.
module FrameLayout {
  import opened Bytes
  import opened Frames

  // A number in so many bytes of a sequence, the first of them counting least.
  predicate Holds(bs: seq<byte>, at: nat, width: nat, v: nat) {
    at + width <= |bs| && Value(bs[at..at + width]) == v
  }

  // A sequence within another, and the same in front of what follows.
  ghost predicate Within(bs: seq<byte>, at: nat, part: seq<byte>) {
    at + |part| <= |bs| && bs[at..at + |part|] == part
  }

  lemma SplitsAt(bs: seq<byte>, at: nat, a: seq<byte>, b: seq<byte>, next: nat)
    requires Within(bs, at, a + b) && next == at + |a|
    ensures Within(bs, at, a) && Within(bs, next, b)
  {
    var part := a + b;
    assert bs[at..next] == bs[at..at + |part|][..|a|] == part[..|a|] == a;
    assert bs[next..next + |b|] == bs[at..at + |part|][|a|..] == part[|a|..] == b;
  }

  lemma HoldsNumber(bs: seq<byte>, at: nat, width: nat, v: nat)
    requires Within(bs, at, Little(v, width)) && v < Power256(width)
    ensures Holds(bs, at, width, v)
  {
    LittleValue(v, width);
  }

  // Word k of a row of 64-bit words is in bytes 8 * k and following.
  lemma {:induction false} WordIsAt(bs: seq<byte>, at: nat, ws: seq<nat>, k: nat)
    requires Within(bs, at, Words(ws)) && k < |ws| && ws[k] < U64
    ensures Holds(bs, at + 8 * k, 8, ws[k])
    decreases k
  {
    Widths();
    SplitsAt(bs, at, Little(ws[0], 8), Words(ws[1..]), at + 8);
    if k == 0 {
      HoldsNumber(bs, at, 8, ws[0]);
    } else {
      WordIsAt(bs, at + 8, ws[1..], k - 1);
    }
  }

  // Blobs j and following begin so far behind the first.
  function BlobsSize(blobs: seq<seq<byte>>, j: nat): (n: nat)
    requires j <= |blobs|
  {
    if j == 0 then 0 else BlobsSize(blobs, j - 1) + 4 + |blobs[j - 1]|
  }

  lemma {:induction false} SizesShift(blobs: seq<seq<byte>>, j: nat)
    requires 0 < j <= |blobs|
    ensures BlobsSize(blobs, j) == 4 + |blobs[0]| + BlobsSize(blobs[1..], j - 1)
  {
    if j > 1 {
      SizesShift(blobs, j - 1);
    }
  }

  // Blob j is there with its length in front.
  lemma {:induction false} BlobIsAt(bs: seq<byte>, at: nat, blobs: seq<seq<byte>>, j: nat, from: nat)
    requires Within(bs, at, Blobs(blobs)) && j < |blobs| && |blobs[j]| < U32 && from == at + BlobsSize(blobs, j)
    ensures Holds(bs, from, 4, |blobs[j]|) && Within(bs, from + 4, blobs[j])
    decreases j
  {
    Widths();
    var b, more := blobs[0], Blobs(blobs[1..]);
    var next := at + 4 + |b|;
    SplitsAt(bs, at, Little(|b|, 4) + b, more, next);
    if j == 0 {
      SplitsAt(bs, at, Little(|b|, 4), b, at + 4);
      HoldsNumber(bs, at, 4, |b|);
    } else {
      SizesShift(blobs, j);
      BlobIsAt(bs, next, blobs[1..], j - 1, from);
    }
  }

  lemma {:induction false} BlobsLength(blobs: seq<seq<byte>>)
    ensures |Blobs(blobs)| == BlobsSize(blobs, |blobs|)
  {
    if blobs != [] {
      BlobsLength(blobs[1..]);
      SizesShift(blobs, |blobs|);
    }
  }

  lemma FramePieces(f: Frame, bs: seq<byte>, at: nat)
    requires bs == Encode(f) && at == 8 + 8 * |f.words|
    ensures Within(bs, 0, Little(f.first, 4)) && Within(bs, 4, Little(|f.blobs|, 4))
    ensures Within(bs, 8, Words(f.words)) && Within(bs, at, Blobs(f.blobs)) && |bs| == at + |Blobs(f.blobs)|
  {
    var words, blobs := Words(f.words), Blobs(f.blobs);
    var first, count := Little(f.first, 4), Little(|f.blobs|, 4);
    assert bs[0..|bs|] == bs;
    SplitsAt(bs, 0, first + count + words, blobs, at);
    SplitsAt(bs, 0, first + count, words, 8);
    SplitsAt(bs, 0, first, count, 4);
  }

  // A frame: its first number in four bytes, the number of its blobs in four ...
  lemma HeadIsLaidOut(f: Frame, bs: seq<byte>)
    requires f.InLimits(|f.words|) && bs == Encode(f)
    ensures Holds(bs, 0, 4, f.first) && Holds(bs, 4, 4, |f.blobs|)
  {
    Widths();
    FramePieces(f, bs, 8 + 8 * |f.words|);
    HoldsNumber(bs, 0, 4, f.first);
    HoldsNumber(bs, 4, 4, |f.blobs|);
  }

  // ... its scalars in eight each ...
  lemma ScalarIsLaidOut(f: Frame, bs: seq<byte>, k: nat)
    requires f.InLimits(|f.words|) && bs == Encode(f) && k < |f.words|
    ensures Holds(bs, 8 + 8 * k, 8, f.words[k])
  {
    FramePieces(f, bs, 8 + 8 * |f.words|);
    WordIsAt(bs, 8, f.words, k);
  }

  // ... and its blobs, each behind its length in four; and nothing else.
  lemma BlobsAreLaidOut(f: Frame, bs: seq<byte>, j: nat, from: nat)
    requires f.InLimits(|f.words|) && bs == Encode(f) && j < |f.blobs| && from == 8 + 8 * |f.words| + BlobsSize(f.blobs, j)
    ensures Holds(bs, from, 4, |f.blobs[j]|) && Within(bs, from + 4, f.blobs[j])
    ensures |bs| == 8 + 8 * |f.words| + BlobsSize(f.blobs, |f.blobs|)
  {
    var at := 8 + 8 * |f.words|;
    FramePieces(f, bs, at);
    BlobsLength(f.blobs);
    BlobIsAt(bs, at, f.blobs, j, from);
  }

  // A request has four scalars, so its blobs begin at byte 40; a response two, and they
  // begin at byte 24.
  lemma BlobsBeginAt(f: Frame)
    requires f.blobs != []
    ensures f.InLimits(REQUEST_WORDS) ==> Holds(Encode(f), 40, 4, |f.blobs[0]|) && Within(Encode(f), 44, f.blobs[0])
    ensures f.InLimits(RESPONSE_WORDS) ==> Holds(Encode(f), 24, 4, |f.blobs[0]|) && Within(Encode(f), 28, f.blobs[0])
  {
    if f.InLimits(|f.words|) {
      BlobsAreLaidOut(f, Encode(f), 0, 8 + 8 * |f.words|);
    }
  }

  // ---- what is refused ---------------------------------------------------------------------------

  // More than three blobs.
  lemma TooManyAreRefused(bs: seq<byte>, words: nat)
    requires |bs| >= 8 && Value(bs[4..8]) > 3
    ensures Parse(bs, words).None?
  {
    assert bs[4..][..4] == bs[4..8];
  }

  // A blob of more than 2^28 bytes.
  lemma TooLongIsRefused(bs: seq<byte>)
    requires |bs| >= 4 && Value(bs[..4]) > 268435456
    ensures TakeBlob(bs).None?
  {
  }

  // Three blobs of 2^28 bytes are not too many.
  lemma LimitsAre(f: Frame, words: nat)
    requires f.first < 4294967296 && |f.words| == words && |f.blobs| <= 3
    requires forall i :: 0 <= i < words ==> f.words[i] < 0x1_0000_0000_0000_0000
    requires forall i :: 0 <= i < |f.blobs| ==> |f.blobs[i]| <= 268435456
    ensures f.InLimits(words) && Parse(Encode(f), words) == Some((f, []))
  {
    EncodedIsParsed(f, []);
    assert Encode(f) + [] == Encode(f);
  }
}
