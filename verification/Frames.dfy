// The wire between the host library and the guest agent: one frame for a request, one
// for its answer.
module Frames {
  import opened Bytes

  const MAX_BLOBS: int := 3
  const MAX_BLOB_BYTES: int := 0x1000_0000
  const REQUEST_WORDS: int := 4
  const RESPONSE_WORDS: int := 2
  const QUIT: int := 255

  // A request (its operation and four scalars) or a response (its code's bits and two
  // scalars), with the blobs that go along.
  datatype Frame = Frame(first: nat, words: seq<nat>, blobs: seq<seq<byte>>)
  {
    predicate InLimits(words: nat) {
      && first < U32 && |this.words| == words && |blobs| <= MAX_BLOBS
      && (forall i :: 0 <= i < words ==> this.words[i] < U64)
      && (forall i :: 0 <= i < |blobs| ==> |blobs[i]| <= MAX_BLOB_BYTES)
    }
  }

  function Words(ws: seq<nat>): (bs: seq<byte>)
    ensures |bs| == 8 * |ws|
  {
    if ws == [] then [] else Little(ws[0], 8) + Words(ws[1..])
  }

  function Blobs(blobs: seq<seq<byte>>): (bs: seq<byte>) {
    if blobs == [] then [] else Little(|blobs[0]|, 4) + blobs[0] + Blobs(blobs[1..])
  }

  function Encode(f: Frame): (bs: seq<byte>) {
    Little(f.first, 4) + Little(|f.blobs|, 4) + Words(f.words) + Blobs(f.blobs)
  }

  function TakeWords(bs: seq<byte>, n: nat): (r: Option<(seq<nat>, seq<byte>)>)
    ensures r.Some? <==> 8 * n <= |bs|
    ensures r.Some? ==> |r.value.0| == n && |r.value.1| == |bs| - 8 * n
  {
    if n == 0 then Some(([], bs)) else
    match TakeInt(bs, 8)
    case None => None
    case Some((w, more)) =>
      match TakeWords(more, n - 1)
      case None => None
      case Some((ws, rest)) => Some(([w] + ws, rest))
  }

  function TakeBlob(bs: seq<byte>): (r: Option<(seq<byte>, seq<byte>)>) {
    match TakeInt(bs, 4)
    case None => None
    case Some((len, more)) => if len > MAX_BLOB_BYTES then None else Take(more, len)
  }

  function TakeBlobs(bs: seq<byte>, n: nat): (r: Option<(seq<seq<byte>>, seq<byte>)>)
    ensures r.Some? ==> |r.value.0| == n
  {
    if n == 0 then Some(([], bs)) else
    match TakeBlob(bs)
    case None => None
    case Some((b, more)) =>
      match TakeBlobs(more, n - 1)
      case None => None
      case Some((blobs, rest)) => Some(([b] + blobs, rest))
  }

  // The frame a stream starts with, and what follows it; nothing if the stream ends
  // first or the frame is malformed.
  function Parse(bs: seq<byte>, words: nat): (r: Option<(Frame, seq<byte>)>) {
    match TakeInt(bs, 4)
    case None => None
    case Some((first, afterFirst)) =>
      match TakeInt(afterFirst, 4)
      case None => None
      case Some((nblob, afterHead)) =>
        if nblob > MAX_BLOBS then None else
        match TakeWords(afterHead, words)
        case None => None
        case Some((ws, afterWords)) =>
          match TakeBlobs(afterWords, nblob)
          case None => None
          case Some((blobs, rest)) => Some((Frame(first, ws, blobs), rest))
  }

  // ---- what is written is what is read ----

  lemma {:induction false} WordsRead(ws: seq<nat>, rest: seq<byte>)
    requires forall i :: 0 <= i < |ws| ==> ws[i] < U64
    ensures TakeWords(Words(ws) + rest, |ws|) == Some((ws, rest))
  {
    if ws == [] {
      assert Words(ws) + rest == rest;
    } else {
      Widths();
      TakeWritten(ws[0], 8, Words(ws[1..]) + rest);
      Regrouped(Little(ws[0], 8), Words(ws[1..]), rest);
      WordsRead(ws[1..], rest);
      assert [ws[0]] + ws[1..] == ws;
    }
  }

  lemma BlobRead(b: seq<byte>, rest: seq<byte>)
    requires |b| <= MAX_BLOB_BYTES
    ensures TakeBlob(Little(|b|, 4) + b + rest) == Some((b, rest))
  {
    Widths();
    TakeWritten(|b|, 4, b + rest);
    Regrouped(Little(|b|, 4), b, rest);
    TakeBytesWritten(b, rest);
  }

  lemma {:induction false} BlobsRead(blobs: seq<seq<byte>>, rest: seq<byte>)
    requires forall i :: 0 <= i < |blobs| ==> |blobs[i]| <= MAX_BLOB_BYTES
    ensures TakeBlobs(Blobs(blobs) + rest, |blobs|) == Some((blobs, rest))
  {
    if blobs == [] {
      assert Blobs(blobs) + rest == rest;
    } else {
      var b, more := blobs[0], Blobs(blobs[1..]);
      BlobRead(b, more + rest);
      Regrouped(Little(|b|, 4) + b, more, rest);
      BlobsRead(blobs[1..], rest);
      assert [b] + blobs[1..] == blobs;
    }
  }

  lemma InOrder(a: seq<byte>, b: seq<byte>, c: seq<byte>, d: seq<byte>, e: seq<byte>)
    ensures a + b + c + d + e == a + (b + (c + (d + e)))
  {
    Regrouped(a, b, c);
    Regrouped(a, b + c, d);
    Regrouped(b, c, d);
    Regrouped(a, b + (c + d), e);
    Regrouped(b, c + d, e);
    Regrouped(c, d, e);
  }

  // Whatever follows, a frame within the limits is read back whole and no further.
  lemma EncodedIsParsed(f: Frame, rest: seq<byte>)
    requires f.InLimits(|f.words|)
    ensures Parse(Encode(f) + rest, |f.words|) == Some((f, rest))
  {
    Widths();
    var first, count, words, blobs := Little(f.first, 4), Little(|f.blobs|, 4), Words(f.words), Blobs(f.blobs);
    InOrder(first, count, words, blobs, rest);
    TakeWritten(f.first, 4, count + (words + (blobs + rest)));
    TakeWritten(|f.blobs|, 4, words + (blobs + rest));
    WordsRead(f.words, blobs + rest);
    BlobsRead(f.blobs, rest);
  }

  // ---- what is read is what was written ----

  lemma {:induction false} WordsWritten(bs: seq<byte>, n: nat)
    requires TakeWords(bs, n).Some?
    ensures var (ws, rest) := TakeWords(bs, n).value;
      bs == Words(ws) + rest && forall i :: 0 <= i < n ==> ws[i] < U64
  {
    if n > 0 {
      Widths();
      var (w, more) := TakeInt(bs, 8).value;
      WordsWritten(more, n - 1);
      var (ws, rest) := TakeWords(more, n - 1).value;
      assert ([w] + ws)[1..] == ws;
      Regrouped(Little(w, 8), Words(ws), rest);
    }
  }

  lemma {:induction false} BlobsWritten(bs: seq<byte>, n: nat)
    requires TakeBlobs(bs, n).Some?
    ensures var (blobs, rest) := TakeBlobs(bs, n).value;
      bs == Blobs(blobs) + rest && forall i :: 0 <= i < n ==> |blobs[i]| <= MAX_BLOB_BYTES
  {
    if n > 0 {
      var (len, tail) := TakeInt(bs, 4).value;
      var (b, more) := TakeBlob(bs).value;
      BlobsWritten(more, n - 1);
      var (blobs, rest) := TakeBlobs(more, n - 1).value;
      assert ([b] + blobs)[1..] == blobs;
      Regrouped(Little(len, 4), b, more);
      Regrouped(Little(len, 4) + b, Blobs(blobs), rest);
    }
  }

  lemma ParsedIsEncoded(bs: seq<byte>, words: nat)
    requires Parse(bs, words).Some?
    ensures var (f, rest) := Parse(bs, words).value; f.InLimits(words) && bs == Encode(f) + rest
  {
    Widths();
    var (first, afterFirst) := TakeInt(bs, 4).value;
    var (nblob, afterHead) := TakeInt(afterFirst, 4).value;
    WordsWritten(afterHead, words);
    var (ws, afterWords) := TakeWords(afterHead, words).value;
    BlobsWritten(afterWords, nblob);
    var (blobs, rest) := TakeBlobs(afterWords, nblob).value;
    InOrder(Little(first, 4), Little(nblob, 4), Words(ws), Blobs(blobs), rest);
  }

  // ---- reading field by field ----

  lemma {:induction false} TakeWordsFirst(ws: seq<byte>, n: nat, rest: seq<byte>)
    requires |ws| == 8 * n
    ensures TakeWords(ws, n).Some? && TakeWords(ws + rest, n) == Some((TakeWords(ws, n).value.0, rest))
  {
    if n == 0 {
      assert ws + rest == rest;
    } else {
      TakeIntExtends(ws, 8, rest);
      TakeWordsFirst(ws[8..], n - 1, rest);
    }
  }

  // What a stream parses as once its head and its scalars have been read.
  lemma ParsedByFields(bs: seq<byte>, words: nat, head: seq<byte>, ws: seq<byte>, tail: seq<byte>)
    requires bs == head + (ws + tail) && |head| == 8 && |ws| == 8 * words
    ensures Value(head[..4]) < U32 && TakeWords(ws, words).Some?
    ensures Parse(bs, words) ==
      if Value(head[4..]) > MAX_BLOBS then None else
      match TakeBlobs(tail, Value(head[4..]))
      case None => None
      case Some((blobs, rest)) => Some((Frame(Value(head[..4]), TakeWords(ws, words).value.0, blobs), rest))
  {
    Widths();
    ValueBound(head[..4]);
    var rest := ws + tail;
    assert bs[..4] == head[..4] && bs[4..] == head[4..] + rest;
    assert bs[4..][..4] == head[4..] && bs[4..][4..] == rest;
    TakeWordsFirst(ws, words, tail);
  }

  lemma TooShort(bs: seq<byte>, words: nat)
    requires |bs| < 8 + 8 * words
    ensures Parse(bs, words).None?
  {
  }

  // The blobs got so far, in front of those to come.
  ghost function InFront(got: seq<seq<byte>>, more: Option<(seq<seq<byte>>, seq<byte>)>): Option<(seq<seq<byte>>, seq<byte>)> {
    match more
    case None => None
    case Some((blobs, rest)) => Some((got + blobs, rest))
  }

  lemma NextBlob(got: seq<seq<byte>>, bs: seq<byte>, n: nat, b: seq<byte>, more: seq<byte>)
    requires n > 0 && TakeBlob(bs) == Some((b, more))
    ensures InFront(got, TakeBlobs(bs, n)) == InFront(got + [b], TakeBlobs(more, n - 1))
  {
    var rest := TakeBlobs(more, n - 1);
    if rest.Some? {
      assert got + ([b] + rest.value.0) == got + [b] + rest.value.0;
    }
  }

  lemma NoneBefore(bs: seq<byte>, n: nat)
    ensures InFront([], TakeBlobs(bs, n)) == TakeBlobs(bs, n)
  {
    var r := TakeBlobs(bs, n);
    if r.Some? {
      assert [] + r.value.0 == r.value.0;
    }
  }

  // ---- many frames ----

  function EncodeAll(fs: seq<Frame>): (bs: seq<byte>) {
    if fs == [] then [] else Encode(fs[0]) + EncodeAll(fs[1..])
  }

  ghost predicate AllInLimits(fs: seq<Frame>, words: nat) {
    forall i :: 0 <= i < |fs| ==> fs[i].InLimits(words)
  }

  lemma {:induction false} EncodeAllSplits(a: seq<Frame>, b: seq<Frame>)
    ensures EncodeAll(a + b) == EncodeAll(a) + EncodeAll(b)
  {
    if a == [] {
      assert a + b == b;
    } else {
      assert (a + b)[1..] == a[1..] + b;
      EncodeAllSplits(a[1..], b);
      Regrouped(Encode(a[0]), EncodeAll(a[1..]), EncodeAll(b));
    }
  }

  lemma EncodeOneMore(fs: seq<Frame>, f: Frame)
    ensures EncodeAll(fs + [f]) == EncodeAll(fs) + Encode(f)
  {
    EncodeAllSplits(fs, [f]);
    assert EncodeAll([f][1..]) == [];
    assert Encode(f) + [] == Encode(f);
  }

  // A stream is split into frames in one way only.
  lemma {:induction false} SplitOnce(a: seq<Frame>, b: seq<Frame>, words: nat, restA: seq<byte>, restB: seq<byte>)
    requires |a| == |b| && AllInLimits(a, words) && AllInLimits(b, words)
    requires EncodeAll(a) + restA == EncodeAll(b) + restB
    ensures a == b && restA == restB
  {
    if a == [] {
      assert restA == [] + restA && restB == [] + restB;
    } else {
      var moreA, moreB := EncodeAll(a[1..]), EncodeAll(b[1..]);
      Regrouped(Encode(a[0]), moreA, restA);
      Regrouped(Encode(b[0]), moreB, restB);
      EncodedIsParsed(a[0], moreA + restA);
      EncodedIsParsed(b[0], moreB + restB);
      SplitOnce(a[1..], b[1..], words, restA, restB);
      assert [a[0]] + a[1..] == a && [b[0]] + b[1..] == b;
    }
  }
}
