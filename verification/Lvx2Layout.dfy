/** Where the frames and packages of an lvx2 file lie. */
module Lvx2Layout {
  import opened Bytes
  import opened Lvx2Format
  import opened Lvx2Reader

  const FILE_LIMIT := 0x1_0000_0000_0000_0000

  // ---------------------------------------------------------------------------
  // Where frames and packages lie in the file
  // ---------------------------------------------------------------------------

  /** The file offset of frame `k`; the end of the file for `k == |frames|`. */
  function Offset(start: nat, frames: seq<seq<Package>>, k: nat): (o: nat)
    requires k <= |frames|
  {
    start + |Chain(start, frames[..k])|
  }

  /** The packages of a frame of index `k`, as the reader returns them. */
  function TaggedFrame(k: U64, packages: seq<Package>): (r: seq<LvxPacket>)
    ensures |r| == |packages|
  {
    if packages == [] then []
    else
      var n := |packages| - 1;
      TaggedFrame(k, packages[..n]) + [LvxPacket(k, 0, packages[n])]
  }

  function Tagged(frames: seq<seq<Package>>): (r: seq<LvxPacket>)
    requires |frames| <= FILE_LIMIT
  {
    if frames == [] then []
    else
      var n := |frames| - 1;
      Tagged(frames[..n]) + TaggedFrame(n, frames[n])
  }

  /** The file offsets at which the packages of a frame end, whose body starts at `body`. */
  function FrameEnds(body: nat, packages: seq<Package>): (r: seq<nat>)
    ensures |r| == |packages|
  {
    if packages == [] then []
    else FrameEnds(body, packages[..|packages| - 1]) + [body + |Body(packages)|]
  }

  function Ends(start: nat, frames: seq<seq<Package>>): (r: seq<nat>) {
    if frames == [] then []
    else
      var n := |frames| - 1;
      Ends(start, frames[..n]) + FrameEnds(Offset(start, frames, n) + FRAME_HEADER_SIZE, frames[n])
  }

  lemma OffsetStep(start: nat, frames: seq<seq<Package>>, k: nat)
    requires k < |frames|
    ensures Offset(start, frames, k + 1) == Offset(start, frames, k) + FRAME_HEADER_SIZE + |Body(frames[k])|
    ensures Chain(start, frames[..k + 1])
            == Chain(start, frames[..k]) + FrameBytes(Offset(start, frames, k), k, frames[k])
  {
    hide FrameBytes, Body;
    assert frames[..k + 1][..k] == frames[..k];
  }

  lemma {:induction false} ChainPrefix(start: nat, frames: seq<seq<Package>>, k: nat)
    requires k <= |frames|
    ensures Chain(start, frames[..k]) <= Chain(start, frames)
    decreases |frames| - k
  {
    hide Chain, Body, FrameBytes;
    if k < |frames| {
      OffsetStep(start, frames, k);
      ChainPrefix(start, frames, k + 1);
    } else {
      assert frames[..k] == frames;
    }
  }

  lemma OffsetsIncrease(start: nat, frames: seq<seq<Package>>, j: nat, k: nat)
    requires j <= k <= |frames|
    ensures Offset(start, frames, j) + FRAME_HEADER_SIZE * (k - j) <= Offset(start, frames, k)
    decreases k - j
  {
    hide Offset, Body;
    if j < k {
      OffsetStep(start, frames, j);
      OffsetsIncrease(start, frames, j + 1, k);
    }
  }

  /** The bytes of frame `k` lie at its offset. */
  lemma FrameAt(head: seq<Byte>, frames: seq<seq<Package>>, k: nat)
    requires k < |frames|
    ensures var file := head + Chain(|head|, frames);
            var at := Offset(|head|, frames, k);
            && at + FRAME_HEADER_SIZE + |Body(frames[k])| <= |file|
            && file[at..at + FRAME_HEADER_SIZE] == FrameHead(at, |Body(frames[k])|, k)
            && file[at + FRAME_HEADER_SIZE..at + FRAME_HEADER_SIZE + |Body(frames[k])|] == Body(frames[k])
  {
    hide Chain, Body, FrameHead;
    OffsetStep(|head|, frames, k);
    ChainPrefix(|head|, frames, k + 1);
    var before, bytes := Chain(|head|, frames[..k]), FrameBytes(Offset(|head|, frames, k), k, frames[k]);
    Slices(head, before, FrameHead(Offset(|head|, frames, k), |Body(frames[k])|, k), Body(frames[k]), Chain(|head|,
        frames));
  }

  lemma Slices(a: seq<Byte>, b: seq<Byte>, c: seq<Byte>, d: seq<Byte>, whole: seq<Byte>)
    requires b + (c + d) <= whole
    ensures var i := |a| + |b|;
            && i + |c| + |d| <= |a + whole|
            && (a + whole)[i..i + |c|] == c
            && (a + whole)[i + |c|..i + |c| + |d|] == d
  {
    var w := b + (c + d);
    assert forall x :: 0 <= x < |w| ==> whole[x] == w[x];
    assert forall x :: 0 <= x < |w| ==> (a + whole)[|a| + x] == w[x];
  }

  lemma {:induction false} BodyPrefix(packages: seq<Package>, j: nat)
    requires j <= |packages|
    ensures Body(packages[..j]) <= Body(packages)
    decreases |packages| - j
  {
    hide Body, PackageBytes;
    if j < |packages| {
      BodyStep(packages, j);
      BodyPrefix(packages, j + 1);
    } else {
      assert packages[..j] == packages;
    }
  }

  lemma BodyStep(packages: seq<Package>, j: nat)
    requires j < |packages|
    ensures Body(packages[..j + 1]) == Body(packages[..j]) + PackageBytes(packages[j])
  {
    hide PackageBytes;
    assert packages[..j + 1][..j] == packages[..j];
  }

  /** The bytes of package `j` lie where the packages before it end. */
  lemma PackageAt(packages: seq<Package>, j: nat)
    requires j < |packages|
    ensures var at, p := |Body(packages[..j])|, packages[j];
            && at + PACKAGE_HEADER_SIZE + |p.points| == |Body(packages[..j + 1])| <= |Body(packages)|
            && Body(packages)[at..at + PACKAGE_HEADER_SIZE] == PackageHead(p)
            && Body(packages)[at + PACKAGE_HEADER_SIZE..at + PACKAGE_HEADER_SIZE + |p.points|] == p.points
  {
    hide Body, PackageHead;
    BodyStep(packages, j);
    BodyPrefix(packages, j + 1);
    Slices([], Body(packages[..j]), PackageHead(packages[j]), packages[j].points, Body(packages));
    assert [] + Body(packages) == Body(packages);
  }

  /** Package `j` of frame `k` among all packages. */
  lemma {:induction false} Position(start: nat, frames: seq<seq<Package>>, k: nat, j: nat)
    requires k < |frames| <= FILE_LIMIT && j < |frames[k]|
    ensures var i := |Tagged(frames[..k])| + j;
            && |Tagged(frames)| == |Ends(start, frames)|
            && i < |Tagged(frames)|
            && Tagged(frames)[i] == LvxPacket(k, 0, frames[k][j])
            && Ends(start, frames)[i] == Offset(start, frames, k) + FRAME_HEADER_SIZE + |Body(frames[k][..j + 1])|
    decreases |frames|
  {
    hide Body, Chain, Offset;
    var n := |frames| - 1;
    SameCount(start, frames[..n]);
    if k == n {
      InFrame(n, Offset(start, frames, n) + FRAME_HEADER_SIZE, frames[n], j);
    } else {
      Position(start, frames[..n], k, j);
      assert frames[..n][..k] == frames[..k];
      SameOffset(start, frames, n, k);
    }
  }

  lemma SameOffset(start: nat, frames: seq<seq<Package>>, n: nat, k: nat)
    requires k <= n <= |frames|
    ensures Offset(start, frames[..n], k) == Offset(start, frames, k)
  {
    assert frames[..n][..k] == frames[..k];
  }

  lemma {:induction false} SameCount(start: nat, frames: seq<seq<Package>>)
    requires |frames| <= FILE_LIMIT
    ensures |Tagged(frames)| == |Ends(start, frames)|
  {
    if frames != [] { SameCount(start, frames[..|frames| - 1]); }
  }

  lemma {:induction false} InFrame(k: U64, body: nat, packages: seq<Package>, j: nat)
    requires j < |packages|
    ensures TaggedFrame(k, packages)[j] == LvxPacket(k, 0, packages[j])
    ensures FrameEnds(body, packages)[j] == body + |Body(packages[..j + 1])|
    decreases |packages|
  {
    hide Body;
    var n := |packages| - 1;
    if j < n {
      InFrame(k, body, packages[..n], j);
      assert packages[..n][..j + 1] == packages[..j + 1];
    } else {
      assert packages[..j + 1] == packages;
    }
  }

  /** The number of packages before frame `k + 1`. */
  lemma CountStep(frames: seq<seq<Package>>, k: nat)
    requires k < |frames| <= FILE_LIMIT
    ensures |Tagged(frames[..k + 1])| == |Tagged(frames[..k])| + |frames[k]|
  {
    assert frames[..k + 1][..k] == frames[..k];
  }

  lemma {:induction false} EndsBelow(start: nat, frames: seq<seq<Package>>, x: nat)
    requires x < |Ends(start, frames)|
    ensures Ends(start, frames)[x] <= Offset(start, frames, |frames|)
  {
    hide Body, Chain, Offset;
    var n := |frames| - 1;
    OffsetStep(start, frames, n);
    var before := Ends(start, frames[..n]);
    if x < |before| {
      EndsBelow(start, frames[..n], x);
      SameOffset(start, frames, n, n);
      OffsetsIncrease(start, frames, n, n + 1);
    } else {
      InFrame(0, Offset(start, frames, n) + FRAME_HEADER_SIZE, frames[n], x - |before|);
      BodyPrefix(frames[n], x - |before| + 1);
    }
  }

  lemma {:induction false} EndsIncrease(start: nat, frames: seq<seq<Package>>, x: nat, y: nat)
    requires x < y < |Ends(start, frames)|
    ensures Ends(start, frames)[x] < Ends(start, frames)[y]
  {
    hide Body, Chain, Offset;
    var n := |frames| - 1;
    var before := Ends(start, frames[..n]);
    var body := Offset(start, frames, n) + FRAME_HEADER_SIZE;
    if y < |before| {
      EndsIncrease(start, frames[..n], x, y);
    } else {
      InFrame(0, body, frames[n], y - |before|);
      if x < |before| {
        EndsBelow(start, frames[..n], x);
        SameOffset(start, frames, n, n);
      } else {
        InFrame(0, body, frames[n], x - |before|);
        BodiesIncrease(frames[n], x - |before| + 1, y - |before| + 1);
      }
    }
  }

  lemma BodiesIncrease(packages: seq<Package>, i: nat, j: nat)
    requires i < j <= |packages|
    ensures |Body(packages[..i])| < |Body(packages[..j])|
  {
    hide Body, PackageHead;
    PackageAt(packages[..j], i);
    assert packages[..j][..i] == packages[..i];
    assert packages[..j][..i + 1] == packages[..i + 1];
  }

  /** Whether the cut is where a frame starts or the file ends. */
  ghost predicate OnBoundary(start: nat, frames: seq<seq<Package>>, cut: nat) {
    exists k :: 0 <= k <= |frames| && cut == Offset(start, frames, k)
  }

  lemma InsideIsNoBoundary(start: nat, frames: seq<seq<Package>>, k: nat, cut: nat)
    requires k < |frames| && Offset(start, frames, k) < cut < Offset(start, frames, k + 1)
    ensures !OnBoundary(start, frames, cut)
  {
    hide Offset;
    forall i | 0 <= i <= |frames| ensures cut != Offset(start, frames, i) {
      if i <= k { OffsetsIncrease(start, frames, i, k); } else { OffsetsIncrease(start, frames, k + 1, i); }
    }
  }
}
