/** File contents over cluster chains: what servers/fs/serverstate.cpp writes to and reads from them. */
module FatFiles {
  import opened Arithmetic
  import opened Options
  import opened FatChains
  import opened FatNames
  import opened FatDirectory

  /** The clusters n bytes fill. */
  function ClustersFor(n: nat, bpc: nat): nat
    requires bpc > 0
  {
    (n + bpc - 1) / bpc
  }

  function Max(a: nat, b: nat): nat {
    if a >= b then a else b
  }

  function Min(a: nat, b: nat): nat {
    if a <= b then a else b
  }

  lemma ClustersForIs(n: nat, k: nat, bpc: nat)
    requires bpc > 0 && (if n == 0 then k == 0 else k > 0 && (k - 1) * bpc < n <= k * bpc)
    ensures ClustersFor(n, bpc) == k
  {
    if n == 0 {
      DivUnique(0, bpc - 1, bpc);
    } else {
      DivUnique(k, n + bpc - 1 - k * bpc, bpc);
    }
  }

  lemma ClustersForCovers(n: nat, bpc: nat)
    requires bpc > 0
    ensures n <= ClustersFor(n, bpc) * bpc < n + bpc
  {
  }

  lemma ClustersForMono(m: nat, n: nat, bpc: nat)
    requires bpc > 0 && m <= n
    ensures ClustersFor(m, bpc) <= ClustersFor(n, bpc)
  {
    ClustersForCovers(m, bpc);
    ClustersForCovers(n, bpc);
    if ClustersFor(m, bpc) > ClustersFor(n, bpc) {
      MulMono(ClustersFor(n, bpc) + 1, ClustersFor(m, bpc), bpc);
    }
  }

  /** The clusters of a chain, end to end. */
  function Flatten(clusters: seq<Bytes>, s: Chain): Bytes {
    if s == [] then [] else ClusterAt(clusters, s[0]) + Flatten(clusters, s[1..])
  }

  /** Every cluster of the volume is bpc bytes long. */
  predicate Even(clusters: seq<Bytes>, bpc: nat) {
    bpc > 0 && forall c :: 0 <= c < |clusters| ==> |clusters[c]| == bpc
  }

  predicate OnVolume(clusters: seq<Bytes>, s: Chain) {
    forall i :: 0 <= i < |s| ==> s[i] < |clusters|
  }

  lemma {:induction false} FlattenLength(clusters: seq<Bytes>, s: Chain, bpc: nat)
    requires Even(clusters, bpc) && OnVolume(clusters, s)
    ensures |Flatten(clusters, s)| == |s| * bpc
  {
    if s != [] {
      FlattenLength(clusters, s[1..], bpc);
      assert |s| * bpc == (|s| - 1) * bpc + bpc;
    }
  }

  lemma {:induction false} FlattenAppend(clusters: seq<Bytes>, s: Chain, t: Chain)
    ensures Flatten(clusters, s + t) == Flatten(clusters, s) + Flatten(clusters, t)
  {
    if s == [] {
      assert s + t == t;
    } else {
      assert (s + t)[1..] == s[1..] + t;
      FlattenAppend(clusters, s[1..], t);
    }
  }

  lemma {:induction false} FlattenSame(clusters: seq<Bytes>, clusters': seq<Bytes>, s: Chain)
    requires |clusters'| == |clusters| && forall x :: x in s && x < |clusters| ==> clusters'[x] == clusters[x]
    ensures Flatten(clusters', s) == Flatten(clusters, s)
  {
    if s != [] {
      FlattenSame(clusters, clusters', s[1..]);
    }
  }

  /** The k-th cluster of a chain sits at k cluster sizes. */
  lemma FlattenSplit(clusters: seq<Bytes>, s: Chain, k: nat, bpc: nat)
    requires Even(clusters, bpc) && OnVolume(clusters, s) && k < |s|
    ensures |Flatten(clusters, s[..k])| == k * bpc
    ensures Flatten(clusters, s) == Flatten(clusters, s[..k]) + clusters[s[k]] + Flatten(clusters, s[k + 1..])
  {
    hide Flatten;
    FlattenLength(clusters, s[..k], bpc);
    FlattenAppend(clusters, s[..k], s[k..]);
    FlattenFirst(clusters, s[k..]);
    assert s == s[..k] + s[k..] && s[k..][1..] == s[k + 1..];
  }

  lemma FlattenFirst(clusters: seq<Bytes>, s: Chain)
    requires s != []
    ensures Flatten(clusters, s) == ClusterAt(clusters, s[0]) + Flatten(clusters, s[1..])
  {
  }

  lemma FlattenAt(clusters: seq<Bytes>, s: Chain, k: nat, i: nat, bpc: nat)
    requires Even(clusters, bpc) && OnVolume(clusters, s) && k < |s| && i < bpc
    ensures k * bpc + i < |Flatten(clusters, s)| && Flatten(clusters, s)[k * bpc + i] == clusters[s[k]][i]
  {
    FlattenSplit(clusters, s, k, bpc);
  }

  /** data laid over buf from off on. */
  function Splice(buf: Bytes, off: nat, data: Bytes): (r: Bytes)
    requires off + |data| <= |buf|
    ensures |r| == |buf|
  {
    buf[..off] + data + buf[off + |data|..]
  }

  ghost predicate Distinct(s: Chain) {
    forall i, j :: 0 <= i < j < |s| ==> s[i] != s[j]
  }

  /** Laying data over one cluster lays it over the contents. */
  lemma FlattenSplice(clusters: seq<Bytes>, s: Chain, k: nat, off: nat, data: Bytes, bpc: nat)
    requires Even(clusters, bpc) && OnVolume(clusters, s) && Distinct(s) && k < |s| && off + |data| <= bpc
    ensures var clusters' := clusters[s[k] := Splice(clusters[s[k]], off, data)];
            && Even(clusters', bpc) && k * bpc + off + |data| <= |Flatten(clusters, s)|
            && Flatten(clusters', s) == Splice(Flatten(clusters, s), k * bpc + off, data)
  {
    hide Splice;
    var clusters' := clusters[s[k] := Splice(clusters[s[k]], off, data)];
    FlattenSplit(clusters, s, k, bpc);
    FlattenSplit(clusters', s, k, bpc);
    FlattenSame(clusters, clusters', s[..k]);
    FlattenSame(clusters, clusters', s[k + 1..]);
    SpliceMiddle(Flatten(clusters, s[..k]), clusters[s[k]], Flatten(clusters, s[k + 1..]), off, data);
  }

  lemma SpliceMiddle(a: Bytes, b: Bytes, c: Bytes, off: nat, data: Bytes)
    requires off + |data| <= |b|
    ensures a + Splice(b, off, data) + c == Splice(a + b + c, |a| + off, data)
  {
  }

  lemma SpliceTwice(buf: Bytes, off: nat, d1: Bytes, d2: Bytes)
    requires off + |d1| + |d2| <= |buf|
    ensures Splice(Splice(buf, off, d1), off + |d1|, d2) == Splice(buf, off, d1 + d2)
  {
  }

  /** The bytes of one write message that reach the file: those that were sent and, when they do not
      fit in the cluster the offset falls in, as many more of what follows them in the message as
      had fitted. */
  function Copied(offset: nat, len: nat, bpc: nat): (r: nat)
    requires bpc > 0
    ensures len <= r <= 2 * len
  {
    if offset % bpc + len <= bpc then len else bpc - offset % bpc + len
  }

  /** Up to its end a written chunk is in place, whatever else was overwritten. */
  lemma ChunkInPlace(flat: Bytes, offset: nat, len: nat, message: Bytes, bpc: nat)
    requires bpc > 0 && Copied(offset, len, bpc) <= |message| && offset + Copied(offset, len, bpc) <= |flat|
    ensures Splice(flat, offset, message[..Copied(offset, len, bpc)])[..offset + len] == flat[..offset] + message[..len]
  {
  }

  /** Nothing behind a chunk is overwritten, for every message and file, exactly when the chunk stays
      inside one cluster. */
  lemma ChunkExact(offset: nat, len: nat, size: nat, bpc: nat)
    requires bpc > 0 && 0 < len && offset + Copied(offset, len, bpc) <= size
    ensures offset % bpc + len <= bpc <==>
            forall flat: Bytes, message: Bytes :: |flat| == size && |message| == Copied(offset, len, bpc) ==>
              Splice(flat, offset, message)[offset + len..] == flat[offset + len..]
  {
    if offset % bpc + len > bpc {
      var flat: Bytes := seq(size, _ => 0);
      var message: Bytes := seq(Copied(offset, len, bpc), _ => 1);
      assert Splice(flat, offset, message)[offset + len..][0] == 1;
      assert flat[offset + len..][0] == 0;
    }
  }

  /** The bytes a read streams back from the positions before total: from the offset on, except that
      in the cluster the offset falls in the bytes come from the start of the cluster. */
  function Streamed(flat: Bytes, offset: nat, total: nat, bpc: nat): (r: Bytes)
    requires bpc > 0 && total <= |flat|
    ensures |r| == if total <= offset then 0 else total - offset
  {
    if total <= offset then [] else Streamed(flat, offset, total - 1, bpc) + [flat[Source(offset, total - 1, bpc)]]
  }

  /** Where the byte for position at >= offset is taken from. */
  function Source(offset: nat, at: nat, bpc: nat): (r: nat)
    requires bpc > 0 && offset <= at
    ensures r <= at
  {
    var start := at / bpc * bpc;
    if start < offset then start + (at - offset) else at
  }

  /** How far a read gets. */
  function ReadEnd(length: nat, size: nat, offset: nat, count: nat): nat {
    Min(Min(size, length), offset + count)
  }

  lemma {:induction false} StreamedExact(flat: Bytes, offset: nat, total: nat, bpc: nat)
    requires bpc > 0 && offset <= total <= |flat| && offset % bpc == 0
    ensures Streamed(flat, offset, total, bpc) == flat[offset..total]
    decreases total
  {
    hide Source;
    if offset < total {
      StreamedExact(flat, offset, total - 1, bpc);
      SourceAligned(offset, total - 1, bpc);
      assert flat[offset..total] == flat[offset..total - 1] + [flat[total - 1]];
    }
  }

  lemma SourceAligned(offset: nat, at: nat, bpc: nat)
    requires bpc > 0 && offset <= at && offset % bpc == 0
    ensures Source(offset, at, bpc) == at
  {
    var m, q := offset / bpc, at / bpc;
    DivMod(offset, bpc);
    DivMod(at, bpc);
    assert (q + 1) * bpc == q * bpc + bpc;
    if q < m {
      MulMono(q + 1, m, bpc);
    } else {
      MulMono(m, q, bpc);
    }
  }

  /** A read streams back the bytes from its offset on, for every content, exactly when the offset is
      a multiple of the cluster size or there is nothing to stream. */
  lemma ReadExact(length: nat, offset: nat, total: nat, bpc: nat)
    requires bpc > 0 && total <= length
    ensures offset % bpc == 0 || total <= offset <==>
            forall flat: Bytes :: |flat| == length ==>
              Streamed(flat, offset, total, bpc) == if total <= offset then [] else flat[offset..total]
  {
    hide Source, Streamed;
    if offset % bpc == 0 && offset < total {
      forall flat: Bytes | |flat| == length
        ensures Streamed(flat, offset, total, bpc) == flat[offset..total]
      {
        StreamedExact(flat, offset, total, bpc);
      }
    }
    if offset % bpc != 0 && offset < total {
      SourceShort(offset, bpc);
      var k := Source(offset, offset, bpc);
      var flat: Bytes := seq(length, i => if i == k then 1 else 0);
      StreamedFirst(flat, offset, total, bpc);
      assert Streamed(flat, offset, total, bpc)[0] == 1;
      assert flat[offset..total][0] == 0;
    }
  }

  lemma SourceShort(offset: nat, bpc: nat)
    requires bpc > 0 && offset % bpc != 0
    ensures Source(offset, offset, bpc) < offset
  {
  }

  lemma {:induction false} StreamedFirst(flat: Bytes, offset: nat, total: nat, bpc: nat)
    requires bpc > 0 && offset < total <= |flat|
    ensures Streamed(flat, offset, total, bpc)[0] == flat[Source(offset, offset, bpc)]
    decreases total
  {
    hide Source;
    if total == offset + 1 {
      assert Streamed(flat, offset, offset, bpc) == [];
    } else {
      StreamedFirst(flat, offset, total - 1, bpc);
    }
  }

  /** The messages a stream of bytes goes out in: 16 bytes each, and the rest. */
  ghost predicate InMessages(messages: seq<Bytes>, stream: Bytes) {
    && Joined(messages) == stream
    && (forall i :: 0 <= i < |messages| ==> 0 < |messages[i]| <= 16)
    && (forall i :: 0 <= i < |messages| - 1 ==> |messages[i]| == 16)
  }

  function Joined(messages: seq<Bytes>): Bytes {
    if messages == [] then [] else Joined(messages[..|messages| - 1]) + messages[|messages| - 1]
  }

  lemma JoinedMore(messages: seq<Bytes>, m: Bytes)
    ensures Joined(messages + [m]) == Joined(messages) + m
  {
    assert (messages + [m])[..|messages|] == messages;
  }

  lemma ImageFits(k: nat, size: nat, bpc: nat)
    requires bpc > 0
    ensures size % bpc < bpc && (k <= size / bpc ==> k * bpc <= size)
  {
    DivMod(size, bpc);
    if k <= size / bpc {
      MulMono(k, size / bpc, bpc);
    }
  }

  /** A task's buffer of size bytes after the image copy: the whole clusters the size covers, and then
      the head of the last cluster of the chain, whichever that is. Where the chain is too short the
      buffer keeps what it held. */
  function CopiedImage(clusters: seq<Bytes>, s: Chain, size: nat, bpc: nat, was: Bytes): Bytes
    requires bpc > 0 && |was| == size && Even(clusters, bpc) && OnVolume(clusters, s)
  {
    ImageFits(|s|, size, bpc);
    var full := size / bpc;
    if |s| <= full then
      Flatten(clusters, s) + was[|s| * bpc..]
    else
      Flatten(clusters, s[..full]) + clusters[s[|s| - 1]][..size % bpc]
  }

  /** The image arrives whole, whatever the clusters and the buffer held, exactly when the chain has
      enough clusters for the size, and no more than that if the last of them is used in part. */
  lemma ImageExact(n: nat, s: Chain, size: nat, bpc: nat)
    requires bpc > 0 && Distinct(s) && forall i :: 0 <= i < |s| ==> s[i] < n
    ensures |s| == ClustersFor(size, bpc) || (|s| > ClustersFor(size, bpc) && size % bpc == 0) <==>
            forall clusters, was: Bytes :: Even(clusters, bpc) && |clusters| == n && |was| == size ==>
              size <= |Flatten(clusters, s)| && CopiedImage(clusters, s, size, bpc, was) == Flatten(clusters, s)[..size]
  {
    hide CopiedImage, Flatten, Even;
    DivMod(size, bpc);
    ClustersForIs(size, size / bpc + if size % bpc == 0 then 0 else 1, bpc);
    if |s| == ClustersFor(size, bpc) || (|s| > ClustersFor(size, bpc) && size % bpc == 0) {
      forall clusters, was: Bytes | Even(clusters, bpc) && |clusters| == n && |was| == size
        ensures size <= |Flatten(clusters, s)| && CopiedImage(clusters, s, size, bpc, was) == Flatten(clusters, s)[..size]
      {
        ImageWhole(clusters, s, size, bpc, was);
      }
    } else {
      var clusters := LastClusterMarked(n, s, bpc);
      assert Even(clusters, bpc) && |clusters| == n;
      var was: Bytes := seq(size, _ => 0);
      ImageBroken(clusters, s, size, bpc, was);
    }
  }

  /** A volume of zeros with ones in the last cluster of a chain. */
  function LastClusterMarked(n: nat, s: Chain, bpc: nat): (clusters: seq<Bytes>)
    requires bpc > 0 && (s != [] ==> s[|s| - 1] < n)
    ensures Even(clusters, bpc) && |clusters| == n
    ensures forall c :: 0 <= c < n ==> clusters[c] == if s != [] && c == s[|s| - 1] then Ones(bpc) else Zeros(bpc)
  {
    var blank := seq(n, _ => Zeros(bpc));
    if s == [] then blank else blank[s[|s| - 1] := Ones(bpc)]
  }

  function Ones(n: nat): (s: Bytes)
    ensures |s| == n && forall i :: 0 <= i < n ==> s[i] == 1
  {
    seq(n, _ => 1)
  }

  lemma ImageWhole(clusters: seq<Bytes>, s: Chain, size: nat, bpc: nat, was: Bytes)
    requires Even(clusters, bpc) && OnVolume(clusters, s) && |was| == size
    requires |s| == ClustersFor(size, bpc) || (|s| > ClustersFor(size, bpc) && size % bpc == 0)
    ensures size <= |Flatten(clusters, s)| && CopiedImage(clusters, s, size, bpc, was) == Flatten(clusters, s)[..size]
  {
    hide Flatten, ClustersFor, CopiedImage, OnVolume;
    DivMod(size, bpc);
    var full := size / bpc;
    ClustersForIs(size, full + if size % bpc == 0 then 0 else 1, bpc);
    FlattenLength(clusters, s, bpc);
    MulMono(full, |s|, bpc);
    if |s| == full {
      ImageInWhole(clusters, s, size, bpc, was, full);
    } else {
      ImageInPart(clusters, s, size, bpc, was, full, size % bpc);
    }
  }

  lemma ImageInWhole(clusters: seq<Bytes>, s: Chain, size: nat, bpc: nat, was: Bytes, full: nat)
    requires Even(clusters, bpc) && OnVolume(clusters, s) && |was| == size
    requires full == size / bpc && |s| == full && full * bpc == size && |Flatten(clusters, s)| == size
    ensures CopiedImage(clusters, s, size, bpc, was) == Flatten(clusters, s)[..size]
  {
    hide Flatten, Even, OnVolume;
    assert was[|s| * bpc..] == [];
  }

  lemma ImageInPart(clusters: seq<Bytes>, s: Chain, size: nat, bpc: nat, was: Bytes, full: nat, rest: nat)
    requires Even(clusters, bpc) && OnVolume(clusters, s) && |was| == size
    requires full == size / bpc && rest == size % bpc && rest < bpc && full * bpc + rest == size && full < |s|
    requires rest == 0 || |s| == full + 1
    ensures size <= |Flatten(clusters, s)| && CopiedImage(clusters, s, size, bpc, was) == Flatten(clusters, s)[..size]
  {
    hide Flatten;
    FlattenSplit(clusters, s, full, bpc);
    ImagePrefix(Flatten(clusters, s[..full]), clusters[s[full]], Flatten(clusters, s[full + 1..]), rest);
  }

  lemma ImagePrefix(a: Bytes, b: Bytes, c: Bytes, n: nat)
    requires n <= |b|
    ensures (a + b + c)[..|a| + n] == a + b[..n] && (n == 0 ==> a + b[..n] == a)
  {
  }

  lemma ImageBroken(clusters: seq<Bytes>, s: Chain, size: nat, bpc: nat, was: Bytes)
    requires bpc > 0 && Even(clusters, bpc) && OnVolume(clusters, s) && |was| == size && Distinct(s)
    requires s != [] ==> s[|s| - 1] < |clusters|
    requires clusters == LastClusterMarked(|clusters|, s, bpc)
    requires |s| != ClustersFor(size, bpc) && (|s| > ClustersFor(size, bpc) ==> size % bpc != 0)
    ensures size <= |Flatten(clusters, s)| ==> CopiedImage(clusters, s, size, bpc, was) != Flatten(clusters, s)[..size]
  {
    hide Flatten, ClustersFor, CopiedImage, LastClusterMarked, Even, OnVolume, Distinct;
    DivMod(size, bpc);
    var full := size / bpc;
    var at := full * bpc;
    ClustersForIs(size, full + if size % bpc == 0 then 0 else 1, bpc);
    FlattenLength(clusters, s, bpc);
    if |s| < ClustersFor(size, bpc) {
      ShortChain(|s|, size, bpc);
    } else {
      FlattenAt(clusters, s, full, 0, bpc);
      ImageOverrun(clusters, s, size, bpc, was, full, at);
      Differ(CopiedImage(clusters, s, size, bpc, was), Flatten(clusters, s), size, at);
    }
  }

  lemma Differ(a: Bytes, b: Bytes, size: nat, at: nat)
    requires at < |a| && at < |b| && at < size && a[at] != b[at]
    ensures size <= |b| ==> a != b[..size]
  {
  }

  lemma ShortChain(k: nat, size: nat, bpc: nat)
    requires bpc > 0 && k < ClustersFor(size, bpc)
    ensures k * bpc < size
  {
    hide ClustersFor;
    ClustersForCovers(size, bpc);
    MulMono(k + 1, ClustersFor(size, bpc), bpc);
    assert (k + 1) * bpc == k * bpc + bpc;
  }

  lemma ImageOverrun(clusters: seq<Bytes>, s: Chain, size: nat, bpc: nat, was: Bytes, full: nat, at: nat)
    requires bpc > 0 && Even(clusters, bpc) && OnVolume(clusters, s) && |was| == size && Distinct(s)
    requires |s| > full + 1 && full == size / bpc && at == full * bpc && at < size && size % bpc != 0
    requires clusters == LastClusterMarked(|clusters|, s, bpc)
    ensures at < |CopiedImage(clusters, s, size, bpc, was)| && CopiedImage(clusters, s, size, bpc, was)[at] == 1
    ensures clusters[s[full]][0] == 0
  {
    hide Flatten, LastClusterMarked;
    FlattenLength(clusters, s[..full], bpc);
  }

  /** The buffer once the first k clusters were copied. */
  ghost predicate ImageAfter(clusters: seq<Bytes>, s: Chain, size: nat, bpc: nat, was: Bytes, k: nat, offset: nat, now: Bytes) {
    && bpc > 0 && |was| == size == |now| && Even(clusters, bpc) && OnVolume(clusters, s) && k <= |s|
    && offset == Min(k, size / bpc) * bpc
    && now == CopiedImage(clusters, s[..k], size, bpc, was)
  }

  lemma ImageStart(clusters: seq<Bytes>, s: Chain, size: nat, bpc: nat, was: Bytes)
    requires bpc > 0 && |was| == size && Even(clusters, bpc) && OnVolume(clusters, s)
    ensures ImageAfter(clusters, s, size, bpc, was, 0, 0, was)
  {
    hide Even;
    assert s[..0] == [];
    assert Flatten(clusters, []) == [];
  }

  lemma ImageNext(clusters: seq<Bytes>, s: Chain, size: nat, bpc: nat, was: Bytes, k: nat, offset: nat, now: Bytes)
    requires ImageAfter(clusters, s, size, bpc, was, k, offset, now) && k < |s| && s[k] < |clusters| && offset <= size
    requires |clusters[s[k]]| == bpc
    ensures var n := if size - offset >= bpc then bpc else size - offset;
            ImageAfter(clusters, s, size, bpc, was, k + 1, if size - offset >= bpc then offset + bpc else offset,
                       Splice(now, offset, clusters[s[k]][..n]))
  {
    hide Even, Flatten, CopiedImage, Splice, OnVolume;
    ClustersLeft(size, k, bpc);
    assert OnVolume(clusters, s[..k + 1]) && OnVolume(clusters, s[..k]) by {
      PrefixOnVolume(clusters, s, k + 1);
      PrefixOnVolume(clusters, s, k);
    }
    if k < size / bpc {
      WholeCluster(clusters, s, size, bpc, was, k, offset, now);
    } else {
      LastBytes(clusters, s, size, bpc, was, k, offset, size - offset, now);
    }
  }

  lemma PrefixOnVolume(clusters: seq<Bytes>, s: Chain, k: nat)
    requires OnVolume(clusters, s) && k <= |s|
    ensures OnVolume(clusters, s[..k])
  {
  }

  lemma ClustersLeft(size: nat, k: nat, bpc: nat)
    requires bpc > 0
    ensures var offset := Min(k, size / bpc) * bpc;
            && offset <= size && (size - offset >= bpc <==> k < size / bpc)
            && (k < size / bpc ==> offset + bpc == (k + 1) * bpc == Min(k + 1, size / bpc) * bpc)
            && (k >= size / bpc ==> offset == Min(k + 1, size / bpc) * bpc && size - offset == size % bpc)
  {
    DivMod(size, bpc);
    MulNext(k, bpc);
    if k < size / bpc {
      MulMono(k + 1, size / bpc, bpc);
    }
  }

  /** A cluster that the file fills. */
  lemma WholeCluster(clusters: seq<Bytes>, s: Chain, size: nat, bpc: nat, was: Bytes, k: nat, offset: nat, now: Bytes)
    requires bpc > 0 && |was| == size == |now| && Even(clusters, bpc) && k < |s|
    requires OnVolume(clusters, s[..k]) && OnVolume(clusters, s[..k + 1]) && s[k] < |clusters| && |clusters[s[k]]| == bpc
    requires k < size / bpc && offset == k * bpc && (k + 1) * bpc == offset + bpc <= size
    requires now == CopiedImage(clusters, s[..k], size, bpc, was)
    ensures CopiedImage(clusters, s[..k + 1], size, bpc, was) == Splice(now, offset, clusters[s[k]][..bpc])
  {
    hide Even, Flatten, OnVolume;
    assert s[..k + 1] == s[..k] + [s[k]];
    FlattenLength(clusters, s[..k], bpc);
    FlattenAppend(clusters, s[..k], [s[k]]);
    FlattenOne(clusters, s[k]);
  }

  /** The part of a cluster that the file does not fill, over the same part of the cluster before if that
      was one too. */
  lemma LastBytes(clusters: seq<Bytes>, s: Chain, size: nat, bpc: nat, was: Bytes, k: nat, offset: nat, rest: nat, now: Bytes)
    requires bpc > 0 && |was| == size == |now| && Even(clusters, bpc) && k < |s|
    requires OnVolume(clusters, s[..k]) && OnVolume(clusters, s[..k + 1]) && s[k] < |clusters| && |clusters[s[k]]| == bpc
    requires k >= size / bpc && offset == size / bpc * bpc && offset + rest == size && rest == size % bpc < bpc
    requires now == CopiedImage(clusters, s[..k], size, bpc, was)
    ensures CopiedImage(clusters, s[..k + 1], size, bpc, was) == Splice(now, offset, clusters[s[k]][..rest])
  {
    hide Even, Flatten, OnVolume;
    var full := size / bpc;
    assert s[..k + 1][..full] == s[..full] == s[..k][..full];
    PrefixOnVolume(clusters, s[..k], full);
    FlattenLength(clusters, s[..full], bpc);
    assert k == full ==> s[..k] == s[..full];
  }

  lemma FlattenOne(clusters: seq<Bytes>, c: nat)
    ensures Flatten(clusters, [c]) == ClusterAt(clusters, c)
  {
  }

  lemma ImageEnd(clusters: seq<Bytes>, s: Chain, size: nat, bpc: nat, was: Bytes, offset: nat, now: Bytes)
    requires ImageAfter(clusters, s, size, bpc, was, |s|, offset, now)
    ensures Even(clusters, bpc) && now == CopiedImage(clusters, s, size, bpc, was)
  {
    hide Even, CopiedImage;
    assert s[..|s|] == s;
  }

  /** The image depends on the clusters of the chain alone. */
  lemma ImageSame(clusters: seq<Bytes>, clusters': seq<Bytes>, s: Chain, size: nat, bpc: nat, was: Bytes)
    requires bpc > 0 && |was| == size && Even(clusters, bpc) && OnVolume(clusters, s) && Even(clusters', bpc) && OnVolume(clusters', s)
    requires forall i :: 0 <= i < |s| ==> clusters'[s[i]] == clusters[s[i]]
    ensures CopiedImage(clusters', s, size, bpc, was) == CopiedImage(clusters, s, size, bpc, was)
  {
    hide Flatten, Even;
    FlattenAlike(clusters, clusters', s);
    if |s| > size / bpc {
      FlattenAlike(clusters, clusters', s[..size / bpc]);
    }
  }

  lemma {:induction false} FlattenAlike(clusters: seq<Bytes>, clusters': seq<Bytes>, s: Chain)
    requires OnVolume(clusters, s) && OnVolume(clusters', s) && forall i :: 0 <= i < |s| ==> clusters'[s[i]] == clusters[s[i]]
    ensures Flatten(clusters', s) == Flatten(clusters, s)
  {
    if s != [] {
      FlattenAlike(clusters, clusters', s[1..]);
    }
  }

  lemma ImageLength(clusters: seq<Bytes>, s: Chain, size: nat, bpc: nat, was: Bytes)
    requires bpc > 0 && |was| == size && Even(clusters, bpc) && OnVolume(clusters, s)
    ensures |CopiedImage(clusters, s, size, bpc, was)| == size
  {
    hide Flatten;
    var full := size / bpc;
    DivMod(size, bpc);
    if |s| <= full {
      FlattenLength(clusters, s, bpc);
      MulMono(|s|, full, bpc);
    } else {
      FlattenLength(clusters, s[..full], bpc);
    }
  }
}
