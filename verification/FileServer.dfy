/** servers/fs/serverstate.cpp: the read, write and image-copy handlers of the file server, and the
    runs of messages that servers/am/filedescriptor.cpp and libs/kinos/common/newlib_support.c send
    to it for one read() or write() of an application. */
module FileServer {
  import opened Arithmetic
  import opened Options
  import opened FatChains
  import opened FatNames
  import opened FatDirectory
  import opened FatFiles
  import opened FileSystem

  /** The path leads to the directory entry at p of a file with cluster chain s, [] while it has no
      first cluster. Directories and the file share no cluster. */
  ghost predicate FileAt(fat: seq<nat>, t: Tree, path: Bytes, p: Place, s: Chain) {
    && DirChains(fat, t.dirs) && t.Closed()
    && t.Lookup(path, 0) == Some(p) && t.At(p).Some? && IsFile(fat, t.At(p).value, s)
    && Apart(t.dirs, s)
  }

  ghost predicate IsFile(fat: seq<nat>, e: Slot, s: Chain) {
    && Attr(e) != ATTR_DIRECTORY
    && if FirstCluster(e) == 0 then s == [] else IsChain(fat, s) && s[0] == FirstCluster(e)
  }

  ghost predicate Apart(dirs: map<nat, Chain>, s: Chain) {
    forall d, x :: d in dirs && x in dirs[d] ==> x !in s
  }

  /** What writing to a file may change: its chain grew, its clusters hold anything, its directory
      entry is e', and everything else is as it was. */
  ghost predicate Wrote(fat: seq<nat>, t: Tree, p: Place, s: Chain, fat': seq<nat>, t': Tree, s': Chain, e': Slot) {
    && Grown(fat, s, fat', s')
    && t'.dirs == t.dirs && t'.root == t.root && |t'.clusters| == |t.clusters|
    && (forall c :: 0 <= c < |t.clusters| && c !in s' && c != p.cluster ==> t'.clusters[c] == t.clusters[c])
    && p.cluster < |t.clusters| && ENTRY_SIZE * p.index + ENTRY_SIZE <= |t.clusters[p.cluster]|
    && t'.clusters[p.cluster] == PutSlot(t.clusters[p.cluster], p.index, e')
  }

  lemma WroteTrans(fat: seq<nat>, t: Tree, p: Place, s: Chain, fat1: seq<nat>, t1: Tree, s1: Chain, e1: Slot,
                   fat2: seq<nat>, t2: Tree, s2: Chain, e2: Slot)
    requires Wrote(fat, t, p, s, fat1, t1, s1, e1) && Wrote(fat1, t1, p, s1, fat2, t2, s2, e2)
    ensures Wrote(fat, t, p, s, fat2, t2, s2, e2)
  {
    hide Grown, PutSlot;
    GrownTrans(fat, s, fat1, s1, fat2, s2);
    GrownNew(fat1, s1, fat2, s2);
    forall c | c in s1
      ensures c in s2
    {
      assert c in s2[..|s1|];
    }
    PutTwice(t.clusters[p.cluster], p.index, e1, e2);
  }

  /** A lookup ends in some directory. */
  lemma {:induction false} LookupInDirs(t: Tree, path: Bytes, dir: nat, p: Place) returns (d: nat)
    requires t.Closed() && t.Lookup(path, dir) == Some(p) && (dir == 0 || dir in t.dirs)
    ensures d in t.dirs && p.cluster in t.dirs[d]
    decreases |path|
  {
    hide Scan, FindIn, Name83, FirstCluster, Attr, Tree.Closed;
    RootIsDirectory(t);
    var start := if path != [] && path[0] == SLASH then t.root else if dir == 0 then t.root else dir;
    var rest := if path != [] && path[0] == SLASH then path[1..] else path;
    var k := FirstSlash(rest);
    var q := t.InDir(start, Name83(rest[..k])).value;
    if k + 1 < |rest| && t.At(q).Some? && Attr(t.At(q).value) == ATTR_DIRECTORY {
      FoundLeadsOn(t, start, Name83(rest[..k]), q);
      d := LookupInDirs(t, rest[k + 1..], FirstCluster(t.At(q).value), p);
    } else {
      d := start;
      var at := FoundOnChain(t.clusters, t.dirs[start], 0, Name83(rest[..k]), p);
    }
  }

  /** What a lookup uses of an entry: whether it is a directory's, and then where that is. */
  ghost predicate SameRole(a: Option<Slot>, b: Option<Slot>) {
    && a.Some? == b.Some?
    && (a.Some? ==> Attr(a.value) == Attr(b.value))
    && (a.Some? && Attr(a.value) == ATTR_DIRECTORY ==> FirstCluster(a.value) == FirstCluster(b.value))
  }

  ghost predicate SameDirectories(t: Tree, t': Tree) {
    && t'.dirs == t.dirs && t'.root == t.root
    && (forall d, name83 :: d in t.dirs ==> t'.InDir(d, name83) == t.InDir(d, name83))
    && (forall d, q: Place :: d in t.dirs && q.cluster in t.dirs[d] ==> SameRole(t.At(q), t'.At(q)))
  }

  lemma {:induction false} LookupSame(t: Tree, t': Tree, path: Bytes, dir: nat)
    requires t.Closed() && (dir == 0 || dir in t.dirs) && SameDirectories(t, t')
    ensures t'.Lookup(path, dir) == t.Lookup(path, dir)
    decreases |path|
  {
    hide Scan, FindIn, Name83, FirstCluster, Attr, Tree.Closed, Tree.InDir, Tree.At, Tree.Lookup, FirstSlash, Relative;
    RootIsDirectory(t);
    LookupStep(t, path, dir);
    LookupStep(t', path, dir);
    var start, rest := Start(t, path, dir), Relative(path);
    var k := FirstSlash(rest);
    var found := t.InDir(start, Name83(rest[..k]));
    if found.Some? {
      var q := found.value;
      InDirOnChain(t, start, Name83(rest[..k]), q);
      if k + 1 < |rest| && t.At(q).Some? && Attr(t.At(q).value) == ATTR_DIRECTORY {
        InDirLeadsOn(t, start, Name83(rest[..k]), q);
        LookupSame(t, t', rest[k + 1..], FirstCluster(t.At(q).value));
      }
    }
  }

  lemma InDirOnChain(t: Tree, d: nat, name83: Bytes, q: Place)
    requires d in t.dirs && t.InDir(d, name83) == Some(q)
    ensures q.cluster in t.dirs[d]
  {
    hide Scan, FindIn;
    var at := FoundOnChain(t.clusters, t.dirs[d], 0, name83, q);
  }

  lemma InDirLeadsOn(t: Tree, d: nat, name83: Bytes, q: Place)
    requires t.Closed() && d in t.dirs && t.InDir(d, name83) == Some(q)
    requires t.At(q).Some? && Attr(t.At(q).value) == ATTR_DIRECTORY
    ensures FirstCluster(t.At(q).value) == 0 || FirstCluster(t.At(q).value) in t.dirs
  {
    hide Scan, FindIn;
    FoundLeadsOn(t, d, name83, q);
  }

  lemma {:induction false} FindAgree(clusters: seq<Bytes>, clusters': seq<Bytes>, s: Chain, k: nat, name83: Bytes)
    requires forall x :: x in s ==> ClusterAt(clusters', x) == ClusterAt(clusters, x)
    ensures FindIn(clusters', s, k, name83) == FindIn(clusters, s, k, name83)
    decreases |s| - k
  {
    hide Scan, ClusterAt;
    if k < |s| {
      FindAgree(clusters, clusters', s, k + 1, name83);
    }
  }

  lemma AtAgree(t: Tree, clusters': seq<Bytes>, q: Place)
    requires ClusterAt(clusters', q.cluster) == ClusterAt(t.clusters, q.cluster)
    ensures t.(clusters := clusters').At(q) == t.At(q)
  {
  }

  /** The directory side of a volume once a file was written to. */
  lemma WroteKeepsDirectories(fat: seq<nat>, t: Tree, path: Bytes, p: Place, s: Chain, fat': seq<nat>, t': Tree, s': Chain, e': Slot)
    requires FileAt(fat, t, path, p, s) && Wrote(fat, t, p, s, fat', t', s', e')
    requires Name(e') == Name(t.At(p).value) && Attr(e') == Attr(t.At(p).value)
    ensures DirChains(fat', t.dirs) && t'.Closed() && Apart(t.dirs, s') && p.cluster !in s'
    ensures forall q :: t'.Lookup(q, 0) == t.Lookup(q, 0)
    ensures forall d, x, i: nat :: d in t.dirs && x in t.dirs[d] ==>
      t'.At(Place(x, i)) == if Place(x, i) == p then Some(e') else t.At(Place(x, i))
  {
    hide Grown, IsChain, PutSlot, Tree.Lookup, FindIn, Name, Attr, FirstCluster, Tree.At, ClusterAt, Tree.Closed, DirChains, Tree.InDir;
    DirsGrown(fat, t.dirs, s, fat', s');
    var d := LookupInDirs(t, path, 0, p);
    var mid := t.clusters[p.cluster := PutSlot(t.clusters[p.cluster], p.index, e')];
    EntryOf(t, p);
    forall x, dd | dd in t.dirs && x in t.dirs[dd]
      ensures ClusterAt(t'.clusters, x) == ClusterAt(mid, x)
    {
      ClusterKept(t'.clusters, mid, x);
    }
    var tm := t.(clusters := mid);
    forall q: Place
      ensures tm.At(q) == if q == p then Some(e') else t.At(q)
    {
      AtAfterPut(t, mid, p, e', q);
    }
    ClosedKept(t, tm, p, e');
    forall dd, x, i: nat | dd in t.dirs && x in t.dirs[dd]
      ensures t'.At(Place(x, i)) == tm.At(Place(x, i))
    {
      AtAgree(tm, t'.clusters, Place(x, i));
    }
    ClosedAgree(tm, t');
    forall dd, name83 | dd in t.dirs
      ensures t'.InDir(dd, name83) == t.InDir(dd, name83)
    {
      InDirSame(t, mid, t', p, e', dd, name83);
    }
    assert SameDirectories(t, t') by {
      forall dd, q: Place | dd in t.dirs && q.cluster in t.dirs[dd]
        ensures SameRole(t.At(q), t'.At(q))
      {
        assert t'.At(Place(q.cluster, q.index)) == tm.At(Place(q.cluster, q.index));
      }
    }
    forall q
      ensures t'.Lookup(q, 0) == t.Lookup(q, 0)
    {
      LookupSame(t, t', q, 0);
    }
  }

  lemma InDirSame(t: Tree, mid: seq<Bytes>, t': Tree, p: Place, e': Slot, d: nat, name83: Bytes)
    requires SlotRewritten(t.clusters, mid, p, e') && t'.dirs == t.dirs && d in t.dirs
    requires Name(e') == Name(SlotAt(t.clusters[p.cluster], p.index))
    requires forall x :: x in t.dirs[d] ==> ClusterAt(t'.clusters, x) == ClusterAt(mid, x)
    ensures t'.InDir(d, name83) == t.InDir(d, name83)
  {
    hide PutSlot, SlotAt, Name, FindIn, ClusterAt;
    FindSame(t.clusters, mid, p, e', t.dirs[d], 0, name83);
    FindAgree(mid, t'.clusters, t.dirs[d], 0, name83);
  }

  lemma EntryOf(t: Tree, p: Place)
    requires p.cluster < |t.clusters| && ENTRY_SIZE * p.index + ENTRY_SIZE <= |t.clusters[p.cluster]|
    ensures t.At(p) == Some(SlotAt(t.clusters[p.cluster], p.index))
  {
  }

  lemma ClusterKept(clusters: seq<Bytes>, clusters': seq<Bytes>, x: nat)
    requires |clusters'| == |clusters| && (x < |clusters| ==> clusters'[x] == clusters[x])
    ensures ClusterAt(clusters', x) == ClusterAt(clusters, x)
  {
  }

  lemma DirsGrown(fat: seq<nat>, dirs: map<nat, Chain>, s: Chain, fat': seq<nat>, s': Chain)
    requires DirChains(fat, dirs) && Apart(dirs, s) && Grown(fat, s, fat', s')
    ensures DirChains(fat', dirs) && Apart(dirs, s')
  {
    hide Grown, IsChain;
    forall d | d in dirs
      ensures IsChain(fat', dirs[d]) && forall x :: x in dirs[d] ==> x !in s'
    {
      OtherChainKept(fat, s, fat', s', dirs[d]);
    }
  }

  lemma ClosedKept(t: Tree, t': Tree, p: Place, e': Slot)
    requires t.Closed() && t'.dirs == t.dirs && t'.root == t.root && t.At(p).Some?
    requires Attr(e') == Attr(t.At(p).value) && Attr(e') != ATTR_DIRECTORY
    requires forall q :: t'.At(q) == if q == p then Some(e') else t.At(q)
    ensures t'.Closed()
  {
    hide Attr, Tree.At, FirstCluster;
    forall d, k, i | d in t.dirs && 0 <= k < |t.dirs[d]| && 0 <= i && t'.At(Place(t.dirs[d][k], i)).Some?
      ensures t'.DirectoryKnown(t'.At(Place(t.dirs[d][k], i)).value)
    {
      var q := Place(t.dirs[d][k], i);
      assert q == p || t.DirectoryKnown(t.At(q).value);
    }
  }

  lemma ClosedAgree(t: Tree, t': Tree)
    requires t.Closed() && t'.dirs == t.dirs && t'.root == t.root
    requires forall d, x, i: nat :: d in t.dirs && x in t.dirs[d] ==> t'.At(Place(x, i)) == t.At(Place(x, i))
    ensures t'.Closed()
  {
    hide Attr, Tree.At, FirstCluster;
    forall d, k, i | d in t.dirs && 0 <= k < |t.dirs[d]| && 0 <= i && t'.At(Place(t.dirs[d][k], i)).Some?
      ensures t'.DirectoryKnown(t'.At(Place(t.dirs[d][k], i)).value)
    {
      var x := t.dirs[d][k];
      assert x in t.dirs[d] && t'.At(Place(x, i)) == t.At(Place(x, i));
      assert t.DirectoryKnown(t.At(Place(x, i)).value);
    }
  }

  /** A file stays the file of its path while it is written to. */
  lemma WroteKeepsFile(fat: seq<nat>, t: Tree, path: Bytes, p: Place, s: Chain, fat': seq<nat>, t': Tree, s': Chain, e': Slot)
    requires FileAt(fat, t, path, p, s) && Wrote(fat, t, p, s, fat', t', s', e')
    requires Name(e') == Name(t.At(p).value) && Attr(e') == Attr(t.At(p).value) && s' != [] && FirstCluster(e') == s'[0]
    ensures FileAt(fat', t', path, p, s') && t'.At(p) == Some(e')
  {
    hide DirChains, Grown, PutSlot, Tree.Lookup, Name, Attr, FirstCluster, Tree.At, Tree.Closed, IsChain, Wrote;
    WroteKeepsDirectories(fat, t, path, p, s, fat', t', s', e');
    var d := LookupInDirs(t, path, 0, p);
    assert t'.At(Place(p.cluster, p.index)) == Some(e');
    WroteChain(fat, t, p, s, fat', t', s', e');
  }

  lemma WroteChain(fat: seq<nat>, t: Tree, p: Place, s: Chain, fat': seq<nat>, t': Tree, s': Chain, e': Slot)
    requires Wrote(fat, t, p, s, fat', t', s', e')
    ensures Grown(fat, s, fat', s') && IsChain(fat', s') && (s' != [] ==> s'[0] >= 2) && t'.dirs == t.dirs && |t'.clusters| == |t.clusters|
    ensures p.cluster < |t.clusters| && t.At(p).Some?
  {
  }

  /** Every other file keeps its entry, its chain and its contents while one file is written to. */
  lemma OtherFileKept(fat: seq<nat>, t: Tree, path: Bytes, p: Place, s: Chain, fat': seq<nat>, t': Tree, s': Chain, e': Slot,
                      other: Bytes, q: Place, u: Chain)
    requires FileAt(fat, t, path, p, s) && Wrote(fat, t, p, s, fat', t', s', e')
    requires Name(e') == Name(t.At(p).value) && Attr(e') == Attr(t.At(p).value)
    requires FileAt(fat, t, other, q, u) && q != p && forall x :: x in u ==> x !in s
    ensures FileAt(fat', t', other, q, u) && t'.At(q) == t.At(q)
    ensures Flatten(t'.clusters, u) == Flatten(t.clusters, u) && forall x :: x in u ==> x !in s'
  {
    hide DirChains, PutSlot, Tree.Lookup, Name, Attr, FirstCluster, Tree.At, Tree.Closed, IsChain, Grown, Flatten;
    WroteKeepsDirectories(fat, t, path, p, s, fat', t', s', e');
    var d := LookupInDirs(t, other, 0, q);
    var dp := LookupInDirs(t, path, 0, p);
    assert p.cluster !in u;
    assert t'.At(Place(q.cluster, q.index)) == t.At(q);
    if FirstCluster(t.At(q).value) != 0 {
      OtherChainKept(fat, s, fat', s', u);
    }
    assert forall x :: x in u ==> x !in s';
    FlattenSame(t.clusters, t'.clusters, u);
  }

  lemma ChainIsDistinct(fat: seq<nat>, s: Chain)
    requires IsChain(fat, s) && |fat| <= EOC_MIN
    ensures Distinct(s)
  {
    forall i, j | 0 <= i < j < |s|
      ensures s[i] != s[j]
    {
      ChainDistinct(fat, s, i, j);
    }
  }

  /** One step along a chain, taking a free cluster where it ends. */
  method NextOrExtend(server: FileSystemServer, cluster: nat, ghost s: Chain, ghost k: nat)
    returns (c: nat, ghost s': Chain)
    requires server.Valid() && IsChain(server.fat, s) && k < |s| && s[k] == cluster
    requires k + 1 < |s| || 1 <= |Frees(server.fat, 2)|
    modifies server.fatBuf, server`fatSectors, server`fat
    ensures server.Valid() && Grown(old(server.fat), s, server.fat, s')
    ensures |s'| == Max(|s|, k + 2) && c == s'[k + 1] && IsChain(server.fat, s')
  {
    hide Grown, Flat, Frees, IsChain;
    ChainStep(server.fat, s, k);
    c := server.NextCluster(cluster);
    if c == EOC {
      ghost var news;
      c, news := server.ExtendCluster(cluster, 1, s, k);
      s' := s + news;
      GrownElsewhere(old(server.fat), s, server.fat, s');
    } else {
      s' := s;
      GrownRefl(server.fat, s);
    }
  }

  /** The n-th cluster of a file, taking free clusters behind its chain where it is too short. */
  method Seek(server: FileSystemServer, first: nat, n: nat, ghost s: Chain) returns (c: nat, ghost s': Chain)
    requires server.Valid() && IsChain(server.fat, s) && s[0] == first
    requires n + 1 <= |s| + |Frees(server.fat, 2)|
    modifies server.fatBuf, server`fatSectors, server`fat
    ensures server.Valid() && Grown(old(server.fat), s, server.fat, s')
    ensures |s'| == Max(|s|, n + 1) && c == s'[n] && IsChain(server.fat, s')
  {
    hide Grown, Flat, Frees, IsChain, FileSystemServer.Valid;
    c, s' := first, s;
    GrownRefl(server.fat, s);
    ghost var fat0 := server.fat;
    LastInUse(server.fat, s);
    for i := 0 to n
      invariant server.Valid() && Grown(fat0, s, server.fat, s') && IsChain(server.fat, s')
      invariant |s'| == Max(|s|, i + 1) && c == s'[i]
    {
      ghost var fat1, s1 := server.fat, s';
      GrownNew(fat0, s, fat1, s1);
      c, s' := NextOrExtend(server, c, s1, i);
      GrownTrans(fat0, s, fat1, s1, server.fat, s');
    }
  }

  /** data was laid over the contents of s from base on; clusters off s are untouched. */
  ghost predicate Laid(clusters: seq<Bytes>, clusters': seq<Bytes>, s: Chain, base: nat, data: Bytes) {
    && |clusters'| == |clusters| && (forall c :: 0 <= c < |clusters| && c !in s ==> clusters'[c] == clusters[c])
    && base + |data| <= |Flatten(clusters, s)|
    && Flatten(clusters', s) == Splice(Flatten(clusters, s), base, data)
  }

  lemma LaidNone(clusters: seq<Bytes>, s: Chain, base: nat)
    requires base <= |Flatten(clusters, s)|
    ensures Laid(clusters, clusters, s, base, [])
  {
    hide Flatten;
  }

  lemma LaidMore(clusters: seq<Bytes>, clusters1: seq<Bytes>, s: Chain, k: nat, off: nat, base: nat, d1: Bytes, d2: Bytes, bpc: nat)
    requires Even(clusters, bpc) && Even(clusters1, bpc) && OnVolume(clusters, s) && Distinct(s)
    requires Laid(clusters, clusters1, s, base, d1) && k < |s| && off + |d2| <= bpc && k * bpc + off == base + |d1|
    ensures Laid(clusters, clusters1[s[k] := Splice(clusters1[s[k]], off, d2)], s, base, d1 + d2)
  {
    hide Splice, Flatten, Even, Distinct;
    EvenAt(clusters1, s[k], bpc);
    FlattenSplice(clusters1, s, k, off, d2, bpc);
    SpliceTwice(Flatten(clusters, s), base, d1, d2);
    assert s[k] in s;
  }

  lemma EvenAt(clusters: seq<Bytes>, c: nat, bpc: nat)
    requires Even(clusters, bpc) && c < |clusters|
    ensures |clusters[c]| == bpc
  {
  }

  lemma LaidGrown(clusters: seq<Bytes>, clusters1: seq<Bytes>, s: Chain, s': Chain, base: nat, data: Bytes)
    requires |s| <= |s'| && s'[..|s|] == s && Distinct(s') && OnVolume(clusters, s')
    requires Laid(clusters, clusters1, s, base, data)
    ensures Laid(clusters, clusters1, s', base, data)
  {
    hide Flatten;
    var t := s'[|s|..];
    assert s' == s + t;
    FlattenAppend(clusters, s, t);
    FlattenAppend(clusters1, s, t);
    forall x | x in t
      ensures x !in s
    {
      var i :| 0 <= i < |t| && t[i] == x;
      assert x == s'[|s| + i];
    }
    FlattenSame(clusters, clusters1, t);
    forall c | c in s
      ensures c in s'
    {
      assert c in s'[..|s|];
    }
  }

  /** What the server's validity says of a chain on its volume. */
  lemma ChainOnVolume(server: FileSystemServer, s: Chain)
    requires server.Valid() && IsChain(server.fat, s)
    ensures Even(server.clusters, server.bytesPerCluster) && OnVolume(server.clusters, s) && Distinct(s) && s != []
    ensures |Flatten(server.clusters, s)| == |s| * server.bytesPerCluster
    ensures server.bytesPerCluster >= 512 && server.bytesPerCluster % 512 == 0
    ensures server.clusterBuf.Length == server.bytesPerCluster && |server.clusters| == |server.fat|
  {
    hide Flatten;
    ChainIsDistinct(server.fat, s);
    FlattenLength(server.clusters, s, server.bytesPerCluster);
  }

  /** Lays n bytes of a message over the cluster in the buffer. */
  method CopyToBuffer(server: FileSystemServer, off: nat, message: Bytes, from: nat, n: nat)
    requires server.Valid() && off + n <= server.clusterBuf.Length && from + n <= |message|
    modifies server.clusterBuf
    ensures server.Valid() && server.clusterBuf[..] == Splice(old(server.clusterBuf[..]), off, message[from..from + n])
  {
    hide Flat;
    forall i | 0 <= i < n {
      server.clusterBuf[off + i] := message[from + i];
    }
    assert server.clusterBuf[..] == Splice(old(server.clusterBuf[..]), off, message[from..from + n]);
  }

  /** The copy loop of a write message, from byte writeOff of the k-th cluster on. The number of bytes
      it copies at a time is bounded by len, not by what is left of it. */
  method PutBytes(server: FileSystemServer, cluster: nat, writeOff0: nat, len: nat, message: Bytes, ghost s: Chain, ghost k: nat)
    returns (ghost s': Chain)
    requires server.Valid() && IsChain(server.fat, s) && k < |s| && s[k] == cluster
    requires 0 < len <= 16 && |message| == 32 && writeOff0 < server.bytesPerCluster
    requires writeOff0 + len <= server.bytesPerCluster || k + 1 < |s| || 1 <= |Frees(server.fat, 2)|
    modifies server.fatBuf, server.clusterBuf, server`clusterNum, server`fatSectors, server`fat, server`clusters
    ensures server.Valid() && Grown(old(server.fat), s, server.fat, s') && IsChain(server.fat, s')
    ensures |s'| == if writeOff0 + len <= server.bytesPerCluster then |s| else Max(|s|, k + 2)
    ensures var bpc := server.bytesPerCluster;
            Laid(old(server.clusters), server.clusters, s', k * bpc + writeOff0,
                 message[..if writeOff0 + len <= bpc then len else bpc - writeOff0 + len])
  {
    hide Grown, Flat, Frees, IsChain, Flatten, Splice, Laid, Distinct, OnVolume, Even, FileSystemServer.Valid;
    ghost var bpc, clusters0, fat0 := server.bytesPerCluster, server.clusters, server.fat;
    ghost var base := k * bpc + writeOff0;
    ChainOnVolume(server, s);
    GrownRefl(server.fat, s);
    MulMono(k + 1, |s|, bpc);
    LaidNone(server.clusters, s, base);
    s' := s;
    var c, writeOff, dataOff := cluster, writeOff0, 0;
    ghost var at: nat := k;
    assert message[..0] == [];
    while dataOff < len
      invariant server.Valid() && Grown(fat0, s, server.fat, s') && IsChain(server.fat, s')
      invariant at < |s'| && c == s'[at] && |server.clusters| == |clusters0|
      invariant if dataOff == 0 then at == k && writeOff == writeOff0 && s' == s
                else if writeOff0 + len <= bpc then dataOff == len && s' == s
                else if dataOff < len then at == k && writeOff == bpc && dataOff == bpc - writeOff0 && s' == s
                else dataOff == bpc - writeOff0 + len && |s'| == Max(|s|, k + 2)
      invariant dataOff <= 32 && Laid(clusters0, server.clusters, s', base, message[..dataOff])
      decreases len - dataOff
    {
      if writeOff == server.bytesPerCluster {
        ghost var fat1, s1 := server.fat, s';
        GrownNew(fat0, s, fat1, s1);
        c, s' := NextOrExtend(server, c, s1, at);
        GrownNew(fat1, s1, server.fat, s');
        ChainOnVolume(server, s');
        LaidGrownHere(clusters0, server.clusters, s1, s', base, message[..dataOff]);
        GrownTrans(fat0, s, fat1, s1, server.fat, s');
        at := at + 1;
        writeOff := 0;
      }
      ChainOnVolume(server, s');
      ChainStep(server.fat, s', at);
      server.ReadCluster(c);
      var n := Min(len, server.bytesPerCluster - writeOff);
      CopyToBuffer(server, writeOff, message, dataOff, n);
      LaidStep(clusters0, server.clusters, s', at, writeOff, base, message, dataOff, n, bpc);
      dataOff := dataOff + n;
      writeOff := writeOff + n;
      server.UpdateCluster(c);
    }
  }

  lemma LaidGrownHere(clusters: seq<Bytes>, clusters1: seq<Bytes>, s: Chain, s': Chain, base: nat, data: Bytes)
    requires |s| <= |s'| && s'[..|s|] == s && Distinct(s') && OnVolume(clusters1, s')
    requires Laid(clusters, clusters1, s, base, data)
    ensures Laid(clusters, clusters1, s', base, data)
  {
    hide Flatten, Splice;
    LaidGrown(clusters, clusters1, s, s', base, data);
  }

  lemma LaidStep(clusters: seq<Bytes>, clusters1: seq<Bytes>, s: Chain, k: nat, off: nat, base: nat, message: Bytes, from: nat, n: nat, bpc: nat)
    requires Even(clusters, bpc) && Even(clusters1, bpc) && OnVolume(clusters1, s) && Distinct(s)
    requires from + n <= |message| && k < |s| && off + n <= bpc && k * bpc + off == base + from
    requires Laid(clusters, clusters1, s, base, message[..from])
    ensures s[k] < |clusters1| && |clusters1[s[k]]| == bpc
    ensures Laid(clusters, clusters1[s[k] := Splice(clusters1[s[k]], off, message[from..from + n])], s, base, message[..from + n])
  {
    hide Flatten, Splice, Distinct;
    LaidMore(clusters, clusters1, s, k, off, base, message[..from], message[from..from + n], bpc);
    assert message[..from] + message[from..from + n] == message[..from + n];
  }

  /** The directory entry after a write message: it names the chain, and the last message of a run,
      the one of length 0, sets the size to its offset. */
  function WrittenEntry(e: Slot, first: nat, len: nat, offset: nat): Slot {
    var named := if FirstCluster(e) == 0 then WithFirstCluster(e, first) else e;
    if len == 0 then WithFileSize(named, offset) else named
  }

  lemma WrittenEntryFields(e: Slot, first: nat, len: nat, offset: nat)
    requires first < EOC_MIN && offset < 0x1_0000_0000
    ensures var r := WrittenEntry(e, first, len, offset);
            && Name(r) == Name(e) && Attr(r) == Attr(e)
            && FirstCluster(r) == (if FirstCluster(e) == 0 then first else FirstCluster(e))
            && FileSize(r) == if len == 0 then offset else FileSize(e)
  {
    hide WithFirstCluster, WithFileSize, FirstCluster, FileSize, Name, Attr;
    FirstClusterSet(e, first);
    FileSizeSet(if FirstCluster(e) == 0 then WithFirstCluster(e, first) else e, offset);
  }

  /** The clusters a file has after a write message: a file without any gets as many as the whole
      write() asks for, at least one, and then as many as the message reaches. */
  function ChainAfter(have: nat, count: nat, offset: nat, len: nat, bpc: nat): nat
    requires bpc > 0
  {
    Max(ChainAtLeast(have, count, bpc), if len == 0 then 0 else ClustersFor(offset + len, bpc))
  }

  function ChainAtLeast(have: nat, count: nat, bpc: nat): nat
    requires bpc > 0
  {
    if have > 0 then have else Max(1, ClustersFor(count, bpc))
  }

  /** The first part of a write message: a file that has no cluster gets its chain, and the entry in
      the buffer is written back with it. */
  method NameChain(server: FileSystemServer, path: Bytes, count: nat, ghost p0: Place, ghost s: Chain)
    returns (p: Place, cluster: nat, ghost s': Chain)
    requires server.Valid() && FileAt(server.fat, server.Dirs(), path, p0, s)
    requires ChainAtLeast(|s|, count, server.bytesPerCluster) <= |s| + |Frees(server.fat, 2)|
    modifies server.fatBuf, server.clusterBuf, server`clusterNum, server`fatSectors, server`fat, server`clusters
    ensures server.Valid() && p == p0 && server.EntryInBuffer(p) && s' != [] && cluster == s'[0]
    ensures |s'| == ChainAtLeast(|s|, count, server.bytesPerCluster)
    ensures server.Dirs().At(p).Some? && old(server.Dirs().At(p)).Some?
    ensures var e := old(server.Dirs().At(p)).value;
            && server.Dirs().At(p).value == (if FirstCluster(e) == 0 then WithFirstCluster(e, cluster) else e)
            && Wrote(old(server.fat), old(server.Dirs()), p, s, server.fat, server.Dirs(), s', server.Dirs().At(p).value)
    ensures forall c :: 0 <= c < |server.clusters| && c != p.cluster ==> server.clusters[c] == old(server.clusters)[c]
    ensures |server.clusters| == old(|server.clusters|)
  {
    hide Grown, Flat, Frees, IsChain, FirstCluster, WithFirstCluster, SlotAt, PutSlot, Tree.Lookup, Tree.Closed, DirChains;
    ghost var t := server.Dirs();
    var found := server.FindFile(path, 0);
    p := found.value;
    assert t.At(p) == Some(SlotAt(server.clusters[p.cluster], p.index));
    var e := SlotAt(server.clusterBuf[..], p.index);
    PutSame(server.clusters[p.cluster], p.index);
    if FirstCluster(e) != 0 {
      cluster, s' := FirstCluster(e), s;
      LastInUse(server.fat, s);
      GrownRefl(server.fat, s);
    } else {
      var numCluster := ClustersFor(count, server.bytesPerCluster);
      cluster, s' := server.AllocateClusterChain(numCluster);
      server.PutEntry(p.index, WithFirstCluster(e, cluster));
      server.UpdateCluster(0);
      SlotAfterPut(t.clusters[p.cluster], p.index, WithFirstCluster(e, cluster), p.index);
      assert server.Dirs().At(p) == Some(WithFirstCluster(e, cluster));
    }
  }

  lemma PutSame(buf: Bytes, i: nat)
    requires ENTRY_SIZE * i + ENTRY_SIZE <= |buf|
    ensures PutSlot(buf, i, SlotAt(buf, i)) == buf
  {
  }

  /** The cluster the entry is in is none of the file's, however it grew. */
  lemma EntryOffChain(fat: seq<nat>, t: Tree, path: Bytes, p: Place, s: Chain, fat': seq<nat>, s': Chain)
    requires FileAt(fat, t, path, p, s) && Grown(fat, s, fat', s')
    ensures p.cluster !in s'
  {
    hide Grown, IsChain, Tree.Lookup, Tree.Closed, Tree.At, FirstCluster, Attr;
    var d := LookupInDirs(t, path, 0, p);
    DirsGrown(fat, t.dirs, s, fat', s');
  }

  lemma ChunkClusters(offset: nat, len: nat, bpc: nat)
    requires 0 < len <= bpc
    ensures ClustersFor(offset + len, bpc) == offset / bpc + if offset % bpc + len <= bpc then 1 else 2
  {
    ClustersForIs(offset + len, offset / bpc + if offset % bpc + len <= bpc then 1 else 2, bpc);
  }

  /** The bytes of a message laid over a file whose entry was written first. */
  lemma WroteData(fat: seq<nat>, t: Tree, p: Place, s: Chain, fat1: seq<nat>, t1: Tree, s1: Chain, e1: Slot,
                  fat2: seq<nat>, clusters2: seq<Bytes>, s2: Chain, base: nat, data: Bytes)
    requires Wrote(fat, t, p, s, fat1, t1, s1, e1) && Grown(fat1, s1, fat2, s2) && p.cluster !in s2
    requires forall c :: 0 <= c < |t.clusters| && c != p.cluster ==> t1.clusters[c] == t.clusters[c]
    requires Laid(t1.clusters, clusters2, s2, base, data)
    ensures Wrote(fat, t, p, s, fat2, t1.(clusters := clusters2), s2, e1)
    ensures Laid(t.clusters, t.clusters, s2, base, []) && Laid(t1.clusters, clusters2, s2, base, data)
    ensures base + |data| <= |Flatten(t.clusters, s2)| && Flatten(clusters2, s2) == Splice(Flatten(t.clusters, s2), base, data)
  {
    hide Grown, PutSlot, Flatten, Splice;
    GrownTrans(fat, s, fat1, s1, fat2, s2);
    FlattenSame(t.clusters, t1.clusters, s2);
    LaidNone(t.clusters, s2, base);
  }

  /** The second part of a write message: finds the cluster of the offset and lays the bytes there. */
  method PutMessage(server: FileSystemServer, first: nat, offset: nat, len: nat, message: Bytes, ghost s: Chain)
    returns (ghost s': Chain)
    requires server.Valid() && IsChain(server.fat, s) && s[0] == first && 0 < len <= 16 && |message| == 32
    requires ClustersFor(offset + len, server.bytesPerCluster) <= |s| + |Frees(server.fat, 2)|
    modifies server.fatBuf, server.clusterBuf, server`clusterNum, server`fatSectors, server`fat, server`clusters
    ensures server.Valid() && Grown(old(server.fat), s, server.fat, s')
    ensures |s'| == Max(|s|, ClustersFor(offset + len, server.bytesPerCluster))
    ensures Laid(old(server.clusters), server.clusters, s', offset, message[..Copied(offset, len, server.bytesPerCluster)])
  {
    hide Grown, Flat, Frees, IsChain, Laid, FileSystemServer.Valid, ClustersFor;
    ghost var bpc, fat0 := server.bytesPerCluster, server.fat;
    VolumeShape(server);
    ChunkClusters(offset, len, bpc);
    DivMod(offset, bpc);
    var writeOff, clusterOff := offset % server.bytesPerCluster, offset / server.bytesPerCluster;
    var cluster;
    ghost var s1;
    cluster, s1 := Seek(server, first, clusterOff, s);
    ghost var fat1 := server.fat;
    GrownNew(fat0, s, fat1, s1);
    s' := PutBytes(server, cluster, writeOff, len, message, s1, clusterOff);
    GrownTrans(fat0, s, fat1, s1, server.fat, s');
  }

  /** A write message: the source's WriteState. */
  method HandleWrite(server: FileSystemServer, path: Bytes, count: nat, offset: nat, len: nat, message: Bytes,
                     ghost p: Place, ghost s: Chain)
    returns (ghost s': Chain)
    requires server.Valid() && FileAt(server.fat, server.Dirs(), path, p, s)
    requires len <= 16 && |message| == 32 && offset < 0x1_0000_0000
    requires ChainAfter(|s|, count, offset, len, server.bytesPerCluster) <= |s| + |Frees(server.fat, 2)|
    modifies server.fatBuf, server.clusterBuf, server`clusterNum, server`fatSectors, server`fat, server`clusters
    ensures server.Valid() && s' != []
    ensures |s'| == ChainAfter(|s|, count, offset, len, server.bytesPerCluster)
    ensures old(server.Dirs().At(p)).Some?
    ensures var e' := WrittenEntry(old(server.Dirs().At(p)).value, s'[0], len, offset);
            Wrote(old(server.fat), old(server.Dirs()), p, s, server.fat, server.Dirs(), s', e')
    ensures Received(Flatten(old(server.clusters), s'), Flatten(server.clusters, s'), offset, len, message, server.bytesPerCluster)
  {
    hide Grown, Flat, Frees, IsChain, Flatten, Splice, Laid, Wrote, FileSystemServer.Valid, FirstCluster,
      WithFirstCluster, WithFileSize, Tree.At, Tree.Lookup, Tree.Closed, DirChains, ClustersFor, PutSlot, SlotAt, FileAt,
      SlotRewritten, Copied;
    ghost var t, fat0 := server.Dirs(), server.fat;
    var place, cluster, s1 := NameChain(server, path, count, p, s);
    ghost var t1, fat1 := server.Dirs(), server.fat;
    ghost var e1 := t1.At(p).value;
    WroteChain(fat0, t, p, s, fat1, t1, s1, e1);
    if len == 0 {
      s' := s1;
      EntryOffChain(fat0, t, path, p, s, fat1, s1);
      PutSize(server, place, offset);
      SizeWritten(fat0, t, p, s, fat1, t1, s1, e1, server.Dirs(), WithFileSize(e1, offset));
      return;
    }
    GrownNew(fat0, s, fat1, s1);
    s' := PutMessage(server, cluster, offset, len, message, s1);
    VolumeShape(server);
    GrownNew(fat1, s1, server.fat, s');
    GrownTrans(fat0, s, fat1, s1, server.fat, s');
    EntryOffChain(fat0, t, path, p, s, server.fat, s');
    WroteData(fat0, t, p, s, fat1, t1, s1, e1, server.fat, server.clusters, s', offset,
              message[..Copied(offset, len, server.bytesPerCluster)]);
  }

  /** The contents of a file's clusters before and after a write message. */
  ghost predicate Received(was: Bytes, now: Bytes, offset: nat, len: nat, message: Bytes, bpc: nat) {
    if len == 0 then now == was
    else
      && bpc > 0 && Copied(offset, len, bpc) <= |message| && offset + Copied(offset, len, bpc) <= |was|
      && now == Splice(was, offset, message[..Copied(offset, len, bpc)])
  }

  lemma VolumeShape(server: FileSystemServer)
    requires server.Valid()
    ensures server.bytesPerCluster >= 512 && server.bytesPerCluster % 512 == 0
    ensures |server.clusters| == |server.fat| <= EOC_MIN && Even(server.clusters, server.bytesPerCluster)
  {
  }

  /** The size in the entry in the buffer, written back. */
  method PutSize(server: FileSystemServer, p: Place, size: nat)
    requires server.Valid() && server.EntryInBuffer(p)
    modifies server.clusterBuf, server`clusters
    ensures server.Valid() && old(server.Dirs().At(p)).Some?
    ensures SlotRewritten(old(server.clusters), server.clusters, p, WithFileSize(old(server.Dirs().At(p)).value, size))
  {
    hide Flat, WithFileSize;
    server.PutEntry(p.index, WithFileSize(SlotAt(server.clusterBuf[..], p.index), size));
    server.UpdateCluster(0);
  }

  lemma SizeWritten(fat: seq<nat>, t: Tree, p: Place, s: Chain, fat1: seq<nat>, t1: Tree, s1: Chain, e1: Slot, t2: Tree, e2: Slot)
    requires Wrote(fat, t, p, s, fat1, t1, s1, e1) && t1.At(p) == Some(e1) && t2 == t1.(clusters := t2.clusters)
    requires SlotRewritten(t1.clusters, t2.clusters, p, e2) && p.cluster !in s1
    requires forall c :: 0 <= c < |t.clusters| && c != p.cluster ==> t1.clusters[c] == t.clusters[c]
    ensures Wrote(fat, t, p, s, fat1, t2, s1, e2) && Flatten(t2.clusters, s1) == Flatten(t.clusters, s1)
  {
    hide Grown;
    PutTwice(t.clusters[p.cluster], p.index, e1, e2);
    FlattenSame(t.clusters, t2.clusters, s1);
  }

  /** The same file: name, attribute, and first cluster once it has one. */
  ghost predicate SameFile(e: Slot, e': Slot) {
    && Name(e') == Name(e) && Attr(e') == Attr(e)
    && (FirstCluster(e) != 0 ==> FirstCluster(e') == FirstCluster(e))
  }

  /** Part of a run of write messages was handled. */
  ghost predicate Writing(fat: seq<nat>, t: Tree, path: Bytes, p: Place, s: Chain, fat': seq<nat>, t': Tree, s': Chain, e': Slot) {
    && s' != [] && FileAt(fat', t', path, p, s') && t'.At(p) == Some(e')
    && Wrote(fat, t, p, s, fat', t', s', e')
    && t.At(p).Some? && SameFile(t.At(p).value, e')
  }

  lemma WritingFirst(fat: seq<nat>, t: Tree, path: Bytes, p: Place, s: Chain, fat': seq<nat>, t': Tree, s': Chain,
                     len: nat, offset: nat)
    requires FileAt(fat, t, path, p, s) && s' != [] && t.At(p).Some? && |fat| <= EOC_MIN && offset < 0x1_0000_0000
    requires Wrote(fat, t, p, s, fat', t', s', WrittenEntry(t.At(p).value, s'[0], len, offset))
    ensures Writing(fat, t, path, p, s, fat', t', s', WrittenEntry(t.At(p).value, s'[0], len, offset))
  {
    hide Grown, IsChain, PutSlot, Tree.Lookup, Tree.At, Tree.Closed, DirChains, FirstCluster, Name, Attr, WrittenEntry, Wrote, Frees;
    var e' := WrittenEntry(t.At(p).value, s'[0], len, offset);
    WroteChain(fat, t, p, s, fat', t', s', e');
    GrownNew(fat, s, fat', s');
    ChainInRange(fat', s');
    GrownElsewhere(fat, s, fat', s');
    WrittenEntryFields(t.At(p).value, s'[0], len, offset);
    if FirstCluster(t.At(p).value) != 0 {
      LastInUse(fat, s);
      assert s'[..|s|][0] == s[0];
    }
    WroteKeepsFile(fat, t, path, p, s, fat', t', s', e');
  }

  lemma ChainInRange(fat: seq<nat>, s: Chain)
    requires IsChain(fat, s)
    ensures s != [] && 2 <= s[0] < |fat|
  {
  }

  lemma WritingMore(fat: seq<nat>, t: Tree, path: Bytes, p: Place, s: Chain, fat1: seq<nat>, t1: Tree, s1: Chain, e1: Slot,
                    fat2: seq<nat>, t2: Tree, s2: Chain, e2: Slot)
    requires Writing(fat, t, path, p, s, fat1, t1, s1, e1) && Writing(fat1, t1, path, p, s1, fat2, t2, s2, e2)
    ensures Writing(fat, t, path, p, s, fat2, t2, s2, e2)
  {
    hide FileAt, Wrote, Tree.At, FirstCluster, Name, Attr;
    WroteTrans(fat, t, p, s, fat1, t1, s1, e1, fat2, t2, s2, e2);
  }

  /** part, written from offset o on, is where it belongs, behind what was there before o. */
  ghost predicate InPlace(was: Bytes, now: Bytes, o: nat, part: Bytes) {
    && o + |part| <= |now| && o + |part| <= |was|
    && now[..o + |part|] == was[..o] + part
  }

  lemma InPlaceGrown(clusters: seq<Bytes>, clusters1: seq<Bytes>, s: Chain, s': Chain, o: nat, part: Bytes)
    requires |s| <= |s'| && s'[..|s|] == s && InPlace(Flatten(clusters, s), Flatten(clusters1, s), o, part)
    ensures InPlace(Flatten(clusters, s'), Flatten(clusters1, s'), o, part)
  {
    hide Flatten, InPlace;
    assert s' == s + s'[|s|..];
    FlattenAppend(clusters, s, s'[|s|..]);
    FlattenAppend(clusters1, s, s'[|s|..]);
    InPlaceAppend(Flatten(clusters, s), Flatten(clusters1, s), o, part, Flatten(clusters, s'[|s|..]), Flatten(clusters1, s'[|s|..]));
  }

  lemma InPlaceAppend(was: Bytes, now: Bytes, o: nat, part: Bytes, a: Bytes, b: Bytes)
    requires InPlace(was, now, o, part)
    ensures InPlace(was + a, now + b, o, part)
  {
    assert (now + b)[..o + |part|] == now[..o + |part|];
    assert (was + a)[..o] == was[..o];
  }

  /** The first len bytes of a message are the bytes of data from sent on. */
  ghost predicate Carries(message: Bytes, len: nat, data: Bytes, sent: nat) {
    && 0 < len <= |message| && sent + len <= |data| && message[..len] == data[sent..sent + len]
  }

  lemma InPlaceMore(was: Bytes, mid: Bytes, now: Bytes, o: nat, data: Bytes, sent: nat, len: nat, message: Bytes, bpc: nat)
    requires Carries(message, len, data, sent)
    requires |mid| == |was| && (if sent == 0 then mid == was else InPlace(was, mid, o, data[..sent]))
    requires Received(mid, now, o + sent, len, message, bpc)
    ensures InPlace(was, now, o, data[..sent + len])
  {
    hide Splice, Copied;
    ChunkInPlace(mid, o + sent, len, message, bpc);
    assert data[..sent] + data[sent..sent + len] == data[..sent + len];
    assert was[..o] + data[..sent] + data[sent..sent + len] == was[..o] + (data[..sent] + data[sent..sent + len]);
  }

  lemma ChainAfterMore(have: nat, count: nat, o: nat, sent: nat, len: nat, bpc: nat)
    requires bpc > 0 && sent + len <= count && len > 0
    ensures var mid := if sent == 0 then have else ChainAfter(have, count, o, sent, bpc);
            && ChainAfter(mid, count, o + sent, len, bpc) == ChainAfter(have, count, o, sent + len, bpc)
            && ChainAfter(have, count, o, sent + len, bpc) <= ChainAfter(have, count, o, count, bpc)
    ensures have <= ChainAfter(have, count, o, sent, bpc) && 0 < ChainAfter(have, count, o, sent, bpc)
  {
    hide ClustersFor;
    ClustersForMono(o + sent, o + sent + len, bpc);
    ClustersForMono(o + sent + len, o + count, bpc);
  }

  /** What a run of write messages is after: the bytes of data, from an offset of a file on. */
  datatype Order = Order(path: Bytes, place: Place, data: Bytes, offset: nat, bpc: nat) {
    /** The clusters of the file after sent bytes, if it had have of them. */
    ghost function Clusters(have: nat, sent: nat): nat
      requires bpc > 0
    {
      ChainAfter(have, |data|, offset, sent, bpc)
    }
  }

  /** Where the file stands: the table and the directories of the volume, its chain and its entry. */
  datatype Stand = Stand(fat: seq<nat>, dirs: Tree, chain: Chain, entry: Slot) {
    ghost function Flat(chain: Chain): Bytes {
      Flatten(dirs.clusters, chain)
    }

    ghost predicate Sized(bpc: nat) {
      |fat| == |dirs.clusters| <= EOC_MIN && Even(dirs.clusters, bpc)
    }
  }

  ghost predicate Holds(w: Order, a: Stand) {
    FileAt(a.fat, a.dirs, w.path, w.place, a.chain)
  }

  /** How far a run of write messages got after sent bytes: from a to b. */
  ghost predicate Reached(w: Order, a: Stand, b: Stand, sent: nat) {
    && w.bpc > 0 && sent <= |w.data| && b.dirs.At(w.place) == Some(b.entry)
    && |a.fat| == |b.fat| && a.Sized(w.bpc) && b.Sized(w.bpc)
    && if sent == 0 then b == a
       else
         && Writing(a.fat, a.dirs, w.path, w.place, a.chain, b.fat, b.dirs, b.chain, b.entry)
         && |b.chain| == w.Clusters(|a.chain|, sent)
         && InPlace(a.Flat(b.chain), b.Flat(b.chain), w.offset, w.data[..sent])
  }

  /** One message of a run, with what the run as a whole has reached by then. */
  method HandleChunk(server: FileSystemServer, path: Bytes, count: nat, offset: nat, len: nat, message: Bytes,
                     ghost w: Order, ghost sent: nat, ghost a: Stand, ghost b: Stand)
    returns (ghost c: Stand)
    requires server.Valid() && path == w.path && count == |w.data| && offset == w.offset + sent && w.bpc == server.bytesPerCluster
    requires Holds(w, a) && a.dirs.At(w.place).Some? && w.offset + count < 0x1_0000_0000
    requires |message| == 32 && len <= 16 && Carries(message, len, w.data, sent)
    requires w.Clusters(|a.chain|, count) <= |a.chain| + |Frees(a.fat, 2)|
    requires b.fat == server.fat && b.dirs == server.Dirs() && Reached(w, a, b, sent)
    modifies server.fatBuf, server.clusterBuf, server`clusterNum, server`fatSectors, server`fat, server`clusters
    ensures server.Valid()
    ensures c.fat == server.fat && c.dirs == server.Dirs() && Reached(w, a, c, sent + len)
  {
    hide Grown, Flat, Frees, IsChain, Flatten, Splice, Wrote, FileSystemServer.Valid, FirstCluster, FileSize,
      WithFirstCluster, WithFileSize, Tree.At, Tree.Lookup, Tree.Closed, DirChains, FileAt, ChainAfter, WrittenEntry,
      Name, Attr, SameFile, Received, Writing, InPlace;
    VolumeShape(server);
    ChainAfterMore(|a.chain|, count, w.offset, sent, len, w.bpc);
    ReachedFree(w, a, b, sent);
    ghost var chain := HandleWrite(server, path, count, offset, len, message, w.place, b.chain);
    c := Stand(server.fat, server.Dirs(), chain, WrittenEntry(b.entry, chain[0], len, offset));
    VolumeShape(server);
    ReachedMore(w, a, b, c, sent, len, message);
  }

  lemma ReachedFree(w: Order, a: Stand, b: Stand, sent: nat)
    requires Holds(w, a) && Reached(w, a, b, sent)
    ensures Holds(w, b) && |b.chain| + |Frees(b.fat, 2)| == |a.chain| + |Frees(a.fat, 2)|
    ensures |b.chain| == if sent == 0 then |a.chain| else w.Clusters(|a.chain|, sent)
  {
    hide FileAt, InPlace, ChainAfter, Flatten, Frees, Grown, Even, Tree.At, SameFile, IsChain;
    if sent > 0 {
      GrownNew(a.fat, a.chain, b.fat, b.chain);
    }
  }

  lemma ReachedMore(w: Order, a: Stand, b: Stand, c: Stand, sent: nat, len: nat, message: Bytes)
    requires Holds(w, a) && Holds(w, b) && Reached(w, a, b, sent)
    requires c.chain != [] && c.entry == WrittenEntry(b.entry, c.chain[0], len, w.offset + sent)
    requires Wrote(b.fat, b.dirs, w.place, b.chain, c.fat, c.dirs, c.chain, c.entry) && c.Sized(w.bpc)
    requires Carries(message, len, w.data, sent) && w.offset + |w.data| < 0x1_0000_0000
    requires |c.chain| == w.Clusters(|a.chain|, sent + len)
    requires Received(b.Flat(c.chain), c.Flat(c.chain), w.offset + sent, len, message, w.bpc)
    ensures Reached(w, a, c, sent + len)
  {
    hide FileAt, InPlace, ChainAfter, Flatten, Frees, Grown, Even, Tree.At, IsChain, WrittenEntry, Writing, Wrote, Received;
    WritingFirst(b.fat, b.dirs, w.path, w.place, b.chain, c.fat, c.dirs, c.chain, len, w.offset + sent);
    WroteChain(b.fat, b.dirs, w.place, b.chain, c.fat, c.dirs, c.chain, c.entry);
    GrownNew(b.fat, b.chain, c.fat, c.chain);
    GrownElsewhere(b.fat, b.chain, c.fat, c.chain);
    if sent > 0 {
      WritingMore(a.fat, a.dirs, w.path, w.place, a.chain, b.fat, b.dirs, b.chain, b.entry, c.fat, c.dirs, c.chain, c.entry);
    }
    PlacedMore(w, a, b, c, sent, len, message);
    WritingEntry(b.fat, b.dirs, w.path, w.place, b.chain, c.fat, c.dirs, c.chain, c.entry);
  }

  lemma PlacedMore(w: Order, a: Stand, b: Stand, c: Stand, sent: nat, len: nat, message: Bytes)
    requires a.Sized(w.bpc) && b.Sized(w.bpc) && |a.fat| == |b.fat| == |c.fat| && IsChain(c.fat, c.chain)
    requires |b.chain| <= |c.chain| && c.chain[..|b.chain|] == b.chain
    requires sent + len <= |w.data| && Carries(message, len, w.data, sent)
    requires if sent == 0 then b == a else InPlace(a.Flat(b.chain), b.Flat(b.chain), w.offset, w.data[..sent])
    requires Received(b.Flat(c.chain), c.Flat(c.chain), w.offset + sent, len, message, w.bpc)
    ensures InPlace(a.Flat(c.chain), c.Flat(c.chain), w.offset, w.data[..sent + len])
  {
    hide InPlace, Flatten, Even, IsChain, Received, Carries, Splice, Copied;
    if sent > 0 {
      InPlaceGrown(a.dirs.clusters, b.dirs.clusters, b.chain, c.chain, w.offset, w.data[..sent]);
    }
    ReachedLengths(c.fat, c.chain, a.dirs.clusters, b.dirs.clusters, w.bpc);
    InPlaceMore(a.Flat(c.chain), b.Flat(c.chain), c.Flat(c.chain), w.offset, w.data, sent, len, message, w.bpc);
  }

  lemma ReachedLengths(fat: seq<nat>, s: Chain, clusters: seq<Bytes>, clusters': seq<Bytes>, bpc: nat)
    requires IsChain(fat, s) && |clusters| == |fat| == |clusters'| && Even(clusters, bpc) && Even(clusters', bpc)
    ensures |Flatten(clusters, s)| == |Flatten(clusters', s)| == |s| * bpc
  {
    hide Flatten;
    FlattenLength(clusters, s, bpc);
    FlattenLength(clusters', s, bpc);
  }

  lemma WritingEntry(fat: seq<nat>, t: Tree, path: Bytes, p: Place, s: Chain, fat': seq<nat>, t': Tree, s': Chain, e': Slot)
    requires Writing(fat, t, path, p, s, fat', t', s', e')
    ensures t'.At(p) == Some(e') && FileAt(fat', t', path, p, s')
  {
    hide FileAt, Wrote, Tree.At;
  }

  lemma ReachedNone(server: FileSystemServer, w: Order, chain: Chain) returns (a: Stand)
    requires server.Valid() && FileAt(server.fat, server.Dirs(), w.path, w.place, chain) && w.bpc == server.bytesPerCluster
    ensures a.fat == server.fat && a.dirs == server.Dirs() && a.chain == chain && a.dirs.At(w.place) == Some(a.entry)
    ensures Holds(w, a) && Reached(w, a, a, 0)
  {
    hide IsFile, Apart, DirChains, Tree.Closed, Tree.Lookup, Tree.At, Flat;
    a := Stand(server.fat, server.Dirs(), chain, server.Dirs().At(w.place).value);
  }

  /** The message that ends a run: it sets the size. */
  method HandleLast(server: FileSystemServer, path: Bytes, count: nat, offset: nat, ghost w: Order, ghost a: Stand, ghost b: Stand)
    returns (ghost c: Stand)
    requires server.Valid() && path == w.path && count == |w.data| && offset == w.offset + count < 0x1_0000_0000
    requires Holds(w, a) && a.dirs.At(w.place).Some? && w.bpc == server.bytesPerCluster
    requires w.Clusters(|a.chain|, count) <= |a.chain| + |Frees(a.fat, 2)|
    requires b.fat == server.fat && b.dirs == server.Dirs() && Reached(w, a, b, count)
    modifies server.fatBuf, server.clusterBuf, server`clusterNum, server`fatSectors, server`fat, server`clusters
    ensures server.Valid() && c.fat == server.fat && c.dirs == server.Dirs()
    ensures Writing(a.fat, a.dirs, path, w.place, a.chain, c.fat, c.dirs, c.chain, c.entry)
    ensures |c.chain| == w.Clusters(|a.chain|, count) && FileSize(c.entry) == offset
    ensures w.data != [] ==> InPlace(a.Flat(c.chain), c.Flat(c.chain), w.offset, w.data)
  {
    hide Grown, Flat, Frees, IsChain, Flatten, Splice, Wrote, FileSystemServer.Valid, FirstCluster, FileSize,
      WithFirstCluster, WithFileSize, Tree.At, Tree.Lookup, Tree.Closed, DirChains, FileAt, WrittenEntry,
      Name, Attr, SameFile, Writing, InPlace, ClustersFor;
    VolumeShape(server);
    ReachedFree(w, a, b, count);
    ghost var chain := HandleWrite(server, path, count, offset, 0, Zeros(32), w.place, b.chain);
    c := Stand(server.fat, server.Dirs(), chain, WrittenEntry(b.entry, chain[0], 0, offset));
    WritingFirst(b.fat, b.dirs, path, w.place, b.chain, c.fat, c.dirs, chain, 0, offset);
    WroteChain(b.fat, b.dirs, w.place, b.chain, c.fat, c.dirs, chain, c.entry);
    GrownNew(b.fat, b.chain, c.fat, chain);
    ChainInRange(c.fat, chain);
    GrownElsewhere(b.fat, b.chain, c.fat, chain);
    WrittenEntryFields(b.entry, chain[0], 0, offset);
    if count > 0 {
      WritingMore(a.fat, a.dirs, path, w.place, a.chain, b.fat, b.dirs, b.chain, b.entry, c.fat, c.dirs, chain, c.entry);
      assert chain == b.chain;
      assert w.data[..count] == w.data;
    }
  }

  /** How far ReadState got: total bytes passed, the stream so far in full messages and one being
      filled. */
  ghost predicate Streaming(flat: Bytes, offset: nat, total: nat, bpc: nat, messages: seq<Bytes>, pending: Bytes, sentBytes: nat) {
    && bpc > 0 && total <= |flat|
    && Joined(messages) + pending == Streamed(flat, offset, total, bpc)
    && sentBytes == |Streamed(flat, offset, total, bpc)|
    && (forall i :: 0 <= i < |messages| ==> |messages[i]| == 16)
    && |pending| < 16
  }

  lemma StreamSkip(flat: Bytes, offset: nat, total: nat, bpc: nat, messages: seq<Bytes>, pending: Bytes, sentBytes: nat)
    requires Streaming(flat, offset, total, bpc, messages, pending, sentBytes) && total < offset && total < |flat|
    ensures Streaming(flat, offset, total + 1, bpc, messages, pending, sentBytes)
  {
  }

  lemma StreamByte(flat: Bytes, offset: nat, total: nat, bpc: nat, messages: seq<Bytes>, pending: Bytes, sentBytes: nat, b: byte)
    requires Streaming(flat, offset, total, bpc, messages, pending, sentBytes) && offset <= total < |flat|
    requires b == flat[Source(offset, total, bpc)]
    ensures |pending| < 15 ==> Streaming(flat, offset, total + 1, bpc, messages, pending + [b], sentBytes + 1)
    ensures |pending| == 15 ==> Streaming(flat, offset, total + 1, bpc, messages + [pending + [b]], [], sentBytes + 1)
  {
    hide Source;
    assert Joined(messages) + pending + [b] == Joined(messages) + (pending + [b]);
    if |pending| == 15 {
      JoinedMore(messages, pending + [b]);
    }
  }

  /** Where the byte comes from in the cluster that starts at position start. */
  lemma SourceInCluster(offset: nat, start: nat, i: nat, k: nat, bpc: nat)
    requires i < bpc && start == k * bpc && offset <= start + i
    ensures Source(offset, start + i, bpc) == start + if start < offset then start + i - offset else i
  {
    DivUnique(k, i, bpc);
  }

  /** The inner loop of a read: the bytes of the k-th cluster, in the buffer. */
  method StreamCluster(server: FileSystemServer, offset: nat, count: nat, remain: nat, total0: nat, sent0: nat,
                       messages0: seq<Bytes>, pending0: Bytes, ghost flat: Bytes, ghost k: nat)
    returns (i: nat, total: nat, sentBytes: nat, messages: seq<Bytes>, pending: Bytes)
    requires server.Valid() && Streaming(flat, offset, total0, server.bytesPerCluster, messages0, pending0, sent0)
    requires remain > 0 ==> total0 == k * server.bytesPerCluster
    requires k * server.bytesPerCluster + server.bytesPerCluster <= |flat|
    requires forall j :: 0 <= j < server.bytesPerCluster ==> server.clusterBuf[j] == flat[k * server.bytesPerCluster + j]
    ensures Streaming(flat, offset, total, server.bytesPerCluster, messages, pending, sentBytes)
    ensures total == total0 + i && i <= remain && i <= server.bytesPerCluster
    ensures sentBytes >= count || i == remain || i == server.bytesPerCluster
    ensures sent0 < count && total0 < offset + count ==> total <= offset + count
  {
    hide Streaming, Flat, Streamed, Source;
    total, sentBytes, messages, pending := total0, sent0, messages0, pending0;
    i := 0;
    var p := 0;
    ghost var bpc := server.bytesPerCluster;
    while i < server.bytesPerCluster && i < remain && sentBytes < count
      invariant i <= bpc && i <= remain && total == total0 + i
      invariant Streaming(flat, offset, total, bpc, messages, pending, sentBytes)
      invariant p == if total <= offset then 0 else if total0 < offset then total - offset else i
      invariant sent0 < count && total0 < offset + count ==> total <= offset + count
      decreases bpc - i
    {
      StreamBounds(flat, offset, total, bpc, messages, pending, sentBytes);
      if total >= offset {
        SourceInCluster(offset, total0, i, k, bpc);
        StreamByte(flat, offset, total, bpc, messages, pending, sentBytes, server.clusterBuf[p]);
        pending := pending + [server.clusterBuf[p]];
        p := p + 1;
        sentBytes := sentBytes + 1;
        if |pending| == 16 {
          messages := messages + [pending];
          pending := [];
        }
      } else {
        StreamSkip(flat, offset, total, bpc, messages, pending, sentBytes);
      }
      total := total + 1;
      i := i + 1;
    }
  }

  lemma StreamBounds(flat: Bytes, offset: nat, total: nat, bpc: nat, messages: seq<Bytes>, pending: Bytes, sentBytes: nat)
    requires Streaming(flat, offset, total, bpc, messages, pending, sentBytes)
    ensures |pending| < 16 && total <= |flat| && sentBytes == if total <= offset then 0 else total - offset
  {
  }

  lemma StreamNone(flat: Bytes, offset: nat, bpc: nat)
    requires bpc > 0
    ensures Streaming(flat, offset, 0, bpc, [], [], 0)
  {
  }

  lemma FlattenEmpty(clusters: seq<Bytes>)
    ensures Flatten(clusters, []) == []
  {
  }

  lemma ClusterInFlat(clusters: seq<Bytes>, s: Chain, k: nat, bpc: nat)
    requires Even(clusters, bpc) && OnVolume(clusters, s) && k < |s|
    ensures s[k] < |clusters| && |clusters[s[k]]| == bpc && k * bpc + bpc <= |Flatten(clusters, s)|
    ensures forall j :: 0 <= j < bpc ==> clusters[s[k]][j] == Flatten(clusters, s)[k * bpc + j]
  {
    hide Flatten;
    FlattenSplit(clusters, s, k, bpc);
  }

  lemma StreamDone(flat: Bytes, offset: nat, total: nat, bpc: nat, messages: seq<Bytes>, pending: Bytes, sentBytes: nat,
                   size: nat, count: nat, k: nat, n: nat)
    requires Streaming(flat, offset, total, bpc, messages, pending, sentBytes)
    requires |flat| == n * bpc && k <= n && (k == n || sentBytes >= count)
    requires if count > 0 then total == ReadEnd(k * bpc, size, offset, count) else total == 0
    ensures InMessages(if pending != [] then messages + [pending] else messages,
                       Streamed(flat, offset, ReadEnd(|flat|, size, offset, count), bpc))
  {
    hide Streamed, ReadEnd, Joined;
    JoinedMore(messages, pending);
    if count == 0 {
      EndAtOnce(|flat|, size, offset);
      StreamedShort(flat, offset, total, bpc);
      StreamedShort(flat, offset, ReadEnd(|flat|, size, offset, count), bpc);
    } else if k < n {
      MulMono(k, n, bpc);
      EndReached(k * bpc, |flat|, size, offset, count);
    }
  }

  lemma EndAtOnce(length: nat, size: nat, offset: nat)
    ensures ReadEnd(length, size, offset, 0) <= offset && ReadEnd(length, size, offset, 0) <= length
  {
  }

  /** A read that got all it asked for ends there, however long the file is. */
  lemma EndReached(length: nat, whole: nat, size: nat, offset: nat, count: nat)
    requires length <= whole && ReadEnd(length, size, offset, count) >= offset + count
    ensures ReadEnd(whole, size, offset, count) == ReadEnd(length, size, offset, count)
  {
  }

  lemma StreamedShort(flat: Bytes, offset: nat, total: nat, bpc: nat)
    requires bpc > 0 && total <= |flat|
    ensures total <= offset ==> Streamed(flat, offset, total, bpc) == []
  {
  }

  /** The outer loop of a read: cluster by cluster along the chain. */
  method StreamChain(server: FileSystemServer, first: nat, size: nat, offset: nat, count: nat, ghost s: Chain)
    returns (messages: seq<Bytes>)
    requires server.Valid() && (if first == 0 then s == [] else IsChain(server.fat, s) && s[0] == first)
    modifies server.fatBuf, server.clusterBuf, server`clusterNum
    ensures server.Valid() && server.bytesPerCluster > 0
    ensures var flat := Flatten(server.clusters, s);
            InMessages(messages, Streamed(flat, offset, ReadEnd(|flat|, size, offset, count), server.bytesPerCluster))
  {
    hide Flat, Frees, IsChain, Flatten, Streaming, Streamed, Joined, Even, OnVolume, Distinct, FileSystemServer.Valid, InMessages, ReadEnd;
    ghost var bpc, flat := server.bytesPerCluster, Flatten(server.clusters, s);
    VolumeShape(server);
    var total: nat, sentBytes: nat, remain: nat := 0, 0, size;
    var pending: Bytes := [];
    messages := [];
    StreamNone(flat, offset, bpc);
    ReadStart(size, offset, count);
    var cluster := first;
    ghost var k: nat := 0;
    if cluster != 0 {
      ChainOnVolume(server, s);
      ChainStep(server.fat, s, 0);
    } else {
      FlattenEmpty(server.clusters);
    }
    while cluster != 0 && cluster != EOC && sentBytes < count
      invariant server.Valid() && k <= |s| && Streaming(flat, offset, total, bpc, messages, pending, sentBytes)
      invariant s != [] ==> IsChain(server.fat, s)
      invariant if s == [] then cluster == 0 else if k < |s| then cluster == s[k] else cluster == EOC
      invariant total <= size && remain == size - total
      invariant if count > 0 then total == ReadEnd(k * bpc, size, offset, count) else total == 0
      decreases |s| - k
    {
      ChainOnVolume(server, s);
      ChainStep(server.fat, s, k);
      StreamBounds(flat, offset, total, bpc, messages, pending, sentBytes);
      server.ReadCluster(cluster);
      ClusterInFlat(server.clusters, s, k, bpc);
      MulNext(k, bpc);
      ghost var total0 := total;
      ReadBefore(k * bpc, size, offset, count, total, sentBytes);
      var i;
      i, total, sentBytes, messages, pending :=
        StreamCluster(server, offset, count, remain, total, sentBytes, messages, pending, flat, k);
      StreamBounds(flat, offset, total, bpc, messages, pending, sentBytes);
      ReadAfter(k * bpc, bpc, size, offset, count, total0, total, i, sentBytes);
      remain := remain - i;
      VolumeShape(server);
      cluster := server.NextCluster(cluster);
      k := k + 1;
    }
    VolumeShape(server);
    InnerClusters(server.fat, s, k);
    StreamDone(flat, offset, total, bpc, messages, pending, sentBytes, size, count, k, |s|);
    if pending != [] {
      messages := messages + [pending];
    }
  }

  lemma ReadStart(size: nat, offset: nat, count: nat)
    ensures ReadEnd(0, size, offset, count) == 0
  {
  }

  lemma ReadBefore(passed: nat, size: nat, offset: nat, count: nat, total: nat, sentBytes: nat)
    requires total == ReadEnd(passed, size, offset, count) && sentBytes < count
    requires sentBytes == if total <= offset then 0 else total - offset
    ensures total < offset + count && total <= size && (total < size ==> total == passed)
  {
  }

  lemma ReadAfter(passed: nat, bpc: nat, size: nat, offset: nat, count: nat, total0: nat, total: nat, i: nat, sentBytes: nat)
    requires total0 == ReadEnd(passed, size, offset, count) < offset + count && total == total0 + i
    requires sentBytes == (if total <= offset then 0 else total - offset) && total <= offset + count
    requires i <= size - total0 && i <= bpc && (sentBytes >= count || i == size - total0 || i == bpc)
    ensures count > 0 ==> total == ReadEnd(passed + bpc, size, offset, count)
  {
  }

  lemma InnerClusters(fat: seq<nat>, s: Chain, k: nat)
    requires s != [] ==> IsChain(fat, s) && |fat| <= EOC_MIN
    ensures k < |s| ==> 2 <= s[k] < EOC
  {
  }

  /** A read message: the source's ReadState on a file. The stream goes out in messages of 16 bytes
      and a shorter one, and after them one of length 0. */
  method HandleRead(server: FileSystemServer, path: Bytes, count: nat, offset: nat, ghost p: Place, ghost s: Chain)
    returns (messages: seq<Bytes>)
    requires server.Valid() && FileAt(server.fat, server.Dirs(), path, p, s)
    modifies server.fatBuf, server.clusterBuf, server`clusterNum
    ensures server.Valid() && server.Dirs().At(p).Some? && server.bytesPerCluster > 0
    ensures var flat := Flatten(server.clusters, s);
            var size := FileSize(server.Dirs().At(p).value);
            InMessages(messages, Streamed(flat, offset, ReadEnd(|flat|, size, offset, count), server.bytesPerCluster))
  {
    hide Flat, IsChain, Flatten, FirstCluster, FileSize, Streamed, InMessages, SlotAt, Tree.Lookup, Tree.Closed, DirChains;
    var found := server.FindFile(path, 0);
    var entry := SlotAt(server.clusterBuf[..], found.value.index);
    assert server.Dirs().At(p) == Some(entry);
    messages := StreamChain(server, FirstCluster(entry), FileSize(entry), offset, count, s);
  }

  /** servers/am/filedescriptor.cpp: an open file, with the offsets of its next read and write. */
  class FatFileDescriptor {
    const filename: Bytes
    var rdOff: nat
    var wrOff: nat

    constructor (filename: Bytes)
      ensures this.filename == filename && rdOff == 0 && wrOff == 0
    {
      this.filename, rdOff, wrOff := filename, 0, 0;
    }

    /** One write() of the library: messages of up to 16 bytes, then one of length 0. The unused bytes
        of a message hold anything. */
    method Write(server: FileSystemServer, data: Bytes, ghost p: Place, ghost s: Chain) returns (ghost s': Chain, ghost e': Slot)
      requires server.Valid() && FileAt(server.fat, server.Dirs(), filename, p, s)
      requires data != [] && wrOff + |data| < 0x1_0000_0000
      requires ChainAfter(|s|, |data|, wrOff, |data|, server.bytesPerCluster) <= |s| + |Frees(server.fat, 2)|
      modifies this`wrOff, server.fatBuf, server.clusterBuf, server`clusterNum, server`fatSectors, server`fat, server`clusters
      ensures server.Valid() && wrOff == old(wrOff) + |data|
      ensures Writing(old(server.fat), old(server.Dirs()), filename, p, s, server.fat, server.Dirs(), s', e')
      ensures |s'| == ChainAfter(|s|, |data|, old(wrOff), |data|, server.bytesPerCluster)
      ensures FileSize(e') == wrOff
      ensures InPlace(Flatten(old(server.clusters), s'), Flatten(server.clusters, s'), old(wrOff), data)
    {
      hide Grown, Flat, Frees, IsChain, Flatten, Splice, Wrote, FileSystemServer.Valid, FirstCluster, FileSize, Reached,
        WithFirstCluster, WithFileSize, Tree.At, Tree.Lookup, Tree.Closed, DirChains, FileAt, ChainAfter, WrittenEntry,
        Name, Attr, SameFile, Received, InPlace, Writing;
      ghost var w := Order(filename, p, data, wrOff, server.bytesPerCluster);
      ghost var a := ReachedNone(server, w, s);
      ghost var b := a;
      var sentBytes := 0;
      while sentBytes < |data|
        invariant sentBytes <= |data| && wrOff == w.offset + sentBytes && server.Valid()
        invariant b.fat == server.fat && b.dirs == server.Dirs() && Reached(w, a, b, sentBytes)
      {
        var len := if |data| - sentBytes > 16 then 16 else |data| - sentBytes;
        assert |Zeros(32)| == 32;
        var junk: Bytes :| |junk| == 32;
        var message := data[sentBytes..sentBytes + len] + junk[len..];
        b := HandleChunk(server, filename, |data|, wrOff, len, message, w, sentBytes, a, b);
        sentBytes := sentBytes + len;
        wrOff := wrOff + len;
      }
      b := HandleLast(server, filename, |data|, wrOff, w, a, b);
      s', e' := b.chain, b.entry;
    }

    /** One read() of the library: the messages of the stream, end to end. */
    method Read(server: FileSystemServer, count: nat, ghost p: Place, ghost s: Chain) returns (buf: Bytes)
      requires server.Valid() && FileAt(server.fat, server.Dirs(), filename, p, s)
      modifies this`rdOff, server.fatBuf, server.clusterBuf, server`clusterNum
      ensures server.Valid() && server.Dirs().At(p).Some? && server.bytesPerCluster > 0
      ensures var flat := Flatten(server.clusters, s);
              var size := FileSize(server.Dirs().At(p).value);
              buf == Streamed(flat, old(rdOff), ReadEnd(|flat|, size, old(rdOff), count), server.bytesPerCluster)
      ensures rdOff == old(rdOff) + |buf|
    {
      hide Flat, IsChain, Flatten, FileSize, Streamed, Tree.Lookup, Tree.At, DirChains, FileAt, FileSystemServer.Valid, ReadEnd;
      var messages := HandleRead(server, filename, count, rdOff, p, s);
      VolumeShape(server);
      buf := [];
      ghost var o := rdOff;
      for i := 0 to |messages|
        invariant buf == Joined(messages[..i]) && rdOff == o + |buf|
        modifies this`rdOff
      {
        assert messages[..i + 1] == messages[..i] + [messages[i]];
        JoinedMore(messages[..i], messages[i]);
        buf := buf + messages[i];
        rdOff := rdOff + |messages[i]|;
      }
      assert messages[..|messages|] == messages;
    }
  }

  /** The round trip: what was written through one descriptor is read back through another that has
      read nothing yet, behind whatever the file held before the write offset; and the file was
      written as the run of messages says. */
  method WriteThenRead(server: FileSystemServer, w: FatFileDescriptor, r: FatFileDescriptor, data: Bytes, count: nat,
                       ghost p: Place, ghost s: Chain)
    returns (got: Bytes, ghost s': Chain, ghost e': Slot)
    requires server.Valid() && FileAt(server.fat, server.Dirs(), w.filename, p, s)
    requires w != r && r.filename == w.filename && r.rdOff == 0
    requires data != [] && w.wrOff + |data| < 0x1_0000_0000 && w.wrOff + |data| <= count
    requires ChainAfter(|s|, |data|, w.wrOff, |data|, server.bytesPerCluster) <= |s| + |Frees(server.fat, 2)|
    modifies w`wrOff, r`rdOff, server.fatBuf, server.clusterBuf, server`clusterNum, server`fatSectors, server`fat, server`clusters
    ensures server.Valid() && Writing(old(server.fat), old(server.Dirs()), w.filename, p, s, server.fat, server.Dirs(), s', e')
    ensures old(w.wrOff) <= |Flatten(old(server.clusters), s')|
    ensures got == Flatten(old(server.clusters), s')[..old(w.wrOff)] + data
    ensures r.rdOff == |got| == w.wrOff == FileSize(e')
    ensures |s'| == ChainAfter(|s|, |data|, old(w.wrOff), |data|, server.bytesPerCluster)
  {
    hide Flat, IsChain, Flatten, FileSize, Tree.Lookup, Tree.At, DirChains, FileAt, FileSystemServer.Valid, ChainAfter, Frees,
      Writing, Streamed;
    ghost var o, clusters0 := w.wrOff, server.clusters;
    ghost var fat0, t0 := server.fat, server.Dirs();
    s', e' := w.Write(server, data, p, s);
    WritingEntry(fat0, t0, w.filename, p, s, server.fat, server.Dirs(), s', e');
    got := r.Read(server, count, p, s');
    StreamedExact(Flatten(server.clusters, s'), 0, o + |data|, server.bytesPerCluster);
  }

  /** The source's CopyToBufferState: the clusters of a file, into the buffer of a task that was
      resized to the file's size. */
  method CopyImage(server: FileSystemServer, first: nat, size: nat, buf: array<byte>, ghost s: Chain)
    requires server.Valid() && (if first == 0 then s == [] else IsChain(server.fat, s) && s[0] == first)
    requires buf.Length == size && buf != server.clusterBuf
    modifies server.fatBuf, server.clusterBuf, server`clusterNum, buf
    ensures server.Valid() && server.bytesPerCluster > 0 && Even(server.clusters, server.bytesPerCluster)
    ensures OnVolume(server.clusters, s)
    ensures buf[..] == CopiedImage(server.clusters, s, size, server.bytesPerCluster, old(buf[..]))
  {
    hide Flat, Frees, IsChain, Flatten, Even, OnVolume, Distinct, FileSystemServer.Valid, CopiedImage, ImageAfter;
    ghost var bpc, was := server.bytesPerCluster, buf[..];
    VolumeShape(server);
    var cluster, offset: nat, remain: nat := first, 0, size;
    ghost var k: nat := 0;
    if cluster != 0 {
      ChainOnVolume(server, s);
      ChainStep(server.fat, s, 0);
    }
    assert OnVolume(server.clusters, s) by {
      if first == 0 { NothingOnVolume(server.clusters); }
    }
    ImageStart(server.clusters, s, size, bpc, was);
    while cluster != 0 && cluster != EOC
      invariant server.Valid() && k <= |s| && offset + remain == size && OnVolume(server.clusters, s)
      invariant s != [] ==> IsChain(server.fat, s)
      invariant if s == [] then cluster == 0 else if k < |s| then cluster == s[k] else cluster == EOC
      invariant ImageAfter(server.clusters, s, size, bpc, was, k, offset, buf[..])
      decreases |s| - k
    {
      VolumeShape(server);
      ChainStep(server.fat, s, k);
      server.ReadCluster(cluster);
      var n := if remain >= server.bytesPerCluster then server.bytesPerCluster else remain;
      EvenAt(server.clusters, cluster, bpc);
      ghost var before := buf[..];
      forall i | 0 <= i < n {
        buf[offset + i] := server.clusterBuf[i];
      }
      assert buf[..] == Splice(before, offset, server.clusters[s[k]][..n]);
      ImageNext(server.clusters, s, size, bpc, was, k, offset, before);
      if remain >= server.bytesPerCluster {
        offset := offset + server.bytesPerCluster;
        remain := remain - server.bytesPerCluster;
      }
      cluster := server.NextCluster(cluster);
      k := k + 1;
    }
    VolumeShape(server);
    InnerClusters(server.fat, s, k);
    ImageEnd(server.clusters, s, size, bpc, was, offset, buf[..]);
  }

  lemma NothingOnVolume(clusters: seq<Bytes>)
    ensures OnVolume(clusters, [])
  {
  }
}
