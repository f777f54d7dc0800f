/** servers/fs/fs.cpp: the FAT32 server over its one-sector table buffer and one-cluster data buffer. */
module FileSystem {
  import opened Options
  import opened FatChains
  import opened FatNames
  import opened FatDirectory

  /** Table entries in one 512-byte sector, the sector size of the volume system calls. */
  const ENTRIES_PER_SECTOR: nat := 128

  const EISDIR: nat := 21
  const ENOENT: nat := 2

  class FileSystemServer {
    /** The table area of the volume image, sector by sector. */
    var fatSectors: seq<seq<nat>>
    /** The data area of the volume image, by cluster number; numbers 0 and 1 name no cluster. */
    var clusters: seq<Bytes>
    const bytesPerCluster: nat
    const fatBuf: array<nat>
    const clusterBuf: array<byte>
    var clusterNum: nat
    const rootCluster: nat
    /** The table as one flat array. */
    ghost var fat: seq<nat>
    /** The directories of the volume: their chains, by first cluster. */
    ghost var dirs: map<nat, Chain>

    ghost predicate Valid()
      reads this, fatBuf, clusterBuf
    {
      && fatBuf.Length == ENTRIES_PER_SECTOR
      && clusterBuf.Length == bytesPerCluster && 0 < bytesPerCluster && bytesPerCluster % 512 == 0
      && Flat(fatSectors, fat) && |fat| <= EOC_MIN
      && |clusters| == |fat| && forall c :: 0 <= c < |clusters| ==> |clusters[c]| == bytesPerCluster
    }

    /** The directory part of the volume as lookups see it. */
    ghost function Dirs(): Tree
      reads this
    {
      Tree(clusters, dirs, rootCluster)
    }

    ghost predicate ValidDirs()
      reads this
    {
      && DirChains(fat, dirs) && Dirs().Closed()
    }

    constructor (bytesPerCluster: nat, rootCluster: nat, ghost dirs: map<nat, Chain>, fatSectors: seq<seq<nat>>, clusters: seq<Bytes>, ghost fat: seq<nat>)
      requires 0 < bytesPerCluster && bytesPerCluster % 512 == 0 && Flat(fatSectors, fat) && |fat| <= EOC_MIN
      requires |clusters| == |fat| && forall c :: 0 <= c < |clusters| ==> |clusters[c]| == bytesPerCluster
      ensures Valid() && this.fatSectors == fatSectors && this.clusters == clusters && this.fat == fat
      ensures this.rootCluster == rootCluster && this.dirs == dirs
      ensures fresh(fatBuf) && fresh(clusterBuf) && this.bytesPerCluster == bytesPerCluster
    {
      this.bytesPerCluster, this.rootCluster, this.dirs := bytesPerCluster, rootCluster, dirs;
      this.fatSectors, this.clusters, this.fat := fatSectors, clusters, fat;
      fatBuf := new nat[ENTRIES_PER_SECTOR];
      clusterBuf := new byte[bytesPerCluster];
      clusterNum := 0;
    }

    /** Reads the table sector of a cluster into the buffer; the entry is at the returned index. */
    method GetFAT(cluster: nat) returns (index: nat)
      requires Valid() && cluster < |fat|
      modifies fatBuf
      ensures Valid()
      ensures index == cluster % ENTRIES_PER_SECTOR < fatBuf.Length && fatBuf[index] == fat[cluster]
      ensures fatBuf[..] == fatSectors[cluster / ENTRIES_PER_SECTOR]
    {
      var sectorOffset := cluster / ENTRIES_PER_SECTOR;
      forall i | 0 <= i < ENTRIES_PER_SECTOR {
        fatBuf[i] := fatSectors[sectorOffset][i];
      }
      assert fatBuf[..] == fatSectors[sectorOffset];
      index := cluster - ENTRIES_PER_SECTOR * sectorOffset;
    }

    /** Writes the buffer back to the table sector of a cluster. */
    method UpdateFAT(cluster: nat, ghost value: nat)
      requires Valid() && cluster < |fat|
      requires fatBuf[..] == fatSectors[cluster / ENTRIES_PER_SECTOR][cluster % ENTRIES_PER_SECTOR := value]
      modifies this`fatSectors, this`fat
      ensures Valid() && fat == old(fat)[cluster := value]
    {
      var sectorOffset := cluster / ENTRIES_PER_SECTOR;
      fatSectors := fatSectors[sectorOffset := fatBuf[..]];
      fat := fat[cluster := value];
      FlatUpdate(old(fatSectors), old(fat), cluster, value);
    }

    method NextCluster(cluster: nat) returns (next: nat)
      requires Valid() && cluster < |fat|
      modifies fatBuf
      ensures Valid()
      ensures next == if fat[cluster] >= EOC_MIN then EOC else fat[cluster]
    {
      var index := GetFAT(cluster);
      next := fatBuf[index];
      if next >= EOC_MIN {
        next := EOC;
      }
    }

    /** Points the table entry of one cluster somewhere else, through the buffer. */
    method WriteFAT(cluster: nat, value: nat)
      requires Valid() && cluster < |fat|
      modifies fatBuf, this`fatSectors, this`fat
      ensures Valid() && fat == old(fat)[cluster := value]
    {
      var j := GetFAT(cluster);
      fatBuf[j] := value;
      assert fatBuf[..] == fatSectors[cluster / ENTRIES_PER_SECTOR][cluster % ENTRIES_PER_SECTOR := value];
      UpdateFAT(cluster, value);
    }

    /** The first loop of ExtendCluster: from any cluster of a chain to its last. */
    method LastCluster(cluster: nat, ghost s: Chain, ghost k: nat) returns (last: nat)
      requires Valid() && IsChain(fat, s) && k < |s| && s[k] == cluster
      modifies fatBuf
      ensures Valid() && last == s[|s| - 1]
    {
      last := cluster;
      ghost var at := k;
      while true
        invariant Valid() && at < |s| && s[at] == last
        decreases |s| - at
      {
        assert at < |s| - 1 ==> fat[s[at]] == s[at + 1];
        var index := GetFAT(last);
        if fatBuf[index] >= EOC_MIN {
          return;
        }
        last := fatBuf[index];
        at := at + 1;
      }
    }

    /** Hangs n free clusters behind the chain s that eocCluster is on, lowest numbers first. */
    method ExtendCluster(eocCluster: nat, n: nat, ghost s: Chain, ghost k: nat)
      returns (current: nat, ghost news: seq<nat>)
      requires Valid() && IsChain(fat, s) && k < |s| && s[k] == eocCluster
      requires n <= |Frees(fat, 2)|
      modifies fatBuf, this`fatSectors, this`fat
      ensures Valid()
      ensures Grown(old(fat), s, fat, s + news) && |news| == n
      ensures current == (s + news)[|s| + n - 1]
    {
      hide IsChain, Linking, Extended, Frees, Flat, Grown, FileSystemServer.Valid;
      current := LastCluster(eocCluster, s, k);
      ghost var fat0 := fat;
      LastInUse(fat, s);
      news := [];
      var numAllocated := 0;
      var candidate := 2;
      LinkNone(fat0, s[|s| - 1]);
      while numAllocated < n
        invariant Valid() && |fat| == |fat0| && 2 <= candidate
        invariant Frees(fat0, 2) == news + Frees(fat0, candidate) && |news| == numAllocated <= n
        invariant Linking(fat0, fat, s[|s| - 1], news, candidate)
        invariant current == (if news == [] then s[|s| - 1] else news[|news| - 1]) < |fat|
        decreases |fat| - candidate
      {
        FreesStep(fat0, news, candidate);
        LinkingAhead(fat0, fat, s[|s| - 1], news, candidate);
        var i := GetFAT(candidate);
        if fatBuf[i] == 0 {
          LinkOne(fat0, fat, s[|s| - 1], news, candidate);
          WriteFAT(current, candidate);
          current := candidate;
          news := news + [candidate];
          numAllocated := numAllocated + 1;
        }
        candidate := candidate + 1;
      }
      LinkEnd(fat0, fat, s[|s| - 1], news, candidate);
      WriteFAT(current, EOC);
      ExtendGrown(fat0, fat, s, news);
    }

    /** Takes the lowest free cluster and chains n - 1 more behind it. A chain is never empty: for
        n = 0 one cluster is taken all the same. */
    method AllocateClusterChain(n: nat) returns (firstCluster: nat, ghost s: Chain)
      requires Valid() && 1 <= |Frees(fat, 2)| && n <= |Frees(fat, 2)|
      modifies fatBuf, this`fatSectors, this`fat
      ensures Valid()
      ensures |s| == (if n == 0 then 1 else n) && firstCluster == s[0] && Grown(old(fat), [], fat, s)
    {
      hide IsChain, Frees, Grown;
      firstCluster := 2;
      ghost var fat0 := fat;
      while true
        invariant Valid() && fat == fat0 && 2 <= firstCluster
        invariant Frees(fat0, 2) == Frees(fat0, firstCluster)
        decreases |fat| - firstCluster
      {
        FreesUnfold(fat0, firstCluster);
        var i := GetFAT(firstCluster);
        if fatBuf[i] == 0 {
          fatBuf[i] := EOC;
          break;
        }
        firstCluster := firstCluster + 1;
      }
      assert fatBuf[..] == fatSectors[firstCluster / ENTRIES_PER_SECTOR][firstCluster % ENTRIES_PER_SECTOR := EOC];
      UpdateFAT(firstCluster, EOC);
      s := [firstCluster];
      ChainOfOne(fat0, firstCluster);
      if n > 1 {
        ghost var fat1 := fat;
        var last;
        ghost var news;
        GrownNew(fat0, [], fat1, s);
        last, news := ExtendCluster(firstCluster, n - 1, s, 0);
        GrownTrans(fat0, [], fat1, s, fat, s + news);
        s := s + news;
      }
    }

    method ReadCluster(cluster: nat)
      requires Valid() && cluster < |clusters|
      modifies clusterBuf, this`clusterNum
      ensures Valid() && clusterBuf[..] == clusters[cluster] && clusterNum == cluster
    {
      clusterNum := cluster;
      forall i | 0 <= i < bytesPerCluster {
        clusterBuf[i] := clusters[cluster][i];
      }
    }

    /** Writes the buffer to a cluster; 0 stands for the one read last. */
    method UpdateCluster(cluster: nat)
      requires Valid() && (if cluster == 0 then clusterNum else cluster) < |clusters|
      modifies this`clusters
      ensures Valid() && clusters == old(clusters)[(if cluster == 0 then clusterNum else cluster) := clusterBuf[..]]
    {
      var c := if cluster == 0 then clusterNum else cluster;
      clusters := clusters[c := clusterBuf[..]];
    }

    /** Looks one element up in the entries of the cluster in the buffer. */
    method ScanBuffer(element: Bytes) returns (r: Option<nat>)
      requires Valid()
      ensures r == Scan(clusterBuf[..], Name83(element), 0)
    {
      var i := 0;
      while i < bytesPerCluster / ENTRY_SIZE
        invariant i <= bytesPerCluster / ENTRY_SIZE
        invariant Scan(clusterBuf[..], Name83(element), i) == Scan(clusterBuf[..], Name83(element), 0)
      {
        var same := NameIsEqual(Name(SlotAt(clusterBuf[..], i)), element);
        if same {
          return Some(i);
        }
        i := i + 1;
      }
      return None;
    }

    /** The search loop of FindFile: one directory, cluster by cluster. The comparison with an end
        mark that the source has there tests the address of a field and never holds. */
    method SearchDirectory(start: nat, element: Bytes) returns (r: Option<Place>)
      requires Valid() && ValidDirs() && start in dirs
      modifies fatBuf, clusterBuf, this`clusterNum
      ensures Valid()
      ensures r == FindIn(clusters, dirs[start], 0, Name83(element))
      ensures r.Some? ==> EntryInBuffer(r.value)
    {
      hide Scan, FindIn, Flat, Frees, Name83, SlotAt, Tree.Closed, IsChain;
      ghost var s := dirs[start];
      ghost var k := 0;
      LastInUse(fat, s);
      var cluster := start;
      while cluster != EOC
        invariant Valid() && k <= |s| && (if k < |s| then cluster == s[k] else cluster == EOC)
        invariant FindIn(clusters, s, k, Name83(element)) == FindIn(clusters, s, 0, Name83(element))
        decreases |s| - k
      {
        ChainStep(fat, s, k);
        FindUnfold(clusters, s, k, Name83(element));
        ReadCluster(cluster);
        var found := ScanBuffer(element);
        if found.Some? {
          FoundEntry(clusterBuf[..], Name83(element), found.value);
          return Some(Place(cluster, found.value));
        }
        cluster := NextCluster(cluster);
        k := k + 1;
      }
      assert k == |s| by {
        if k < |s| {
          ChainStep(fat, s, k);
        }
      }
      FindUnfold(clusters, s, k, Name83(element));
      return None;
    }

    /** Resolves a path. The entry found is left in the cluster buffer. */
    method FindFile(path: Bytes, directoryCluster: nat) returns (r: Option<Place>)
      requires Valid() && ValidDirs() && (directoryCluster == 0 || directoryCluster in dirs)
      modifies fatBuf, clusterBuf, this`clusterNum
      ensures Valid()
      ensures r == Dirs().Lookup(path, directoryCluster)
      ensures r.Some? ==> EntryInBuffer(r.value)
      decreases |path|
    {
      hide Scan, FindIn, Flat, Frees, Name83, Tree.Closed, Tree.Lookup, IsChain, DirChains, FirstCluster, FirstSlash, Attr, FileSystemServer.Valid;
      ghost var t := Dirs();
      RootIsDirectory(t);
      LookupStep(t, path, directoryCluster);
      var rest, start := path, directoryCluster;
      if path != [] && path[0] == SLASH {
        start := rootCluster;
        rest := path[1..];
      } else if directoryCluster == 0 {
        start := rootCluster;
      }
      var slash := FirstSlash(rest);
      r := SearchDirectory(start, rest[..slash]);
      if r.Some? {
        var entry := SlotAt(clusterBuf[..], r.value.index);
        assert t.At(r.value) == Some(entry);
        if Attr(entry) == ATTR_DIRECTORY && slash + 1 < |rest| {
          FoundLeadsOn(t, start, Name83(rest[..slash]), r.value);
          r := FindFile(rest[slash + 1..], FirstCluster(entry));
        }
      }
    }

    /** The first free entry of the cluster in the buffer. */
    method ScanFreeBuffer() returns (r: Option<nat>)
      requires Valid()
      ensures r == ScanFree(clusterBuf[..], 0)
    {
      var i := 0;
      while i < bytesPerCluster / ENTRY_SIZE
        invariant i <= bytesPerCluster / ENTRY_SIZE
        invariant ScanFree(clusterBuf[..], i) == ScanFree(clusterBuf[..], 0)
      {
        if Free(SlotAt(clusterBuf[..], i)) {
          return Some(i);
        }
        i := i + 1;
      }
      return None;
    }

    /** The loop of AllocateEntry: the first free entry of a directory, or its last cluster. */
    method SearchFreeEntry(start: nat) returns (r: Option<Place>, last: nat)
      requires Valid() && ValidDirs() && start in dirs
      modifies fatBuf, clusterBuf, this`clusterNum
      ensures Valid() && r == FreeIn(clusters, dirs[start], 0)
      ensures r.Some? ==> EntryInBuffer(r.value)
      ensures r == None ==> last == dirs[start][|dirs[start]| - 1]
    {
      hide ScanFree, FreeIn, Flat, Frees, SlotAt, Tree.Closed, IsChain;
      ghost var s := dirs[start];
      ghost var k := 0;
      LastInUse(fat, s);
      last := start;
      while true
        invariant Valid() && k < |s| && last == s[k]
        invariant FreeIn(clusters, s, k) == FreeIn(clusters, s, 0)
        decreases |s| - k
      {
        ChainStep(fat, s, k);
        FreeUnfold(clusters, s, k);
        ReadCluster(last);
        var found := ScanFreeBuffer();
        if found.Some? {
          FreeEntry(clusterBuf[..], found.value);
          return Some(Place(last, found.value)), last;
        }
        var next := NextCluster(last);
        if next == EOC {
          FreeUnfold(clusters, s, k + 1);
          return None, last;
        }
        last := next;
        k := k + 1;
      }
    }

    /** A free entry in the buffer, in a new blank cluster if the directory is full. */
    method AllocateEntry(dirCluster: nat) returns (p: Place)
      requires Valid() && ValidDirs() && dirCluster in dirs
      requires FreeIn(clusters, dirs[dirCluster], 0).Some? || 1 <= |Frees(fat, 2)|
      modifies fatBuf, clusterBuf, this`clusterNum, this`fatSectors, this`fat, this`dirs
      ensures Valid() && DirChains(fat, dirs) && p.cluster < |clusters|
      ensures ENTRY_SIZE * p.index + ENTRY_SIZE <= clusterBuf.Length && clusterNum == p.cluster
      ensures match FreeIn(clusters, old(dirs)[dirCluster], 0)
              case Some(q) => p == q && dirs == old(dirs) && fat == old(fat) && clusterBuf[..] == clusters[p.cluster]
              case None =>
                && p == Place(Frees(old(fat), 2)[0], 0)
                && dirs == old(dirs)[dirCluster := old(dirs)[dirCluster] + [p.cluster]]
                && clusterBuf[..] == Zeros(bytesPerCluster)
                && forall e :: e in old(dirs) ==> p.cluster !in old(dirs)[e]
      ensures FreeLeft(old(fat), fat, FreeIn(clusters, old(dirs)[dirCluster], 0).Some?)
    {
      hide ScanFree, FreeIn, Flat, Frees, SlotAt, Tree.Closed, IsChain, DirChains, Grown, Zeros;
      ghost var s := dirs[dirCluster];
      DirChain(fat, dirs, dirCluster);
      var r, last := SearchFreeEntry(dirCluster);
      if r.Some? {
        return r.value;
      }
      ghost var fat0 := fat;
      var c;
      ghost var news;
      LastInUse(fat, s);
      c, news := ExtendCluster(last, 1, s, |s| - 1);
      assert news == [c];
      NewDirCluster(fat0, fat, dirs, dirCluster, news);
      GrownNew(fat0, s, fat, s + news);
      dirs := dirs[dirCluster := s + [c]];
      ReadCluster(c);
      forall i | 0 <= i < bytesPerCluster {
        clusterBuf[i] := 0;
      }
      assert clusterBuf[..] == Zeros(bytesPerCluster);
      return Place(c, 0);
    }

    /** Rewrites one 32-byte entry of the buffer. */
    method PutEntry(i: nat, e: Slot)
      requires Valid() && ENTRY_SIZE * i + ENTRY_SIZE <= clusterBuf.Length
      modifies clusterBuf
      ensures Valid() && clusterBuf[..] == PutSlot(old(clusterBuf[..]), i, e)
    {
      forall k | ENTRY_SIZE * i <= k < ENTRY_SIZE * i + ENTRY_SIZE {
        clusterBuf[k] := e[k - ENTRY_SIZE * i];
      }
      assert clusterBuf[..] == PutSlot(old(clusterBuf[..]), i, e);
    }

    /** Enters a name in a directory. */
    method CreateIn(dirCluster: nat, filename: Bytes) returns (p: Place)
      requires Valid() && ValidDirs() && dirCluster in dirs
      requires FreeIn(clusters, dirs[dirCluster], 0).Some? || 1 <= |Frees(fat, 2)|
      modifies fatBuf, clusterBuf, this`clusterNum, this`fatSectors, this`fat, this`dirs, this`clusters
      ensures Valid() && DirChains(fat, dirs) && EntryInBuffer(p)
      ensures Entered(old(Dirs()), Dirs(), dirCluster, p, filename, bytesPerCluster)
      ensures FreeLeft(old(fat), fat, FreeIn(old(clusters), old(dirs)[dirCluster], 0).Some?)
    {
      hide FreeIn, Flat, Frees, Tree.Closed, IsChain, DirChains, Zeros, SlotAt, PutSlot, Stored, WithFileSize, Free;
      ghost var t := Dirs();
      if FreeIn(clusters, dirs[dirCluster], 0).Some? {
        FreeInEntry(clusters, dirs[dirCluster], 0);
      }
      p := AllocateEntry(dirCluster);
      ghost var buf := clusterBuf[..];
      SetFileName(clusterBuf, ENTRY_SIZE * p.index, filename);
      NamePut(buf, p.index, filename);
      PutEntry(p.index, WithFileSize(SlotAt(clusterBuf[..], p.index), 0));
      PutTwice(buf, p.index, WithName(SlotAt(buf, p.index), Stored(filename)), NewEntry(SlotAt(buf, p.index), filename));
      UpdateCluster(p.cluster);
      ZeroEntry(bytesPerCluster);
    }

    /** CreateFile: the errno is 0 exactly when the parent directory was found. */
    method CreateFile(path: Bytes) returns (r: Option<Place>, errno: nat)
      requires Valid() && ValidDirs()
      requires match ParentOf(Dirs(), path)
               case In(d) => d in dirs && (FreeIn(clusters, dirs[d], 0).Some? || 1 <= |Frees(fat, 2)|)
               case _ => true
      modifies fatBuf, clusterBuf, this`clusterNum, this`fatSectors, this`fat, this`dirs, this`clusters
      ensures Valid() && DirChains(fat, dirs)
      ensures match ParentOf(old(Dirs()), path)
              case In(d) =>
                errno == 0 && r.Some? && EntryInBuffer(r.value)
                && Entered(old(Dirs()), Dirs(), d, r.value, FileName(path), bytesPerCluster)
                && FreeLeft(old(fat), fat, FreeIn(old(clusters), old(dirs)[d], 0).Some?)
              case EndsInSlash => errno == EISDIR && r == None && Dirs() == old(Dirs()) && fat == old(fat)
              case NoParent => errno == ENOENT && r == None && Dirs() == old(Dirs()) && fat == old(fat)
    {
      hide FreeIn, Flat, Frees, Tree.Closed, IsChain, DirChains, Entered, FirstCluster, SlotAt, Tree.Lookup;
      RootIsDirectory(Dirs());
      var parent := rootCluster;
      var k := LastSlash(path);
      if k < |path| {
        if k == |path| - 1 {
          return None, EISDIR;
        }
        if k > 0 {
          var found := FindFile(path[..k], 0);
          if found == None {
            return None, ENOENT;
          }
          parent := FirstCluster(SlotAt(clusterBuf[..], found.value.index));
        }
      }
      var p := CreateIn(parent, FileName(path));
      return Some(p), 0;
    }

    ghost predicate EntryInBuffer(p: Place)
      reads this, clusterBuf
    {
      && p.cluster < |clusters| && clusterNum == p.cluster && clusterBuf[..] == clusters[p.cluster]
      && ENTRY_SIZE * p.index + ENTRY_SIZE <= clusterBuf.Length
    }
  }

  /** Making an entry takes a cluster when the directory has no free one. */
  ghost predicate FreeLeft(fat: seq<nat>, fat': seq<nat>, free: bool) {
    |fat'| == |fat| && |Frees(fat, 2)| == |Frees(fat', 2)| + if free then 0 else 1
  }

  /** The directories' chains: each under its first cluster, no two sharing a cluster. */
  ghost predicate DirChains(fat: seq<nat>, dirs: map<nat, Chain>) {
    && (forall d :: d in dirs ==> IsChain(fat, dirs[d]) && dirs[d][0] == d)
    && (forall d, e, x :: d in dirs && e in dirs && d != e && x in dirs[d] ==> x !in dirs[e])
  }

  lemma DirChain(fat: seq<nat>, dirs: map<nat, Chain>, d: nat)
    requires DirChains(fat, dirs) && d in dirs
    ensures IsChain(fat, dirs[d]) && dirs[d] != [] && dirs[d][0] == d
  {
  }

  /** Extending a directory by one free cluster keeps all directories apart. */
  lemma NewDirCluster(fat: seq<nat>, fat': seq<nat>, dirs: map<nat, Chain>, d: nat, news: seq<nat>)
    requires DirChains(fat, dirs) && d in dirs && dirs[d] != [] && |news| == 1
    requires Grown(fat, dirs[d], fat', dirs[d] + news)
    ensures news == [Frees(fat, 2)[0]] && news[0] < |fat|
    ensures DirChains(fat', dirs[d := dirs[d] + news])
    ensures forall e :: e in dirs ==> news[0] !in dirs[e]
  {
    hide IsChain, Frees, Grown, DirChains;
    OneGrown(fat, dirs[d], fat', news);
    NotInDirs(fat, dirs, news[0]);
    OtherDirs(fat, fat', dirs, d, news);
    DirLonger(fat, fat', dirs, d, news[0]);
    assert news == [news[0]];
  }

  /** No directory has a free cluster. */
  lemma NotInDirs(fat: seq<nat>, dirs: map<nat, Chain>, c: nat)
    requires DirChains(fat, dirs) && c < |fat| && fat[c] == 0
    ensures forall e :: e in dirs ==> c !in dirs[e]
  {
    hide IsChain;
    forall e | e in dirs
      ensures c !in dirs[e]
    {
      if c in dirs[e] {
        InUse(fat, dirs[e], c);
      }
    }
  }

  lemma OtherDirs(fat: seq<nat>, fat': seq<nat>, dirs: map<nat, Chain>, d: nat, news: seq<nat>)
    requires DirChains(fat, dirs) && d in dirs && Grown(fat, dirs[d], fat', dirs[d] + news)
    ensures forall e :: e in dirs && e != d ==> IsChain(fat', dirs[e])
  {
    hide IsChain, Frees, Grown;
    forall e | e in dirs && e != d
      ensures IsChain(fat', dirs[e])
    {
      OtherChainKept(fat, dirs[d], fat', dirs[d] + news, dirs[e]);
    }
  }

  lemma DirLonger(fat: seq<nat>, fat': seq<nat>, dirs: map<nat, Chain>, d: nat, c: nat)
    requires DirChains(fat, dirs) && d in dirs && dirs[d] != [] && IsChain(fat', dirs[d] + [c])
    requires forall e :: e in dirs ==> c !in dirs[e]
    requires forall e :: e in dirs && e != d ==> IsChain(fat', dirs[e])
    ensures DirChains(fat', dirs[d := dirs[d] + [c]])
  {
    hide IsChain;
    assert (dirs[d] + [c])[0] == dirs[d][0];
  }

  /** The one cluster a chain grew by is the lowest free one. */
  lemma OneGrown(fat: seq<nat>, s: Chain, fat': seq<nat>, news: seq<nat>)
    requires Grown(fat, s, fat', s + news) && |news| == 1
    ensures |Frees(fat, 2)| >= 1 && news == [Frees(fat, 2)[0]] && news[0] in s + news
    ensures 2 <= news[0] < |fat| && fat[news[0]] == 0 && IsChain(fat', s + news)
  {
    hide IsChain, Frees;
    GrownNew(fat, s, fat', s + news);
    assert (s + news)[|s|..] == news && (s + news)[|s|] == Frees(fat, 2)[0];
    FreesAre(fat, 2);
    assert news[0] == Frees(fat, 2)[0] && Frees(fat, 2)[0] in Frees(fat, 2);
  }

  /** Writing the name bytes of an entry rewrites that entry. */
  lemma NamePut(buf: Bytes, i: nat, filename: Bytes)
    requires ENTRY_SIZE * i + ENTRY_SIZE <= |buf|
    ensures buf[..ENTRY_SIZE * i] + Stored(filename) + buf[ENTRY_SIZE * i + 11..] ==
            PutSlot(buf, i, WithName(SlotAt(buf, i), Stored(filename)))
  {
    hide Stored;
  }

  lemma PutTwice(buf: Bytes, i: nat, e: Slot, f: Slot)
    requires ENTRY_SIZE * i + ENTRY_SIZE <= |buf|
    ensures PutSlot(PutSlot(buf, i, e), i, f) == PutSlot(buf, i, f)
    ensures SlotAt(PutSlot(buf, i, e), i) == e
  {
    SlotAfterPut(buf, i, e, i);
  }

  lemma ZeroEntry(n: nat)
    requires ENTRY_SIZE <= n
    ensures SlotAt(Zeros(n), 0) == Zeros(32)
  {
  }

  lemma RootIsDirectory(t: Tree)
    requires t.Closed()
    ensures t.root in t.dirs && t.root != 0
  {
  }

  lemma ChainStep(fat: seq<nat>, s: Chain, k: nat)
    requires IsChain(fat, s) && k < |s|
    ensures s[k] < |fat|
    ensures if k < |s| - 1 then fat[s[k]] == s[k + 1] < |fat| else fat[s[k]] >= EOC_MIN
  {
  }

  lemma FindUnfold(clusters: seq<Bytes>, s: Chain, k: nat, name83: Bytes)
    ensures FindIn(clusters, s, k, name83) ==
            if k >= |s| then None
            else if Scan(ClusterAt(clusters, s[k]), name83, 0).Some?
            then Some(Place(s[k], Scan(ClusterAt(clusters, s[k]), name83, 0).value))
            else FindIn(clusters, s, k + 1, name83)
  {
  }

  lemma FoundEntry(buf: Bytes, name83: Bytes, i: nat)
    requires Scan(buf, name83, 0) == Some(i)
    ensures ENTRY_SIZE * i + ENTRY_SIZE <= |buf|
  {
  }

  /** A directory entry found in a directory leads to a directory. */
  lemma FoundLeadsOn(t: Tree, d: nat, name83: Bytes, p: Place)
    requires t.Closed() && d in t.dirs && FindIn(t.clusters, t.dirs[d], 0, name83) == Some(p)
    requires t.At(p).Some? && Attr(t.At(p).value) == ATTR_DIRECTORY
    ensures FirstCluster(t.At(p).value) == 0 || FirstCluster(t.At(p).value) in t.dirs
  {
    hide FirstCluster, FindIn, Scan;
    var k := FoundOnChain(t.clusters, t.dirs[d], 0, name83, p);
    assert t.At(Place(t.dirs[d][k], p.index)).Some?;
    assert t.DirectoryKnown(t.At(p).value);
  }

  lemma {:induction false} FoundOnChain(clusters: seq<Bytes>, s: Chain, k: nat, name83: Bytes, p: Place) returns (at: nat)
    requires FindIn(clusters, s, k, name83) == Some(p)
    ensures k <= at < |s| && s[at] == p.cluster
    decreases |s| - k
  {
    at := k;
    if k < |s| && Scan(ClusterAt(clusters, s[k]), name83, 0) == None {
      at := FoundOnChain(clusters, s, k + 1, name83, p);
    }
  }

  lemma ChainOfOne(fat: seq<nat>, c: nat)
    requires 2 <= c < |fat| && fat[c] == 0 && Frees(fat, 2) == Frees(fat, c)
    ensures IsChain(fat[c := EOC], [c]) && Grown(fat, [], fat[c := EOC], [c])
  {
    hide IsChain, Frees;
    OneLink(fat[c := EOC], c);
    FirstFree(fat, c);
    FreesAre(fat, 2);
    assert Frees(fat, 2)[..1] == [c];
    FreesTaken(fat, fat[c := EOC], 2, 1);
  }

  lemma OneLink(fat: seq<nat>, c: nat)
    requires 2 <= c < |fat| && fat[c] == EOC
    ensures IsChain(fat, [c])
  {
  }

  lemma FirstFree(fat: seq<nat>, c: nat)
    requires c < |fat| && fat[c] == 0
    ensures Frees(fat, c) == [c] + Frees(fat, c + 1)
  {
  }

  /** Half-way through an extension: the links so far are in place, the last new cluster is not yet
      marked, and nothing from candidate on was touched. */
  ghost predicate Linking(fat: seq<nat>, fat': seq<nat>, last: nat, news: seq<nat>, candidate: nat) {
    && |fat'| == |fat| && last < |fat| && fat[last] != 0
    && (forall i :: 0 <= i < |news| ==> 2 <= news[i] < candidate && news[i] < |fat| && fat[news[i]] == 0)
    && Increasing(news)
    && (forall x :: 0 <= x < |fat| && x != last && x !in news ==> fat'[x] == fat[x])
    && (forall i :: 0 <= i < |news| - 1 ==> fat'[news[i]] == news[i + 1])
    && (news != [] ==> fat'[last] == news[0])
    && (news == [] ==> fat'[last] == fat[last])
  }

  lemma LastInUse(fat: seq<nat>, s: Chain)
    requires IsChain(fat, s)
    ensures s != [] && s[|s| - 1] < |fat| && fat[s[|s| - 1]] >= EOC_MIN
  {
  }

  lemma LinkNone(fat: seq<nat>, last: nat)
    requires last < |fat| && fat[last] != 0
    ensures Linking(fat, fat, last, [], 2)
  {
  }

  lemma FreesUnfold(fat: seq<nat>, c: nat)
    ensures c < |fat| ==> Frees(fat, c) == (if fat[c] == 0 then [c] else []) + Frees(fat, c + 1)
    ensures c >= |fat| ==> Frees(fat, c) == []
  {
  }

  lemma FreesStep(fat: seq<nat>, news: seq<nat>, c: nat)
    requires Frees(fat, 2) == news + Frees(fat, c)
    ensures c < |fat| ==> Frees(fat, 2) == (if fat[c] == 0 then news + [c] else news) + Frees(fat, c + 1)
    ensures c >= |fat| ==> Frees(fat, 2) == news
  {
  }

  lemma LinkingAhead(fat: seq<nat>, fat': seq<nat>, last: nat, news: seq<nat>, candidate: nat)
    requires Linking(fat, fat', last, news, candidate)
    ensures candidate < |fat| ==> (fat'[candidate] == 0 <==> fat[candidate] == 0)
    ensures candidate < |fat| && fat[candidate] != 0 ==> Linking(fat, fat', last, news, candidate + 1)
  {
    if candidate < |fat| {
      assert candidate !in news;
      assert candidate == last ==> news != [] ==> news[0] in news;
    }
  }

  lemma LinkOne(fat: seq<nat>, fat': seq<nat>, last: nat, news: seq<nat>, candidate: nat)
    requires Linking(fat, fat', last, news, candidate) && 2 <= candidate < |fat| && fat[candidate] == 0
    ensures var current := if news == [] then last else news[|news| - 1];
            Linking(fat, fat'[current := candidate], last, news + [candidate], candidate + 1)
  {
    var current := if news == [] then last else news[|news| - 1];
    var news' := news + [candidate];
    assert news != [] ==> news[|news| - 1] in news;
    forall x | 0 <= x < |fat| && x != last && x !in news'
      ensures fat'[current := candidate][x] == fat[x]
    {
    }
  }

  lemma LinkEnd(fat: seq<nat>, fat': seq<nat>, last: nat, news: seq<nat>, candidate: nat)
    requires Linking(fat, fat', last, news, candidate)
    ensures var current := if news == [] then last else news[|news| - 1];
            Extended(fat, fat'[current := EOC], last, news)
  {
    assert news != [] ==> news[|news| - 1] in news;
    assert news != [] ==> news[0] in news;
    assert last !in news;
  }

  /** The sectors of the table, laid end to end, are the flat table. */
  ghost predicate Flat(sectors: seq<seq<nat>>, fat: seq<nat>) {
    && |fat| == ENTRIES_PER_SECTOR * |sectors|
    && (forall k :: 0 <= k < |sectors| ==> |sectors[k]| == ENTRIES_PER_SECTOR)
    && (forall c :: 0 <= c < |fat| ==> fat[c] == sectors[c / ENTRIES_PER_SECTOR][c % ENTRIES_PER_SECTOR])
  }

  /** Rewriting one entry of one sector rewrites one entry of the flat table. */
  lemma FlatUpdate(sectors: seq<seq<nat>>, fat: seq<nat>, cluster: nat, value: nat)
    requires Flat(sectors, fat) && cluster < |fat|
    ensures var k := cluster / ENTRIES_PER_SECTOR;
            var sector: seq<nat> := sectors[k][cluster % ENTRIES_PER_SECTOR := value];
            Flat(sectors[k := sector], fat[cluster := value])
  {
  }
}
