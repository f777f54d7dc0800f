/** Directories as the file server reads them (Microsoft FAT Specification, section 6): 32-byte
    entries, laid out cluster by cluster along a chain. */
module FatDirectory {
  import opened Options
  import opened FatNames
  import opened FatChains

  const ENTRY_SIZE: nat := 32

  const SLASH: byte := 0x2f

  const ATTR_DIRECTORY: byte := 0x10

  /** One directory entry: 32 bytes. */
  type Slot = e: Bytes | |e| == 32 witness Spaces(32)

  function SlotAt(buf: Bytes, i: nat): Slot
    requires ENTRY_SIZE * i + ENTRY_SIZE <= |buf|
  {
    buf[ENTRY_SIZE * i..ENTRY_SIZE * i + ENTRY_SIZE]
  }

  function PutSlot(buf: Bytes, i: nat, e: Slot): (r: Bytes)
    requires ENTRY_SIZE * i + ENTRY_SIZE <= |buf|
    ensures |r| == |buf|
  {
    buf[..ENTRY_SIZE * i] + e + buf[ENTRY_SIZE * i + ENTRY_SIZE..]
  }

  lemma SlotAfterPut(buf: Bytes, i: nat, e: Slot, j: nat)
    requires ENTRY_SIZE * i + ENTRY_SIZE <= |buf| && ENTRY_SIZE * j + ENTRY_SIZE <= |buf|
    ensures SlotAt(PutSlot(buf, i, e), j) == if i == j then e else SlotAt(buf, j)
  {
    var r := PutSlot(buf, i, e);
    forall k | 0 <= k < ENTRY_SIZE
      ensures SlotAt(r, j)[k] == (if i == j then e else SlotAt(buf, j))[k]
    {
    }
  }

  function Name(e: Slot): Bytes { e[..11] }

  function Attr(e: Slot): byte { e[11] }

  /** first_cluster_low and first_cluster_high, two little-endian halves. */
  function FirstCluster(e: Slot): nat {
    e[26] as int + 256 * (e[27] as int) + 65536 * (e[20] as int + 256 * (e[21] as int))
  }

  function FileSize(e: Slot): nat {
    e[28] as int + 256 * (e[29] as int + 256 * (e[30] as int + 256 * (e[31] as int)))
  }

  function WithFirstCluster(e: Slot, c: nat): Slot {
    e[26 := c % 256][27 := c / 256 % 256][20 := c / 65536 % 256][21 := c / 65536 / 256 % 256]
  }

  function WithFileSize(e: Slot, n: nat): Slot {
    e[28 := n % 256][29 := n / 256 % 256][30 := n / 256 / 256 % 256][31 := n / 256 / 256 / 256 % 256]
  }

  function WithName(e: Slot, name: Bytes): Slot
    requires |name| == 11
  {
    name + e[11..]
  }

  /** Four bytes hold a number below 2^32. */
  lemma FourBytes(c: nat)
    requires c < 0x1_0000_0000
    ensures c % 256 + 256 * (c / 256 % 256) + 65536 * (c / 65536 % 256 + 256 * (c / 65536 / 256 % 256)) == c
    ensures c % 256 + 256 * (c / 256 % 256 + 256 * (c / 256 / 256 % 256 + 256 * (c / 256 / 256 / 256 % 256))) == c
  {
    var a, b, d := c / 256, c / 256 / 256, c / 256 / 256 / 256;
    assert c / 65536 == b && c / 65536 / 256 == d;
    assert c == 256 * a + c % 256 && a == 256 * b + a % 256 && b == 256 * d + b % 256 && d % 256 == d;
  }

  lemma FirstClusterSet(e: Slot, c: nat)
    requires c < 0x1_0000_0000
    ensures var r := WithFirstCluster(e, c);
            FirstCluster(r) == c && FileSize(r) == FileSize(e) && Name(r) == Name(e) && Attr(r) == Attr(e)
  {
    FourBytes(c);
    Bytes4(e, 26, c % 256, 27, c / 256 % 256, 20, c / 65536 % 256, 21, c / 65536 / 256 % 256);
  }

  lemma Bytes4(e: Slot, i: nat, a: byte, j: nat, b: byte, k: nat, c: byte, l: nat, d: byte)
    requires 11 < i < 32 && 11 < j < 32 && 11 < k < 32 && 11 < l < 32 && i != j && i != k && i != l && j != k && j != l && k != l
    ensures var r := e[i := a][j := b][k := c][l := d];
            && r[i] == a && r[j] == b && r[k] == c && r[l] == d && r[..11] == e[..11]
            && forall m :: 0 <= m < 32 && m != i && m != j && m != k && m != l ==> r[m] == e[m]
  {
  }

  lemma FileSizeSet(e: Slot, n: nat)
    requires n < 0x1_0000_0000
    ensures var r := WithFileSize(e, n);
            FileSize(r) == n && FirstCluster(r) == FirstCluster(e) && Name(r) == Name(e) && Attr(r) == Attr(e)
  {
    FourBytes(n);
    Bytes4(e, 28, n % 256, 29, n / 256 % 256, 30, n / 256 / 256 % 256, 31, n / 256 / 256 / 256 % 256);
  }

  /** A free entry: never used, or deleted. */
  predicate Free(e: Slot) {
    e[0] == 0 || e[0] == 0xe5
  }

  datatype Place = Place(cluster: nat, index: nat)

  /** The first entry of one cluster, from index i on, with the given 11 name bytes. */
  function Scan(buf: Bytes, name83: Bytes, i: nat): (r: Option<nat>)
    ensures r.Some? ==> i <= r.value && ENTRY_SIZE * r.value + ENTRY_SIZE <= |buf| && Name(SlotAt(buf, r.value)) == name83
    decreases |buf| - ENTRY_SIZE * i
  {
    if ENTRY_SIZE * i + ENTRY_SIZE > |buf| then None
    else if Name(SlotAt(buf, i)) == name83 then Some(i)
    else Scan(buf, name83, i + 1)
  }

  function ClusterAt(clusters: seq<Bytes>, c: nat): Bytes {
    if c < |clusters| then clusters[c] else []
  }

  /** The first such entry along a directory's chain, from its k-th cluster on. */
  function FindIn(clusters: seq<Bytes>, s: Chain, k: nat, name83: Bytes): Option<Place>
    decreases |s| - k
  {
    if k >= |s| then None
    else
      match Scan(ClusterAt(clusters, s[k]), name83, 0)
      case Some(i) => Some(Place(s[k], i))
      case None => FindIn(clusters, s, k + 1, name83)
  }

  /** The position of the first slash, or the length. */
  function FirstSlash(path: Bytes): (k: nat)
    ensures k <= |path| && forall i :: 0 <= i < k ==> path[i] != SLASH
    ensures k < |path| ==> path[k] == SLASH
  {
    if path == [] || path[0] == SLASH then 0 else 1 + FirstSlash(path[1..])
  }

  /** The position of the last slash, or the length when there is none. */
  function LastSlash(path: Bytes): (k: nat)
    ensures k <= |path| && (k < |path| ==> path[k] == SLASH)
    ensures forall i :: 0 <= i < |path| && (k < i || k == |path|) ==> path[i] != SLASH
  {
    if path == [] then 0
    else if path[|path| - 1] == SLASH then |path| - 1
    else
      var k := LastSlash(path[..|path| - 1]);
      if k == |path| - 1 then |path| else k
  }

  function FileName(path: Bytes): Bytes {
    if LastSlash(path) < |path| then path[LastSlash(path) + 1..] else path
  }

  /** The directory cluster CreateFile enters a path in, and what it reports when there is none. */
  function ParentOf(t: Tree, path: Bytes): Parent {
    var k := LastSlash(path);
    if k == |path| then In(t.root)
    else if k == |path| - 1 then EndsInSlash
    else if k == 0 then In(t.root)
    else
      match t.Lookup(path[..k], 0)
      case None => NoParent
      case Some(p) => if t.At(p).Some? then In(FirstCluster(t.At(p).value)) else NoParent
  }

  datatype Parent = In(cluster: nat) | EndsInSlash | NoParent

  /** The directory entries of a volume: cluster contents, and the chains of its directories by
      their first clusters. */
  datatype Tree = Tree(clusters: seq<Bytes>, dirs: map<nat, Chain>, root: nat) {
    function At(p: Place): Option<Slot> {
      var buf := ClusterAt(clusters, p.cluster);
      if ENTRY_SIZE * p.index + ENTRY_SIZE <= |buf| then Some(SlotAt(buf, p.index)) else None
    }

    function InDir(dir: nat, name83: Bytes): Option<Place> {
      if dir in dirs then FindIn(clusters, dirs[dir], 0, name83) else None
    }

    /** Path resolution from a directory, absolute when the path begins with a slash and from the
        root when no directory is given. */
    function Lookup(path: Bytes, dir: nat): Option<Place>
      decreases |path|
    {
      var start := if path != [] && path[0] == SLASH then root else if dir == 0 then root else dir;
      var rest := if path != [] && path[0] == SLASH then path[1..] else path;
      var k := FirstSlash(rest);
      match InDir(start, Name83(rest[..k]))
      case None => None
      case Some(p) =>
        if k + 1 < |rest| && At(p).Some? && Attr(At(p).value) == ATTR_DIRECTORY
        then Lookup(rest[k + 1..], FirstCluster(At(p).value))
        else Some(p)
    }

    /** Every directory entry in a directory leads to a directory, or to the root by way of 0. */
    ghost predicate Closed() {
      && root in dirs && root != 0
      && forall d, k, i :: d in dirs && 0 <= k < |dirs[d]| && 0 <= i && At(Place(dirs[d][k], i)).Some? ==>
           DirectoryKnown(At(Place(dirs[d][k], i)).value)
    }

    ghost predicate DirectoryKnown(e: Slot) {
      Attr(e) == ATTR_DIRECTORY ==> FirstCluster(e) == 0 || FirstCluster(e) in dirs
    }
  }

  /** A path without a slash in front. */
  function Relative(path: Bytes): (r: Bytes)
    ensures |r| <= |path|
  {
    if path != [] && path[0] == SLASH then path[1..] else path
  }

  function Start(t: Tree, path: Bytes, dir: nat): nat {
    if (path != [] && path[0] == SLASH) || dir == 0 then t.root else dir
  }

  /** The first step of resolving a path. */
  lemma LookupStep(t: Tree, path: Bytes, dir: nat)
    ensures var rest := Relative(path);
            var m := FirstSlash(rest);
            var q := t.InDir(Start(t, path, dir), Name83(rest[..m]));
            t.Lookup(path, dir) ==
            if q.Some? && m + 1 < |rest| && t.At(q.value).Some? && Attr(t.At(q.value).value) == ATTR_DIRECTORY
            then t.Lookup(rest[m + 1..], FirstCluster(t.At(q.value).value)) else q
  {
    hide Scan, FindIn, Name83, FirstCluster, Attr, Tree.InDir, Tree.At;
  }

  /** One entry of one cluster was rewritten. */
  ghost predicate SlotRewritten(clusters: seq<Bytes>, clusters': seq<Bytes>, p: Place, e: Slot) {
    && p.cluster < |clusters| == |clusters'|
    && ENTRY_SIZE * p.index + ENTRY_SIZE <= |clusters[p.cluster]|
    && clusters' == clusters[p.cluster := PutSlot(clusters[p.cluster], p.index, e)]
  }

  lemma {:induction false} ScanSame(buf: Bytes, i: nat, e: Slot, name83: Bytes, from: nat)
    requires ENTRY_SIZE * i + ENTRY_SIZE <= |buf|
    requires Name(e) == name83 <==> Name(SlotAt(buf, i)) == name83
    ensures Scan(PutSlot(buf, i, e), name83, from) == Scan(buf, name83, from)
    decreases |buf| - ENTRY_SIZE * from
  {
    hide PutSlot, SlotAt, Name;
    if ENTRY_SIZE * from + ENTRY_SIZE <= |buf| {
      SlotAfterPut(buf, i, e, from);
      ScanSame(buf, i, e, name83, from + 1);
    }
  }

  /** Rewriting an entry does not disturb the search for a name it neither had nor has, or that it
      both had and has. */
  lemma {:induction false} FindSame(clusters: seq<Bytes>, clusters': seq<Bytes>, p: Place, e: Slot, s: Chain, k: nat, name83: Bytes)
    requires SlotRewritten(clusters, clusters', p, e)
    requires Name(e) == name83 <==> Name(SlotAt(clusters[p.cluster], p.index)) == name83
    ensures FindIn(clusters', s, k, name83) == FindIn(clusters, s, k, name83)
    decreases |s| - k
  {
    hide PutSlot, SlotAt, Name, Scan;
    if k < |s| {
      FindSame(clusters, clusters', p, e, s, k + 1, name83);
      if s[k] == p.cluster {
        ScanSame(clusters[p.cluster], p.index, e, name83, 0);
      }
    }
  }

  lemma {:induction false} ScanNew(buf: Bytes, i: nat, e: Slot, from: nat)
    requires ENTRY_SIZE * i + ENTRY_SIZE <= |buf| && from <= i && Scan(buf, Name(e), from) == None
    ensures Scan(PutSlot(buf, i, e), Name(e), from) == Some(i)
    decreases i - from
  {
    hide PutSlot, SlotAt, Name;
    SlotAfterPut(buf, i, e, from);
    if from < i {
      ScanNew(buf, i, e, from + 1);
    }
  }

  /** A name that was absent from a directory is found where it was entered. */
  lemma {:induction false} FindNew(clusters: seq<Bytes>, clusters': seq<Bytes>, p: Place, e: Slot, s: Chain, k: nat, at: nat)
    requires SlotRewritten(clusters, clusters', p, e)
    requires k <= at < |s| && s[at] == p.cluster && forall j :: k <= j < at ==> s[j] != p.cluster
    requires FindIn(clusters, s, k, Name(e)) == None
    ensures FindIn(clusters', s, k, Name(e)) == Some(p)
    decreases at - k
  {
    hide PutSlot, SlotAt, Name, Scan;
    if k == at {
      ScanNew(clusters[p.cluster], p.index, e, 0);
    } else {
      FindNew(clusters, clusters', p, e, s, k + 1, at);
    }
  }

  lemma AtAfterPut(t: Tree, clusters': seq<Bytes>, p: Place, e: Slot, q: Place)
    requires SlotRewritten(t.clusters, clusters', p, e)
    ensures t.(clusters := clusters').At(q) == if q == p then Some(e) else t.At(q)
  {
    hide PutSlot, SlotAt;
    if q.cluster == p.cluster && ENTRY_SIZE * q.index + ENTRY_SIZE <= |t.clusters[p.cluster]| {
      SlotAfterPut(t.clusters[p.cluster], p.index, e, q.index);
    }
  }

  /** The first free entry of one cluster from index i on. */
  function ScanFree(buf: Bytes, i: nat): (r: Option<nat>)
    ensures r.Some? ==> i <= r.value && ENTRY_SIZE * r.value + ENTRY_SIZE <= |buf| && Free(SlotAt(buf, r.value))
    decreases |buf| - ENTRY_SIZE * i
  {
    if ENTRY_SIZE * i + ENTRY_SIZE > |buf| then None
    else if Free(SlotAt(buf, i)) then Some(i)
    else ScanFree(buf, i + 1)
  }

  /** The first free entry along a directory's chain from its k-th cluster on. */
  function FreeIn(clusters: seq<Bytes>, s: Chain, k: nat): Option<Place>
    decreases |s| - k
  {
    if k >= |s| then None
    else
      match ScanFree(ClusterAt(clusters, s[k]), 0)
      case Some(i) => Some(Place(s[k], i))
      case None => FreeIn(clusters, s, k + 1)
  }

  lemma FreeUnfold(clusters: seq<Bytes>, s: Chain, k: nat)
    ensures FreeIn(clusters, s, k) ==
            if k >= |s| then None
            else if ScanFree(ClusterAt(clusters, s[k]), 0).Some?
            then Some(Place(s[k], ScanFree(ClusterAt(clusters, s[k]), 0).value))
            else FreeIn(clusters, s, k + 1)
  {
  }

  lemma FreeEntry(buf: Bytes, i: nat)
    requires ScanFree(buf, 0) == Some(i)
    ensures ENTRY_SIZE * i + ENTRY_SIZE <= |buf| && Free(SlotAt(buf, i))
  {
  }

  lemma {:induction false} FreeInEntry(clusters: seq<Bytes>, s: Chain, k: nat)
    requires FreeIn(clusters, s, k).Some?
    ensures var p := FreeIn(clusters, s, k).value;
            var buf := ClusterAt(clusters, p.cluster);
            ENTRY_SIZE * p.index + ENTRY_SIZE <= |buf| && Free(SlotAt(buf, p.index))
    decreases |s| - k
  {
    hide Free, SlotAt;
    if k < |s| && ScanFree(ClusterAt(clusters, s[k]), 0) == None {
      FreeInEntry(clusters, s, k + 1);
    }
  }

  /** CreateFile's new entry: the stored name and size 0, over whatever the entry held. */
  function NewEntry(was: Slot, filename: Bytes): Slot {
    WithFileSize(WithName(was, Stored(filename)), 0)
  }

  lemma NewEntryFields(was: Slot, filename: Bytes)
    ensures var e := NewEntry(was, filename);
            Name(e) == Stored(filename) && FileSize(e) == 0 && Attr(e) == Attr(was) && FirstCluster(e) == FirstCluster(was)
  {
    hide Stored;
  }

  function Zeros(n: nat): (s: Bytes)
    ensures |s| == n && forall i :: 0 <= i < n ==> s[i] == 0
  {
    seq(n, _ => 0)
  }

  /** A directory d after an entry for filename was made at p: in place of a free entry, or at the
      head of a new blank cluster behind the chain. */
  ghost predicate Entered(t: Tree, t': Tree, d: nat, p: Place, filename: Bytes, clusterBytes: nat) {
    && d in t.dirs && t'.root == t.root
    && if FreeIn(t.clusters, t.dirs[d], 0).Some? then
         && p == FreeIn(t.clusters, t.dirs[d], 0).value && t'.dirs == t.dirs
         && t.At(p).Some? && Free(t.At(p).value)
         && SlotRewritten(t.clusters, t'.clusters, p, NewEntry(t.At(p).value, filename))
       else
         && p.index == 0 && p.cluster < |t.clusters| && ENTRY_SIZE <= clusterBytes
         && t'.dirs == t.dirs[d := t.dirs[d] + [p.cluster]]
         && (forall e :: e in t.dirs ==> p.cluster !in t.dirs[e])
         && t'.clusters == t.clusters[p.cluster := PutSlot(Zeros(clusterBytes), 0, NewEntry(Zeros(32), filename))]
  }

  /** A name a lookup can ask for that no free entry can have. */
  predicate Asked(name83: Bytes) {
    |name83| == 11 && name83[0] != 0 && name83[0] != 0xe5
  }

  lemma {:induction false} FindElsewhere(clusters: seq<Bytes>, clusters': seq<Bytes>, s: Chain, k: nat, c: nat, name83: Bytes)
    requires c < |clusters| == |clusters'| && c !in s
    requires forall x :: 0 <= x < |clusters| && x != c ==> clusters'[x] == clusters[x]
    ensures FindIn(clusters', s, k, name83) == FindIn(clusters, s, k, name83)
    decreases |s| - k
  {
    hide Scan;
    if k < |s| {
      FindElsewhere(clusters, clusters', s, k + 1, c, name83);
      assert s[k] in s;
    }
  }

  lemma {:induction false} FindAppended(clusters: seq<Bytes>, s: Chain, k: nat, c: nat, name83: Bytes)
    requires k <= |s|
    ensures FindIn(clusters, s + [c], k, name83) ==
            if FindIn(clusters, s, k, name83).Some? then FindIn(clusters, s, k, name83)
            else FindIn(clusters, [c], 0, name83)
    decreases |s| - k
  {
    hide Scan;
    if k < |s| {
      FindAppended(clusters, s, k + 1, c, name83);
    } else {
      FindUnfoldOnce(clusters, s + [c], k, name83);
      FindUnfoldOnce(clusters, [c], 0, name83);
    }
  }

  lemma FindUnfoldOnce(clusters: seq<Bytes>, s: Chain, k: nat, name83: Bytes)
    requires k == |s| - 1
    ensures FindIn(clusters, s, k, name83) ==
            match Scan(ClusterAt(clusters, s[k]), name83, 0) case Some(i) => Some(Place(s[k], i)) case None => None
  {
    hide Scan;
  }

  lemma {:induction false} ScanZeros(buf: Bytes, name83: Bytes, i: nat)
    requires Asked(name83) && forall j :: ENTRY_SIZE * i <= j < |buf| ==> buf[j] == 0
    ensures Scan(buf, name83, i) == None
    decreases |buf| - ENTRY_SIZE * i
  {
    if ENTRY_SIZE * i + ENTRY_SIZE <= |buf| {
      assert Name(SlotAt(buf, i))[0] == 0;
      ScanZeros(buf, name83, i + 1);
    }
  }

  /** A fresh directory cluster holds one name. */
  lemma ScanFresh(e: Slot, n: nat, name83: Bytes)
    requires ENTRY_SIZE <= n && Asked(name83)
    ensures Scan(PutSlot(Zeros(n), 0, e), name83, 0) == if Name(e) == name83 then Some(0) else None
  {
    var buf := PutSlot(Zeros(n), 0, e);
    SlotAfterPut(Zeros(n), 0, e, 0);
    if Name(e) != name83 {
      ScanZeros(buf, name83, 1);
    }
  }

  /** After an entry was made for a name that was absent, the directory finds it there, and finds
      every other name where it found it before. */
  lemma EnteredFound(t: Tree, t': Tree, d: nat, p: Place, filename: Bytes, clusterBytes: nat, name83: Bytes)
    requires Entered(t, t', d, p, filename, clusterBytes) && Asked(name83) && t.InDir(d, Stored(filename)) == None
    requires name83 == Stored(filename) ==> FirstOnChain(t.dirs[d], p.cluster) || FreeIn(t.clusters, t.dirs[d], 0) == None
    ensures t'.InDir(d, name83) == if name83 == Stored(filename) then Some(p) else t.InDir(d, name83)
  {
    hide PutSlot, SlotAt, Scan, FindIn, FreeIn, Stored, Name, NewEntry, Zeros;
    var s := t.dirs[d];
    if FreeIn(t.clusters, s, 0).Some? {
      var was := t.At(p).value;
      var e := NewEntry(was, filename);
      NewEntryFields(was, filename);
      FreeName(was);
      if name83 == Stored(filename) {
        var at :| 0 <= at < |s| && s[at] == p.cluster && forall j :: 0 <= j < at ==> s[j] != p.cluster;
        FindNew(t.clusters, t'.clusters, p, e, s, 0, at);
      } else {
        FindSame(t.clusters, t'.clusters, p, e, s, 0, name83);
      }
    } else {
      var e := NewEntry(Zeros(32), filename);
      NewEntryFields(Zeros(32), filename);
      FindElsewhere(t.clusters, t'.clusters, s, 0, p.cluster, name83);
      FindAppended(t'.clusters, s, 0, p.cluster, name83);
      FindUnfoldOnce(t'.clusters, [p.cluster], 0, name83);
      ScanFresh(e, clusterBytes, name83);
    }
  }

  ghost predicate FirstOnChain(s: Chain, c: nat) {
    exists at :: 0 <= at < |s| && s[at] == c && forall j :: 0 <= j < at ==> s[j] != c
  }

  lemma FreeName(e: Slot)
    requires Free(e)
    ensures !Asked(Name(e))
  {
  }

  /** Other directories find what they found. */
  lemma EnteredElsewhere(t: Tree, t': Tree, d: nat, p: Place, filename: Bytes, clusterBytes: nat, other: nat, name83: Bytes)
    requires Entered(t, t', d, p, filename, clusterBytes) && other in t.dirs && other != d && p.cluster !in t.dirs[other]
    ensures t'.InDir(other, name83) == t.InDir(other, name83)
  {
    hide PutSlot, SlotAt, Scan, FindIn, FreeIn, Stored, Name, NewEntry, Zeros;
    FindElsewhere(t.clusters, t'.clusters, t.dirs[other], 0, p.cluster, name83);
  }
}
