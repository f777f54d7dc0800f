/** Creating a file and looking it up again: CreateFile and FindFile of servers/fs/fs.cpp together. */
module FatCreation {
  import opened Options
  import opened FatChains
  import opened FatNames
  import opened FatDirectory
  import opened FileSystem

  /** A path a C string can hold, without the mark of a deleted entry. */
  ghost predicate Plain(path: Bytes) {
    0 !in path && 0xe5 !in path
  }

  /** What NextPathElement says of the last element FindFile takes from a path that leads through
      directories: whether a slash ended it. */
  function PostSlash(path: Bytes): bool
    decreases |path|
  {
    var rest := Relative(path);
    var k := FirstSlash(rest);
    if k + 1 < |rest| then PostSlash(rest[k + 1..]) else k < |rest|
  }

  lemma {:induction false} FillAsked(buf: Bytes, name: Bytes, i: nat, i83: nat)
    requires |buf| == 11 && i <= |name| && Asked(buf) && Plain(name)
    ensures Asked(Fill(buf, name, i, i83))
    decreases |name| - i
  {
    if i < |name| && i83 < 11 {
      assert name[i] in name;
      if name[i] == DOT {
        FillAsked(buf, name, i + 1, 8);
      } else {
        FillAsked(buf[i83 := ToUpper(name[i])], name, i + 1, i83 + 1);
      }
    }
  }

  lemma ElementAsked(path: Bytes, k: nat)
    requires Plain(path) && k <= |path|
    ensures Asked(Name83(path[..k])) && Plain(path[k..])
  {
    FillAsked(Spaces(11), path[..k], 0, 0);
  }

  lemma SlashCut(s: Bytes, n: nat)
    requires n <= |s|
    ensures FirstSlash(s[..n]) == if FirstSlash(s) < n then FirstSlash(s) else n
  {
    hide FirstSlash;
  }

  lemma PostSlashStep(path: Bytes)
    ensures var rest := Relative(path);
            var m := FirstSlash(rest);
            PostSlash(path) == if m + 1 < |rest| then PostSlash(rest[m + 1..]) else m < |rest|
  {
    hide FirstSlash, Relative;
  }

  /** Where a path is cut at a later slash, the part in front begins with the same element. */
  lemma SameElement(path: Bytes, k: nat)
    requires 0 < k < |path| && path[k] == SLASH
    ensures var off := |path| - |Relative(path)|;
            var rest, front, m := Relative(path), Relative(path[..k]), FirstSlash(Relative(path));
            && off <= 1 && off <= k && rest == path[off..] && front == rest[..k - off] && m <= k - off
            && FirstSlash(front) == m && rest[..m] == front[..m]
    ensures forall t: Tree, dir: nat :: Start(t, path[..k], dir) == Start(t, path, dir)
  {
    hide FirstSlash;
    var off := if path[0] == SLASH then 1 else 0;
    var rest, n := Relative(path), k - off;
    var m := FirstSlash(rest);
    assert path[..k][0] == path[0] && rest == path[off..] && rest[n] == SLASH;
    assert Relative(path[..k]) == rest[..n];
    SlashCut(rest, n);
    assert rest[..m] == rest[..n][..m];
  }

  lemma Cuts(path: Bytes, off: nat, k: nat, m: nat)
    requires off + m <= k < |path|
    ensures var rest, n := path[off..], k - off;
            && rest[n] == path[k] && rest[n + 1..] == path[k + 1..] && rest[n..] == path[k..]
            && (m < n ==> rest[..n][m + 1..] == rest[m + 1..][..n - m - 1] && rest[m + 1..][n - m - 1] == path[k]
                          && rest[m + 1..][n - m - 1..] == path[k..] && rest[m + 1..][n - m..] == path[k + 1..])
  {
  }

  /** Resolving a path beyond a slash: from the directory the part before it resolves to, unless
      that part ends in a slash itself; then the empty element in between starts again at the root.
      Nothing is looked up behind an entry that is no directory. */
  lemma {:induction false} LookupSplit(t: Tree, path: Bytes, dir: nat, k: nat, p: Place, e: Slot)
    requires 0 < k && k + 1 < |path| && path[k] == SLASH
    requires t.Lookup(path[..k], dir) == Some(p) && t.At(p) == Some(e)
    ensures Attr(e) != ATTR_DIRECTORY ==> t.Lookup(path, dir) == Some(p)
    ensures Attr(e) == ATTR_DIRECTORY ==>
              t.Lookup(path, dir) ==
              if PostSlash(path[..k]) then t.Lookup(path[k..], 0) else t.Lookup(path[k + 1..], FirstCluster(e))
    decreases k
  {
    hide Name83, FirstCluster, Attr, Tree.InDir, Tree.At, Tree.Lookup, PostSlash, Relative, FirstSlash, Start;
    LookupStep(t, path, dir);
    LookupStep(t, path[..k], dir);
    PostSlashStep(path[..k]);
    SameElement(path, k);
    var rest := Relative(path);
    var m, n := FirstSlash(rest), k - (|path| - |rest|);
    Cuts(path, k - n, k, m);
    if m + 1 < n {
      var q := t.InDir(Start(t, path, dir), Name83(rest[..m])).value;
      if t.At(q).Some? && Attr(t.At(q).value) == ATTR_DIRECTORY {
        LookupSplit(t, rest[m + 1..], FirstCluster(t.At(q).value), n - m - 1, p, e);
      }
    } else if m + 1 == n {
      FromRoot(t, path[k..], FirstCluster(e));
    }
  }

  /** A path with a slash in front is resolved from the root wherever the search stands. */
  lemma FromRoot(t: Tree, path: Bytes, dir: nat)
    requires path != [] && path[0] == SLASH
    ensures t.Lookup(path, dir) == t.Lookup(path, 0)
  {
    hide Tree.InDir, Tree.Lookup, Tree.At, Name83;
    LookupStep(t, path, dir);
    LookupStep(t, path, 0);
  }

  /** An entry for a name that directory d of a sound volume did not have was made at p. */
  ghost predicate Created(fat: seq<nat>, t: Tree, t': Tree, d: nat, p: Place, filename: Bytes, clusterBytes: nat) {
    && |fat| <= EOC_MIN && DirChains(fat, t.dirs) && t.Closed()
    && Entered(t, t', d, p, filename, clusterBytes) && t.InDir(d, Stored(filename)) == None
  }

  lemma {:induction false} FreeOnChain(clusters: seq<Bytes>, s: Chain, k: nat)
    requires FreeIn(clusters, s, k).Some?
    ensures FreeIn(clusters, s, k).value.cluster in s
    decreases |s| - k
  {
    hide ScanFree;
    if ScanFree(ClusterAt(clusters, s[k]), 0) == None {
      FreeOnChain(clusters, s, k + 1);
    }
  }

  lemma {:induction false} FirstThere(fat: seq<nat>, s: Chain, c: nat)
    requires IsChain(fat, s) && |fat| <= EOC_MIN && c in s
    ensures FirstOnChain(s, c)
  {
    hide IsChain;
    var at :| 0 <= at < |s| && s[at] == c;
    forall j | 0 <= j < at
      ensures s[j] != c
    {
      ChainDistinct(fat, s, j, at);
    }
  }

  /** The directories find all names but the new one where they found them. */
  lemma InDirKept(fat: seq<nat>, t: Tree, t': Tree, d: nat, p: Place, filename: Bytes, clusterBytes: nat, dir: nat, name83: Bytes)
    requires Created(fat, t, t', d, p, filename, clusterBytes) && Asked(name83) && dir in t.dirs
    ensures dir in t'.dirs
    ensures t'.InDir(dir, name83) == if dir == d && name83 == Stored(filename) then Some(p) else t.InDir(dir, name83)
  {
    hide FreeIn, FindIn, Stored, NewEntry, PutSlot, SlotAt, Tree.Closed, Asked, IsChain, Zeros, FirstOnChain, Free;
    if FreeIn(t.clusters, t.dirs[d], 0).Some? {
      FreeOnChain(t.clusters, t.dirs[d], 0);
      FirstThere(fat, t.dirs[d], p.cluster);
    }
    if dir == d {
      EnteredFound(t, t', d, p, filename, clusterBytes, name83);
    } else {
      EnteredElsewhere(t, t', d, p, filename, clusterBytes, dir, name83);
    }
  }

  lemma {:induction false} FoundNamed(clusters: seq<Bytes>, s: Chain, k: nat, name83: Bytes, q: Place)
    requires FindIn(clusters, s, k, name83) == Some(q)
    ensures ENTRY_SIZE * q.index + ENTRY_SIZE <= |ClusterAt(clusters, q.cluster)|
    ensures Name(SlotAt(ClusterAt(clusters, q.cluster), q.index)) == name83 && q.cluster in s
    decreases |s| - k
  {
    hide SlotAt, Name;
    if Scan(ClusterAt(clusters, s[k]), name83, 0) == None {
      FoundNamed(clusters, s, k + 1, name83, q);
    }
  }

  /** An entry that was found is not the new one, and is what it was. */
  lemma FoundKept(fat: seq<nat>, t: Tree, t': Tree, d: nat, p: Place, filename: Bytes, clusterBytes: nat, dir: nat, name83: Bytes, q: Place)
    requires Created(fat, t, t', d, p, filename, clusterBytes) && Asked(name83) && t.InDir(dir, name83) == Some(q)
    ensures q != p && t'.At(q) == t.At(q)
  {
    hide FreeIn, FindIn, Stored, NewEntry, PutSlot, SlotAt, Tree.Closed, Asked, IsChain, DirChains, Zeros, Name, Free;
    FoundNamed(t.clusters, t.dirs[dir], 0, name83, q);
    if FreeIn(t.clusters, t.dirs[d], 0).Some? {
      FreeName(t.At(p).value);
      AtAfterPut(t, t'.clusters, p, NewEntry(t.At(p).value, filename), q);
      assert t'.At(q) == t.(clusters := t'.clusters).At(q);
    }
  }

  /** Some element of the path is the name. */
  ghost predicate Names(path: Bytes, name83: Bytes)
    decreases |path|
  {
    var rest := Relative(path);
    var m := FirstSlash(rest);
    Name83(rest[..m]) == name83 || (m + 1 < |rest| && Names(rest[m + 1..], name83))
  }

  lemma NamesStep(path: Bytes, name83: Bytes)
    ensures var rest := Relative(path);
            var m := FirstSlash(rest);
            Names(path, name83) == (Name83(rest[..m]) == name83 || (m + 1 < |rest| && Names(rest[m + 1..], name83)))
  {
    hide Relative, FirstSlash, Name83;
  }

  lemma RelativePlain(path: Bytes)
    requires Plain(path)
    ensures Plain(Relative(path))
  {
  }

  /** A path that was found, and one that does not mention the new name, resolves as it did. */
  lemma {:induction false} LookupKept(fat: seq<nat>, t: Tree, t': Tree, d: nat, p: Place, filename: Bytes, clusterBytes: nat, path: Bytes, dir: nat)
    requires Created(fat, t, t', d, p, filename, clusterBytes) && Plain(path) && (dir == 0 || dir in t.dirs)
    requires t.Lookup(path, dir).Some? || !Names(path, Stored(filename))
    ensures t'.Lookup(path, dir) == t.Lookup(path, dir) && t.Lookup(path, dir) != Some(p)
    ensures t.Lookup(path, dir).Some? ==> t'.At(t.Lookup(path, dir).value) == t.At(t.Lookup(path, dir).value)
    decreases |path|
  {
    hide Name83, FirstCluster, Attr, Tree.InDir, Tree.At, Tree.Lookup, Relative, FirstSlash, Names, Stored, Plain, Asked, Created;
    var rest := Relative(path);
    var m := FirstSlash(rest);
    var start, name83 := Start(t, path, dir), Name83(rest[..m]);
    SameStart(fat, t, t', d, p, filename, clusterBytes, path, dir);
    LookupStep(t, path, dir);
    LookupStep(t', path, dir);
    NamesStep(path, Stored(filename));
    RelativePlain(path);
    ElementAsked(rest, m);
    InDirKept(fat, t, t', d, p, filename, clusterBytes, start, name83);
    if t.InDir(start, name83).Some? {
      var q := t.InDir(start, name83).value;
      FoundKept(fat, t, t', d, p, filename, clusterBytes, start, name83, q);
      if m + 1 < |rest| && t.At(q).Some? && Attr(t.At(q).value) == ATTR_DIRECTORY {
        LeadsOn(fat, t, t', d, p, filename, clusterBytes, start, name83, q);
        ElementAsked(rest, m + 1);
        LookupKept(fat, t, t', d, p, filename, clusterBytes, rest[m + 1..], FirstCluster(t.At(q).value));
      }
    }
  }

  lemma SameStart(fat: seq<nat>, t: Tree, t': Tree, d: nat, p: Place, filename: Bytes, clusterBytes: nat, path: Bytes, dir: nat)
    requires Created(fat, t, t', d, p, filename, clusterBytes) && (dir == 0 || dir in t.dirs)
    ensures Start(t', path, dir) == Start(t, path, dir) && Start(t, path, dir) in t.dirs && t'.root == t.root
    ensures t.InDir(d, Stored(filename)) == None && d in t.dirs
  {
    hide FreeIn, FindIn, Stored, NewEntry, PutSlot, SlotAt, IsChain, DirChains, Zeros;
  }

  lemma LeadsOn(fat: seq<nat>, t: Tree, t': Tree, d: nat, p: Place, filename: Bytes, clusterBytes: nat, dir: nat, name83: Bytes, q: Place)
    requires Created(fat, t, t', d, p, filename, clusterBytes) && t.InDir(dir, name83) == Some(q)
    requires t.At(q).Some? && Attr(t.At(q).value) == ATTR_DIRECTORY
    ensures FirstCluster(t.At(q).value) == 0 || FirstCluster(t.At(q).value) in t.dirs
  {
    hide FindIn, Tree.Closed, Entered, DirChains, FirstCluster, Attr;
    FoundLeadsOn(t, dir, name83, q);
  }

  /** Whether FindFile takes a path to the directory CreateFile enters it in: that is so unless a
      doubled slash in front of the name sends the search back to the root, or the parent is a file. */
  ghost predicate LeadsToParent(t: Tree, path: Bytes, d: nat) {
    var k := LastSlash(path);
    k == |path| || k == 0 ||
    (t.Lookup(path[..k], 0).Some? && t.At(t.Lookup(path[..k], 0).value).Some?
     && Attr(t.At(t.Lookup(path[..k], 0).value).value) == ATTR_DIRECTORY && (PostSlash(path[..k]) ==> d == t.root))
  }

  /** The last element of a path, looked up in one directory. */
  lemma LookupLast(t: Tree, name: Bytes, dir: nat)
    requires Valid83(name) && SLASH !in name
    ensures t.Lookup(name, dir) == t.InDir(if dir == 0 then t.root else dir, Stored(name))
    ensures t.Lookup([SLASH] + name, dir) == t.InDir(t.root, Stored(name))
  {
    hide Stored, Name83, Tree.InDir, Tree.At, Tree.Lookup, FirstCluster, Attr;
    StoredIsName83(name);
    LookupStep(t, name, dir);
    LookupStep(t, [SLASH] + name, dir);
    assert ([SLASH] + name)[1..] == name && name[..|name|] == name;
  }

  lemma NameParted(path: Bytes)
    ensures SLASH !in FileName(path)
    ensures LastSlash(path) < |path| ==> path[LastSlash(path) + 1..] == FileName(path) && path[LastSlash(path)..] == [SLASH] + FileName(path)
    ensures LastSlash(path) == |path| ==> FileName(path) == path
  {
    hide LastSlash;
    var k := LastSlash(path);
    if k < |path| {
      SuffixFree(path, k + 1);
      FirstAndRest(path, k);
    } else {
      SuffixFree(path, 0);
      assert path[0..] == path;
    }
  }

  lemma FirstAndRest(path: Bytes, k: nat)
    requires k < |path|
    ensures path[k..] == [path[k]] + path[k + 1..]
  {
  }

  lemma SuffixFree(path: Bytes, n: nat)
    requires n <= |path| && forall i :: n <= i < |path| ==> path[i] != SLASH
    ensures SLASH !in path[n..]
  {
  }

  lemma PartPlain(path: Bytes, k: nat, n: nat)
    requires Plain(path) && k <= n <= |path|
    ensures Plain(path[k..n])
  {
  }

  /** A file that was created under a path that was free is found under it exactly when the path
      leads to its parent. */
  lemma CreatedIsFound(fat: seq<nat>, t: Tree, t': Tree, path: Bytes, d: nat, p: Place, clusterBytes: nat)
    requires Created(fat, t, t', d, p, FileName(path), clusterBytes) && ParentOf(t, path) == In(d)
    requires Plain(path) && Valid83(FileName(path))
    ensures t'.Lookup(path, 0) == Some(p) <==> LeadsToParent(t, path, d)
  {
    hide Created, Tree.Lookup, Tree.At, Tree.InDir, Stored, FileName, LastSlash, PostSlash, Valid83, FirstCluster, Attr, Plain, Asked, Name83;
    var k, name := LastSlash(path), FileName(path);
    NameParted(path);
    PartPlain(path, if k == |path| then 0 else k + 1, |path|);
    PartPlain(path, 0, k);
    assert name == path[if k == |path| then 0 else k + 1..|path|] && path[..k] == path[0..k];
    SameStart(fat, t, t', d, p, name, clusterBytes, path, 0);
    StoredIsName83(name);
    ElementAsked(name, |name|);
    assert name[..|name|] == name;
    InDirKept(fat, t, t', d, p, name, clusterBytes, t.root, Stored(name));
    InDirKept(fat, t, t', d, p, name, clusterBytes, d, Stored(name));
    LookupLast(t', name, 0);
    LookupLast(t', name, d);
    NotAnother(fat, t, t', d, p, name, clusterBytes, t.root);
    if 0 < k < |path| {
      LookupKept(fat, t, t', d, p, name, clusterBytes, path[..k], 0);
      var q := t.Lookup(path[..k], 0).value;
      var e := t.At(q).value;
      LookupSplit(t', path, 0, k, q, e);
      DirectoryIsNotZero(fat, t, t', d, p, name, clusterBytes);
    }
  }

  /** The file a//b, created in directory a: FindFile looks for it in the root. */
  lemma DoubledSlashLost(fat: seq<nat>, t: Tree, t': Tree, d: nat, p: Place, clusterBytes: nat)
    requires var path: Bytes := [97, SLASH, SLASH, 98];
             Created(fat, t, t', d, p, FileName(path), clusterBytes) && ParentOf(t, path) == In(d) && d != t.root
    ensures t'.Lookup([97, SLASH, SLASH, 98], 0) != Some(p)
  {
    hide Created, Tree.Lookup, Stored, FirstCluster, Attr;
    var path: Bytes, name: Bytes, first: Bytes := [97, SLASH, SLASH, 98], [98], [97, SLASH];
    assert path[..3] == [97, SLASH, SLASH] && path[..2] == first && path[3..] == name;
    assert LastSlash(path) == 2 && FileName(path) == name;
    assert LastDot(name) == 1 by {
      assert name[..0] == [];
    }
    assert FirstSlash(first) == 1 by {
      assert first[1..] == [SLASH];
    }
    assert PostSlash(first);
    CreatedIsFound(fat, t, t', path, d, p, clusterBytes);
  }

  lemma NotAnother(fat: seq<nat>, t: Tree, t': Tree, d: nat, p: Place, filename: Bytes, clusterBytes: nat, dir: nat)
    requires Created(fat, t, t', d, p, filename, clusterBytes) && Asked(Stored(filename))
    ensures t.InDir(dir, Stored(filename)) != Some(p)
  {
    hide Created, Tree.InDir, Asked, Stored;
    if t.InDir(dir, Stored(filename)) == Some(p) {
      FoundKept(fat, t, t', d, p, filename, clusterBytes, dir, Stored(filename), p);
    }
  }

  lemma DirectoryIsNotZero(fat: seq<nat>, t: Tree, t': Tree, d: nat, p: Place, filename: Bytes, clusterBytes: nat)
    requires Created(fat, t, t', d, p, filename, clusterBytes)
    ensures d != 0
  {
    hide Entered, Tree.Closed, Stored, FreeIn, FindIn;
    assert d in t.dirs by {
      SameStart(fat, t, t', d, p, filename, clusterBytes, [], 0);
    }
    DirChain(fat, t.dirs, d);
  }

  /** The directories of a sound volume are sound with the new entry. */
  lemma CreatedClosed(fat: seq<nat>, t: Tree, t': Tree, d: nat, p: Place, filename: Bytes, clusterBytes: nat)
    requires Created(fat, t, t', d, p, filename, clusterBytes)
    ensures t'.Closed()
  {
    hide FreeIn, FindIn, Stored, NewEntry, PutSlot, SlotAt, IsChain, DirChains, Zeros, FirstCluster, Attr, Free;
    forall x, i, k | x in t'.dirs && 0 <= k < |t'.dirs[x]| && 0 <= i && t'.At(Place(t'.dirs[x][k], i)).Some?
      ensures t'.DirectoryKnown(t'.At(Place(t'.dirs[x][k], i)).value)
    {
      EntryKnown(fat, t, t', d, p, filename, clusterBytes, x, k, i);
    }
  }

  lemma EntryKnown(fat: seq<nat>, t: Tree, t': Tree, d: nat, p: Place, filename: Bytes, clusterBytes: nat, x: nat, k: nat, i: nat)
    requires Created(fat, t, t', d, p, filename, clusterBytes)
    requires x in t'.dirs && k < |t'.dirs[x]| && t'.At(Place(t'.dirs[x][k], i)).Some?
    ensures t'.DirectoryKnown(t'.At(Place(t'.dirs[x][k], i)).value)
  {
    hide FindIn, Stored, NewEntry, PutSlot, SlotAt, IsChain, DirChains, Zeros, FirstCluster, Attr, Free, FreeIn;
    var q := Place(t'.dirs[x][k], i);
    if FreeIn(t.clusters, t.dirs[d], 0).Some? {
      var was := t.At(p).value;
      FreeOnChain(t.clusters, t.dirs[d], 0);
      var at :| 0 <= at < |t.dirs[d]| && t.dirs[d][at] == p.cluster;
      assert t.At(Place(t.dirs[d][at], p.index)).Some?;
      NewEntryFields(was, filename);
      AtAfterPut(t, t'.clusters, p, NewEntry(was, filename), q);
      assert t'.At(q) == t.(clusters := t'.clusters).At(q);
      assert q == Place(t.dirs[x][k], i);
    } else if q.cluster == p.cluster {
      FreshEntry(clusterBytes, filename, i);
    } else {
      assert q == Place(t.dirs[x][k], i) && t.At(q) == t'.At(q);
    }
  }

  /** No entry of a new directory cluster is a directory's. */
  lemma FreshEntry(clusterBytes: nat, filename: Bytes, i: nat)
    requires ENTRY_SIZE <= clusterBytes && ENTRY_SIZE * i + ENTRY_SIZE <= clusterBytes
    ensures Attr(SlotAt(PutSlot(Zeros(clusterBytes), 0, NewEntry(Zeros(32), filename)), i)) != ATTR_DIRECTORY
  {
    hide Stored, NewEntry;
    NewEntryFields(Zeros(32), filename);
    SlotAfterPut(Zeros(clusterBytes), 0, NewEntry(Zeros(32), filename), i);
  }

  /** CreateFile and then FindFile of the same path, for a name the parent does not have. */
  method CreateThenFind(server: FileSystemServer, path: Bytes, ghost d: nat) returns (created: Option<Place>, found: Option<Place>)
    requires server.Valid() && server.ValidDirs() && ParentOf(server.Dirs(), path) == In(d) && d in server.dirs
    requires FreeIn(server.clusters, server.dirs[d], 0).Some? || 1 <= |Frees(server.fat, 2)|
    requires Plain(path) && Valid83(FileName(path)) && server.Dirs().InDir(d, Stored(FileName(path))) == None
    modifies server.fatBuf, server.clusterBuf, server`clusterNum, server`fatSectors, server`fat, server`dirs, server`clusters
    ensures server.Valid() && server.ValidDirs() && created.Some?
    ensures found == created <==> LeadsToParent(old(server.Dirs()), path, d)
    ensures forall q :: Plain(q) && (old(server.Dirs()).Lookup(q, 0).Some? || !Names(q, Stored(FileName(path)))) ==>
              server.Dirs().Lookup(q, 0) == old(server.Dirs()).Lookup(q, 0)
  {
    hide Flat, Frees, Tree.Closed, Entered, DirChains, Tree.Lookup, Tree.InDir, FreeIn, Stored, Valid83, FileName, Plain, LeadsToParent, Names, ParentOf;
    ghost var fat, t := server.fat, server.Dirs();
    var errno;
    created, errno := server.CreateFile(path);
    ghost var t' := server.Dirs();
    assert Created(fat, t, t', d, created.value, FileName(path), server.bytesPerCluster);
    CreatedClosed(fat, t, t', d, created.value, FileName(path), server.bytesPerCluster);
    CreatedIsFound(fat, t, t', path, d, created.value, server.bytesPerCluster);
    forall q | Plain(q) && (t.Lookup(q, 0).Some? || !Names(q, Stored(FileName(path))))
      ensures t'.Lookup(q, 0) == t.Lookup(q, 0)
    {
      LookupKept(fat, t, t', d, created.value, FileName(path), server.bytesPerCluster, q, 0);
    }
    found := server.FindFile(path, 0);
  }
}
