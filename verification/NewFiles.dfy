/** The first life of a file: CreateFile of servers/fs/fs.cpp, then the writes and reads of
    servers/fs/serverstate.cpp through the open files of servers/am/filedescriptor.cpp. */
module NewFiles {
  import opened Options
  import opened FatChains
  import opened FatNames
  import opened FatDirectory
  import opened FatFiles
  import opened FileSystem
  import opened FatCreation
  import opened FileServer

  /** The slot a directory has for the next name holds nothing of an older file: it is in a new cluster, or
      its bytes give no first cluster and no directory's attribute. CreateFile clears neither. */
  ghost predicate CleanSlot(t: Tree, d: nat)
    requires d in t.dirs
  {
    match FreeIn(t.clusters, t.dirs[d], 0)
    case None => true
    case Some(q) => t.At(q).Some? ==> FirstCluster(t.At(q).value) == 0 && Attr(t.At(q).value) != ATTR_DIRECTORY
  }

  lemma NewEntryAt(t: Tree, t': Tree, d: nat, p: Place, filename: Bytes, clusterBytes: nat)
    requires Entered(t, t', d, p, filename, clusterBytes)
    ensures t'.At(p).Some?
    ensures CleanSlot(t, d) <==> FirstCluster(t'.At(p).value) == 0 && Attr(t'.At(p).value) != ATTR_DIRECTORY
  {
    hide FreeIn, Stored, NewEntry, PutSlot, SlotAt, Zeros, FirstCluster, Attr, Free;
    if FreeIn(t.clusters, t.dirs[d], 0).Some? {
      var was := t.At(p).value;
      NewEntryFields(was, filename);
      SlotBack(t.clusters[p.cluster], p.index, NewEntry(was, filename));
    } else {
      NewEntryFields(Zeros(32), filename);
      BlankSlot();
      SlotBack(Zeros(clusterBytes), 0, NewEntry(Zeros(32), filename));
    }
  }

  lemma SlotBack(buf: Bytes, i: nat, e: Slot)
    requires ENTRY_SIZE * i + ENTRY_SIZE <= |buf|
    ensures |PutSlot(buf, i, e)| == |buf| && SlotAt(PutSlot(buf, i, e), i) == e
  {
    SlotAfterPut(buf, i, e, i);
  }

  lemma BlankSlot()
    ensures FirstCluster(Zeros(32)) == 0 && Attr(Zeros(32)) == 0
  {
  }

  lemma EmptyChain(fat: seq<nat>, e: Slot)
    ensures IsFile(fat, e, []) <==> FirstCluster(e) == 0 && Attr(e) != ATTR_DIRECTORY
  {
    hide FirstCluster, Attr;
  }

  /** What CreateFile makes is an empty file under its path if and only if the path leads to the parent and
      the slot that was taken is clean. */
  lemma CreatedEmpty(fat: seq<nat>, t: Tree, fat': seq<nat>, t': Tree, path: Bytes, d: nat, p: Place, clusterBytes: nat)
    requires Created(fat, t, t', d, p, FileName(path), clusterBytes) && DirChains(fat', t'.dirs)
    requires ParentOf(t, path) == In(d) && Plain(path) && Valid83(FileName(path))
    ensures FileAt(fat', t', path, p, []) <==> LeadsToParent(t, path, d) && CleanSlot(t, d)
  {
    hide Entered, DirChains, Tree.Closed, Tree.Lookup, Tree.At, Tree.InDir, FileName, Plain, Valid83, ParentOf, LeadsToParent, IsFile, CleanSlot;
    CreatedIsFound(fat, t, t', path, d, p, clusterBytes);
    CreatedClosed(fat, t, t', d, p, FileName(path), clusterBytes);
    NewEntryAt(t, t', d, p, FileName(path), clusterBytes);
    EmptyChain(fat', t'.At(p).value);
  }

  /** A deleted entry of a long name: six of its characters lie where the first cluster is. */
  lemma LongNameSlot() returns (was: Slot)
    ensures Free(was) && Attr(was) == 0x0f && FirstCluster(was) == 0x61_0000
    ensures forall filename :: FirstCluster(NewEntry(was, filename)) == 0x61_0000
  {
    was := Zeros(32)[0 := 0xe5][11 := 0x0f][20 := 0x61];
    assert FirstCluster(was) == 0x61_0000;
    forall filename
      ensures FirstCluster(NewEntry(was, filename)) == 0x61_0000
    {
      NewEntryFields(was, filename);
    }
  }

  /** A new file, written once and read back: for a path that leads to its parent and a clean slot, what is
      read is what was written. */
  method CreateWriteRead(server: FileSystemServer, w: FatFileDescriptor, r: FatFileDescriptor, data: Bytes, count: nat, ghost d: nat)
    returns (created: Option<Place>, got: Bytes)
    requires server.Valid() && server.ValidDirs() && ParentOf(server.Dirs(), w.filename) == In(d) && d in server.dirs
    requires Plain(w.filename) && Valid83(FileName(w.filename)) && server.Dirs().InDir(d, Stored(FileName(w.filename))) == None
    requires LeadsToParent(server.Dirs(), w.filename, d) && CleanSlot(server.Dirs(), d)
    requires w != r && r.filename == w.filename && w.wrOff == 0 && r.rdOff == 0
    requires data != [] && |data| < 0x1_0000_0000 && |data| <= count
    requires ChainAfter(0, |data|, 0, |data|, server.bytesPerCluster) + (if FreeIn(server.clusters, server.dirs[d], 0).Some? then 0 else 1)
             <= |Frees(server.fat, 2)|
    modifies w`wrOff, r`rdOff, server.fatBuf, server.clusterBuf, server`clusterNum, server`fatSectors, server`fat, server`dirs, server`clusters
    ensures server.Valid() && created.Some? && got == data && w.wrOff == r.rdOff == |data|
    ensures server.Dirs().At(created.value).Some? && FileSize(server.Dirs().At(created.value).value) == |data|
    ensures forall q :: Plain(q) && (old(server.Dirs()).Lookup(q, 0).Some? || !Names(q, Stored(FileName(w.filename)))) ==>
              server.Dirs().Lookup(q, 0) == old(server.Dirs()).Lookup(q, 0)
  {
    hide Flat, Frees, Tree.Closed, Entered, DirChains, Tree.Lookup, Tree.InDir, Tree.At, FreeIn, Stored, Valid83, FileName, Plain, LeadsToParent, Names,
      ParentOf, CleanSlot, FileAt, ChainAfter, Writing, Flatten, FileSize, FileSystemServer.Valid;
    ghost var fat, t := server.fat, server.Dirs();
    SizesOf(server);
    var errno;
    created, errno := server.CreateFile(w.filename);
    ghost var fat', t' := server.fat, server.Dirs();
    assert Created(fat, t, t', d, created.value, FileName(w.filename), server.bytesPerCluster);
    CreatedEmpty(fat, t, fat', t', w.filename, d, created.value, server.bytesPerCluster);
    ghost var s', e';
    got, s', e' := WriteThenRead(server, w, r, data, count, created.value, []);
    NothingBefore(t'.clusters, s', data);
    WritingEntry(fat', t', w.filename, created.value, [], server.fat, server.Dirs(), s', e');
    forall q | Plain(q) && (t.Lookup(q, 0).Some? || !Names(q, Stored(FileName(w.filename))))
      ensures t'.Lookup(q, 0) == t.Lookup(q, 0)
    {
      LookupKept(fat, t, t', d, created.value, FileName(w.filename), server.bytesPerCluster, q, 0);
    }
    WritingLookup(fat', t', w.filename, created.value, [], server.fat, server.Dirs(), s', e');
  }

  lemma WritingLookup(fat: seq<nat>, t: Tree, path: Bytes, p: Place, s: Chain, fat': seq<nat>, t': Tree, s': Chain, e': Slot)
    requires FileAt(fat, t, path, p, s) && Writing(fat, t, path, p, s, fat', t', s', e')
    ensures forall q :: t'.Lookup(q, 0) == t.Lookup(q, 0)
  {
    hide FileAt, Wrote, Tree.Lookup, Tree.At, FirstCluster, Name, Attr;
    WroteKeepsDirectories(fat, t, path, p, s, fat', t', s', e');
  }

  lemma SizesOf(server: FileSystemServer)
    requires server.Valid()
    ensures server.bytesPerCluster > 0 && |server.fat| <= EOC_MIN
  {
  }

  lemma NothingBefore(clusters: seq<Bytes>, s: Chain, data: Bytes)
    ensures Flatten(clusters, s)[..0] + data == data
  {
  }
}
