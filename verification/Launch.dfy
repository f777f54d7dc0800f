/** The launch of an application by three servers that exchange messages: the application manager
    (servers/am/serverstate.cpp), the file server (servers/fs/serverstate.cpp) and the system task of
    the kernel (kernel/main.cpp). Each makes one system call at a time, in any order, and other tasks
    send what they like in between. */
module Launch {
  import opened Arithmetic
  import opened Options
  import opened FatChains
  import opened FatNames
  import opened FatDirectory
  import opened FatFiles

  type TaskId = nat

  type Path = nat

  const KERNEL: TaskId := 1

  datatype ServerIds = ServerIds(am: TaskId, fs: TaskId)

  type Servers = s: ServerIds | s.am != s.fs && s.am != KERNEL && s.fs != KERNEL witness ServerIds(3, 4)

  /** The ids the two servers happen to have. */
  const SERVERS: Servers

  const AM: TaskId := SERVERS.am

  const FS: TaskId := SERVERS.fs

  /** A file: the chain and the size its directory entry gives. */
  datatype File = File(chain: Chain, size: nat)

  /** The volume as the file server has it: its clusters, and the files by path. */
  datatype Volume = Volume(clusters: seq<Bytes>, bytesPerCluster: nat, files: map<Path, File>) {
    predicate Sound() {
      Even(clusters, bytesPerCluster) && forall p | p in files :: OnVolume(clusters, files[p].chain)
    }

    /** What the copy to a task's buffer makes of a file. */
    function Image(path: Path): (b: Bytes)
      requires Sound() && path in files
      ensures |b| == files[path].size
    {
      var f := files[path];
      ImageLength(clusters, f.chain, f.size, bytesPerCluster, Zeros(f.size));
      CopiedImage(clusters, f.chain, f.size, bytesPerCluster, Zeros(f.size))
    }

    /** What the file holds. */
    function Contents(path: Path): Bytes
      requires path in files
    {
      var flat := Flatten(clusters, files[path].chain);
      if files[path].size <= |flat| then flat[..files[path].size] else flat
    }

    /** after is this volume with a file more, perhaps. */
    predicate OpensTo(after: Volume) {
      && after.Sound() && after.bytesPerCluster == bytesPerCluster
      && forall p | p in files ::
           && p in after.files && after.files[p] == files[p]
           && forall i :: 0 <= i < |files[p].chain| ==> ClusterAt(after.clusters, files[p].chain[i]) == ClusterAt(clusters, files[p].chain[i])
    }

    /** The volume after a write. */
    function Written(after: Volume): Volume {
      if after.Sound() && after.bytesPerCluster == bytesPerCluster then after else this
    }
  }

  /** Execute stands for both messages of that type: the one that names a file and the one that names
      the task it goes to. Write carries the volume as it is once the write is handled. */
  datatype Body =
    | Error(retry: bool) | Execute(path: Path, id: TaskId, redirect: bool, pipe: bool) | Expand(id: TaskId, bytes: nat)
    | Ready | Open | StartApp(id: TaskId) | Write(after: Volume) | Other

  datatype Message = Message(src: TaskId, body: Body)

  /** What the application manager does next. Closed receives name whom they wait for. */
  datatype Manager =
    | AwaitRequest | ForwardWrite(after: Volume) | ForwardOpen | AwaitOpened | AwaitName
    | SendPath | AwaitFound | CreateTask | SendId | AwaitReady | SendOpen | AwaitRedirect | SendReply | SendStart | AwaitPiped

  /** What the file server does next. */
  datatype Server =
    | AwaitCommand | Find(path: Path) | OpenFile | Reply(body: Body) | SendFound(path: Path) | AwaitId(path: Path)
    | SendExpand(path: Path, id: TaskId) | AwaitExpanded(path: Path, id: TaskId) | Copy(path: Path, id: TaskId, k: nat, offset: nat)

  /** The application manager: what it does next, and the request it is serving. */
  datatype Am = Am(next: Manager, target: TaskId, path: Path, redirect: bool, pipe: bool, newId: TaskId)

  /** The kernel's tasks: their buffers, and those whose start message went out, with what the
      copy of the file to be run was then. */
  datatype TaskTable = TaskTable(buffers: map<TaskId, Bytes>, nextId: TaskId, launched: map<TaskId, Bytes>)

  datatype World = World(
    am: Am, amBox: seq<Message>, fs: Server, fsBox: seq<Message>, volume: Volume,
    kernelBox: seq<Message>, table: TaskTable)

  datatype Step = AmStep | FsStep(made: Option<Volume>) | KernelStep | Send(to: TaskId, src: TaskId, body: Body)
    | CopyIn(id: TaskId, offset: nat, data: Bytes) | NewTask

  /** A send; mailboxes of other tasks are not part of the model. */
  function Sent(w: World, to: TaskId, m: Message): World {
    if to == AM then w.(amBox := w.amBox + [m])
    else if to == FS then w.(fsBox := w.fsBox + [m])
    else if to == KERNEL then w.(kernelBox := w.kernelBox + [m])
    else w
  }

  function Retry(self: TaskId): Message {
    Message(self, Error(true))
  }

  predicate AmWaits(a: Manager) {
    a.AwaitRequest? || a.AwaitName? || a.AwaitPiped? || a.AwaitFound? || a.AwaitReady? || a.AwaitRedirect? || a.AwaitOpened?
  }

  /** A closed receive answers a message of somebody else with a retry error. */
  predicate AmForeign(a: Am, src: TaskId) {
    if a.next.AwaitRequest? then false
    else if a.next.AwaitName? || a.next.AwaitPiped? then src != a.target
    else src != FS
  }

  function Requested(a: Am, m: Message): Am
    requires m.body.Execute?
  {
    Am(if m.body.redirect then AwaitName else SendPath, m.src, m.body.path, m.body.redirect, m.body.pipe, a.newId)
  }

  /** What a message the manager was waiting for makes it do next. */
  function AmHeard(a: Am, m: Message): Am {
    match a.next
    case AwaitRequest =>
      if m.body.Execute? then Requested(a, m)
      else if m.body.Open? then a.(next := ForwardOpen)
      else if m.body.Write? then a.(next := ForwardWrite(m.body.after))
      else a
    case AwaitPiped => if m.body.Execute? then Requested(a, m) else a
    case AwaitName => a.(next := SendPath)
    case AwaitFound =>
      if m.body.Error? then a.(next := if m.body.retry then SendPath else AwaitRequest)
      else if m.body.Execute? then a.(next := CreateTask)
      else a
    case AwaitReady =>
      if m.body.Error? then a.(next := if m.body.retry then SendId else AwaitRequest)
      else if m.body.Ready? then a.(next := if a.redirect then SendOpen else SendReply)
      else a.(next := AwaitRequest)
    case AwaitRedirect =>
      if m.body.Error? then a.(next := if m.body.retry then SendOpen else AwaitRequest)
      else if m.body.Open? then a.(next := SendReply)
      else a.(next := AwaitRequest)
    case AwaitOpened => a.(next := if m.body == Error(true) then ForwardOpen else AwaitRequest)
    case _ => a
  }

  function AmReceived(w: World): World
    requires w.amBox != []
  {
    var m, r := w.amBox[0], w.(amBox := w.amBox[1..]);
    if AmForeign(w.am, m.src) then Sent(r, m.src, Retry(AM)) else r.(am := AmHeard(w.am, m))
  }

  /** The sends to the file server, and what comes after them. */
  predicate AmAsks(a: Manager) {
    a.ForwardWrite? || a.ForwardOpen? || a.SendPath? || a.SendId? || a.SendOpen?
  }

  function Asked(a: Am): Body
    requires AmAsks(a.next)
  {
    match a.next
    case ForwardWrite(after) => Write(after)
    case SendPath => Execute(a.path, 0, false, false)
    case SendId => Execute(a.path, a.newId, false, false)
    case _ => Open
  }

  function AfterAsking(a: Manager): Manager
    requires AmAsks(a)
  {
    match a
    case ForwardWrite(_) => AwaitRequest
    case ForwardOpen => AwaitOpened
    case SendPath => AwaitFound
    case SendId => AwaitReady
    case SendOpen => AwaitRedirect
  }

  function FileOf(v: Volume, path: Path): File {
    if path in v.files then v.files[path] else File([], 0)
  }

  function ImageOf(v: Volume, path: Path): Bytes {
    if v.Sound() && path in v.files then v.Image(path) else []
  }

  function Spawned(t: TaskTable): TaskTable {
    TaskTable(t.buffers[t.nextId := []], t.nextId + 1, t.launched)
  }

  function AmNext(w: World): World {
    if AmWaits(w.am.next) then (if w.amBox == [] then w else AmReceived(w))
    else if AmAsks(w.am.next) then
      Sent(w.(am := w.am.(next := AfterAsking(w.am.next))), FS, Message(AM, Asked(w.am)))
    else if w.am.next.CreateTask? then w.(am := w.am.(next := SendId, newId := w.table.nextId), table := Spawned(w.table))
    else if w.am.next.SendReply? then w.(am := w.am.(next := SendStart))
    else
      Sent(w.(am := w.am.(next := if w.am.pipe then AwaitPiped else AwaitRequest),
              table := w.table.(launched := w.table.launched[w.am.newId := ImageOf(w.volume, w.am.path)])),
           KERNEL, Message(AM, StartApp(w.am.newId)))
  }

  predicate FsWaits(f: Server) {
    f.AwaitCommand? || f.AwaitId? || f.AwaitExpanded?
  }

  predicate FsForeign(f: Server, src: TaskId) {
    src != if f.AwaitExpanded? then KERNEL else AM
  }

  function FsHeard(f: Server, body: Body): Server {
    match f
    case AwaitCommand => if body.Execute? then Find(body.path) else if body.Open? then OpenFile else f
    case AwaitId(path) =>
      if body.Error? then (if body.retry then SendFound(path) else AwaitCommand)
      else if body.Execute? then SendExpand(path, body.id)
      else AwaitCommand
    case AwaitExpanded(path, id) =>
      if body.Error? then (if body.retry then SendExpand(path, id) else AwaitCommand)
      else if body.Expand? then Copy(path, id, 0, 0)
      else AwaitCommand
    case _ => f
  }

  function VolumeHeard(v: Volume, f: Server, body: Body): Volume {
    if f.AwaitCommand? && body.Write? then v.Written(body.after) else v
  }

  function FsReceived(w: World): World
    requires w.fsBox != []
  {
    var m, r := w.fsBox[0], w.(fsBox := w.fsBox[1..]);
    if FsForeign(w.fs, m.src) then Sent(r, m.src, Retry(FS))
    else r.(fs := FsHeard(w.fs, m.body), volume := VolumeHeard(w.volume, w.fs, m.body))
  }

  /** The system call that copies into a task's buffer; out of range it does nothing. */
  function CopiedIn(t: TaskTable, id: TaskId, offset: nat, data: Bytes): TaskTable {
    if id in t.buffers && offset + |data| <= |t.buffers[id]|
    then t.(buffers := t.buffers[id := Splice(t.buffers[id], offset, data)])
    else t
  }

  /** made is the volume once a file to be made is there or was created, if that can be done. The
      copy goes along the chain to its end, one cluster a step: while a whole cluster is left to copy the
      offset moves on, and then no more. */
  function FsNext(w: World, made: Option<Volume>): World {
    match w.fs
    case Find(path) => w.(fs := if path in w.volume.files then SendFound(path) else Reply(Error(false)))
    case OpenFile =>
      if made.Some? && w.volume.OpensTo(made.value) then w.(fs := Reply(Open), volume := made.value) else w.(fs := Reply(Error(false)))
    case Reply(body) => Sent(w.(fs := AwaitCommand), AM, Message(FS, body))
    case SendFound(path) => Sent(w.(fs := AwaitId(path)), AM, Message(FS, Execute(path, 0, false, false)))
    case SendExpand(path, id) =>
      Sent(w.(fs := AwaitExpanded(path, id)), KERNEL, Message(FS, Expand(id, FileOf(w.volume, path).size)))
    case Copy(path, id, k, offset) =>
      var file := FileOf(w.volume, path);
      if k < |file.chain| then
        var cluster := ClusterAt(w.volume.clusters, file.chain[k]);
        var whole := offset + w.volume.bytesPerCluster <= file.size;
        var n := if whole then w.volume.bytesPerCluster else Left(file.size, offset);
        w.(fs := Copy(path, id, k + 1, if whole then offset + w.volume.bytesPerCluster else offset),
           table := CopiedIn(w.table, id, offset, cluster[..Min(n, |cluster|)]))
      else Sent(w.(fs := AwaitCommand), AM, Message(FS, Ready))
    case _ => if w.fsBox == [] then w else FsReceived(w)
  }

  function Left(size: nat, offset: nat): nat {
    if offset <= size then size - offset else 0
  }

  function Resized(b: Bytes, n: nat): (r: Bytes)
    ensures |r| == n
  {
    if n <= |b| then b[..n] else b + seq(n - |b|, _ => 0)
  }

  function Expanded(t: TaskTable, id: TaskId, bytes: nat): TaskTable {
    if id in t.buffers then t.(buffers := t.buffers[id := Resized(t.buffers[id], bytes)]) else t
  }

  function KernelNext(w: World): World {
    if w.kernelBox == [] then w
    else
      var m, r := w.kernelBox[0], w.(kernelBox := w.kernelBox[1..]);
      if m.body.Expand? then
        Sent(r.(table := Expanded(w.table, m.body.id, m.body.bytes)), m.src, Message(KERNEL, Expand(0, 0)))
      else r
  }

  predicate IsServer(t: TaskId) {
    t == AM || t == FS || t == KERNEL
  }

  /** Another task does what only the servers do: it asks the kernel to expand a buffer or to start a task, or
      copies into a buffer. The kernel takes that from anybody. */
  predicate Meddles(step: Step) {
    match step
    case Send(to, src, body) => to == KERNEL && (body.Expand? || body.StartApp?)
    case CopyIn(_, _, _) => true
    case _ => false
  }

  predicate Unmeddled(steps: seq<Step>) {
    forall i | 0 <= i < |steps| :: !Meddles(steps[i])
  }

  function Next(w: World, step: Step): World {
    match step
    case AmStep => AmNext(w)
    case FsStep(made) => FsNext(w, made)
    case KernelStep => KernelNext(w)
    case Send(to, src, body) => if IsServer(src) then w else Sent(w, to, Message(src, body))
    case CopyIn(id, offset, data) => w.(table := CopiedIn(w.table, id, offset, data))
    case NewTask => w.(table := Spawned(w.table))
  }

  /** The messages of one sender in a mailbox. */
  function From(box: seq<Message>, src: TaskId): seq<Body> {
    if box == [] then []
    else From(box[..|box| - 1], src) + if box[|box| - 1].src == src then [box[|box| - 1].body] else []
  }

  lemma FromMore(box: seq<Message>, m: Message, src: TaskId)
    ensures From(box + [m], src) == From(box, src) + if m.src == src then [m.body] else []
  {
    assert (box + [m])[..|box|] == box;
  }

  lemma {:induction false} FromRest(box: seq<Message>, src: TaskId)
    requires box != []
    ensures From(box, src) == (if box[0].src == src then [box[0].body] else []) + From(box[1..], src)
  {
    if |box| == 1 {
      assert box[..0] == [] && box[1..] == [];
    } else {
      var front, rest, last := box[..|box| - 1], box[1..], box[|box| - 1];
      FromRest(front, src);
      FromMore(front, last, src);
      FromMore(front[1..], last, src);
      assert box == front + [last] && rest == front[1..] + [last] && front[0] == box[0];
    }
  }

  /** The four channels between the servers. */
  datatype Channels = Channels(toFs: seq<Body>, expanded: seq<Body>, toAm: seq<Body>, expand: seq<Body>)

  ghost function ChannelsOf(w: World): Channels {
    Channels(From(w.fsBox, AM), From(w.fsBox, KERNEL), From(w.amBox, FS), From(w.kernelBox, FS))
  }

  predicate AllWrites(q: seq<Body>) {
    forall i :: 0 <= i < |q| ==> q[i].Write?
  }

  /** Writes, and then one more message. */
  predicate WritesThen(q: seq<Body>, last: Body) {
    q != [] && AllWrites(q[..|q| - 1]) && q[|q| - 1] == last
  }

  /** The file server has nothing to do but writes. */
  ghost predicate Idle(fs: Server, c: Channels) {
    fs == AwaitCommand && AllWrites(c.toFs) && c.expanded == [] && c.toAm == [] && c.expand == []
  }

  ghost predicate Silent(c: Channels) {
    c == Channels([], [], [], [])
  }

  /** Where a request to open a file may be. */
  ghost predicate Opening(fs: Server, c: Channels) {
    || (fs == AwaitCommand && WritesThen(c.toFs, Open) && c == Channels(c.toFs, [], [], []))
    || (fs == OpenFile && Silent(c))
    || ((fs == Reply(Open) || fs == Reply(Error(false))) && Silent(c))
    || (fs == AwaitCommand && (c == Channels([], [], [Open], []) || c == Channels([], [], [Error(false)], [])))
  }

  /** Where the request to find the file may be. */
  ghost predicate Finding(fs: Server, path: Path, v: Volume, c: Channels) {
    || (fs == AwaitCommand && WritesThen(c.toFs, Execute(path, 0, false, false)) && c == Channels(c.toFs, [], [], []))
    || (fs == Find(path) && Silent(c))
    || (fs == SendFound(path) && Silent(c) && path in v.files)
    || (fs == AwaitId(path) && path in v.files && c == Channels([], [], [Execute(path, 0, false, false)], []))
    || (fs == Reply(Error(false)) && Silent(c))
    || (fs == AwaitCommand && c == Channels([], [], [Error(false)], []))
  }

  /** Where the loading of the new task may be. */
  ghost predicate Loading(fs: Server, path: Path, id: TaskId, v: Volume, buffers: map<TaskId, Bytes>, c: Channels) {
    && path in v.files
    && (|| (fs == AwaitId(path) && c == Channels([Execute(path, id, false, false)], [], [], []) && Unfilled(buffers, id))
        || (fs == SendExpand(path, id) && Silent(c) && Unfilled(buffers, id))
        || (fs == AwaitExpanded(path, id) && c == Channels([], [], [], [Expand(id, v.files[path].size)]) && Unfilled(buffers, id))
        || (fs == AwaitExpanded(path, id) && c == Channels([], [Expand(0, 0)], [], []) && Copied(buffers, id, v, path, 0, 0))
        || (fs.Copy? && fs == Copy(path, id, fs.k, fs.offset) && Silent(c) && Copied(buffers, id, v, path, fs.k, fs.offset))
        || (fs == AwaitCommand && c == Channels([], [], [Ready], []) && Loaded(path, id, v, buffers)))
  }

  /** The task's buffer is still that of a new task. */
  ghost predicate Unfilled(buffers: map<TaskId, Bytes>, id: TaskId) {
    id in buffers ==> buffers[id] == []
  }

  /** The task's buffer is what the first k clusters of the file made of it. */
  ghost predicate Copied(buffers: map<TaskId, Bytes>, id: TaskId, v: Volume, path: Path, k: nat, offset: nat) {
    && id in buffers && v.Sound() && path in v.files
    && var f := v.files[path];
       ImageAfter(v.clusters, f.chain, f.size, v.bytesPerCluster, Zeros(f.size), k, offset, buffers[id])
  }

  /** The task holds what the copy makes of the file. */
  ghost predicate Loaded(path: Path, id: TaskId, v: Volume, buffers: map<TaskId, Bytes>) {
    v.Sound() && path in v.files && id in buffers && buffers[id] == v.Image(path)
  }

  /** Where things are, by what the application manager does next. */
  ghost predicate Phase(am: Am, fs: Server, v: Volume, buffers: map<TaskId, Bytes>, c: Channels) {
    match am.next
    case AwaitFound => Finding(fs, am.path, v, c)
    case AwaitOpened => Opening(fs, c)
    case CreateTask => fs == AwaitId(am.path) && am.path in v.files && Silent(c)
    case SendId => fs == AwaitId(am.path) && am.path in v.files && Silent(c) && Unfilled(buffers, am.newId)
    case AwaitReady => Loading(fs, am.path, am.newId, v, buffers, c)
    case SendOpen => fs == AwaitCommand && Silent(c) && Loaded(am.path, am.newId, v, buffers)
    case AwaitRedirect => Opening(fs, c) && |c.toFs| <= 1 && Loaded(am.path, am.newId, v, buffers)
    case SendReply => fs == AwaitCommand && Silent(c) && Loaded(am.path, am.newId, v, buffers)
    case SendStart => fs == AwaitCommand && Silent(c) && Loaded(am.path, am.newId, v, buffers)
    case _ => Idle(fs, c)
  }

  /** The new task is one that was not launched yet. */
  predicate Fresh(a: Manager) {
    a.SendId? || a.AwaitReady? || a.SendOpen? || a.AwaitRedirect? || a.SendReply? || a.SendStart?
  }

  /** A request is being served. */
  predicate Serving(a: Manager) {
    !(a.AwaitRequest? || a.ForwardWrite? || a.ForwardOpen? || a.AwaitOpened?)
  }

  /** Task ids are not used twice, and every launched task holds what its file held when the start
      message went out. */
  ghost predicate Tasks(am: Am, t: TaskTable) {
    && (forall id :: id in t.buffers ==> id < t.nextId)
    && (forall id :: id in t.launched ==> id in t.buffers && t.buffers[id] == t.launched[id])
    && (Fresh(am.next) ==> am.newId in t.buffers && am.newId !in t.launched)
    && (Serving(am.next) ==> !IsServer(am.target))
  }

  /** Nobody but the file server asks for buffers, and the tasks to start are launched ones. */
  ghost predicate KernelMail(box: seq<Message>, launched: map<TaskId, Bytes>) {
    forall i :: 0 <= i < |box| ==>
      (box[i].src != FS ==> !box[i].body.Expand?) && (box[i].body.StartApp? ==> box[i].body.id in launched)
  }

  /** The side conditions on the mailboxes. */
  ghost predicate Mail(w: World) {
    && KernelMail(w.kernelBox, w.table.launched)
    && From(w.amBox, AM) == [] && From(w.amBox, KERNEL) == [] && From(w.fsBox, FS) == [] && From(w.kernelBox, KERNEL) == []
  }

  ghost predicate Inv(w: World) {
    && w.volume.Sound() && Phase(w.am, w.fs, w.volume, w.table.buffers, ChannelsOf(w)) && Tasks(w.am, w.table) && Mail(w)
  }

  lemma SentChannels(w: World, to: TaskId, m: Message)
    ensures var c, c' := ChannelsOf(w), ChannelsOf(Sent(w, to, m));
            c' == Channels(
              if to == FS && m.src == AM then c.toFs + [m.body] else c.toFs,
              if to == FS && m.src == KERNEL then c.expanded + [m.body] else c.expanded,
              if to == AM && m.src == FS then c.toAm + [m.body] else c.toAm,
              if to == KERNEL && m.src == FS then c.expand + [m.body] else c.expand)
  {
    hide From;
    FromMore(w.fsBox, m, AM);
    FromMore(w.fsBox, m, KERNEL);
    FromMore(w.amBox, m, FS);
    FromMore(w.kernelBox, m, FS);
    var none: seq<Body> := [];
    var c := ChannelsOf(w);
    assert c.toFs + none == c.toFs && c.expanded + none == c.expanded && c.toAm + none == c.toAm && c.expand + none == c.expand;
  }

  lemma AmPopped(w: World)
    requires w.amBox != []
    ensures var c, c' := ChannelsOf(w), ChannelsOf(w.(amBox := w.amBox[1..]));
            if w.amBox[0].src == FS then c.toAm != [] && c.toAm[0] == w.amBox[0].body && c' == c.(toAm := c.toAm[1..]) else c' == c
    ensures forall t :: From(w.amBox, t) == [] ==> From(w.amBox[1..], t) == [] && w.amBox[0].src != t
  {
    FromRest(w.amBox, FS);
    forall t | From(w.amBox, t) == []
      ensures From(w.amBox[1..], t) == [] && w.amBox[0].src != t
    {
      FromRest(w.amBox, t);
    }
  }

  lemma FsPopped(w: World)
    requires w.fsBox != []
    ensures var c, c' := ChannelsOf(w), ChannelsOf(w.(fsBox := w.fsBox[1..]));
            if w.fsBox[0].src == AM then c.toFs != [] && c.toFs[0] == w.fsBox[0].body && c' == c.(toFs := c.toFs[1..])
            else if w.fsBox[0].src == KERNEL then
              c.expanded != [] && c.expanded[0] == w.fsBox[0].body && c' == c.(expanded := c.expanded[1..])
            else c' == c
    ensures From(w.fsBox, FS) == [] ==> From(w.fsBox[1..], FS) == [] && w.fsBox[0].src != FS
  {
    FromRest(w.fsBox, AM);
    FromRest(w.fsBox, KERNEL);
    FromRest(w.fsBox, FS);
  }

  lemma KernelPopped(w: World)
    requires w.kernelBox != []
    ensures var c, c' := ChannelsOf(w), ChannelsOf(w.(kernelBox := w.kernelBox[1..]));
            if w.kernelBox[0].src == FS then c.expand != [] && c.expand[0] == w.kernelBox[0].body && c' == c.(expand := c.expand[1..])
            else c' == c
    ensures From(w.kernelBox, KERNEL) == [] ==> From(w.kernelBox[1..], KERNEL) == [] && w.kernelBox[0].src != KERNEL
  {
    FromRest(w.kernelBox, FS);
    FromRest(w.kernelBox, KERNEL);
  }

  lemma SentMail(w: World, to: TaskId, m: Message)
    requires Mail(w)
    requires to == AM ==> m.src != AM && m.src != KERNEL
    requires to == FS ==> m.src != FS
    requires to == KERNEL ==> m.src != KERNEL && (m.src != FS ==> !m.body.Expand?) && (m.body.StartApp? ==> m.body.id in w.table.launched)
    ensures Mail(Sent(w, to, m))
  {
    hide From;
    FromMore(w.amBox, m, AM);
    FromMore(w.amBox, m, KERNEL);
    FromMore(w.fsBox, m, FS);
    FromMore(w.kernelBox, m, KERNEL);
  }

  lemma WritesFirst(q: seq<Body>, last: Body)
    requires WritesThen(q, last)
    ensures if |q| == 1 then q == [last] else q[0].Write? && WritesThen(q[1..], last)
  {
    if |q| > 1 {
      assert q[1..][..|q| - 2] == q[..|q| - 1][1..];
    }
  }

  lemma NoWrites()
    ensures AllWrites([])
  {
  }

  lemma SameChannels(w: World, w': World)
    requires w'.amBox == w.amBox && w'.fsBox == w.fsBox && w'.kernelBox == w.kernelBox
    ensures ChannelsOf(w') == ChannelsOf(w)
  {
  }

  /** What a message of the file server can be. */
  lemma Answers(a: Am, fs: Server, v: Volume, buffers: map<TaskId, Bytes>, c: Channels)
    requires Phase(a, fs, v, buffers, c) && AmWaits(a.next) && c.toAm != []
    ensures |c.toAm| == 1 && c == Channels([], [], c.toAm, [])
    ensures a.next.AwaitFound? || a.next.AwaitReady? || a.next.AwaitRedirect? || a.next.AwaitOpened?
    ensures a.next.AwaitFound? ==>
              (c.toAm[0] == Error(false) && fs == AwaitCommand)
              || (c.toAm[0] == Execute(a.path, 0, false, false) && fs == AwaitId(a.path) && a.path in v.files)
    ensures a.next.AwaitReady? ==> c.toAm[0] == Ready && fs == AwaitCommand && Loaded(a.path, a.newId, v, buffers)
    ensures a.next.AwaitRedirect? || a.next.AwaitOpened? ==> fs == AwaitCommand && c.toAm[0] in {Open, Error(false)}
    ensures a.next.AwaitRedirect? ==> Loaded(a.path, a.newId, v, buffers)
  {
    hide AllWrites, Copied, Loaded;
  }

  /** A message the manager was waiting for keeps things where they belong. */
  lemma AmHears(a: Am, fs: Server, v: Volume, buffers: map<TaskId, Bytes>, c: Channels, m: Message)
    requires Phase(a, fs, v, buffers, c) && AmWaits(a.next) && !AmForeign(a, m.src)
    requires m.src == FS ==> c.toAm != [] && m.body == c.toAm[0]
    ensures Phase(AmHeard(a, m), fs, v, buffers, if m.src == FS then c.(toAm := c.toAm[1..]) else c)
    ensures Fresh(AmHeard(a, m).next) ==> Fresh(a.next) && AmHeard(a, m).newId == a.newId
    ensures Serving(AmHeard(a, m).next) ==> (AmHeard(a, m).target == m.src != FS) || (Serving(a.next) && AmHeard(a, m).target == a.target)
  {
    hide AllWrites, Copied, Loaded, WritesThen, Finding, Loading, Opening;
    NoWrites();
    if m.src == FS {
      Answers(a, fs, v, buffers, c);
    }
  }

  /** Nobody the manager turns away is a server. */
  lemma AmTurnsAway(a: Am, fs: Server, v: Volume, buffers: map<TaskId, Bytes>, c: Channels, src: TaskId)
    requires Phase(a, fs, v, buffers, c) && AmWaits(a.next) && AmForeign(a, src) && src != AM && src != KERNEL
    requires src == FS ==> c.toAm != []
    ensures !IsServer(src)
  {
    hide AllWrites, Copied, Loaded, WritesThen, Finding, Loading, Opening;
  }

  lemma AmReceiveKeeps(w: World)
    requires Inv(w) && AmWaits(w.am.next) && w.amBox != []
    ensures Inv(AmNext(w))
  {
    hide From, ChannelsOf, Phase, KernelMail, AmHeard, AmForeign;
    AmPopped(w);
    var m, r, w' := w.amBox[0], w.(amBox := w.amBox[1..]), AmNext(w);
    assert From(w.amBox, AM) == [] && From(w.amBox, KERNEL) == [];
    if AmForeign(w.am, m.src) {
      AmTurnsAway(w.am, w.fs, w.volume, w.table.buffers, ChannelsOf(w), m.src);
      assert w' == r;
    } else {
      AmHears(w.am, w.fs, w.volume, w.table.buffers, ChannelsOf(w), m);
      SameChannels(r, w');
    }
  }

  /** A request to the file server. */
  lemma AmAskKeeps(w: World)
    requires Inv(w) && AmAsks(w.am.next)
    ensures Inv(AmNext(w))
  {
    hide From, ChannelsOf, Phase, KernelMail, Asked, Loaded, Sent;
    var r := w.(am := w.am.(next := AfterAsking(w.am.next)));
    var m := Message(AM, Asked(w.am));
    SameChannels(w, r);
    SentChannels(r, FS, m);
    SentMail(r, FS, m);
    SentIs(r, FS, m);
    AskPhase(w.am, w.fs, w.volume, w.table.buffers, ChannelsOf(w));
  }

  lemma SentIs(w: World, to: TaskId, m: Message)
    ensures var r := Sent(w, to, m);
            r == w.(amBox := r.amBox, fsBox := r.fsBox, kernelBox := r.kernelBox)
  {
  }

  lemma AskPhase(a: Am, fs: Server, v: Volume, buffers: map<TaskId, Bytes>, c: Channels)
    requires Phase(a, fs, v, buffers, c) && AmAsks(a.next)
    ensures Phase(a.(next := AfterAsking(a.next)), fs, v, buffers, c.(toFs := c.toFs + [Asked(a)]))
  {
    hide Phase;
    match a.next
    case ForwardWrite(_) => AskWrite(a, fs, v, buffers, c);
    case SendId => AskLoad(a, fs, v, buffers, c);
    case SendPath => AskFind(a, fs, v, buffers, c);
    case _ => AskOpen(a, fs, v, buffers, c);
  }

  lemma AskWrite(a: Am, fs: Server, v: Volume, buffers: map<TaskId, Bytes>, c: Channels)
    requires Phase(a, fs, v, buffers, c) && a.next.ForwardWrite?
    ensures Phase(a.(next := AfterAsking(a.next)), fs, v, buffers, c.(toFs := c.toFs + [Asked(a)]))
  {
    hide Loaded, Finding, Opening, Loading, AllWrites, WritesThen;
    WritesMore(c.toFs, Asked(a));
  }

  lemma AskFind(a: Am, fs: Server, v: Volume, buffers: map<TaskId, Bytes>, c: Channels)
    requires Phase(a, fs, v, buffers, c) && a.next.SendPath?
    ensures Phase(a.(next := AfterAsking(a.next)), fs, v, buffers, c.(toFs := c.toFs + [Asked(a)]))
  {
    hide Loaded, Opening, Loading, AllWrites, WritesThen;
    WritesMore(c.toFs, Asked(a));
  }

  lemma AskOpen(a: Am, fs: Server, v: Volume, buffers: map<TaskId, Bytes>, c: Channels)
    requires Phase(a, fs, v, buffers, c) && (a.next.ForwardOpen? || a.next.SendOpen?)
    ensures Phase(a.(next := AfterAsking(a.next)), fs, v, buffers, c.(toFs := c.toFs + [Asked(a)]))
  {
    hide Loaded, Finding, Loading, Opening, AllWrites, WritesThen, Unfilled;
    NoWrites();
    IdleOpens(fs, c);
  }

  lemma IdleOpens(fs: Server, c: Channels)
    requires Idle(fs, c)
    ensures Opening(fs, c.(toFs := c.toFs + [Open]))
  {
    hide AllWrites, WritesThen;
    WritesMore(c.toFs, Open);
  }

  lemma AskLoad(a: Am, fs: Server, v: Volume, buffers: map<TaskId, Bytes>, c: Channels)
    requires Phase(a, fs, v, buffers, c) && a.next.SendId?
    ensures Phase(a.(next := AfterAsking(a.next)), fs, v, buffers, c.(toFs := c.toFs + [Asked(a)]))
  {
    hide Loaded, Finding, Opening, AllWrites, WritesThen, Copied, Unfilled;
    assert c.toFs + [Asked(a)] == [Asked(a)];
  }

  lemma WritesMore(q: seq<Body>, b: Body)
    ensures AllWrites(q) ==> WritesThen(q + [b], b) && (b.Write? ==> AllWrites(q + [b]))
  {
    assert (q + [b])[..|q|] == q;
  }

  /** The manager's steps that concern the kernel. */
  lemma AmCreateKeeps(w: World)
    requires Inv(w) && w.am.next.CreateTask?
    ensures Inv(AmNext(w))
  {
    hide From, ChannelsOf, KernelMail, Idle, Finding, Opening, Loading, Loaded;
    SameChannels(w, AmNext(w));
  }

  lemma AmStartKeeps(w: World)
    requires Inv(w) && (w.am.next.SendReply? || w.am.next.SendStart?)
    ensures Inv(AmNext(w)) && Loaded(w.am.path, w.am.newId, w.volume, w.table.buffers)
  {
    hide From, ChannelsOf, KernelMail, Sent, Finding, Opening, Loading, Volume.Image, Volume.Sound;
    if w.am.next.SendReply? {
      SameChannels(w, AmNext(w));
    } else {
      var r := w.(am := w.am.(next := if w.am.pipe then AwaitPiped else AwaitRequest),
                  table := w.table.(launched := w.table.launched[w.am.newId := ImageOf(w.volume, w.am.path)]));
      SameChannels(w, r);
      MoreLaunched(w.kernelBox, w.table.launched, w.am.newId, ImageOf(w.volume, w.am.path));
      SentChannels(r, KERNEL, Message(AM, StartApp(w.am.newId)));
      SentMail(r, KERNEL, Message(AM, StartApp(w.am.newId)));
      SentIs(r, KERNEL, Message(AM, StartApp(w.am.newId)));
      NoWrites();
    }
  }

  lemma MoreLaunched(box: seq<Message>, launched: map<TaskId, Bytes>, id: TaskId, file: Bytes)
    requires KernelMail(box, launched)
    ensures KernelMail(box, launched[id := file])
  {
  }

  lemma AmKeeps(w: World)
    requires Inv(w)
    ensures Inv(AmNext(w))
  {
    hide Inv, AmNext;
    if AmWaits(w.am.next) && w.amBox != [] {
      AmReceiveKeeps(w);
    } else if AmWaits(w.am.next) {
      AmBlocked(w);
    } else if AmAsks(w.am.next) {
      AmAskKeeps(w);
    } else if w.am.next.CreateTask? {
      AmCreateKeeps(w);
    } else {
      AmStartKeeps(w);
    }
  }

  lemma AmBlocked(w: World)
    requires AmWaits(w.am.next) && w.amBox == []
    ensures AmNext(w) == w
  {
  }

  /** Nobody the file server turns away is a server. */
  lemma FsTurnsAway(a: Am, fs: Server, v: Volume, buffers: map<TaskId, Bytes>, c: Channels, src: TaskId)
    requires Phase(a, fs, v, buffers, c) && FsWaits(fs) && FsForeign(fs, src) && src != FS
    requires (src == AM ==> c.toFs != []) && (src == KERNEL ==> c.expanded != [])
    ensures !IsServer(src)
  {
    hide AllWrites, Copied, Loaded, WritesThen;
  }

  /** A message the file server was waiting for keeps things where they belong. */
  lemma FsHears(a: Am, fs: Server, v: Volume, buffers: map<TaskId, Bytes>, c: Channels, m: Message)
    requires Phase(a, fs, v, buffers, c) && FsWaits(fs) && !FsForeign(fs, m.src)
    requires if fs.AwaitExpanded? then c.expanded != [] && m.body == c.expanded[0] else c.toFs != [] && m.body == c.toFs[0]
    ensures Phase(a, FsHeard(fs, m.body), VolumeHeard(v, fs, m.body), buffers,
                  if fs.AwaitExpanded? then c.(expanded := c.expanded[1..]) else c.(toFs := c.toFs[1..]))
  {
    hide Copied, Loaded, WritesThen, AllWrites;
    if fs.AwaitCommand? {
      FsCommanded(a, fs, v, buffers, c);
      if WritesThen(c.toFs, Open) {
        WritesFirst(c.toFs, Open);
      }
      if WritesThen(c.toFs, Execute(a.path, 0, false, false)) {
        WritesFirst(c.toFs, Execute(a.path, 0, false, false));
      }
      if AllWrites(c.toFs) {
        RestWrites(c.toFs);
      }
    }
  }

  lemma RestWrites(q: seq<Body>)
    requires AllWrites(q) && q != []
    ensures q[0].Write? && AllWrites(q[1..])
  {
  }

  /** When the file server has a command, it is a write or the one the manager waits for. */
  lemma FsCommanded(a: Am, fs: Server, v: Volume, buffers: map<TaskId, Bytes>, c: Channels)
    requires Phase(a, fs, v, buffers, c) && fs.AwaitCommand? && c.toFs != []
    ensures c == Channels(c.toFs, [], [], [])
    ensures (a.next.AwaitFound? && WritesThen(c.toFs, Execute(a.path, 0, false, false)))
            || (a.next.AwaitOpened? && WritesThen(c.toFs, Open))
            || (a.next.AwaitRedirect? && WritesThen(c.toFs, Open) && |c.toFs| == 1 && Loaded(a.path, a.newId, v, buffers))
            || (AllWrites(c.toFs) && a.next in {AwaitRequest, ForwardOpen, AwaitName, SendPath, AwaitPiped})
            || (AllWrites(c.toFs) && a.next.ForwardWrite?)
  {
    hide Copied, Loaded, WritesThen, AllWrites;
  }

  lemma FsReceiveKeeps(w: World, made: Option<Volume>)
    requires Inv(w) && FsWaits(w.fs) && w.fsBox != []
    ensures Inv(FsNext(w, made))
  {
    hide From, ChannelsOf, Phase, KernelMail, FsHeard, FsForeign;
    FsPopped(w);
    var m, r, w' := w.fsBox[0], w.(fsBox := w.fsBox[1..]), FsNext(w, made);
    assert w' == FsReceived(w);
    if FsForeign(w.fs, m.src) {
      FsTurnsAway(w.am, w.fs, w.volume, w.table.buffers, ChannelsOf(w), m.src);
      assert w' == r;
    } else {
      FsExpects(w.fs, m.src);
      FsHears(w.am, w.fs, w.volume, w.table.buffers, ChannelsOf(w), m);
      SameChannels(r, w');
    }
  }

  lemma FsExpects(fs: Server, src: TaskId)
    requires !FsForeign(fs, src)
    ensures src == if fs.AwaitExpanded? then KERNEL else AM
  {
  }

  /** The file server's sends. */
  lemma FsSendKeeps(w: World, made: Option<Volume>)
    requires Inv(w) && (w.fs.Reply? || w.fs.SendFound? || w.fs.SendExpand? || (w.fs.Copy? && w.fs.k >= |FileOf(w.volume, w.fs.path).chain|))
    ensures Inv(FsNext(w, made))
  {
    hide From, ChannelsOf, Phase, KernelMail, Sent;
    var r := w.(fs := match w.fs
      case SendFound(path) => AwaitId(path)
      case SendExpand(path, id) => AwaitExpanded(path, id)
      case _ => AwaitCommand);
    var to := if w.fs.SendExpand? then KERNEL else AM;
    var body := match w.fs
      case Reply(body) => body
      case SendFound(path) => Execute(path, 0, false, false)
      case SendExpand(path, id) => Expand(id, FileOf(w.volume, path).size)
      case _ => Ready;
    SameChannels(w, r);
    FsSendPhase(w.am, w.fs, w.volume, w.table.buffers, ChannelsOf(w));
    SentChannels(r, to, Message(FS, body));
    SentMail(r, to, Message(FS, body));
    SentIs(r, to, Message(FS, body));
  }

  lemma FsSendPhase(a: Am, fs: Server, v: Volume, buffers: map<TaskId, Bytes>, c: Channels)
    requires Phase(a, fs, v, buffers, c)
    requires fs.Reply? || fs.SendFound? || fs.SendExpand? || (fs.Copy? && fs.k >= |FileOf(v, fs.path).chain|)
    ensures match fs
            case Reply(body) => !body.StartApp? && Phase(a, AwaitCommand, v, buffers, c.(toAm := c.toAm + [body]))
            case SendFound(path) => Phase(a, AwaitId(path), v, buffers, c.(toAm := c.toAm + [Execute(path, 0, false, false)]))
            case SendExpand(path, id) =>
              Phase(a, AwaitExpanded(path, id), v, buffers, c.(expand := c.expand + [Expand(id, FileOf(v, path).size)]))
            case _ => Phase(a, AwaitCommand, v, buffers, c.(toAm := c.toAm + [Ready]))
  {
    hide AllWrites, WritesThen, Copied, Loaded, Unfilled;
    NoWrites();
    if fs.Copy? {
      CopiedAll(buffers, a.newId, v, fs.path, fs.k, fs.offset);
    }
  }

  lemma CopiedAll(buffers: map<TaskId, Bytes>, id: TaskId, v: Volume, path: Path, k: nat, offset: nat)
    requires path in v.files && k >= |v.files[path].chain|
    ensures Copied(buffers, id, v, path, k, offset) ==> Loaded(path, id, v, buffers)
  {
    hide CopiedImage, Volume.Sound, Even, OnVolume;
    if Copied(buffers, id, v, path, k, offset) {
      var f := v.files[path];
      ImageEnd(v.clusters, f.chain, f.size, v.bytesPerCluster, Zeros(f.size), offset, buffers[id]);
    }
  }

  /** The file server's steps that only concern itself, and the copy of one cluster. */
  lemma FsWorkKeeps(w: World, made: Option<Volume>)
    requires Inv(w) && (w.fs.Find? || w.fs.OpenFile? || (w.fs.Copy? && w.fs.k < |FileOf(w.volume, w.fs.path).chain|))
    ensures Inv(FsNext(w, made))
  {
    hide From, ChannelsOf, KernelMail, AllWrites, WritesThen, Loaded, Copied, Unfilled, CopiedIn, ClusterAt, Left, Volume.OpensTo, Volume.Sound, Volume.Image;
    var w' := FsNext(w, made);
    SameChannels(w, w');
    if w.fs.Copy? {
      CopyMore(w.table, w.am.newId, w.volume, w.am.path, w.fs.k, w.fs.offset);
    } else if w.fs.OpenFile? && w'.fs == Reply(Open) {
      OpenedSound(w.volume, w'.volume);
      if w.am.next.AwaitRedirect? {
        LoadedOpened(w.am.path, w.am.newId, w.volume, w'.volume, w.table.buffers);
      }
    }
  }

  /** One cluster more. */
  lemma CopyMore(t: TaskTable, id: TaskId, v: Volume, path: Path, k: nat, offset: nat)
    requires Copied(t.buffers, id, v, path, k, offset) && k < |v.files[path].chain|
    ensures var f := v.files[path];
            var cluster := ClusterAt(v.clusters, f.chain[k]);
            var whole := offset + v.bytesPerCluster <= f.size;
            var n := if whole then v.bytesPerCluster else Left(f.size, offset);
            var t' := CopiedIn(t, id, offset, cluster[..Min(n, |cluster|)]);
            && Copied(t'.buffers, id, v, path, k + 1, if whole then offset + v.bytesPerCluster else offset)
            && t' == t.(buffers := t.buffers[id := t'.buffers[id]])
  {
    hide CopiedImage, ImageAfter;
    var f := v.files[path];
    CopyBounds(v.clusters, f.chain, f.size, v.bytesPerCluster, Zeros(f.size), k, offset, t.buffers[id]);
    ImageNext(v.clusters, f.chain, f.size, v.bytesPerCluster, Zeros(f.size), k, offset, t.buffers[id]);
  }

  lemma CopyBounds(clusters: seq<Bytes>, s: Chain, size: nat, bpc: nat, was: Bytes, k: nat, offset: nat, now: Bytes)
    requires ImageAfter(clusters, s, size, bpc, was, k, offset, now) && k < |s|
    ensures offset <= size == |now| && s[k] < |clusters| && |clusters[s[k]]| == bpc && (size < offset + bpc ==> size - offset <= bpc)
  {
    hide CopiedImage;
    MulMono(Min(k, size / bpc), size / bpc, bpc);
    DivMod(size, bpc);
  }

  lemma OpenedSound(v: Volume, v': Volume)
    requires v.OpensTo(v')
    ensures v'.Sound()
  {
    hide Volume.Sound;
  }

  /** Opening a file leaves the copies of the others right. */
  lemma LoadedOpened(path: Path, id: TaskId, v: Volume, v': Volume, buffers: map<TaskId, Bytes>)
    requires v.OpensTo(v') && Loaded(path, id, v, buffers)
    ensures Loaded(path, id, v', buffers)
  {
    hide CopiedImage;
    var f := v.files[path];
    ImageSame(v.clusters, v'.clusters, f.chain, f.size, v.bytesPerCluster, Zeros(f.size));
  }

  lemma FsKeeps(w: World, made: Option<Volume>)
    requires Inv(w)
    ensures Inv(FsNext(w, made))
  {
    hide Inv;
    if FsWaits(w.fs) && w.fsBox != [] {
      FsReceiveKeeps(w, made);
    } else if w.fs.Find? || w.fs.OpenFile? || (w.fs.Copy? && w.fs.k < |FileOf(w.volume, w.fs.path).chain|) {
      FsWorkKeeps(w, made);
    } else if !FsWaits(w.fs) {
      FsSendKeeps(w, made);
    }
  }

  /** The kernel takes a message. */
  lemma KernelKeeps(w: World)
    requires Inv(w)
    ensures Inv(KernelNext(w))
  {
    hide From, ChannelsOf, Phase, Sent;
    if w.kernelBox != [] {
      KernelPopped(w);
      var m, r := w.kernelBox[0], w.(kernelBox := w.kernelBox[1..]);
      if m.body.Expand? {
        ExpandPhase(w.am, w.fs, w.volume, w.table.buffers, ChannelsOf(w));
        var t := Expanded(w.table, m.body.id, m.body.bytes);
        var r' := r.(table := t);
        SameChannels(r, r');
        SentChannels(r', FS, Message(KERNEL, Expand(0, 0)));
        SentMail(r', FS, Message(KERNEL, Expand(0, 0)));
        SentIs(r', FS, Message(KERNEL, Expand(0, 0)));
        assert ChannelsOf(r') == Channels([], [], [], []);
        var none: seq<Body> := [];
        assert none + [Expand(0, 0)] == [Expand(0, 0)];
      } else if m.src == FS {
        ExpandPhase(w.am, w.fs, w.volume, w.table.buffers, ChannelsOf(w));
      }
    }
  }

  /** A message of the file server in the kernel's mailbox is the one that asks for the new task's
      buffer; the kernel's answer lets the copy begin. */
  lemma ExpandPhase(a: Am, fs: Server, v: Volume, buffers: map<TaskId, Bytes>, c: Channels)
    requires Phase(a, fs, v, buffers, c) && c.expand != [] && v.Sound()
    ensures a.next.AwaitReady? && a.path in v.files && c == Channels([], [], [], [Expand(a.newId, v.files[a.path].size)])
    ensures a.newId in buffers ==>
              Phase(a, fs, v, buffers[a.newId := Resized(buffers[a.newId], v.files[a.path].size)], Channels([], [Expand(0, 0)], [], []))
  {
    hide AllWrites, WritesThen, Loaded, ImageAfter, Volume.Sound;
    if a.newId in buffers {
      assert buffers[a.newId] == [];
      FirstBuffer(v, a.path, buffers[a.newId]);
    }
  }

  lemma FirstBuffer(v: Volume, path: Path, b: Bytes)
    requires v.Sound() && path in v.files && b == []
    ensures var f := v.files[path];
            ImageAfter(v.clusters, f.chain, f.size, v.bytesPerCluster, Zeros(f.size), 0, 0, Resized(b, f.size))
  {
    hide ImageAfter;
    var f := v.files[path];
    assert Resized(b, f.size) == Zeros(f.size);
    ImageStart(v.clusters, f.chain, f.size, v.bytesPerCluster, Zeros(f.size));
  }

  lemma SendKeeps(w: World, to: TaskId, src: TaskId, body: Body)
    requires Inv(w) && !IsServer(src) && !Meddles(Send(to, src, body))
    ensures Inv(Sent(w, to, Message(src, body)))
  {
    hide From, ChannelsOf, Phase, Sent, KernelMail;
    SentChannels(w, to, Message(src, body));
    SentMail(w, to, Message(src, body));
    SentIs(w, to, Message(src, body));
  }

  lemma SpawnKeeps(w: World)
    requires Inv(w)
    ensures Inv(w.(table := Spawned(w.table)))
  {
    hide From, ChannelsOf, KernelMail, Idle, Finding, Opening, AllWrites, ImageAfter, Volume.Image, Volume.Sound, Zeros;
    SameChannels(w, w.(table := Spawned(w.table)));
  }

  lemma NextKeeps(w: World, step: Step)
    requires Inv(w) && !Meddles(step)
    ensures Inv(Next(w, step))
  {
    hide Inv, AmNext, FsNext, KernelNext;
    match step
    case AmStep => AmKeeps(w);
    case FsStep(made) => FsKeeps(w, made);
    case KernelStep => KernelKeeps(w);
    case Send(to, src, body) => if !IsServer(src) { SendKeeps(w, to, src, body); }
    case NewTask => SpawnKeeps(w);
  }

  /** After boot: the three servers wait, and some files are there. */
  function Booted(v: Volume, nextId: TaskId): World {
    World(Am(AwaitRequest, 0, 0, false, false, 0), [], AwaitCommand, [], v, [], TaskTable(map[], nextId, map[]))
  }

  function Run(w: World, steps: seq<Step>): World {
    if steps == [] then w else Next(Run(w, steps[..|steps| - 1]), steps[|steps| - 1])
  }

  lemma {:induction false} RunKeeps(w: World, steps: seq<Step>)
    requires Inv(w) && Unmeddled(steps)
    ensures Inv(Run(w, steps))
  {
    hide Inv, Next;
    if steps != [] {
      RunKeeps(w, steps[..|steps| - 1]);
      NextKeeps(Run(w, steps[..|steps| - 1]), steps[|steps| - 1]);
    }
  }

  /** Launch safety: under every interleaving, as long as no other task meddles, when the manager is about to send the start message of a
      task, that task's buffer is what the copy along the whole chain makes of the file that was asked
      for; no message still under way can change it; and when the kernel takes the start message the
      task still holds what it was started with. */
  lemma LaunchSafety(v: Volume, nextId: TaskId, steps: seq<Step>)
    requires v.Sound() && Unmeddled(steps)
    ensures var w := Run(Booted(v, nextId), steps);
            && (w.am.next.SendStart? ==> Loaded(w.am.path, w.am.newId, w.volume, w.table.buffers) && Silent(ChannelsOf(w)))
            && (forall i :: 0 <= i < |w.kernelBox| && w.kernelBox[i].body.StartApp? ==>
                  var id := w.kernelBox[i].body.id;
                  id in w.table.launched && id in w.table.buffers && w.table.buffers[id] == w.table.launched[id])
  {
    hide Run, From, Volume.Image;
    BootedInv(v, nextId);
    RunKeeps(Booted(v, nextId), steps);
  }

  lemma BootedInv(v: Volume, nextId: TaskId)
    requires v.Sound()
    ensures Inv(Booted(v, nextId))
  {
  }

  /** What was launched changes at the manager's start message only. */
  lemma LaunchedBy(w: World, step: Step)
    ensures Next(w, step).table.launched == w.table.launched
            || (step == AmStep && !AmWaits(w.am.next) && !AmAsks(w.am.next) && !w.am.next.CreateTask? && !w.am.next.SendReply?
                && Next(w, step).table.launched == w.table.launched[w.am.newId := ImageOf(w.volume, w.am.path)])
  {
    hide AmHeard, FsHeard, AmForeign, FsForeign, Resized, Splice, Asked, ImageOf, Volume.Sound, Volume.Written, Volume.OpensTo, ClusterAt;
  }

  /** A start message only leaves with the record of what the copy made of the file as it was then, for a
      task that was not launched before, and the record never changes. */
  lemma LaunchRecorded(v: Volume, nextId: TaskId, steps: seq<Step>, step: Step, id: TaskId)
    requires v.Sound() && Unmeddled(steps) && id in Run(Booted(v, nextId), steps + [step]).table.launched
    ensures var w := Run(Booted(v, nextId), steps);
            var w' := Run(Booted(v, nextId), steps + [step]);
            if id in w.table.launched then w'.table.launched[id] == w.table.launched[id]
            else w.am.next == SendStart && w.am.newId == id && w.volume.Sound() && w.am.path in w.volume.files
                 && w'.table.launched[id] == w.volume.Image(w.am.path)
  {
    hide From, Next, Mail, Volume.Image, Volume.Sound;
    var w0 := Booted(v, nextId);
    assert (steps + [step])[..|steps|] == steps;
    BootedInv(v, nextId);
    RunKeeps(w0, steps);
    LaunchedBy(Run(w0, steps), step);
  }

  /** The copy delivers a file whole: its chain has the clusters its size fills, and no more than those if
      the last of them is used in part. */
  predicate ChainFits(f: File, bpc: nat)
    requires bpc > 0
  {
    |f.chain| == ClustersFor(f.size, bpc) || (|f.chain| > ClustersFor(f.size, bpc) && f.size % bpc == 0)
  }

  /** A task that is about to be started from this path with this file holds the whole of it. */
  ghost predicate StartsWhole(w: World, path: Path, f: File) {
    w.am.next.SendStart? && w.am.path == path && path in w.volume.files && w.volume.files[path] == f ==>
      w.am.newId in w.table.buffers && w.table.buffers[w.am.newId] == w.volume.Contents(path) && |w.volume.Contents(path)| == f.size
  }

  ghost predicate AlwaysWhole(path: Path, f: File, bpc: nat) {
    forall v: Volume, nextId: TaskId, steps: seq<Step> :: v.Sound() && v.bytesPerCluster == bpc && Unmeddled(steps) ==>
      StartsWhole(Run(Booted(v, nextId), steps), path, f)
  }

  /** Launch safety in terms of the file: on every volume and in every run the program that is started is the
      whole file, byte for byte, exactly if the length of its chain fits its size. */
  lemma LaunchExact(path: Path, f: File, bpc: nat)
    requires bpc > 0 && Distinct(f.chain)
    ensures ChainFits(f, bpc) <==> AlwaysWhole(path, f, bpc)
  {
    hide Run, ChainFits, StartsWhole, Volume.Sound;
    if ChainFits(f, bpc) {
      forall v: Volume, nextId: TaskId, steps: seq<Step> | v.Sound() && v.bytesPerCluster == bpc && Unmeddled(steps)
        ensures StartsWhole(Run(Booted(v, nextId), steps), path, f)
      {
        StartsWith(v, nextId, steps, path, f);
      }
    } else {
      var v, nextId, steps := StartsBroken(path, f, bpc);
    }
  }

  lemma StartsWith(v: Volume, nextId: TaskId, steps: seq<Step>, path: Path, f: File)
    requires v.Sound() && v.bytesPerCluster > 0 && ChainFits(f, v.bytesPerCluster) && Unmeddled(steps)
    ensures StartsWhole(Run(Booted(v, nextId), steps), path, f)
  {
    hide Run, ChainFits, Volume.Image, Volume.Contents, Volume.Sound, ChannelsOf;
    var w := Run(Booted(v, nextId), steps);
    LaunchSafety(v, nextId, steps);
    SameClusters(Booted(v, nextId), steps);
    if w.am.next.SendStart? && w.am.path == path && w.volume.files[path] == f {
      ImageIsFile(w.volume, path);
    }
  }

  lemma ImageIsFile(v: Volume, path: Path)
    requires v.Sound() && path in v.files && v.bytesPerCluster > 0 && ChainFits(v.files[path], v.bytesPerCluster)
    ensures v.Image(path) == v.Contents(path) && |v.Contents(path)| == v.files[path].size
  {
    hide Flatten, CopiedImage;
    var f := v.files[path];
    ImageWhole(v.clusters, f.chain, f.size, v.bytesPerCluster, Zeros(f.size));
  }

  lemma {:induction false} SameClusters(w: World, steps: seq<Step>)
    ensures Run(w, steps).volume.bytesPerCluster == w.volume.bytesPerCluster
  {
    hide Next;
    if steps != [] {
      SameClusters(w, steps[..|steps| - 1]);
      SameClustersNext(Run(w, steps[..|steps| - 1]), steps[|steps| - 1]);
    }
  }

  lemma SameClustersNext(w: World, step: Step)
    ensures Next(w, step).volume.bytesPerCluster == w.volume.bytesPerCluster
  {
    hide AmHeard, FsHeard, AmForeign, FsForeign, Resized, Splice, Asked, ImageOf, Volume.Sound, ClusterAt;
  }

  /** Some task that is none of the servers. */
  const SHELL: TaskId := AM + FS + 2

  lemma RunNext(w0: World, steps: seq<Step>, step: Step)
    ensures Run(w0, steps + [step]) == Next(Run(w0, steps), step)
  {
    assert (steps + [step])[..|steps|] == steps;
  }

  /** A run from the shell's request to the manager's request for the new task to be loaded. */
  lemma RequestRun(v: Volume, nextId: TaskId, path: Path) returns (steps: seq<Step>)
    requires path in v.files
    ensures Unmeddled(steps)
    ensures Run(Booted(v, nextId), steps) ==
            World(Am(AwaitReady, SHELL, path, false, false, nextId), [], AwaitId(path), [Message(AM, Execute(path, nextId, false, false))], v, [],
                  TaskTable(map[nextId := []], nextId + 1, map[]))
  {
    hide Run, ImageOf, Volume.Sound, Volume.OpensTo, Volume.Written, ClusterAt, Resized, Splice, Left;
    var w0 := Booted(v, nextId);
    steps := FoundRun(v, nextId, path);
    var a := Am(CreateTask, SHELL, path, false, false, 0);
    assert Run(w0, steps) == World(a, [], AwaitId(path), [], v, [], TaskTable(map[], nextId, map[]));
    RunNext(w0, steps, AmStep);
    steps := steps + [AmStep];
    RunNext(w0, steps, AmStep);
    steps := steps + [AmStep];
  }

  lemma FoundRun(v: Volume, nextId: TaskId, path: Path) returns (steps: seq<Step>)
    requires path in v.files
    ensures Unmeddled(steps)
    ensures Run(Booted(v, nextId), steps) ==
            World(Am(CreateTask, SHELL, path, false, false, 0), [], AwaitId(path), [], v, [], TaskTable(map[], nextId, map[]))
  {
    hide Run, ImageOf, Volume.Sound, Volume.OpensTo, Volume.Written, ClusterAt, Resized, Splice, Left;
    var w0, t := Booted(v, nextId), TaskTable(map[], nextId, map[]);
    var a, ask := Am(AwaitFound, SHELL, path, false, false, 0), Execute(path, 0, false, false);
    steps := AskedRun(v, nextId, path);
    RunNext(w0, steps, FsStep(None));
    steps := steps + [FsStep(None)];
    assert Run(w0, steps) == World(a, [], Find(path), [], v, [], t);
    RunNext(w0, steps, FsStep(None));
    steps := steps + [FsStep(None)];
    RunNext(w0, steps, FsStep(None));
    steps := steps + [FsStep(None)];
    assert Run(w0, steps) == World(a, [Message(FS, ask)], AwaitId(path), [], v, [], t);
    RunNext(w0, steps, AmStep);
    steps := steps + [AmStep];
  }

  lemma AskedRun(v: Volume, nextId: TaskId, path: Path) returns (steps: seq<Step>)
    ensures Unmeddled(steps)
    ensures Run(Booted(v, nextId), steps) ==
            World(Am(AwaitFound, SHELL, path, false, false, 0), [], AwaitCommand, [Message(AM, Execute(path, 0, false, false))], v, [],
                  TaskTable(map[], nextId, map[]))
  {
    hide Run, ImageOf, FsNext;
    var w0, t := Booted(v, nextId), TaskTable(map[], nextId, map[]);
    var ask := Execute(path, 0, false, false);
    RunStart(w0);
    RunNext(w0, [], Send(AM, SHELL, ask));
    steps := [] + [Send(AM, SHELL, ask)];
    assert Run(w0, steps) == w0.(amBox := [Message(SHELL, ask)]);
    RunNext(w0, steps, AmStep);
    steps := steps + [AmStep];
    assert Run(w0, steps) == World(Am(SendPath, SHELL, path, false, false, 0), [], AwaitCommand, [], v, [], t);
    RunNext(w0, steps, AmStep);
    steps := steps + [AmStep];
  }

  lemma RunStart(w: World)
    ensures Run(w, []) == w
  {
  }

  /** On to the copy. */
  lemma ExpandRun(v: Volume, nextId: TaskId, path: Path) returns (steps: seq<Step>)
    requires path in v.files
    ensures Unmeddled(steps)
    ensures Copying(Run(Booted(v, nextId), steps), v, nextId, path, 0)
  {
    hide Run, ImageOf, Volume.Sound, Volume.OpensTo, Volume.Written, ClusterAt, Resized, Splice, Left;
    var w0 := Booted(v, nextId);
    var size := v.files[path].size;
    var a, t := Am(AwaitReady, SHELL, path, false, false, nextId), TaskTable(map[nextId := []], nextId + 1, map[]);
    steps := RequestRun(v, nextId, path);
    RunNext(w0, steps, FsStep(None));
    steps := steps + [FsStep(None)];
    assert Run(w0, steps) == World(a, [], SendExpand(path, nextId), [], v, [], t);
    RunNext(w0, steps, FsStep(None));
    steps := steps + [FsStep(None)];
    assert Run(w0, steps) == World(a, [], AwaitExpanded(path, nextId), [], v, [Message(FS, Expand(nextId, size))], t);
    RunNext(w0, steps, KernelStep);
    steps := steps + [KernelStep];
    assert Run(w0, steps) == World(a, [], AwaitExpanded(path, nextId), [Message(KERNEL, Expand(0, 0))], v, [], Expanded(t, nextId, size));
    RunNext(w0, steps, FsStep(None));
    steps := steps + [FsStep(None)];
  }

  /** The first k clusters are copied. */
  ghost predicate Copying(w: World, v: Volume, nextId: TaskId, path: Path, k: nat) {
    && w.fs.Copy?
    && w == World(Am(AwaitReady, SHELL, path, false, false, nextId), [], Copy(path, nextId, k, w.fs.offset), [], v, [], w.table)
  }

  /** To the end of the chain. */
  lemma {:induction false} CopyRun(v: Volume, nextId: TaskId, path: Path, k: nat) returns (steps: seq<Step>)
    requires path in v.files && k <= |v.files[path].chain|
    ensures Unmeddled(steps)
    ensures Copying(Run(Booted(v, nextId), steps), v, nextId, path, k)
  {
    hide Run;
    if k == 0 {
      steps := ExpandRun(v, nextId, path);
    } else {
      steps := CopyRun(v, nextId, path, k - 1);
      RunNext(Booted(v, nextId), steps, FsStep(None));
      steps := steps + [FsStep(None)];
    }
  }

  /** To the manager's start message. */
  lemma StartRun(v: Volume, nextId: TaskId, path: Path) returns (steps: seq<Step>)
    requires path in v.files
    ensures Unmeddled(steps)
    ensures var w := Run(Booted(v, nextId), steps);
            w.am.next == SendStart && w.am.path == path && w.am.newId == nextId && w.volume == v
  {
    hide Run, ImageOf, Volume.Sound, Volume.OpensTo, Volume.Written, ClusterAt, Resized, Splice, Left;
    var w0 := Booted(v, nextId);
    steps := CopyRun(v, nextId, path, |v.files[path].chain|);
    var w := Run(w0, steps);
    RunNext(w0, steps, FsStep(None));
    steps := steps + [FsStep(None)];
    assert Run(w0, steps) == w.(fs := AwaitCommand, amBox := [Message(FS, Ready)]);
    RunNext(w0, steps, AmStep);
    steps := steps + [AmStep];
    RunNext(w0, steps, AmStep);
    steps := steps + [AmStep];
  }

  /** Where the chain does not fit, there is a volume on which the program that is started is not the file:
      zeros, but for the last cluster of the chain. */
  lemma StartsBroken(path: Path, f: File, bpc: nat) returns (v: Volume, nextId: TaskId, steps: seq<Step>)
    requires bpc > 0 && Distinct(f.chain) && !ChainFits(f, bpc)
    ensures v.Sound() && v.bytesPerCluster == bpc && Unmeddled(steps) && !StartsWhole(Run(Booted(v, nextId), steps), path, f)
  {
    hide Run, ChannelsOf, LastClusterMarked, Flatten, CopiedImage;
    var n := Above(f.chain);
    v := Volume(LastClusterMarked(n, f.chain, bpc), bpc, map[path := f]);
    nextId := 0;
    steps := StartRun(v, nextId, path);
    LaunchSafety(v, nextId, steps);
    ImageBroken(v.clusters, f.chain, f.size, bpc, Zeros(f.size));
  }

  /** One copy of another task into the new task's buffer is enough: what is started is not the copy of the
      file, whatever file it is that has a byte at all. */
  lemma MeddledLaunch(v: Volume, nextId: TaskId, path: Path) returns (steps: seq<Step>, last: Step)
    requires v.Sound() && path in v.files && v.files[path].size > 0
    ensures Unmeddled(steps) && last.CopyIn? && last.id == nextId && |last.data| == 1
    ensures var w := Run(Booted(v, nextId), steps + [last]);
            w.am.next == SendStart && w.am.path == path && w.am.newId == nextId && w.volume == v && !Loaded(path, nextId, v, w.table.buffers)
  {
    hide Run, From, Volume.Image, Volume.Sound, ChannelsOf, Zeros;
    steps := StartRun(v, nextId, path);
    LaunchSafety(v, nextId, steps);
    var image := v.Image(path);
    var other: byte := if image[0] == 0 then 1 else 0;
    last := CopyIn(nextId, 0, [other]);
    RunNext(Booted(v, nextId), steps, last);
    assert Splice(image, 0, [other])[0] == other;
  }

  /** A number above all clusters of a chain. */
  function Above(s: Chain): (n: nat)
    ensures forall i :: 0 <= i < |s| ==> s[i] < n
  {
    if s == [] then 0 else Max(Above(s[..|s| - 1]), s[|s| - 1] + 1)
  }
}
