/** Descriptor tables, open files and vnode reference counts. */
module Vfs {
  import opened Options

  const PROCESS_MAX_FILES: nat := 16
  const PROCESS_MAX_FDS: nat := 19
  const NIL_FILE: int := -1
  const UNLIMITED: nat := 0xFFFF_FFFF

  /** What a call answers: a status, or a descriptor */
  datatype Rval =
    | OK | NOFILE | NOMORE | BADMODE | READFULL | WRITEFULL | LOCKED
    | PERM | NOVNODE | PATHINV | DIR | EXIST | CORVNODE | ERROR
    | FD(fd: int)

  type Pid = nat
  type VnodeId = nat

  datatype Mode = Mode(read: bool, write: bool)

  datatype Vnode = Vnode(readers: int, writers: int, maxReaders: nat, maxWriters: nat)

  datatype VFile = VFile(vnode: Option<VnodeId>, mode: Mode, fp: nat, refs: int)

  /** The descriptors and open files of one process */
  datatype Tables = Tables(fds: seq<int>, files: seq<VFile>)

  datatype Vfs = Vfs(procs: map<Pid, Tables>, vnodes: map<VnodeId, Vnode>)

  // ---------------------------------------------------------------- the invariant

  /** The descriptors that name file `j` */
  ghost function Names(fds: seq<int>, j: int): set<nat> {
    set i | 0 <= i < |fds| && fds[i] == j
  }

  /** Every descriptor in use names an open file, and an open file counts its descriptors. */
  ghost predicate TablesOk(t: Tables) {
    && |t.fds| == PROCESS_MAX_FDS && |t.files| == PROCESS_MAX_FILES
    && (forall i :: 0 <= i < |t.fds| && t.fds[i] != NIL_FILE ==>
          0 <= t.fds[i] < |t.files| && t.files[t.fds[i]].vnode.Some?)
    && (forall j :: 0 <= j < |t.files| && t.files[j].vnode.Some? ==>
          t.files[j].refs == |Names(t.fds, j)| && t.files[j].refs > 0)
  }

  ghost predicate Uses(f: VFile, v: VnodeId, write: bool) {
    f.vnode == Some(v) && (if write then f.mode.write else f.mode.read)
  }

  /** The places in the file tables of all processes */
  ghost function Places(procs: map<Pid, Tables>): set<(Pid, nat)> {
    set p, j | p in procs && 0 <= j < |procs[p].files| :: (p, j)
  }

  ghost predicate UsedAt(procs: map<Pid, Tables>, k: (Pid, nat), v: VnodeId, write: bool) {
    k.0 in procs && k.1 < |procs[k.0].files| && Uses(procs[k.0].files[k.1], v, write)
  }

  /** The open files, of all processes, that hold vnode `v` for reading, or for writing */
  ghost function Users(procs: map<Pid, Tables>, v: VnodeId, write: bool): set<(Pid, nat)> {
    set k | k in Places(procs) && UsedAt(procs, k, v, write)
  }

  ghost predicate Within(n: int, max: nat) {
    n <= max || max == UNLIMITED
  }

  ghost predicate Counted(s: Vfs, v: VnodeId)
    requires v in s.vnodes
  {
    var n := s.vnodes[v];
    && n.readers == |Users(s.procs, v, false)| && n.writers == |Users(s.procs, v, true)|
    && Within(n.readers, n.maxReaders) && Within(n.writers, n.maxWriters)
  }

  ghost predicate FilesOk(s: Vfs) {
    forall p, j :: p in s.procs && 0 <= j < |s.procs[p].files| && s.procs[p].files[j].vnode.Some? ==>
      var f := s.procs[p].files[j]; f.vnode.value in s.vnodes && (f.mode.read || f.mode.write)
  }

  ghost predicate Inv(s: Vfs) {
    && (forall p :: p in s.procs ==> TablesOk(s.procs[p]))
    && FilesOk(s)
    && (forall v :: v in s.vnodes ==> Counted(s, v))
  }

  /** No open file names the vnode. */
  ghost predicate Unnamed(s: Vfs, v: VnodeId) {
    forall p, j :: p in s.procs && 0 <= j < |s.procs[p].files| ==> s.procs[p].files[j].vnode != Some(v)
  }

  // ---------------------------------------------------------------- sets and their sizes

  lemma {:induction false} NamesUpdate(fds: seq<int>, i: nat, x: int, j: int)
    requires i < |fds|
    ensures |Names(fds[i := x], j)| == |Names(fds, j)| - (if fds[i] == j then 1 else 0) + (if x == j then 1 else 0)
  {
    OneChanged(Names(fds, j), Names(fds[i := x], j), i);
  }

  lemma {:induction false} PlacesSame(procs: map<Pid, Tables>, procs': map<Pid, Tables>)
    requires procs'.Keys == procs.Keys && forall p :: p in procs ==> |procs'[p].files| == |procs[p].files|
    ensures Places(procs') == Places(procs)
  {
  }

  /** Changing one file of one process */
  lemma {:induction false} UsersUpdate(procs: map<Pid, Tables>, p: Pid, t: Tables, j: nat, f: VFile, v: VnodeId,
      write: bool)
    requires p in procs && j < |procs[p].files| && t.files == procs[p].files[j := f]
    ensures var was := procs[p].files[j];
      |Users(procs[p := t], v, write)| ==
      |Users(procs, v, write)| - (if Uses(was, v, write) then 1 else 0) + (if Uses(f, v, write) then 1 else 0)
  {
    var procs' := procs[p := t];
    PlacesSame(procs, procs');
    assert (p, j) in Places(procs);
    assert forall k :: k != (p, j) ==> (UsedAt(procs', k, v, write) <==> UsedAt(procs, k, v, write));
    assert UsedAt(procs', (p, j), v, write) <==> Uses(f, v, write);
    OneChanged(Users(procs, v, write), Users(procs', v, write), (p, j));
  }

  /** Two sets that differ at most in one element */
  lemma {:induction false} OneChanged<T>(before: set<T>, after: set<T>, x: T)
    requires forall k :: k != x ==> (k in before <==> k in after)
    ensures |after| == |before| - (if x in before then 1 else 0) + (if x in after then 1 else 0)
  {
    var rest := before - {x};
    assert after - {x} == rest;
    assert x in before ==> before == rest + {x};
    assert x in after ==> after == rest + {x};
  }

  // ---------------------------------------------------------------- counting readers and writers

  /** The counter has reached its limit. */
  ghost predicate Full(n: int, max: nat) {
    n >= max && max != UNLIMITED
  }

  /** Whether the limits of the vnode leave room for another open file */
  ghost function Admission(n: Vnode, mode: Mode): Rval {
    if mode.read && Full(n.readers, n.maxReaders) then READFULL
    else if mode.write && Full(n.writers, n.maxWriters) then WRITEFULL
    else OK
  }

  method IncreaseRefs(n: Vnode, mode: Mode) returns (n': Vnode, rval: Rval)
    ensures rval == OK ==> n == DecreaseRefs(n', mode)
    ensures rval != OK ==> n' == n
    ensures rval == Admission(n, mode)
  {
    n' := n;
    if mode.read {
      if n.readers >= n.maxReaders && n.maxReaders != UNLIMITED {
        return n', READFULL;
      }
      n' := n'.(readers := n'.readers + 1);
    }
    if mode.write {
      if n.writers >= n.maxWriters && n.maxWriters != UNLIMITED {
        if mode.read {
          n' := n'.(readers := n'.readers - 1);
        }
        return n', WRITEFULL;
      }
      n' := n'.(writers := n'.writers + 1);
    }
    rval := OK;
  }

  function DecreaseRefs(n: Vnode, mode: Mode): Vnode {
    n.(readers := n.readers - (if mode.read then 1 else 0), writers := n.writers - (if mode.write then 1 else 0))
  }

  // ---------------------------------------------------------------- descriptors

  /** The first free descriptor and the first free file. */
  method FindNextFd(t: Tables) returns (ok: bool, fd1: int, fd2: int)
    ensures fd1 == NIL_FILE <==> (forall i :: 0 <= i < |t.fds| ==> t.fds[i] != NIL_FILE)
    ensures fd1 != NIL_FILE ==>
      0 <= fd1 < |t.fds| && t.fds[fd1] == NIL_FILE && (forall i :: 0 <= i < fd1 ==> t.fds[i] != NIL_FILE)
    ensures fd2 == NIL_FILE <==> (forall j :: 0 <= j < |t.files| ==> t.files[j].vnode.Some?)
    ensures fd2 != NIL_FILE ==> 0 <= fd2 < |t.files| && t.files[fd2].vnode == None
    ensures fd2 != NIL_FILE ==> forall j :: 0 <= j < fd2 ==> t.files[j].vnode.Some?
    ensures ok <==> fd1 != NIL_FILE && fd2 != NIL_FILE
  {
    fd1, fd2 := NIL_FILE, NIL_FILE;
    var i := 0;
    while i < |t.fds|
      invariant 0 <= i <= |t.fds| && fd1 == NIL_FILE && forall k :: 0 <= k < i ==> t.fds[k] != NIL_FILE
    {
      if t.fds[i] == NIL_FILE {
        fd1 := i;
        break;
      }
      i := i + 1;
    }
    var j := 0;
    while j < |t.files|
      invariant 0 <= j <= |t.files| && fd2 == NIL_FILE && forall k :: 0 <= k < j ==> t.files[k].vnode.Some?
    {
      if t.files[j].vnode == None {
        fd2 := j;
        break;
      }
      j := j + 1;
    }
    ok := fd1 != NIL_FILE && fd2 != NIL_FILE;
  }

  /** No descriptor or no file is left. */
  ghost predicate TablesFull(t: Tables) {
    || (forall i :: 0 <= i < |t.fds| ==> t.fds[i] != NIL_FILE)
    || (forall j :: 0 <= j < |t.files| ==> t.files[j].vnode.Some?)
  }

  /** The open file behind a descriptor; -1 when there is none. */
  function GetVfile(t: Tables, file: int): (j: int)
    ensures j == NIL_FILE || (0 <= file < |t.fds| && j == t.fds[file] && 0 <= j < |t.files| && t.files[j].vnode.Some?)
  {
    if 0 <= file < PROCESS_MAX_FDS && file < |t.fds| && 0 <= t.fds[file] < PROCESS_MAX_FILES && t.fds[file] < |t.files|
       && t.files[t.fds[file]].vnode.Some?
    then t.fds[file] else NIL_FILE
  }

  // ---------------------------------------------------------------- the tables of one process

  lemma {:induction false} TablesOpen(t: Tables, fd1: nat, fd2: nat, f: VFile)
    requires TablesOk(t) && fd1 < |t.fds| && t.fds[fd1] == NIL_FILE && fd2 < |t.files| && t.files[fd2].vnode == None
    requires f.vnode.Some? && f.refs == 1
    ensures TablesOk(Tables(t.fds[fd1 := fd2], t.files[fd2 := f]))
  {
    assert Names(t.fds, fd2) == {};
    forall j | 0 <= j < |t.files|
      ensures |Names(t.fds[fd1 := fd2], j)| == |Names(t.fds, j)| + (if j == fd2 then 1 else 0)
    {
      NamesUpdate(t.fds, fd1, fd2, j);
    }
  }

  /** The file once one descriptor less names it */
  ghost function Released(f: VFile): VFile {
    if f.refs == 1 then VFile(None, Mode(false, false), 0, 0) else f.(refs := f.refs - 1)
  }

  lemma {:induction false} TablesClose(t: Tables, file: nat, j: nat)
    requires TablesOk(t) && file < |t.fds| && t.fds[file] == j && j < |t.files|
    ensures TablesOk(Tables(t.fds[file := NIL_FILE], t.files[j := Released(t.files[j])]))
  {
    var fds := t.fds[file := NIL_FILE];
    forall k | 0 <= k < |t.files| ensures |Names(fds, k)| == |Names(t.fds, k)| - (if k == j then 1 else 0) {
      NamesUpdate(t.fds, file, NIL_FILE, k);
    }
    if t.files[j].refs == 1 {
      forall i | 0 <= i < |fds| ensures fds[i] != j {
        assert fds[i] == j ==> i in Names(fds, j);
      }
    }
  }

  lemma {:induction false} TablesDup(t: Tables, i: nat, j: nat)
    requires TablesOk(t) && i < |t.fds| && t.fds[i] == NIL_FILE && j < |t.files| && t.files[j].vnode.Some?
    ensures TablesOk(Tables(t.fds[i := j], t.files[j := t.files[j].(refs := t.files[j].refs + 1)]))
  {
    forall k | 0 <= k < |t.files| ensures |Names(t.fds[i := j], k)| == |Names(t.fds, k)| + (if k == j then 1 else 0) {
      NamesUpdate(t.fds, i, j, k);
    }
  }

  // ---------------------------------------------------------------- the invariant, step by step

  ghost function Delta(f: VFile, v: VnodeId, write: bool): int {
    if Uses(f, v, write) then 1 else 0
  }

  /** Changing one file keeps the invariant if the counters of its vnode follow. */
  lemma {:induction false} InvUpdate(s: Vfs, s': Vfs, p: Pid, j: nat, f: VFile)
    requires Inv(s) && p in s.procs && p in s'.procs && j < |s.procs[p].files|
    requires s'.procs == s.procs[p := s'.procs[p]] && TablesOk(s'.procs[p])
    requires s'.procs[p].files == s.procs[p].files[j := f]
    requires f.vnode.Some? ==> f.vnode.value in s'.vnodes && (f.mode.read || f.mode.write)
    requires s'.vnodes.Keys == s.vnodes.Keys
    requires forall v :: v in s.vnodes ==>
      var n, n', was := s.vnodes[v], s'.vnodes[v], s.procs[p].files[j];
      && n'.readers == n.readers - Delta(was, v, false) + Delta(f, v, false)
      && n'.writers == n.writers - Delta(was, v, true) + Delta(f, v, true)
      && Within(n'.readers, n'.maxReaders) && Within(n'.writers, n'.maxWriters)
    ensures Inv(s')
  {
    hide Users, TablesOk;
    forall v | v in s'.vnodes ensures Counted(s', v) {
      UsersUpdate(s.procs, p, s'.procs[p], j, f, v, false);
      UsersUpdate(s.procs, p, s'.procs[p], j, f, v, true);
      assert Counted(s, v);
    }
  }

  /** A vnode whose counters are zero is named by no open file, and the other way round. */
  lemma {:induction false} ZeroIff(s: Vfs, v: VnodeId)
    requires Inv(s) && v in s.vnodes
    ensures s.vnodes[v].readers <= 0 && s.vnodes[v].writers <= 0 <==> Unnamed(s, v)
  {
    assert Counted(s, v);
    var r, w := Users(s.procs, v, false), Users(s.procs, v, true);
    if s.vnodes[v].readers <= 0 && s.vnodes[v].writers <= 0 {
      forall p, j | p in s.procs && 0 <= j < |s.procs[p].files| ensures s.procs[p].files[j].vnode != Some(v) {
        assert (p, j) !in r && (p, j) !in w;
        assert (p, j) in Places(s.procs);
        assert UsedAt(s.procs, (p, j), v, false) ==> (p, j) in r;
        assert UsedAt(s.procs, (p, j), v, true) ==> (p, j) in w;
      }
    }
    if Unnamed(s, v) {
      assert r == {} && w == {};
    }
  }

  lemma {:induction false} InvRemove(s: Vfs, v: VnodeId)
    requires Inv(s) && Unnamed(s, v)
    ensures Inv(s.(vnodes := s.vnodes - {v}))
  {
    var s' := s.(vnodes := s.vnodes - {v});
    forall u | u in s'.vnodes ensures Counted(s', u) {
      assert Counted(s, u);
    }
  }

  lemma {:induction false} InvAdd(s: Vfs, v: VnodeId, n: Vnode)
    requires Inv(s) && v !in s.vnodes && n.readers == 0 && n.writers == 0
    ensures Inv(s.(vnodes := s.vnodes[v := n]))
  {
    var s' := s.(vnodes := s.vnodes[v := n]);
    assert Users(s.procs, v, false) == {} && Users(s.procs, v, true) == {};
    forall u | u in s'.vnodes ensures Counted(s', u) {
      assert u != v ==> Counted(s, u);
    }
  }

  // ---------------------------------------------------------------- operations

  /** vfs_open_err: a vnode nobody came to hold goes away. */
  method OpenErr(s: Vfs, v: VnodeId) returns (s': Vfs)
    requires Inv(s) && v in s.vnodes
    ensures Inv(s') && s' == (if Unnamed(s, v) then s.(vnodes := s.vnodes - {v}) else s)
  {
    s' := s;
    ZeroIff(s, v);
    if s.vnodes[v].readers <= 0 && s.vnodes[v].writers <= 0 {
      InvRemove(s, v);
      s' := s.(vnodes := s.vnodes - {v});
    }
  }

  /** The limits of vnodes are never changed, and vnodes other than `v` not at all. */
  ghost predicate OthersKept(vnodes: map<VnodeId, Vnode>, vnodes': map<VnodeId, Vnode>, v: VnodeId) {
    forall u :: u in vnodes && u in vnodes' ==>
      if u == v then vnodes'[u].maxReaders == vnodes[u].maxReaders && vnodes'[u].maxWriters == vnodes[u].maxWriters
      else vnodes'[u] == vnodes[u]
  }

  /** The tables once descriptor `fd`, the lowest free one, names file `j`, the lowest free one. */
  ghost predicate Opened(t: Tables, fd: int, j: int, f: VFile, t': Tables) {
    && 0 <= fd < |t.fds| && t.fds[fd] == NIL_FILE && (forall i :: 0 <= i < fd ==> t.fds[i] != NIL_FILE)
    && 0 <= j < |t.files| && t.files[j].vnode == None && (forall i :: 0 <= i < j ==> t.files[i].vnode.Some?)
    && t' == Tables(t.fds[fd := j], t.files[j := f])
  }

  /** The answer to an open: why it is refused, or OK */
  ghost function Verdict(s: Vfs, p: Pid, v: VnodeId, mode: Mode, status: Rval): Rval
    requires p in s.procs && v in s.vnodes
  {
    if status != OK then status
    else if Admission(s.vnodes[v], mode) != OK then Admission(s.vnodes[v], mode)
    else if TablesFull(s.procs[p]) then NOMORE else OK
  }

  /** How an open of vnode `v` ends: with the lowest free descriptor, or with the vnode gone unless an
      open file holds it.  There is no answer if the process is gone. */
  ghost predicate OpenEnds(s: Vfs, p: Pid, v: VnodeId, mode: Mode, status: Rval, s': Vfs, rval: Option<Rval>)
    requires v in s.vnodes
  {
    if p in s.procs && Verdict(s, p, v, mode, status) == OK then
      && rval.Some? && rval.value.FD? && p in s'.procs && s'.procs == s.procs[p := s'.procs[p]]
      && Opened(s.procs[p], rval.value.fd, GetVfile(s'.procs[p], rval.value.fd), VFile(Some(v), mode, 0, 1),
                s'.procs[p])
      && s'.vnodes.Keys == s.vnodes.Keys && OthersKept(s.vnodes, s'.vnodes, v)
      && DecreaseRefs(s'.vnodes[v], mode) == s.vnodes[v]
    else
      && s' == (if Unnamed(s, v) then s.(vnodes := s.vnodes - {v}) else s)
      && rval == if p in s.procs then Some(Verdict(s, p, v, mode, status)) else None
  }

  /** vfs_open_done: a file and a descriptor for a vnode, if the file system, the limits of the vnode
      and the tables allow it. */
  method OpenDone(s: Vfs, p: Pid, v: VnodeId, mode: Mode, status: Rval) returns (s': Vfs, rval: Option<Rval>)
    requires Inv(s) && v in s.vnodes && (mode.read || mode.write) && !status.FD?
    ensures Inv(s') && s'.procs.Keys == s.procs.Keys && OpenEnds(s, p, v, mode, status, s', rval)
  {
    hide Inv, Unnamed;
    if p !in s.procs {
      s' := OpenErr(s, v);
      return s', None;
    }
    if status != OK {
      s' := OpenErr(s, v);
      return s', Some(status);
    }
    var t, n := s.procs[p], s.vnodes[v];
    TablesSize(s, p);
    var n', rv := IncreaseRefs(n, mode);
    if rv != OK {
      s' := OpenErr(s, v);
      return s', Some(rv);
    }
    var ok, fd1, fd2 := FindNextFd(t);
    if !ok {
      s' := OpenErr(s, v);
      return s', Some(NOMORE);
    }
    var f := VFile(Some(v), mode, 0, 1);
    s' := Vfs(s.procs[p := Tables(t.fds[fd1 := fd2], t.files[fd2 := f])], s.vnodes[v := n']);
    OpenStep(s, p, v, mode, fd1, fd2, s');
    rval := Some(FD(fd1));
  }

  /** The new file in the tables and counted */
  lemma {:induction false} OpenStep(s: Vfs, p: Pid, v: VnodeId, mode: Mode, fd1: nat, fd2: nat, s': Vfs)
    requires Inv(s) && p in s.procs && v in s.vnodes && (mode.read || mode.write)
    requires Admission(s.vnodes[v], mode) == OK && v in s'.vnodes && DecreaseRefs(s'.vnodes[v], mode) == s.vnodes[v]
    requires fd1 < |s.procs[p].fds| && fd2 < |s.procs[p].files|
    requires s.procs[p].fds[fd1] == NIL_FILE && s.procs[p].files[fd2].vnode == None
    requires s' == Vfs(s.procs[p := Tables(s.procs[p].fds[fd1 := fd2],
                                           s.procs[p].files[fd2 := VFile(Some(v), mode, 0, 1)])],
                       s.vnodes[v := s'.vnodes[v]])
    ensures Inv(s') && OthersKept(s.vnodes, s'.vnodes, v)
  {
    hide Counted, Users;
    var t, f := s.procs[p], VFile(Some(v), mode, 0, 1);
    assert TablesOk(t);
    TablesOpen(t, fd1, fd2, f);
    AllWithin(s);
    InvUpdate(s, s', p, fd2, f);
  }

  lemma {:induction false} AllWithin(s: Vfs)
    requires Inv(s)
    ensures forall v :: v in s.vnodes ==>
      Within(s.vnodes[v].readers, s.vnodes[v].maxReaders) && Within(s.vnodes[v].writers, s.vnodes[v].maxWriters)
  {
    forall v | v in s.vnodes
      ensures Within(s.vnodes[v].readers, s.vnodes[v].maxReaders) && Within(s.vnodes[v].writers, s.vnodes[v].maxWriters)
    {
      assert Counted(s, v);
    }
  }

  /** The descriptor is the last name of the last open file that holds the vnode. */
  ghost predicate LastUse(s: Vfs, p: Pid, file: int)
    requires p in s.procs
  {
    var j := GetVfile(s.procs[p], file);
    j != NIL_FILE &&
    var f := s.procs[p].files[j];
    f.refs == 1 && f.vnode.value in s.vnodes &&
    var n := DecreaseRefs(s.vnodes[f.vnode.value], f.mode);
    n.readers <= 0 && n.writers <= 0
  }

  /** The tables with a descriptor closed */
  ghost function ClosedTables(t: Tables, file: int): Tables {
    var j := GetVfile(t, file);
    if j == NIL_FILE then t else Tables(t.fds[file := NIL_FILE], t.files[j := Released(t.files[j])])
  }

  /** How a close ends.  The file system is told to close a vnode exactly when no open file of any
      process names it any more, and only if it agrees is the vnode gone. */
  ghost predicate CloseEnds(s: Vfs, p: Pid, file: int, status: Rval, s': Vfs, rval: Option<Rval>,
      closed: Option<VnodeId>)
    requires p in s.procs
  {
    && s'.procs == s.procs[p := ClosedTables(s.procs[p], file)]
    && var j := GetVfile(s.procs[p], file);
       if j == NIL_FILE then s' == s && rval == None && closed == None
       else
         var v := s.procs[p].files[j].vnode.value;
         && closed == (if LastUse(s, p, file) then Some(v) else None) && (closed.Some? <==> Unnamed(s', v))
         && rval == Some(if closed.Some? then status else OK) && OthersKept(s.vnodes, s'.vnodes, v)
         && s'.vnodes.Keys == if closed.Some? && status == OK then s.vnodes.Keys - {v} else s.vnodes.Keys
  }

  /** vfs_close and vfs_close_done; `status` is what the file system answers if it is asked. */
  method Close(s: Vfs, p: Pid, file: int, status: Rval)
    returns (s': Vfs, rval: Option<Rval>, closed: Option<VnodeId>)
    requires Inv(s) && p in s.procs
    ensures Inv(s') && s'.procs.Keys == s.procs.Keys && CloseEnds(s, p, file, status, s', rval, closed)
  {
    hide Inv, Unnamed, OthersKept;
    var t := s.procs[p];
    var j := GetVfile(t, file);
    if j == NIL_FILE {
      return s, None, None;
    }
    var f, v := t.files[j], t.files[j].vnode.value;
    FileHeld(s, p, j);
    var f' := f.(refs := f.refs - 1);
    var vnodes := s.vnodes;
    if f'.refs == 0 {
      f' := VFile(None, Mode(false, false), 0, 0);
      vnodes := vnodes[v := DecreaseRefs(vnodes[v], f.mode)];
    }
    s' := Vfs(s.procs[p := Tables(t.fds[file := NIL_FILE], t.files[j := f'])], vnodes);
    CloseStep(s, p, file, j, s');
    closed, rval := None, Some(OK);
    if vnodes[v].readers <= 0 && vnodes[v].writers <= 0 {
      closed, rval := Some(v), Some(status);
      if status == OK {
        InvRemove(s', v);
        UnnamedSame(s', v);
        KeptWithout(s.vnodes, vnodes, v);
        s' := s'.(vnodes := vnodes - {v});
      }
    }
  }

  lemma {:induction false} FileHeld(s: Vfs, p: Pid, j: nat)
    requires Inv(s) && p in s.procs && j < |s.procs[p].files| && s.procs[p].files[j].vnode.Some?
    ensures s.procs[p].files[j].vnode.value in s.vnodes && s.procs[p].files[j].refs > 0
  {
    assert TablesOk(s.procs[p]);
  }

  /** The file released and, if it was the last, the counters of its vnode lowered */
  lemma {:induction false} CloseStep(s: Vfs, p: Pid, file: nat, j: nat, s1: Vfs)
    requires Inv(s) && p in s.procs && GetVfile(s.procs[p], file) == j
    requires var f := s.procs[p].files[j]; var v := f.vnode.value;
      && s1.procs == s.procs[p := ClosedTables(s.procs[p], file)] && v in s.vnodes
      && s1.vnodes == if f.refs == 1 then s.vnodes[v := DecreaseRefs(s.vnodes[v], f.mode)] else s.vnodes
    ensures Inv(s1)
    ensures var v := s.procs[p].files[j].vnode.value; var n := s1.vnodes[v];
      && OthersKept(s.vnodes, s1.vnodes, v) && (n.readers <= 0 && n.writers <= 0 <==> Unnamed(s1, v))
      && (s.procs[p].files[j].refs != 1 ==> !Unnamed(s1, v))
  {
    hide Counted, Unnamed, Users;
    var t := s.procs[p];
    assert TablesOk(t);
    var v := t.files[j].vnode.value;
    TablesClose(t, file, j);
    AllWithin(s);
    InvUpdate(s, s1, p, j, Released(t.files[j]));
    ZeroIff(s1, v);
    if t.files[j].refs != 1 {
      StillNamed(s1, p, j, v);
    }
  }

  lemma {:induction false} KeptWithout(vnodes: map<VnodeId, Vnode>, vnodes': map<VnodeId, Vnode>, v: VnodeId)
    requires OthersKept(vnodes, vnodes', v)
    ensures OthersKept(vnodes, vnodes' - {v}, v)
  {
  }

  lemma {:induction false} StillNamed(s: Vfs, p: Pid, j: nat, v: VnodeId)
    requires p in s.procs && j < |s.procs[p].files| && s.procs[p].files[j].vnode == Some(v)
    ensures !Unnamed(s, v)
  {
  }

  lemma {:induction false} UnnamedSame(s: Vfs, v: VnodeId)
    ensures Unnamed(s, v) <==> Unnamed(s.(vnodes := s.vnodes - {v}), v)
  {
  }

  /** Another descriptor names the same file. */
  ghost predicate Shared(t: Tables, file: int) {
    GetVfile(t, file) != NIL_FILE && t.files[GetVfile(t, file)].refs > 1
  }

  /** The tables once descriptor `to`, closed first, has been made to name what `forig` names. */
  ghost function DupTables(t: Tables, forig: int, to: int): Tables
    requires 0 <= forig < |t.fds| && 0 <= to < |t.fds| && 0 <= t.fds[forig] < |t.files|
  {
    var c, j := ClosedTables(t, to), t.fds[forig];
    Tables(c.fds[to := c.fds[forig]], c.files[j := c.files[j].(refs := c.files[j].refs + 1)])
  }

  ghost predicate ClosesTo(s: Vfs, p: Pid, file: int, status: Rval, s': Vfs)
    requires p in s.procs
  {
    exists rval, closed :: CloseEnds(s, p, file, status, s', rval, closed)
  }

  /** Both descriptors are in order. */
  ghost predicate Dupable(t: Tables, forig: int, fdup: int) {
    GetVfile(t, forig) != NIL_FILE && (fdup == NIL_FILE || 0 <= fdup < PROCESS_MAX_FDS)
  }

  /** How a duplication ends: refused, with no descriptor free, or by way of the state `s1` in which
      the old meaning of `fdup` has been closed. */
  ghost predicate DupEnds(s: Vfs, p: Pid, forig: int, fdup: int, status: Rval, s1: Vfs, s': Vfs, rval: Rval)
    requires p in s.procs
  {
    var t := s.procs[p];
    if !Dupable(t, forig, fdup) then rval == NOFILE && s1 == s' == s
    else if rval.FD? then
      && 0 <= rval.fd < |t.fds| && 0 <= forig < |t.fds| && 0 <= t.fds[forig] < |t.files|
      && s' == s1.(procs := s.procs[p := DupTables(t, forig, rval.fd)])
      && (if fdup == NIL_FILE then
            s1 == s && t.fds[rval.fd] == NIL_FILE && forall i :: 0 <= i < rval.fd ==> t.fds[i] != NIL_FILE
          else rval.fd == fdup && ClosesTo(s, p, fdup, status, s1))
    else rval == NOMORE && s1 == s' == s && fdup == NIL_FILE && forall i :: 0 <= i < |t.fds| ==> t.fds[i] != NIL_FILE
  }

  /** vfs_dup.  Where the two descriptors differ the new one names the same file, and the old
      meaning of the new one is closed first.  A descriptor duplicated onto itself is closed, and
      the count of its file is then raised again: right only if no other descriptor names it. */
  method Dup(s: Vfs, p: Pid, forig: int, fdup: int, status: Rval) returns (s': Vfs, rval: Rval, ghost s1: Vfs)
    requires Inv(s) && p in s.procs
    ensures s'.procs.Keys == s.procs.Keys && DupEnds(s, p, forig, fdup, status, s1, s', rval)
    ensures Inv(s') <==> !(forig == fdup && Shared(s.procs[p], forig))
    ensures rval.FD? && forig != fdup ==> var j := GetVfile(s.procs[p], forig);
      && j != NIL_FILE && GetVfile(s'.procs[p], forig) == j && GetVfile(s'.procs[p], rval.fd) == j
      && s'.procs[p].fds == s.procs[p].fds[rval.fd := j]
      && s'.procs[p].files[j] == s.procs[p].files[j].(refs := s'.procs[p].files[j].refs)
    ensures rval.FD? && forig == fdup ==> s'.procs[p].fds == s.procs[p].fds[fdup := NIL_FILE]
  {
    hide Inv, CloseEnds, ClosesTo, TablesOk;
    var t := s.procs[p];
    TablesSize(s, p);
    s1 := s;
    var j := GetVfile(t, forig);
    if j == NIL_FILE || (!(0 <= fdup < PROCESS_MAX_FDS) && fdup != NIL_FILE) {
      return s, NOFILE, s1;
    }
    var to := fdup;
    s' := s;
    if fdup == NIL_FILE {
      var ok, fd1, fd2 := FindNextFd(t);
      to := fd1;
    } else {
      var r, closed;
      s', r, closed := Close(s, p, fdup, status);
      DupCloses(s, p, fdup, status, s', r, closed);
      TablesSize(s', p);
    }
    if to == NIL_FILE {
      return s', NOMORE, s1;
    }
    s1 := s';
    var t' := s'.procs[p];
    var f := t'.files[j].(refs := t'.files[j].refs + 1);
    s' := s'.(procs := s'.procs[p := Tables(t'.fds[to := t'.fds[forig]], t'.files[j := f])]);
    rval := FD(to);
    DupKeeps(s, p, forig, fdup, to, s1, s');
  }

  /** What a duplication comes to once the descriptor `to` is closed */
  lemma {:induction false} DupKeeps(s: Vfs, p: Pid, forig: int, fdup: int, to: int, s1: Vfs, s': Vfs)
    requires Inv(s) && Inv(s1) && p in s.procs && 0 <= to < PROCESS_MAX_FDS
    requires to == (if fdup == NIL_FILE then to else fdup)
    requires TablesOk(s.procs[p]) && GetVfile(s.procs[p], forig) != NIL_FILE
    requires if fdup == NIL_FILE then s1 == s && s.procs[p].fds[to] == NIL_FILE
             else s1.procs == s.procs[p := ClosedTables(s.procs[p], fdup)]
    requires s' == s1.(procs := s1.procs[p := DupTables(s.procs[p], forig, to)])
    ensures Inv(s') <==> !(forig == fdup && Shared(s.procs[p], forig))
    ensures forig != fdup ==> var j := GetVfile(s.procs[p], forig);
      && j != NIL_FILE && GetVfile(s'.procs[p], forig) == j && GetVfile(s'.procs[p], to) == j
      && s'.procs[p].fds == s.procs[p].fds[to := j]
      && s'.procs[p].files[j] == s.procs[p].files[j].(refs := s'.procs[p].files[j].refs)
    ensures forig == fdup ==> s'.procs[p].fds == s.procs[p].fds[fdup := NIL_FILE]
  {
    hide Inv, TablesOk;
    TablesSize(s, p);
    TablesSize(s1, p);
    var j := GetVfile(s.procs[p], forig);
    if forig == fdup {
      DupSelf(s, s1, p, forig, j);
    } else {
      DupOther(s1, p, forig, to, j);
    }
  }

  lemma {:induction false} DupCloses(s: Vfs, p: Pid, file: int, status: Rval, s': Vfs, rval: Option<Rval>,
      closed: Option<VnodeId>)
    requires p in s.procs && CloseEnds(s, p, file, status, s', rval, closed)
    ensures s'.procs == s.procs[p := ClosedTables(s.procs[p], file)] && ClosesTo(s, p, file, status, s')
  {
  }

  lemma {:induction false} TablesSize(s: Vfs, p: Pid)
    requires Inv(s) && p in s.procs
    ensures |s.procs[p].fds| == PROCESS_MAX_FDS && |s.procs[p].files| == PROCESS_MAX_FILES
    ensures forall i :: 0 <= i < PROCESS_MAX_FDS ==> GetVfile(s.procs[p], i) == s.procs[p].fds[i]
    ensures forall j :: 0 <= j < PROCESS_MAX_FILES && s.procs[p].files[j].vnode.Some? ==> s.procs[p].files[j].refs > 0
    ensures TablesOk(s.procs[p])
  {
    assert TablesOk(s.procs[p]);
  }

  lemma {:induction false} DupOther(s: Vfs, p: Pid, forig: nat, to: nat, j: nat)
    requires Inv(s) && p in s.procs && forig < PROCESS_MAX_FDS && to < PROCESS_MAX_FDS && j < PROCESS_MAX_FILES
    requires TablesOk(s.procs[p]) && s.procs[p].fds[forig] == j && s.procs[p].fds[to] == NIL_FILE
    ensures var t := s.procs[p];
      var t' := Tables(t.fds[to := j], t.files[j := t.files[j].(refs := t.files[j].refs + 1)]);
      Inv(s.(procs := s.procs[p := t']))
  {
    hide Users, Counted;
    var t := s.procs[p];
    TablesDup(t, to, j);
    AllWithin(s);
    var f := t.files[j].(refs := t.files[j].refs + 1);
    InvUpdate(s, s.(procs := s.procs[p := Tables(t.fds[to := j], t.files[j := f])]), p, j, f);
  }

  /** A descriptor onto itself, after it has been closed */
  lemma {:induction false} DupSelf(s: Vfs, s1: Vfs, p: Pid, file: nat, j: nat)
    requires Inv(s) && Inv(s1) && p in s.procs && p in s1.procs && TablesOk(s.procs[p]) && TablesOk(s1.procs[p])
    requires file < PROCESS_MAX_FDS && j < PROCESS_MAX_FILES && s.procs[p].fds[file] == j
    requires s1.procs[p] == Tables(s.procs[p].fds[file := NIL_FILE],
                                   s.procs[p].files[j := Released(s.procs[p].files[j])])
    ensures var t := s1.procs[p];
      var t' := Tables(t.fds[file := t.fds[file]], t.files[j := t.files[j].(refs := t.files[j].refs + 1)]);
      Inv(s1.(procs := s1.procs[p := t'])) <==> s.procs[p].files[j].refs == 1
  {
    hide Users, Counted;
    var t := s1.procs[p];
    var f := t.files[j].(refs := t.files[j].refs + 1);
    var t' := Tables(t.fds[file := t.fds[file]], t.files[j := f]);
    var s' := s1.(procs := s1.procs[p := t']);
    assert t'.fds == t.fds;
    if s.procs[p].files[j].refs == 1 {
      AllWithin(s1);
      InvUpdate(s1, s', p, j, f);
    } else {
      Overcounted(t, t', j);
      assert s'.procs[p] == t';
    }
  }

  lemma {:induction false} Overcounted(t: Tables, t': Tables, j: nat)
    requires TablesOk(t) && j < |t.files| && t.files[j].vnode.Some?
    requires t' == Tables(t.fds, t.files[j := t.files[j].(refs := t.files[j].refs + 1)])
    ensures !TablesOk(t')
  {
    assert |Names(t'.fds, j)| == t.files[j].refs;
    assert t'.files[j].refs == t.files[j].refs + 1 && t'.files[j].vnode.Some?;
  }

  /** The tables as vfiles_init leaves them */
  ghost function Fresh(): Tables {
    Tables(seq(PROCESS_MAX_FDS, _ => NIL_FILE), seq(PROCESS_MAX_FILES, _ => VFile(None, Mode(false, false), 0, 1)))
  }

  /** vfiles_init */
  method VfilesInit() returns (t: Tables)
    ensures t == Fresh()
  {
    var fds: seq<int>, files: seq<VFile> := [], [];
    while |files| < PROCESS_MAX_FILES
      invariant |files| <= PROCESS_MAX_FILES
      invariant forall j :: 0 <= j < |files| ==> files[j] == VFile(None, Mode(false, false), 0, 1)
    {
      files := files + [VFile(None, Mode(false, false), 0, 1)];
    }
    while |fds| < PROCESS_MAX_FDS
      invariant |fds| <= PROCESS_MAX_FDS && forall i :: 0 <= i < |fds| ==> fds[i] == NIL_FILE
    {
      fds := fds + [NIL_FILE];
    }
    assert fds == Fresh().fds && files == Fresh().files;
    t := Tables(fds, files);
  }

  /** Processes that have nothing open, and vnodes that nobody holds: the special files */
  ghost function Start(pids: set<Pid>, specials: map<VnodeId, Vnode>): Vfs {
    Vfs(map p | p in pids :: Fresh(), specials)
  }

  ghost predicate Unheld(vnodes: map<VnodeId, Vnode>) {
    forall v :: v in vnodes ==> vnodes[v].readers == 0 && vnodes[v].writers == 0
  }

  lemma {:induction false} FreshInv(pids: set<Pid>, specials: map<VnodeId, Vnode>)
    requires Unheld(specials)
    ensures Inv(Start(pids, specials))
  {
    var s := Start(pids, specials);
    assert TablesOk(Fresh());
    forall v | v in specials ensures Counted(s, v) {
      assert Users(s.procs, v, false) == {} && Users(s.procs, v, true) == {};
    }
  }

  /** A process that has opened a file and duplicated its descriptor */
  method TwoNames() returns (s: Vfs)
    ensures Inv(s) && 1 in s.procs && |s.procs[1].files| == PROCESS_MAX_FILES
    ensures s.procs[1].fds == Fresh().fds[0 := 0][1 := 0]
    ensures s.procs[1].files[0].vnode.Some? && s.procs[1].files[0].refs == 2
  {
    hide Inv, Unnamed, ClosesTo, OthersKept;
    var pids: set<Pid> := {1};
    FreshInv(pids, map[]);
    var t := VfilesInit();
    s := Vfs(map p | p in pids :: t, map[]);
    assert s == Start(pids, map[]);
    var n := Vnode(0, 0, UNLIMITED, UNLIMITED);
    InvAdd(s, 7, n);
    s := s.(vnodes := s.vnodes[7 := n]);
    assert s.procs[1].fds[0] == NIL_FILE && s.procs[1].files[0].vnode == None;
    var rval, rval';
    s, rval := OpenDone(s, 1, 7, Mode(true, false), OK);
    ghost var s1;
    assert s.procs[1].fds[1] == NIL_FILE;
    s, rval', s1 := Dup(s, 1, 0, NIL_FILE, OK);
  }

  /** It duplicates the second descriptor onto itself: one descriptor names the file and its count is
      still two. */
  method SelfDupExample() returns (s: Vfs, s': Vfs)
    ensures Inv(s) && 1 in s.procs && 1 in s'.procs && s.procs[1].files != [] && s'.procs[1].files != []
    ensures s.procs[1].fds == Fresh().fds[0 := 0][1 := 0] && s.procs[1].files[0].refs == 2
    ensures s'.procs[1].fds == Fresh().fds[0 := 0] && s'.procs[1].files[0].refs == 2 && !Inv(s')
  {
    hide Inv, Unnamed, ClosesTo, OthersKept;
    s := TwoNames();
    ghost var s1;
    var rval;
    s', rval, s1 := Dup(s, 1, 1, 1, OK);
  }

  // ---------------------------------------------------------------- opens in flight

  /** An open that waits for the answer of the file system */
  datatype Pending = Pending(p: Pid, mode: Mode)

  /** The tables together with the opens in flight, by the vnode each was begun for */
  datatype System = System(vfs: Vfs, pending: map<VnodeId, Pending>)

  /** The vnode of every open in flight is still there for the answer. */
  ghost predicate Held(s: System) {
    forall v :: v in s.pending ==> v in s.vfs.vnodes && (s.pending[v].mode.read || s.pending[v].mode.write)
  }

  /** No open file names the vnode, going by its counters. */
  ghost predicate Idle(n: Vnode) {
    n.readers <= 0 && n.writers <= 0
  }

  /** What is checked before an open does anything: room in the tables, something to open for, and no
      lock on a file that is open already.  OK if nothing is wrong. */
  ghost function Check(s: Vfs, p: Pid, existing: Option<VnodeId>, mode: Mode, readers: nat, writers: nat): Rval
    requires p in s.procs
  {
    if TablesFull(s.procs[p]) then NOMORE
    else if !mode.read && !mode.write then BADMODE
    else if existing.Some? && !(readers == UNLIMITED && writers == UNLIMITED) then LOCKED
    else OK
  }

  /** How the call of open ends: refused, waiting for the file system with a new vnode that has the
      limits asked for and counts nothing yet, or, for a file already on the list, at once. */
  ghost predicate OpenBegins(s: System, p: Pid, existing: Option<VnodeId>, id: VnodeId, mode: Mode, readers: nat,
      writers: nat, s': System, rval: Option<Rval>)
    requires p in s.vfs.procs && (existing.Some? ==> existing.value in s.vfs.vnodes)
  {
    var check := Check(s.vfs, p, existing, mode, readers, writers);
    if check != OK then s' == s && rval == Some(check)
    else if existing.Some? then s'.pending == s.pending && OpenEnds(s.vfs, p, existing.value, mode, OK, s'.vfs, rval)
    else
      && s'.vfs == s.vfs.(vnodes := s.vfs.vnodes[id := Vnode(0, 0, readers, writers)])
      && s'.pending == s.pending[id := Pending(p, mode)] && rval == None
  }

  /** vfs_open.  `existing` is the vnode found for the path, if any, and `id` the one made otherwise. */
  method Open(s: System, p: Pid, existing: Option<VnodeId>, id: VnodeId, mode: Mode, readers: nat, writers: nat)
    returns (s': System, rval: Option<Rval>)
    requires Inv(s.vfs) && p in s.vfs.procs && id !in s.vfs.vnodes
    requires existing.Some? ==> existing.value in s.vfs.vnodes
    requires existing == None ==> (mode.read ==> readers > 0) && (mode.write ==> writers > 0)
    ensures Inv(s'.vfs) && s'.vfs.procs.Keys == s.vfs.procs.Keys
    ensures OpenBegins(s, p, existing, id, mode, readers, writers, s', rval)
  {
    hide Inv, OpenEnds;
    s' := s;
    var ok, fd1, fd2 := FindNextFd(s.vfs.procs[p]);
    if !ok {
      return s', Some(NOMORE);
    }
    if !mode.read && !mode.write {
      return s', Some(BADMODE);
    }
    if existing.Some? {
      if readers == UNLIMITED && writers == UNLIMITED {
        var vfs;
        vfs, rval := OpenDone(s.vfs, p, existing.value, mode, OK);
        s' := s.(vfs := vfs);
      } else {
        rval := Some(LOCKED);
      }
    } else {
      var n, rv := IncreaseRefs(Vnode(0, 0, readers, writers), mode);
      n := n.(readers := 0, writers := 0);
      InvAdd(s.vfs, id, n);
      s' := System(s.vfs.(vnodes := s.vfs.vnodes[id := n]), s.pending[id := Pending(p, mode)]);
      rval := None;
    }
  }

  // ---------------------------------------------------------------- runs

  datatype Op =
    | OpenOp(p: Pid, existing: Option<VnodeId>, id: VnodeId, mode: Mode, readers: nat, writers: nat)
    | AnswerOp(v: VnodeId, status: Rval)
    | CloseOp(p: Pid, file: int, status: Rval)
    | DupOp(p: Pid, forig: int, fdup: int, status: Rval)

  /** What the world may ask for: processes that exist call, a path is looked up on the list of vnodes,
      a new vnode is new, and the file system answers opens in flight.  A new file is not asked for
      with a limit of zero on what it is opened for. */
  ghost predicate Legal(s: System, op: Op) {
    match op
    case OpenOp(p, existing, id, mode, readers, writers) =>
      && p in s.vfs.procs && id !in s.vfs.vnodes && id !in s.pending
      && (if existing.Some? then existing.value in s.vfs.vnodes
          else (mode.read ==> readers > 0) && (mode.write ==> writers > 0))
    case AnswerOp(v, status) => v in s.pending && !status.FD?
    case CloseOp(p, _, _) => p in s.vfs.procs
    case DupOp(p, _, _, _) => p in s.vfs.procs
  }

  /** Closing the descriptor takes away a vnode that an open in flight waits for. */
  ghost predicate Strips(s: System, p: Pid, file: int, status: Rval)
    requires p in s.vfs.procs
  {
    var t := s.vfs.procs[p];
    status == OK && LastUse(s.vfs, p, file) && t.files[GetVfile(t, file)].vnode.value in s.pending
  }

  /** The operation takes a vnode from under an open in flight: by a close of its last open file, or
      by a second open of a file that nobody holds yet, whose limits refuse it. */
  ghost predicate Strands(s: System, op: Op)
    requires Legal(s, op)
  {
    match op
    case OpenOp(p, existing, _, mode, readers, writers) =>
      && Check(s.vfs, p, existing, mode, readers, writers) == OK && existing.Some? && existing.value in s.pending
      && Admission(s.vfs.vnodes[existing.value], mode) != OK && Idle(s.vfs.vnodes[existing.value])
    case AnswerOp(_, _) => false
    case CloseOp(p, file, status) => Strips(s, p, file, status)
    case DupOp(p, forig, fdup, status) =>
      Dupable(s.vfs.procs[p], forig, fdup) && fdup != NIL_FILE && Strips(s, p, fdup, status)
  }

  /** A shared descriptor is duplicated onto itself. */
  ghost predicate Miscounts(s: System, op: Op)
    requires Legal(s, op)
  {
    op.DupOp? && op.forig == op.fdup && Shared(s.vfs.procs[op.p], op.forig)
  }

  /** What an operation does. */
  ghost predicate Step(s: System, op: Op, s': System, rval: Option<Rval>) {
    && Legal(s, op)
    && match op
       case OpenOp(p, existing, id, mode, readers, writers) =>
         OpenBegins(s, p, existing, id, mode, readers, writers, s', rval)
       case AnswerOp(v, status) =>
         && v in s.vfs.vnodes && s'.pending == s.pending - {v}
         && OpenEnds(s.vfs, s.pending[v].p, v, s.pending[v].mode, status, s'.vfs, rval)
       case CloseOp(p, file, status) =>
         s'.pending == s.pending && exists closed :: CloseEnds(s.vfs, p, file, status, s'.vfs, rval, closed)
       case DupOp(p, forig, fdup, status) =>
         && s'.pending == s.pending && rval.Some?
         && exists s1 :: DupEnds(s.vfs, p, forig, fdup, status, s1, s'.vfs, rval.value)
  }

  /** Every operation does what it should; afterwards all counts are right if and only if it was not a
      shared descriptor onto itself, and the opens in flight have their vnodes if and only if it took
      none away. */
  method Perform(s: System, op: Op) returns (s': System, rval: Option<Rval>)
    requires Inv(s.vfs) && Held(s) && Legal(s, op)
    ensures s'.vfs.procs.Keys == s.vfs.procs.Keys && Step(s, op, s', rval)
    ensures Inv(s'.vfs) <==> !Miscounts(s, op)
    ensures Held(s') <==> !Strands(s, op)
  {
    hide Inv, OpenEnds, CloseEnds, DupEnds;
    var vfs, closed, dup;
    ghost var s1;
    match op {
      case OpenOp(p, existing, id, mode, readers, writers) =>
        s', rval := Open(s, p, existing, id, mode, readers, writers);
        OpenHolds(s, op, s', rval);
      case AnswerOp(v, status) =>
        vfs, rval := OpenDone(s.vfs, s.pending[v].p, v, s.pending[v].mode, status);
        s' := System(vfs, s.pending - {v});
        AnswerHolds(s, op, s', rval);
      case CloseOp(p, file, status) =>
        vfs, rval, closed := Close(s.vfs, p, file, status);
        s' := s.(vfs := vfs);
        CloseHolds(s, p, file, status, s', rval, closed);
      case DupOp(p, forig, fdup, status) =>
        vfs, dup, s1 := Dup(s.vfs, p, forig, fdup, status);
        s', rval := s.(vfs := vfs), Some(dup);
        DupHolds(s, p, forig, fdup, status, s1, s', dup);
    }
  }

  lemma {:induction false} OpenHolds(s: System, op: Op, s': System, rval: Option<Rval>)
    requires Inv(s.vfs) && Held(s) && Legal(s, op) && op.OpenOp?
    requires OpenBegins(s, op.p, op.existing, op.id, op.mode, op.readers, op.writers, s', rval)
    ensures Held(s') <==> !Strands(s, op)
  {
    hide Inv, Unnamed;
    if op.existing.Some? {
      ZeroIff(s.vfs, op.existing.value);
    }
  }

  lemma {:induction false} AnswerHolds(s: System, op: Op, s': System, rval: Option<Rval>)
    requires Held(s) && Legal(s, op) && op.AnswerOp? && Step(s, op, s', rval)
    ensures Held(s')
  {
    hide Unnamed;
  }

  lemma {:induction false} CloseHolds(s: System, p: Pid, file: int, status: Rval, s': System, rval: Option<Rval>,
      closed: Option<VnodeId>)
    requires Held(s) && p in s.vfs.procs && s'.pending == s.pending
    requires CloseEnds(s.vfs, p, file, status, s'.vfs, rval, closed)
    ensures Held(s') <==> !Strips(s, p, file, status)
  {
    hide Unnamed, OthersKept;
  }

  lemma {:induction false} DupHolds(s: System, p: Pid, forig: int, fdup: int, status: Rval, s1: Vfs, s': System,
      rval: Rval)
    requires Held(s) && p in s.vfs.procs && s'.pending == s.pending
    requires DupEnds(s.vfs, p, forig, fdup, status, s1, s'.vfs, rval)
    ensures Held(s') <==> !Strands(s, DupOp(p, forig, fdup, status))
  {
    hide CloseEnds, Strips;
    if Dupable(s.vfs.procs[p], forig, fdup) && fdup != NIL_FILE {
      var r, c :| CloseEnds(s.vfs, p, fdup, status, s1, r, c);
      CloseHolds(s, p, fdup, status, s.(vfs := s1), r, c);
    }
  }

  /** A file is opened, and before the file system answers another process opens and closes it: the
      vnode is gone when the answer comes. */
  method CloseStrands() returns (s: System)
    ensures 7 in s.pending && 7 !in s.vfs.vnodes
  {
    hide Inv, Unnamed, OthersKept;
    var pids: set<Pid> := {1, 2};
    var t := VfilesInit();
    s := System(Vfs(map p | p in pids :: t, map[]), map[]);
    assert s.vfs == Start(pids, map[]);
    FreshInv(pids, map[]);
    assert s.vfs.procs[2].fds[0] == NIL_FILE && s.vfs.procs[2].files[0].vnode == None;
    assert s.vfs.procs[1].fds[0] == NIL_FILE && s.vfs.procs[1].files[0].vnode == None;
    var rval, read := None, Mode(true, false);
    s, rval := Perform(s, OpenOp(1, None, 7, read, UNLIMITED, UNLIMITED));
    s, rval := Perform(s, OpenOp(2, Some(7), 8, read, UNLIMITED, UNLIMITED));
    s, rval := Perform(s, CloseOp(2, 0, OK));
  }

  /** A file is opened for reading with no writers allowed, and before the file system answers another
      process asks to write it: it is refused, and the vnode is gone when the answer comes. */
  method OpenStrands() returns (s: System, rval: Option<Rval>)
    ensures rval == Some(WRITEFULL) && 7 in s.pending && 7 !in s.vfs.vnodes
  {
    hide Inv, Unnamed, OthersKept;
    var pids: set<Pid> := {1, 2};
    var t := VfilesInit();
    s := System(Vfs(map p | p in pids :: t, map[]), map[]);
    assert s.vfs == Start(pids, map[]);
    FreshInv(pids, map[]);
    assert s.vfs.procs[2].fds[0] == NIL_FILE && s.vfs.procs[2].files[0].vnode == None;
    assert s.vfs.procs[1].fds[0] == NIL_FILE && s.vfs.procs[1].files[0].vnode == None;
    s, rval := Perform(s, OpenOp(1, None, 7, Mode(true, false), 1, 0));
    s, rval := Perform(s, OpenOp(2, Some(7), 8, Mode(false, true), UNLIMITED, UNLIMITED));
  }

  // ---------------------------------------------------------------- no vnode is forgotten

  /** Every vnode on the list is one of the `specials`, or held by an open file, or waited for by an open
      in flight. */
  ghost predicate Lean(s: System, specials: set<VnodeId>) {
    forall v :: v in s.vfs.vnodes ==> v in specials || v in s.pending || !Unnamed(s.vfs, v)
  }

  /** The operation asks the file system to close a vnode and it refuses. */
  ghost predicate Refused(op: Op) {
    (op.CloseOp? || op.DupOp?) && op.status != OK
  }

  /** If the file system agrees to every close, an operation leaves no vnode behind that nobody holds. */
  lemma {:induction false} LeanStep(s: System, op: Op, s': System, rval: Option<Rval>, specials: set<VnodeId>)
    requires Lean(s, specials) && Step(s, op, s', rval) && !Refused(op) && Inv(s.vfs) && !Miscounts(s, op)
    ensures Lean(s', specials)
  {
    hide Inv, OpenEnds, CloseEnds, DupEnds, Unnamed;
    forall v | v in s'.vfs.vnodes ensures v in specials || v in s'.pending || !Unnamed(s'.vfs, v) {
      match op {
        case OpenOp(p, existing, id, mode, readers, writers) =>
          if existing.Some? && Check(s.vfs, p, existing, mode, readers, writers) == OK {
            EndsLean(s.vfs, p, existing.value, mode, OK, s'.vfs, rval, v);
          } else if v in s.vfs.vnodes {
            NamedSame(s.vfs, s'.vfs, v);
          }
        case AnswerOp(w, status) =>
          EndsLean(s.vfs, s.pending[w].p, w, s.pending[w].mode, status, s'.vfs, rval, v);
        case CloseOp(p, file, status) =>
          var closed :| CloseEnds(s.vfs, p, file, status, s'.vfs, rval, closed);
          CloseLean(s.vfs, p, file, s'.vfs, rval, closed, v);
        case DupOp(p, forig, fdup, status) =>
          var s1 :| DupEnds(s.vfs, p, forig, fdup, status, s1, s'.vfs, rval.value);
          DupLean(s.vfs, p, forig, fdup, s1, s'.vfs, rval.value, v);
      }
    }
  }

  lemma {:induction false} NamedSame(s: Vfs, s': Vfs, v: VnodeId)
    requires s'.procs == s.procs
    ensures Unnamed(s', v) <==> Unnamed(s, v)
  {
  }

  /** Setting the vnode of one entry of the file tables */
  lemma {:induction false} NamedOther(s: Vfs, s': Vfs, p: Pid, j: nat, v: VnodeId)
    requires p in s.procs && p in s'.procs && s'.procs == s.procs[p := s'.procs[p]]
    requires j < |s.procs[p].files| == |s'.procs[p].files|
    requires forall i :: 0 <= i < |s.procs[p].files| && i != j ==>
      s'.procs[p].files[i].vnode == s.procs[p].files[i].vnode
    requires s.procs[p].files[j].vnode != Some(v) || s'.procs[p].files[j].vnode == Some(v)
    ensures !Unnamed(s, v) ==> !Unnamed(s', v)
  {
    if !Unnamed(s, v) {
      var q, i :| q in s.procs && 0 <= i < |s.procs[q].files| && s.procs[q].files[i].vnode == Some(v);
      assert s'.procs[q].files[i].vnode == Some(v);
    }
  }

  lemma {:induction false} EndsLean(s: Vfs, p: Pid, w: VnodeId, mode: Mode, status: Rval, s': Vfs, rval: Option<Rval>,
      v: VnodeId)
    requires w in s.vnodes && OpenEnds(s, p, w, mode, status, s', rval) && v in s'.vnodes
    ensures v in s.vnodes && (Unnamed(s', v) ==> v != w && Unnamed(s, v))
  {
    hide Unnamed;
    if p in s.procs && Verdict(s, p, w, mode, status) == OK {
      var j := GetVfile(s'.procs[p], rval.value.fd);
      assert s'.procs[p].files[j].vnode == Some(w);
      NamedOther(s, s', p, j, v);
      StillNamed(s', p, j, w);
    } else {
      NamedSame(s, s', v);
    }
  }

  lemma {:induction false} CloseLean(s: Vfs, p: Pid, file: int, s': Vfs, rval: Option<Rval>, closed: Option<VnodeId>,
      v: VnodeId)
    requires p in s.procs && CloseEnds(s, p, file, OK, s', rval, closed) && v in s'.vnodes
    ensures v in s.vnodes && (Unnamed(s', v) ==> Unnamed(s, v))
  {
    hide Unnamed, OthersKept;
    var j := GetVfile(s.procs[p], file);
    if j == NIL_FILE {
      NamedSame(s, s', v);
    } else if s.procs[p].files[j].vnode.value != v {
      NamedOther(s, s', p, j, v);
    }
  }

  lemma {:induction false} DupLean(s: Vfs, p: Pid, forig: int, fdup: int, s1: Vfs, s': Vfs, rval: Rval, v: VnodeId)
    requires p in s.procs && DupEnds(s, p, forig, fdup, OK, s1, s', rval) && v in s'.vnodes
    ensures v in s.vnodes && (Unnamed(s', v) ==> Unnamed(s, v))
  {
    hide Unnamed, CloseEnds, ClosesTo;
    if !Dupable(s.procs[p], forig, fdup) || !rval.FD? {
      NamedSame(s, s', v);
      return;
    }
    var j := s.procs[p].fds[forig];
    if fdup != NIL_FILE {
      var r, c := DupClosed(s, p, fdup, s1);
      CloseLean(s, p, fdup, s1, r, c, v);
    }
    NamedOther(s1, s', p, j, v);
  }

  lemma {:induction false} DupClosed(s: Vfs, p: Pid, file: int, s1: Vfs)
    returns (rval: Option<Rval>, closed: Option<VnodeId>)
    requires p in s.procs && ClosesTo(s, p, file, OK, s1)
    ensures CloseEnds(s, p, file, OK, s1, rval, closed) && s1.procs == s.procs[p := ClosedTables(s.procs[p], file)]
  {
    rval, closed :| CloseEnds(s, p, file, OK, s1, rval, closed);
  }

  // ---------------------------------------------------------------- whole runs

  /** The operations whose effect is accounted for; the others are left out of a run. */
  ghost predicate Accounted(s: System, op: Op) {
    Legal(s, op) && !Miscounts(s, op) && !Strands(s, op)
  }

  /** Closing the descriptor would take a vnode from under an open in flight. */
  method WouldStrip(s: System, p: Pid, file: int, status: Rval) returns (b: bool)
    requires p in s.vfs.procs
    ensures b <==> Strips(s, p, file, status)
  {
    var t := s.vfs.procs[p];
    var j := GetVfile(t, file);
    b := false;
    if status == OK && j != NIL_FILE {
      var f := t.files[j];
      if f.refs == 1 && f.vnode.value in s.vfs.vnodes && f.vnode.value in s.pending {
        var n := DecreaseRefs(s.vfs.vnodes[f.vnode.value], f.mode);
        b := n.readers <= 0 && n.writers <= 0;
      }
    }
  }

  /** Whether an operation is one of those accounted for */
  method Admit(s: System, op: Op) returns (ok: bool)
    ensures ok <==> Accounted(s, op)
  {
    match op {
      case OpenOp(p, existing, id, mode, readers, writers) =>
        if p !in s.vfs.procs || id in s.vfs.vnodes || id in s.pending {
          return false;
        }
        if existing == None {
          return (!mode.read || readers > 0) && (!mode.write || writers > 0);
        }
        var v := existing.value;
        if v !in s.vfs.vnodes {
          return false;
        }
        var n, room, fd1, fd2 := s.vfs.vnodes[v], false, 0, 0;
        room, fd1, fd2 := FindNextFd(s.vfs.procs[p]);
        var n', rv := IncreaseRefs(n, mode);
        var idle := v in s.pending && n.readers <= 0 && n.writers <= 0;
        ok := !(idle && room && (mode.read || mode.write) && readers == UNLIMITED && writers == UNLIMITED && rv != OK);
      case AnswerOp(v, status) => ok := v in s.pending && !status.FD?;
      case CloseOp(p, file, status) =>
        if p !in s.vfs.procs {
          return false;
        }
        var b := WouldStrip(s, p, file, status);
        ok := !b;
      case DupOp(p, forig, fdup, status) =>
        if p !in s.vfs.procs {
          return false;
        }
        var t := s.vfs.procs[p];
        var j := GetVfile(t, forig);
        if j == NIL_FILE || (fdup != NIL_FILE && !(0 <= fdup < PROCESS_MAX_FDS)) {
          return true;
        }
        if forig == fdup && t.files[j].refs > 1 {
          return false;
        }
        var b := WouldStrip(s, p, fdup, status);
        ok := fdup == NIL_FILE || !b;
    }
  }

  /** Each state of the run comes from the one before by its operation, or is the same if the operation
      was left out. */
  ghost predicate IsRun(ops: seq<Op>, states: seq<System>, rvals: seq<Option<Rval>>) {
    && |states| == |ops| + 1 && |rvals| == |ops|
    && forall i :: 0 <= i < |ops| ==>
         if Accounted(states[i], ops[i]) then Step(states[i], ops[i], states[i + 1], rvals[i])
         else states[i + 1] == states[i]
  }

  lemma {:induction false} RunMore(ops: seq<Op>, states: seq<System>, rvals: seq<Option<Rval>>, op: Op, s: System,
      rval: Option<Rval>)
    requires IsRun(ops, states, rvals)
    requires var last := states[|ops|];
      if Accounted(last, op) then Step(last, op, s, rval) else s == last
    ensures IsRun(ops + [op], states + [s], rvals + [rval])
  {
    hide Step, Accounted;
  }

  /** After every run of opens, answers, closes and duplications, by any processes in any order: each
      open file counts its descriptors, each vnode counts the open files that read and write it, the
      counts are within its limits, every open in flight has its vnode, and, if the file system
      agrees to every close, no vnode is left that nobody holds but those there from the start. */
  method Serve(pids: set<Pid>, specials: map<VnodeId, Vnode>, ops: seq<Op>)
    returns (s: System, rvals: seq<Option<Rval>>, ghost states: seq<System>)
    requires Unheld(specials)
    ensures IsRun(ops, states, rvals) && states[|ops|] == s && states[0] == System(Start(pids, specials), map[])
    ensures forall i :: 0 <= i < |states| ==> Inv(states[i].vfs) && Held(states[i])
    ensures (forall i :: 0 <= i < |ops| ==> !Refused(ops[i])) ==> Lean(s, specials.Keys)
  {
    hide Inv, Held, Lean, Step, Accounted;
    var t := VfilesInit();
    s, rvals := System(Vfs(map p | p in pids :: t, specials), map[]), [];
    assert s.vfs == Start(pids, specials);
    states := [s];
    FreshInv(pids, specials);
    FreshHeld(s);
    var i := 0;
    while i < |ops|
      invariant 0 <= i <= |ops| && IsRun(ops[..i], states, rvals) && states[i] == s
      invariant states[0] == System(Start(pids, specials), map[])
      invariant forall k :: 0 <= k < |states| ==> Inv(states[k].vfs) && Held(states[k])
      invariant (forall k :: 0 <= k < i ==> !Refused(ops[k])) ==> Lean(s, specials.Keys)
    {
      var op, rval := ops[i], None;
      ghost var was := s;
      var accounted := Admit(s, op);
      if accounted {
        Admitted(s, op);
        s, rval := Perform(s, op);
        if Lean(was, specials.Keys) && !Refused(op) {
          LeanStep(was, op, s, rval, specials.Keys);
        }
      }
      assert ops[..i] + [op] == ops[..i + 1];
      RunMore(ops[..i], states, rvals, op, s, rval);
      states, rvals, i := states + [s], rvals + [rval], i + 1;
    }
    assert ops[..i] == ops;
  }

  lemma {:induction false} Admitted(s: System, op: Op)
    requires Accounted(s, op)
    ensures Legal(s, op) && !Miscounts(s, op) && !Strands(s, op)
  {
  }

  lemma {:induction false} FreshHeld(s: System)
    requires s.pending == map[]
    ensures Held(s) && Lean(s, s.vfs.vnodes.Keys)
  {
  }
}
