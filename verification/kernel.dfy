/**
 The system calls copyfile relies on: a name space, files, and one process's descriptor
 table. Calls may fail, and reads and writes may stop short, at the kernel's whim; ghost
 counters remember how often that happened. Two budgets bound what would otherwise repeat
 for ever, writes that take nothing and EACCES, and files have a largest size.
 */
module Kernel {
  import opened Machine
  import opened Wrappers

  type Path = seq<char>

  datatype Node = File(data: Bytes) | Directory | Special

  datatype Descriptor = Descriptor(node: nat, pos: nat, writable: bool)

  datatype Errno = EEXIST | EACCES | EISDIR | ENOENT | OTHER

  /** The open(2) flags that copyfile uses; without `write` it is O_RDONLY. */
  datatype OpenFlags = OpenFlags(create: bool, excl: bool, write: bool)

  datatype Stat = Stat(node: Node, size: nat, blockSize: nat)

  /** What the descriptor table went through. A descriptor stands for one opening: its number is not used again. */
  datatype Event = Opened(fd: nat) | Closed(fd: nat)

  /** The descriptors that are open after these events. */
  function Table(log: seq<Event>): set<nat> {
    if log == [] then {}
    else
      var last, before := log[|log| - 1], Table(log[..|log| - 1]);
      if last.Opened? then before + {last.fd} else before - {last.fd}
  }

  /** Only new descriptors are opened and only open ones are closed. */
  predicate Proper(log: seq<Event>) {
    log == [] ||
    (var last, before := log[|log| - 1], log[..|log| - 1];
     Proper(before) && if last.Opened? then Opened(last.fd) !in before else last.fd in Table(before))
  }

  /** How often a descriptor was closed. */
  function Closings(log: seq<Event>, fd: nat): nat {
    if log == [] then 0
    else Closings(log[..|log| - 1], fd) + (if log[|log| - 1] == Closed(fd) then 1 else 0)
  }

  /** Every descriptor that was opened is either still open and never closed, or was closed exactly once. */
  lemma {:induction false} ClosedOnce(log: seq<Event>, fd: nat)
    requires Proper(log)
    ensures Closings(log, fd) == if Opened(fd) in log && fd !in Table(log) then 1 else 0
    ensures fd in Table(log) ==> Opened(fd) in log
  {
    if log != [] {
      var before := log[..|log| - 1];
      assert log == before + [log[|log| - 1]];
      ClosedOnce(before, fd);
    }
  }

  lemma TableStep(log: seq<Event>, e: Event)
    requires Proper(log) && if e.Opened? then Opened(e.fd) !in log else e.fd in Table(log)
    ensures Proper(log + [e])
    ensures Table(log + [e]) == if e.Opened? then Table(log) + {e.fd} else Table(log) - {e.fd}
  {
    assert (log + [e])[..|log|] == log;
  }

  /** Byte i of a file: behind its end there are zeros. */
  function At(s: Bytes, i: nat): U8 {
    if i < |s| then s[i] else 0
  }

  /** The bytes of s with b laid over them from pos on; the file grows if it must. */
  function Overwrite(s: Bytes, pos: nat, b: Bytes): Bytes {
    if b == [] then s
    else seq(Max(|s|, pos + |b|), i requires 0 <= i => if pos <= i < pos + |b| then b[i - pos] else At(s, i))
  }

  /** Writing on from where the last write stopped is one longer write. */
  lemma OverwriteNext(s: Bytes, pos: nat, a: Bytes, b: Bytes)
    ensures Overwrite(Overwrite(s, pos, a), pos + |a|, b) == Overwrite(s, pos, a + b)
  {
    if a == [] {
      assert a + b == b;
    } else if b == [] {
      assert a + b == a;
    } else {
      OverwriteTwice(s, pos, a, b, a + b, Overwrite(s, pos, a));
    }
  }

  lemma OverwriteTwice(s: Bytes, pos: nat, a: Bytes, b: Bytes, c: Bytes, r: Bytes)
    requires a != [] && b != [] && c == a + b && r == Overwrite(s, pos, a)
    ensures Overwrite(r, pos + |a|, b) == Overwrite(s, pos, c)
  {
    assert |Overwrite(r, pos + |a|, b)| == |Overwrite(s, pos, c)|;
    forall i | 0 <= i < |Overwrite(s, pos, c)| ensures Overwrite(r, pos + |a|, b)[i] == Overwrite(s, pos, c)[i] {
      NextAt(s, pos, a, b, c, r, i);
    }
  }

  lemma NextAt(s: Bytes, pos: nat, a: Bytes, b: Bytes, c: Bytes, r: Bytes, i: nat)
    requires a != [] && b != [] && c == a + b && r == Overwrite(s, pos, a) && i < |Overwrite(s, pos, c)|
    ensures i < |Overwrite(r, pos + |a|, b)| && Overwrite(r, pos + |a|, b)[i] == Overwrite(s, pos, c)[i]
  {
    if pos + |a| <= i < pos + |a| + |b| {
      assert c[i - pos] == b[i - pos - |a|];
    } else {
      assert Overwrite(r, pos + |a|, b)[i] == At(r, i);
    }
  }

  /** Writing a file's own bytes back where they came from changes nothing. */
  lemma OverwriteSelf(s: Bytes, pos: nat, n: nat)
    requires pos + n <= |s|
    ensures Overwrite(s, pos, s[pos..pos + n]) == s
  {
  }

  /** A whole file laid over another from its start, and cut to its length, is that file. */
  lemma OverwriteAll(s: Bytes, d: Bytes)
    ensures Resize(Overwrite(d, 0, s), |s|) == s
  {
  }

  /** ftruncate(2): the file is cut, or filled up with zeros. */
  function Resize(s: Bytes, n: nat): (r: Bytes)
    ensures |r| == n
  {
    seq(n, i requires 0 <= i => At(s, i))
  }

  /** What a copy can see and change of the system. */
  datatype World = World(fds: map<nat, Descriptor>, nodes: map<nat, Node>) {
    function Data(n: nat): Bytes {
      if n in nodes && nodes[n].File? then nodes[n].data else []
    }

    /** A regular file open for writing. */
    predicate Writable(fd: int) {
      0 <= fd && fd in fds && fds[fd].writable && fds[fd].node in nodes && nodes[fds[fd].node].File?
    }

    /** An open descriptor of anything but a directory. */
    predicate Readable(fd: int) {
      0 <= fd && fd in fds && !(fds[fd].node in nodes && nodes[fds[fd].node].Directory?)
    }

    /** Two open descriptors that do not get in each other's way: on different files, or at the same place of one. */
    predicate Apart(srcFd: int, dstFd: int) {
      && 0 <= srcFd && 0 <= dstFd && srcFd != dstFd && srcFd in fds && dstFd in fds
      && (fds[srcFd].node != fds[dstFd].node || fds[srcFd].pos == fds[dstFd].pos)
    }
  }

  /** The effect of a read that took in `bytes` through an open descriptor. */
  predicate TookIn(now: World, next: World, fd: int, bytes: Bytes) {
    && 0 <= fd && fd in now.fds && bytes != []
    && next == World(now.fds[fd := now.fds[fd].(pos := now.fds[fd].pos + |bytes|)], now.nodes)
    && now.fds[fd].pos + |bytes| <= |now.Data(now.fds[fd].node)|
    && bytes == now.Data(now.fds[fd].node)[now.fds[fd].pos..now.fds[fd].pos + |bytes|]
  }

  /** The effect of a write of `chunk` through an open descriptor. */
  predicate Wrote(now: World, next: World, fd: int, chunk: Bytes) {
    && now.Writable(fd) && chunk != []
    && next.fds == now.fds[fd := now.fds[fd].(pos := now.fds[fd].pos + |chunk|)]
    && next.nodes == now.nodes[now.fds[fd].node := File(Overwrite(now.Data(now.fds[fd].node), now.fds[fd].pos, chunk))]
  }

  class System {
    var nodes: map<nat, Node>
    var names: map<Path, nat>
    var fds: map<nat, Descriptor>
    var log: seq<Event>
    var patience: nat
    var denials: nat
    /** No file grows past this. */
    const limit: nat
    /** f_iosize and st_blksize, of the one file system there is. */
    const ioSize: nat
    const blockSize: nat
    /** Calls that failed although nothing in this model was in their way. */
    ghost var faults: nat
    /** Reads that failed, for whatever reason. */
    ghost var readErrors: nat
    /** Names that there was no memory to keep. */
    ghost var lostNames: nat
    /** Names that could not be removed. */
    ghost var keptNames: nat

    /** Names and descriptors lead to nodes, and the log accounts for the descriptors. */
    ghost predicate Valid()
      reads this
    {
      && Proper(log) && Table(log) == fds.Keys
      && (forall p :: p in names ==> names[p] in nodes)
      && (forall d :: d in fds ==> fds[d].node in nodes)
    }

    function Now(): World
      reads this
    {
      World(fds, nodes)
    }

    /** The contents of a regular file. */
    function Data(n: nat): Bytes
      reads this
    {
      if n in nodes && nodes[n].File? then nodes[n].data else []
    }

    /** Whether a call fails for reasons of its own. */
    method Fails() returns (fails: bool)
      modifies this`faults
      ensures faults == old(faults) + if fails then 1 else 0
    {
      fails := *;
      if fails {
        faults := faults + 1;
      }
    }

    /** strdup(3) */
    method Duplicate(name: Path) returns (r: Option<Path>)
      modifies this`faults, this`lostNames
      ensures r == Some(name) || r == None
      ensures if r.Some? then faults == old(faults) else faults > old(faults)
      ensures lostNames == old(lostNames) + if r.Some? then 0 else 1
    {
      var fails := Fails();
      if fails {
        lostNames := lostNames + 1;
      }
      r := if fails then None else Some(name);
    }

    /** stat(2) */
    method StatPath(p: Path) returns (r: Option<Stat>)
      requires Valid()
      modifies this`faults
      ensures r.Some? ==> p in names && r.value == Stat(nodes[names[p]], |Data(names[p])|, blockSize)
      ensures old(faults) <= faults && (r.None? && p in names ==> old(faults) < faults)
    {
      var fails := Fails();
      r := if fails || p !in names then None else Some(Stat(nodes[names[p]], |Data(names[p])|, blockSize));
    }

    /** fstat(2) */
    method StatFd(fd: int) returns (r: Option<Stat>)
      requires Valid()
      modifies this`faults
      ensures r.Some? ==> 0 <= fd && fd in fds && r.value == Stat(nodes[fds[fd].node], |Data(fds[fd].node)|, blockSize)
      ensures old(faults) <= faults && (r.None? && 0 <= fd && fd in fds ==> old(faults) < faults)
    {
      var fails := Fails();
      r := if fails || fd < 0 || fd !in fds then None
           else Some(Stat(nodes[fds[fd].node], |Data(fds[fd].node)|, blockSize));
    }

    /** Enter a new descriptor in the table, if there is room for one. */
    method Install(node: nat, writable: bool) returns (fd: int)
      requires Valid() && node in nodes
      modifies this`fds, this`log, this`faults
      ensures Valid() && -1 <= fd
      ensures fd == -1 ==> fds == old(fds) && log == old(log) && old(faults) < faults
      ensures fd >= 0 ==> fd !in old(fds) && fds == old(fds)[fd := Descriptor(node, 0, writable)]
      ensures fd >= 0 ==> log == old(log) + [Opened(fd)] && Opened(fd) !in old(log) && faults == old(faults)
    {
      fd := *;
      if fd < 0 || Opened(fd) in log {
        faults := faults + 1;
        return -1;
      }
      ClosedOnce(log, fd);
      TableStep(log, Opened(fd));
      fds := fds[fd := Descriptor(node, 0, writable)];
      log := log + [Opened(fd)];
    }

    /**
     open(2). With O_CREAT and O_EXCL it succeeds only by making the file; EEXIST needs both,
     EISDIR needs write access. Write access can be denied although nothing is at fault, but not
     for ever.
     */
    method Open(p: Path, f: OpenFlags) returns (fd: int, errno: Errno)
      requires Valid()
      modifies this`nodes, this`names, this`fds, this`log, this`denials, this`faults
      ensures Valid() && -1 <= fd && old(faults) <= faults
      ensures fd == -1 ==> fds == old(fds) && log == old(log) && nodes == old(nodes) && names == old(names)
      ensures fd == -1 ==>
                && (errno == EEXIST ==> f.create && f.excl)
                && (errno == EISDIR ==> f.write)
                && (if errno == EACCES then denials < old(denials) else denials == old(denials))
      ensures fd == -1 && faults == old(faults) ==>
                if errno == EACCES then f.write
                else if p !in names then errno == ENOENT && !f.create
                else if f.create && f.excl then errno == EEXIST
                else errno == EISDIR && f.write && nodes[names[p]].Directory?
      ensures fd >= 0 ==>
                && denials == old(denials)
                && p in names && fd !in old(fds) && log == old(log) + [Opened(fd)] && Opened(fd) !in old(log)
                && fds == old(fds)[fd := Descriptor(names[p], 0, f.write)]
                && (if p in old(names) then
                      && !(f.create && f.excl) && nodes == old(nodes) && names == old(names)
                      && (f.write ==> !nodes[names[p]].Directory?)
                    else
                      && f.create && names[p] !in old(nodes)
                      && nodes == old(nodes)[names[p] := File([])] && names == old(names)[p := names[p]])
    {
      fd, errno := -1, OTHER;
      var denied: bool := *;
      var fails := Fails();
      if denied && denials > 0 && (f.write || fails) {
        errno, denials := EACCES, denials - 1;
      } else if fails {
        errno := OTHER;
      } else if p in names {
        if f.create && f.excl {
          errno := EEXIST;
        } else if f.write && nodes[names[p]].Directory? {
          errno := EISDIR;
        } else {
          fd := Install(names[p], f.write);
        }
      } else if f.create {
        fd := Create(p, f.write);
      } else {
        errno := ENOENT;
      }
    }

    /** Make an empty file and open it, or do neither. */
    method Create(p: Path, writable: bool) returns (fd: int)
      requires Valid() && p !in names
      modifies this`nodes, this`names, this`fds, this`log, this`faults
      ensures Valid() && -1 <= fd
      ensures fd == -1 ==> fds == old(fds) && log == old(log) && nodes == old(nodes) && names == old(names)
      ensures if fd == -1 then old(faults) < faults else faults == old(faults)
      ensures fd >= 0 ==>
                && p in names && fd !in old(fds) && log == old(log) + [Opened(fd)] && Opened(fd) !in old(log)
                && fds == old(fds)[fd := Descriptor(names[p], 0, writable)] && names[p] !in old(nodes)
                && nodes == old(nodes)[names[p] := File([])] && names == old(names)[p := names[p]]
    {
      var n: nat := *;
      if n in nodes {
        faults := faults + 1;
        return -1;
      }
      ghost var was := nodes;
      nodes, names := nodes[n := File([])], names[p := n];
      fd := Install(n, writable);
      if fd == -1 {
        nodes, names := nodes - {n}, names - {p};
        assert nodes == was;
      }
    }

    /** close(2): the descriptor is gone whatever is returned. Only an open one may be closed. */
    method Close(fd: nat) returns (r: int)
      requires Valid() && fd in fds
      modifies this`fds, this`log, this`faults
      ensures Valid() && fds == old(fds) - {fd} && log == old(log) + [Closed(fd)]
      ensures old(faults) <= faults && (r == 0 || r == -1) && (faults == old(faults) ==> r == 0)
    {
      TableStep(log, Closed(fd));
      fds := fds - {fd};
      log := log + [Closed(fd)];
      var fails := Fails();
      r := if fails then -1 else 0;
    }

    /** read(2) of up to n bytes: an error, always for a directory, the end of the file, or some of what is left. */
    method Read(fd: int, n: nat) returns (k: int, bytes: Bytes)
      requires Valid()
      modifies this`fds, this`faults, this`readErrors
      ensures Valid() && -1 <= k <= n && |bytes| == Max(k, 0)
      ensures !old(Now()).Readable(fd) ==> k == -1
      ensures readErrors == old(readErrors) + if k == -1 then 1 else 0
      ensures old(faults) <= faults && (k == -1 && old(Now()).Readable(fd) ==> old(faults) < faults)
      ensures k <= 0 ==> Now() == old(Now())
      ensures k > 0 ==> TookIn(old(Now()), Now(), fd, bytes)
      ensures k == 0 ==> n == 0 || |Data(fds[fd].node)| <= fds[fd].pos
    {
      var fails := Fails();
      if fails || !Now().Readable(fd) {
        readErrors := readErrors + 1;
        return -1, [];
      }
      var d := fds[fd];
      var left := |Data(d.node)| - d.pos;
      if n == 0 || left <= 0 {
        return 0, [];
      }
      k := *;
      if k < 1 || k > n || k > left {
        k := 1;
      }
      bytes := Data(d.node)[d.pos..d.pos + k];
      fds := fds[fd := d.(pos := d.pos + k)];
    }

    /** write(2) of the buffer from an offset on: an error, or some of them; nothing only while patience lasts. */
    method Write(fd: int, buf: Bytes, off: nat) returns (k: int)
      requires Valid() && off < |buf|
      modifies this`fds, this`nodes, this`patience, this`faults
      ensures Valid() && -1 <= k <= |buf| - off
      ensures !old(Now()).Writable(fd) ==> k == -1
      ensures old(faults) <= faults && (k == -1 && old(Now()).Writable(fd) ==> old(faults) < faults)
      ensures k <= 0 ==> Now() == old(Now())
      ensures if k == 0 then patience < old(patience) else patience == old(patience)
      ensures k > 0 ==> Wrote(old(Now()), Now(), fd, buf[off..off + k]) && fds[fd].pos <= limit
    {
      var fails := Fails();
      if fails || !Now().Writable(fd) {
        return -1;
      }
      k := *;
      if k < 0 || k > |buf| - off || (k == 0 && patience == 0) {
        k := |buf| - off;
      }
      if k == 0 {
        patience := patience - 1;
      } else if fds[fd].pos + k > limit {
        faults := faults + 1;
        k := -1;
      } else {
        Place(fd, buf[off..off + k]);
      }
    }

    /** Lay bytes over a file and move its descriptor on. */
    method Place(fd: nat, chunk: Bytes)
      requires Valid() && Now().Writable(fd) && chunk != []
      modifies this`fds, this`nodes
      ensures Valid() && Wrote(old(Now()), Now(), fd, chunk) && fds[fd].pos == old(fds[fd].pos) + |chunk|
    {
      var d := fds[fd];
      nodes := nodes[d.node := File(Overwrite(Data(d.node), d.pos, chunk))];
      fds := fds[fd := d.(pos := d.pos + |chunk|)];
    }

    /** ftruncate(2) */
    method Truncate(fd: int, size: nat) returns (r: int)
      requires Valid()
      modifies this`nodes, this`faults
      ensures Valid() && (r == 0 || r == -1)
      ensures old(faults) <= faults && (r == -1 && old(Now()).Writable(fd) ==> old(faults) < faults)
      ensures r == -1 ==> nodes == old(nodes)
      ensures r == 0 ==>
                && old(Now()).Writable(fd)
                && nodes == old(nodes)[fds[fd].node := File(Resize(old(Data(fds[fd].node)), size))]
    {
      var fails := Fails();
      if fails || !Now().Writable(fd) {
        return -1;
      }
      nodes := nodes[fds[fd].node := File(Resize(Data(fds[fd].node), size))];
      r := 0;
    }

    /** remove(3) and unlink(2): the name goes, the node stays for those who have it open. */
    method Remove(p: Path) returns (ok: bool, errno: Errno)
      requires Valid()
      modifies this`names, this`faults, this`keptNames
      ensures Valid()
      ensures keptNames == old(keptNames) + if ok || errno == ENOENT then 0 else 1
      ensures names == if ok then old(names) - {p} else old(names)
      ensures errno == ENOENT ==> p !in names
      ensures old(faults) <= faults && (!ok && errno != ENOENT ==> old(faults) < faults)
    {
      if p !in names {
        return false, ENOENT;
      }
      var fails := Fails();
      if fails {
        keptNames := keptNames + 1;
        return false, OTHER;
      }
      names := names - {p};
      return true, OTHER;
    }

    /** mkdir(2) */
    method MakeDirectory(p: Path) returns (ok: bool, errno: Errno)
      requires Valid()
      modifies this`names, this`nodes, this`faults
      ensures Valid() && old(faults) <= faults
      ensures !ok ==> names == old(names) && nodes == old(nodes)
      ensures !ok && p !in old(names) ==> old(faults) < faults
      ensures p in old(names) <==> !ok && errno == EEXIST
      ensures ok ==> p !in old(names) && p in names && names[p] !in old(nodes)
      ensures ok ==> nodes == old(nodes)[names[p] := Directory] && names == old(names)[p := names[p]]
    {
      if p in names {
        return false, EEXIST;
      }
      var n: nat := *;
      if n in nodes {
        faults := faults + 1;
        return false, OTHER;
      }
      var fails := Fails();
      if fails {
        return false, OTHER;
      }
      nodes, names := nodes[n := Directory], names[p := n];
      return true, OTHER;
    }
  }
}
