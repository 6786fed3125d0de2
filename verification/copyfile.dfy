/**
 The reusable copy state: names, descriptors, and the calls that use them.
 Line numbers are those of copyfile.c.
 */
module CopyFile {
  import opened Wrappers
  import opened Kernel
  import opened CopyLoop

  /** The flags that decide what is done. */
  datatype Flags = Flags(data: bool, excl: bool, unlink: bool)

  const NO_STAT := Stat(Special, 0, 0)

  type Names = map<Path, nat>
  type Nodes = map<nat, Node>

  /** Every node there was is still there, unchanged, and what came is empty. */
  predicate Grew(was: Nodes, now: Nodes) {
    && (forall n :: n in was ==> n in now && now[n] == was[n])
    && (forall n :: n in now && n !in was ==> now[n] == File([]) || now[n] == Directory)
  }

  /** What a name leads to. */
  function NodeOf(names: Names, nodes: Nodes, p: Option<Path>): Option<Node> {
    if p.Some? && p.value in names && names[p.value] in nodes then Some(nodes[names[p.value]]) else None
  }

  predicate Leads(names: Names, p: Option<Path>, n: nat) {
    p.Some? && p.value in names && names[p.value] == n
  }

  predicate IsFile(names: Names, nodes: Nodes, p: Option<Path>) {
    var at := NodeOf(names, nodes, p);
    at.Some? && at.value.File?
  }

  /** The source is still to be opened, and is a directory. */
  predicate OpensDirectory(names: Names, nodes: Nodes, src: Option<Path>, srcFd: int) {
    srcFd == -2 && NodeOf(names, nodes, src) == Some(Directory)
  }

  /**
   A destination name that can be opened: of nothing, or, without COPYFILE_EXCL, of a regular file,
   and without COPYFILE_DATA of anything.
   */
  predicate Accepts(names: Names, nodes: Nodes, path: Path, flags: Flags) {
    path !in names || (!flags.excl && (flags.data ==> IsFile(names, nodes, Some(path))))
  }

  /** The names once COPYFILE_UNLINK has removed the destination. */
  function Unlinked(names: Names, path: Path, flags: Flags): Names {
    if flags.unlink then names - {path} else names
  }

  /** All names but the destination's. */
  function Besides(names: Names, dst: Option<Path>): Names {
    if dst.Some? then names - {dst.value} else names
  }

  /** A name that is open for the destination, and how it got there. */
  ghost predicate DestinationOpened(k: System, path: Path, fd: int, flags: Flags, names: Names, nodes: Nodes)
    reads k
  {
    && 0 <= fd && fd in k.fds && path in k.names
    && k.fds[fd].node == k.names[path] && k.fds[fd].pos == 0 && (flags.data ==> k.fds[fd].writable)
    && (if path in names then
          && !flags.excl && k.names == names && k.nodes == nodes
          && (flags.data ==> names[path] in nodes && !nodes[names[path]].Directory?)
        else
          && k.names[path] !in nodes
          && k.names == names[path := k.names[path]] && k.nodes == nodes[k.names[path] := File([])])
  }

  /**
   The retry loop of lines 460-492 for a source that is not a directory. It ends: every
   retry spends a flag or a denial. Under COPYFILE_EXCL success means the file was made by
   this call; with COPYFILE_DATA the descriptor can be written. A failure changes nothing,
   and without a fault there is none for a destination that is acceptable.
   */
  method RetryOpen(k: System, path: Path, flags: Flags) returns (fd: int)
    requires k.Valid()
    modifies k`nodes, k`names, k`fds, k`log, k`denials, k`faults
    ensures k.Valid() && -1 <= fd && old(k.faults) <= k.faults
    ensures fd == -1 ==>
              k.fds == old(k.fds) && k.log == old(k.log) && k.names == old(k.names) && k.nodes == old(k.nodes)
    ensures fd >= 0 ==> fd !in old(k.fds) && k.log == old(k.log) + [Opened(fd)] && Opened(fd) !in old(k.log)
    ensures fd >= 0 ==> fd in k.fds && k.fds == old(k.fds)[fd := k.fds[fd]]
    ensures fd >= 0 ==> DestinationOpened(k, path, fd, flags, old(k.names), old(k.nodes))
    ensures Accepts(old(k.names), old(k.nodes), path, flags) && k.faults == old(k.faults) ==> fd >= 0
  {
    var oflags := OpenFlags(true, true, true);
    var errno;
    fd, errno := k.Open(path, oflags);
    while fd < 0
      invariant k.Valid() && -1 <= fd && old(k.faults) <= k.faults
      invariant fd == -1 ==>
                  k.fds == old(k.fds) && k.log == old(k.log) && k.names == old(k.names) && k.nodes == old(k.nodes)
      invariant fd >= 0 ==> fd !in old(k.fds) && k.log == old(k.log) + [Opened(fd)] && Opened(fd) !in old(k.log)
      invariant fd >= 0 ==> fd in k.fds && k.fds == old(k.fds)[fd := k.fds[fd]]
      invariant fd >= 0 ==> DestinationOpened(k, path, fd, flags, old(k.names), old(k.nodes))
      invariant oflags.excl && (flags.excl ==> oflags.create) && (flags.data || flags.excl ==> oflags.write)
      invariant fd == -1 ==> (errno == EEXIST ==> oflags.create) && (errno == EISDIR ==> oflags.write)
      invariant fd == -1 && k.faults == old(k.faults) && Accepts(k.names, k.nodes, path, flags) ==>
                  && errno in {EEXIST, EACCES, EISDIR}
                  && (errno == EISDIR ==> !flags.data && !flags.excl) && (errno == EACCES ==> oflags.write)
                  && (errno == EEXIST ==> path in k.names) && (!oflags.create ==> path in k.names)
      decreases fd < 0, (if oflags.create then 1 else 0) + (if oflags.write then 1 else 0) + k.denials
             + (if errno == EACCES then 1 else 0)
    {
      match errno {
        case EEXIST =>
          if flags.excl {
            return -1;
          }
          oflags := oflags.(create := false);
        case EACCES =>
          var refused := k.Fails();
          if refused {
            return -1;
          }
        case EISDIR =>
          if flags.excl || flags.data {
            return -1;
          }
          oflags := oflags.(write := false);
        case _ =>
          return -1;
      }
      fd, errno := k.Open(path, oflags);
    }
  }

  /** The counters only grow, and a call that met a read error returns 0 all the same. */
  ghost predicate Counts(k: System, ret: int, faults: nat, errors: nat)
    reads k
  {
    faults <= k.faults && errors <= k.readErrors && (errors < k.readErrors ==> ret == 0)
  }

  /** A call that was to copy data returned 0, no read failed since there had been so many, and blocks are not empty. */
  ghost predicate CleanCopy(k: System, ret: int, flags: Flags, errors: nat, blockSize: nat)
    reads k
  {
    ret == 0 && flags.data && k.readErrors == errors && k.ioSize > 0 && blockSize > 0
  }

  /** What becomes of a descriptor when its name is given anew: another name closes it (lines 193-202). */
  function Kept(name: Option<Path>, given: Option<Path>, fd: int): int {
    if name.Some? && given.Some? && given != name && fd >= 0 then -2 else fd
  }

  function Given(name: Option<Path>, given: Option<Path>): Option<Path> {
    if given.Some? then given else name
  }

  /** A destination that takes a copy: one that is open for it, or that can be opened. */
  ghost predicate Takes(k: System, dst: Option<Path>, dstFd: int, flags: Flags)
    reads k
  {
    if dstFd == -2 then
      dst.Some? && Accepts(Unlinked(k.names, dst.value, flags), k.nodes, dst.value, flags)
    else
      0 <= dstFd && dstFd in k.fds && (flags.data ==> k.Now().Writable(dstFd))
  }

  /** A destination name that a directory can be made at. */
  predicate TakesDirectory(names: Names, dst: Option<Path>, dstFd: int, flags: Flags) {
    dstFd == -2 && dst.Some? && dst.value !in Unlinked(names, dst.value, flags)
  }

  /** With these names and descriptors a copy goes through unless the kernel is at fault. */
  ghost predicate Ready(k: System, src: Option<Path>, srcFd: int, dst: Option<Path>, dstFd: int, flags: Flags)
    reads k
  {
    if OpensDirectory(k.names, k.nodes, src, srcFd) then TakesDirectory(k.names, dst, dstFd, flags)
    else
      && (if srcFd == -2 then IsFile(k.names, k.nodes, src)
          else 0 <= srcFd && srcFd in k.fds && (flags.data ==> k.Now().Readable(srcFd)))
      && Takes(k, dst, dstFd, flags)
  }

  /**
   A descriptor is left as never opened only if no open was tried for it: for the source, if it has
   no name, could not be measured or is of no kind that is copied; for the destination, if it has no
   name, the source was not opened or is a directory, or its removal was refused. A sound source,
   a regular file without faults, is open.
   */
  predicate Settled(sound: bool, src: Option<Path>, srcFd: int, before: Stat, sb: Stat, dst: Option<Path>,
                    heldFd: int, dstFd: int, refused: bool)
  {
    && (sound && heldFd == -2 ==> srcFd >= 0)
    && (srcFd == -2 ==> src.None? || sb == before || sb.node.Special?)
    && (dstFd == -2 && dst.Some? && (heldFd != -2 || (srcFd >= 0 && !sb.node.Directory?)) ==> refused)
  }

  /** Where a descriptor of the finished call stood before: where the call found it, or at the start. */
  function Began(was: World, now: World, fd: int): Descriptor
    requires 0 <= fd && fd in now.fds
  {
    if fd in was.fds then was.fds[fd] else now.fds[fd].(pos := 0)
  }

  /** What the destination is left with: the copy from and to where the descriptors stood. */
  predicate LeavesCopy(was: World, now: World, srcFd: int, dstFd: int, size: nat) {
    && 0 <= srcFd && srcFd in now.fds && 0 <= dstFd && dstFd in now.fds
    && var d, e := Began(was, now, srcFd), Began(was, now, dstFd);
       (d.node != e.node || d.pos == e.pos ==> Copied(was, now, srcFd, d, e, size))
  }

  /** A source descriptor that this call opened is that of its name, and was measured. */
  predicate SourceResolved(names: Names, was: World, now: World, src: Option<Path>, fd: int, sb: Stat, blockSize: nat) {
    0 <= fd && fd in now.fds && fd !in was.fds ==>
      && src.Some? && src.value in names && now.fds[fd].node == names[src.value]
      && names[src.value] in was.nodes
      && sb == Stat(was.nodes[names[src.value]], |was.Data(names[src.value])|, blockSize)
  }

  /**
   A destination descriptor that this call opened is that of its name, which leads where it did, or
   to a new node. Under COPYFILE_EXCL or COPYFILE_UNLINK it is always a new one, and the name was
   free or is unlinked first: the call made the destination.
   */
  predicate DestinationResolved(names: Names, was: World, now: World, dst: Option<Path>, fd: int, flags: Flags) {
    0 <= fd && fd in now.fds && fd !in was.fds ==>
      && dst.Some?
      && (now.fds[fd].node in was.nodes ==> dst.value in names && now.fds[fd].node == names[dst.value])
      && (Fresh(flags) ==> now.fds[fd].node !in was.nodes && (flags.unlink || dst.value !in names))
  }

  /** A destination that this call made is a directory exactly if this call opened a directory as its source. */
  predicate KindResolved(was: World, now: World, srcFd: int, dstFd: int, sb: Stat) {
    0 <= dstFd && dstFd in now.fds && dstFd !in was.fds && now.fds[dstFd].node !in was.nodes ==>
      && now.fds[dstFd].node in now.nodes
      && (now.nodes[now.fds[dstFd].node].Directory? <==>
            0 <= srcFd && srcFd in now.fds && srcFd !in was.fds && sb.node.Directory?)
  }

  predicate Resolved(names: Names, was: World, now: World, src: Option<Path>, srcFd: int, dst: Option<Path>, dstFd: int,
                     sb: Stat, blockSize: nat, flags: Flags)
  {
    && SourceResolved(names, was, now, src, srcFd, sb, blockSize)
    && DestinationResolved(names, was, now, dst, dstFd, flags)
    && KindResolved(was, now, srcFd, dstFd, sb)
  }

  /** Descriptors may have been opened, at the start of their files; what was there is as it was. */
  predicate Joined(was: World, now: World) {
    && Grew(was.nodes, now.nodes)
    && (forall d :: d in was.fds ==> d in now.fds && now.fds[d] == was.fds[d])
    && (forall d :: d in now.fds && d !in was.fds ==> now.fds[d].pos == 0)
  }

  /** A call that was not to copy data: nothing that was there and still is has changed. */
  predicate Untouched(was: World, now: World) {
    Grew(was.nodes, now.nodes) && forall d :: d in was.fds && d in now.fds ==> now.fds[d] == was.fds[d]
  }

  /** No half-written file goes by the name: it leads nowhere, or to what it was, or to something new and empty. */
  predicate Intact(was: Nodes, now: Nodes, names: Names, dst: Option<Path>) {
    dst.Some? && dst.value in names ==>
      && names[dst.value] in now
      && var node := now[names[dst.value]];
         if names[dst.value] in was then node == was[names[dst.value]] else node == File([]) || node == Directory
  }

  /**
   The destination name leads where it did, or to something new, which is a directory exactly if the
   source name leads to one.
   */
  predicate MadeAlike(wasNames: Names, was: Nodes, names: Names, now: Nodes, src: Option<Path>, dst: Option<Path>) {
    && dst.Some? && dst.value in names
    && if names[dst.value] in was then Leads(wasNames, dst, names[dst.value])
       else NodeOf(names, now, dst) == Some(Directory) <==> OpensDirectory(wasNames, was, src, -2)
  }

  /** The destination is made anew: it is not to exist, or is removed first. */
  predicate Fresh(flags: Flags) {
    flags.excl || flags.unlink
  }

  /** Nothing but that these two descriptors may have been opened. */
  predicate OnlyJoined(was: World, now: World, srcFd: int, dstFd: int) {
    Joined(was, now) && forall d :: d in now.fds && d !in was.fds ==> d == srcFd || d == dstFd
  }

  /** What a copy does not concern: all descriptors but its own and the dropped ones, all nodes but the destination. */
  predicate OthersKept(was: World, now: World, dropped: set<nat>, srcFd: int, dstFd: int) {
    && (forall d :: d in was.fds && d !in dropped && d != srcFd && d != dstFd ==>
                      d in now.fds && now.fds[d] == was.fds[d])
    && (forall n :: n in was.nodes && NodeAt(now, dstFd) != Some(n) ==> n in now.nodes && now.nodes[n] == was.nodes[n])
  }

  lemma NewAreJoined(was: World, now: World, srcFd: int, dstFd: int, before: set<nat>, held: set<nat>)
    requires now.fds.Keys - held == was.fds.Keys - before && forall d :: d in held ==> d == srcFd || d == dstFd
    ensures Joined(was, now) ==> OnlyJoined(was, now, srcFd, dstFd)
  {
    assert forall d :: d in now.fds && d !in was.fds ==> d !in now.fds.Keys - held;
  }

  lemma JoinedBoth(was: World, mid: World, now: World)
    requires Joined(was, mid) && Joined(mid, now)
    ensures Joined(was, now)
  {
  }

  lemma JoinedKept(was: World, mid: World, now: World, srcFd: int, dstFd: int)
    requires Joined(was, mid) && SameBut(mid, now, srcFd, dstFd)
    ensures OthersKept(was, now, {}, srcFd, dstFd)
  {
  }

  /** A copy between descriptors that were just joined to the rest is one from where they began. */
  lemma JoinedCopy(was: World, mid: World, now: World, srcFd: int, dstFd: int, size: nat)
    requires Joined(was, mid) && SameBut(mid, now, srcFd, dstFd) && srcFd != dstFd
    requires 0 <= srcFd && srcFd in mid.fds && 0 <= dstFd && dstFd in mid.fds
    requires mid.Apart(srcFd, dstFd) ==> Copied(mid, now, srcFd, mid.fds[srcFd], mid.fds[dstFd], size)
    ensures LeavesCopy(was, now, srcFd, dstFd, size)
  {
    var d, e := mid.fds[srcFd], mid.fds[dstFd];
    assert mid.Data(d.node) == was.Data(d.node) && mid.Data(e.node) == was.Data(e.node);
    assert Began(was, now, srcFd) == d && Began(was, now, dstFd) == e;
  }

  /** A descriptor that is opened was not open at any time before. */
  lemma NeverReused(was: seq<Event>, now: seq<Event>, open: set<nat>, fd: int)
    requires Proper(was) && Table(was) == open && was <= now
    ensures 0 <= fd && Opened(fd) !in now ==> fd !in open
  {
    if 0 <= fd {
      ClosedOnce(was, fd);
    }
  }

  /** At most these descriptors were closed. */
  predicate Dropped(was: World, now: World, dropped: set<nat>) {
    && now.nodes == was.nodes && was.fds.Keys - dropped <= now.fds.Keys <= was.fds.Keys
    && forall d :: d in now.fds ==> now.fds[d] == was.fds[d]
  }

  /** Closing descriptors beforehand changes nothing of this. */
  lemma DroppedKept(was: World, mid: World, now: World, dropped: set<nat>, events: seq<Event>, log: seq<Event>,
                    names: Names, src: Option<Path>, srcFd: int, dst: Option<Path>, dstFd: int,
                    sb: Stat, blockSize: nat, flags: Flags)
    requires Dropped(was, mid, dropped) && Proper(events) && Table(events) == was.fds.Keys && events <= log
    requires 0 <= srcFd ==> srcFd in mid.fds || Opened(srcFd) !in log
    requires 0 <= dstFd ==> dstFd in mid.fds || Opened(dstFd) !in log
    requires OthersKept(mid, now, {}, srcFd, dstFd)
    requires Resolved(names, mid, now, src, srcFd, dst, dstFd, sb, blockSize, flags)
    ensures 0 <= dstFd && Opened(dstFd) !in log ==> dstFd !in was.fds
    ensures OthersKept(was, now, dropped, srcFd, dstFd)
    ensures Resolved(names, was, now, src, srcFd, dst, dstFd, sb, blockSize, flags)
    ensures LeavesCopy(mid, now, srcFd, dstFd, sb.size) ==> LeavesCopy(was, now, srcFd, dstFd, sb.size)
    ensures OnlyJoined(mid, now, srcFd, dstFd) ==> Untouched(was, now)
  {
    NeverReused(events, log, was.fds.Keys, srcFd);
    NeverReused(events, log, was.fds.Keys, dstFd);
    assert forall n :: mid.Data(n) == was.Data(n);
  }

  /** Between files that were just opened, a copy leaves the destination with the contents of the source. */
  lemma FreshCopy(was: World, now: World, srcFd: int, dstFd: int, size: nat)
    requires LeavesCopy(was, now, srcFd, dstFd, size)
    requires srcFd !in was.fds && dstFd !in was.fds && size == |was.Data(now.fds[srcFd].node)|
    ensures now.fds[dstFd].node in now.nodes
    ensures now.nodes[now.fds[dstFd].node] == File(was.Data(now.fds[srcFd].node))
  {
    WholeCopy(was, Began(was, now, srcFd), Began(was, now, dstFd));
  }

  lemma AllGivenBack(was: map<nat, Descriptor>, now: map<nat, Descriptor>, held: set<nat>)
    requires now.Keys - held == was.Keys && forall d :: d in was && d !in held ==> now[d] == was[d]
    ensures now - held == was
  {
    assert (now - held).Keys == was.Keys;
  }

  /** The descriptor fcopyfile uses: the state's, or if it never had one, the caller's. */
  function Adopted(held: int, given: int): int {
    if held == -2 then given else held
  }

  predicate Measured(w: World, fd: int, sb: Stat, blockSize: nat) {
    && 0 <= fd && fd in w.fds && w.fds[fd].node in w.nodes
    && sb == Stat(w.nodes[w.fds[fd].node], |w.Data(w.fds[fd].node)|, blockSize)
  }

  /** Open descriptors of a file or directory and of a file that can be written. */
  predicate Passable(w: World, srcFd: int, dstFd: int) {
    Copyable(w, srcFd, dstFd) && w.fds[srcFd].node in w.nodes && !w.nodes[w.fds[srcFd].node].Special?
  }

  predicate CopiesBetween(was: World, now: World, srcFd: int, dstFd: int, size: nat) {
    was.Apart(srcFd, dstFd) ==> Copied(was, now, srcFd, was.fds[srcFd], was.fds[dstFd], size)
  }

  /** What the log of a life says of each descriptor. */
  lemma LogAccounts(was: seq<Event>, now: seq<Event>, open: set<nat>, left: set<nat>)
    requires Proper(was) && Table(was) == open && Proper(now) && Table(now) == left && was <= now && open <= left
    ensures forall fd :: fd in open ==> Closings(now, fd) == 0
    ensures forall fd :: Opened(fd) in now && Opened(fd) !in was ==> fd !in open
    ensures forall fd :: Opened(fd) in now && Opened(fd) !in was ==> Closings(now, fd) == if fd in left then 0 else 1
  {
    forall fd: nat
      ensures Closings(now, fd) == if Opened(fd) in now && fd !in left then 1 else 0
      ensures fd in open ==> Opened(fd) in was
    {
      ClosedOnce(now, fd);
      ClosedOnce(was, fd);
    }
  }

  /** struct _copyfile_state. A descriptor of -2 was never opened, one of -1 failed to open. */
  class State {
    var src: Option<Path>
    var dst: Option<Path>
    var srcFd: int
    var dstFd: int
    var sb: Stat
    var flags: Flags

    /** copyfile_state_alloc */
    constructor (flags: Flags)
      ensures src == dst == None && srcFd == dstFd == -2 && sb == NO_STAT && this.flags == flags
    {
      src, dst, srcFd, dstFd, sb, this.flags := None, None, -2, -2, NO_STAT, flags;
    }

    /** The descriptors the state answers for. */
    function Held(): set<nat>
      reads this
    {
      (if srcFd >= 0 then {srcFd} else {}) + (if dstFd >= 0 then {dstFd} else {})
    }

    /** They are open, and not the same. */
    ghost predicate Owns(k: System)
      reads this, k
    {
      && -2 <= srcFd && -2 <= dstFd
      && (srcFd >= 0 ==> srcFd in k.fds)
      && (dstFd >= 0 ==> dstFd in k.fds)
      && (srcFd >= 0 ==> srcFd != dstFd)
    }

    /** Each has the name it was opened by, without which copyfile_state_free will not close it. */
    predicate Named()
      reads this
    {
      (srcFd >= 0 ==> src.Some?) && (dstFd >= 0 ==> dst.Some?)
    }

    /** The descriptors that copyfile_state_free will not close. */
    function Unnamed(): set<nat>
      reads this
    {
      (if srcFd >= 0 && src.None? then {srcFd} else {}) + (if dstFd >= 0 && dst.None? then {dstFd} else {})
    }

    /** COPYFILE_SET_FNAME(src, s): a new name closes the old descriptor. */
    method SetSource(k: System, name: Path) returns (ok: bool)
      requires k.Valid() && Owns(k)
      modifies this`src, this`srcFd, k`fds, k`log, k`faults, k`lostNames
      ensures k.Valid() && Owns(k) && k.fds.Keys - Held() == old(k.fds.Keys - Held()) && old(k.log) <= k.log
      ensures src == if ok then Some(name) else None
      ensures srcFd == Kept(old(src), Some(name), old(srcFd))
      ensures k.fds == if srcFd == old(srcFd) then old(k.fds) else old(k.fds) - {old(srcFd)}
      ensures k.lostNames == old(k.lostNames) + if ok then 0 else 1
      ensures old(k.faults) <= k.faults && (ok || old(k.faults) < k.faults)
    {
      if src.Some? && src.value != name && srcFd != -2 && srcFd > -1 {
        var _ := k.Close(srcFd);
        srcFd := -2;
      }
      src := None;
      src := k.Duplicate(name);
      ok := src.Some?;
    }

    /** COPYFILE_SET_FNAME(dst, s) */
    method SetDestination(k: System, name: Path) returns (ok: bool)
      requires k.Valid() && Owns(k)
      modifies this`dst, this`dstFd, k`fds, k`log, k`faults, k`lostNames
      ensures k.Valid() && Owns(k) && k.fds.Keys - Held() == old(k.fds.Keys - Held()) && old(k.log) <= k.log
      ensures dst == if ok then Some(name) else None
      ensures dstFd == Kept(old(dst), Some(name), old(dstFd))
      ensures k.fds == if dstFd == old(dstFd) then old(k.fds) else old(k.fds) - {old(dstFd)}
      ensures k.lostNames == old(k.lostNames) + if ok then 0 else 1
      ensures old(k.faults) <= k.faults && (ok || old(k.faults) < k.faults)
    {
      if dst.Some? && dst.value != name && dstFd != -2 && dstFd > -1 {
        var _ := k.Close(dstFd);
        dstFd := -2;
      }
      dst := None;
      dst := k.Duplicate(name);
      ok := dst.Some?;
    }

    /** What a name vouches for is open, once. */
    ghost predicate Closable(k: System)
      reads this, k
    {
      && (src.Some? && srcFd >= 0 ==> srcFd in k.fds)
      && (dst.Some? && dstFd >= 0 ==> dstFd in k.fds)
      && (src.Some? && dst.Some? && srcFd >= 0 ==> srcFd != dstFd)
    }

    /** copyfile_close and copyfile_state_free: what has a name is closed. */
    method Free(k: System) returns (r: int)
      requires k.Valid() && Closable(k)
      modifies k`fds, k`log, k`faults
      ensures k.Valid() && old(k.log) <= k.log && old(k.faults) <= k.faults
      ensures k.fds == old(k.fds)
                       - (if src.Some? && srcFd >= 0 then {srcFd} else {})
                       - (if dst.Some? && dstFd >= 0 then {dstFd} else {})
      ensures src.None? && dst.None? ==> k.log == old(k.log) && k.faults == old(k.faults)
    {
      r := 0;
      if src.Some? && srcFd >= 0 {
        var _ := k.Close(srcFd);
      }
      if dst.Some? && dstFd >= 0 {
        r := k.Close(dstFd);
      }
    }

    /** Lines 395-424: stat and open the source, if it is a file or a directory. */
    method OpenSource(k: System) returns (ok: bool, isdir: bool)
      requires k.Valid() && Owns(k) && src.Some? && srcFd == -2
      modifies this`srcFd, this`sb, k`nodes, k`names, k`fds, k`log, k`denials, k`faults
      ensures k.Valid() && Owns(k) && k.names == old(k.names) && k.nodes == old(k.nodes)
      ensures srcFd < 0 ==> k.fds == old(k.fds) && k.log == old(k.log)
      ensures srcFd >= 0 ==>
                srcFd !in old(k.fds) && k.log == old(k.log) + [Opened(srcFd)] && Opened(srcFd) !in old(k.log)
      ensures srcFd >= 0 ==> srcFd in k.fds && k.fds == old(k.fds)[srcFd := k.fds[srcFd]]
      ensures ok <==> srcFd >= 0
      ensures ok ==>
                && src.value in k.names && k.fds[srcFd] == Descriptor(k.names[src.value], 0, false)
                && sb == Stat(k.nodes[k.names[src.value]], |k.Data(k.names[src.value])|, k.blockSize)
                && isdir == sb.node.Directory? && !sb.node.Special?
      ensures old(k.faults) <= k.faults && (k.faults == old(k.faults) ==>
                IsFile(k.names, k.nodes, src) || OpensDirectory(k.names, k.nodes, src, old(srcFd)) ==> ok)
      ensures srcFd == -2 ==> sb == old(sb) || sb.node.Special?
    {
      ok, isdir := false, false;
      var st := k.StatPath(src.value);
      if st.Some? {
        sb := st.value;
        if !sb.node.Special? {
          isdir := sb.node.Directory?;
          var errno;
          srcFd, errno := k.Open(src.value, OpenFlags(false, false, false));
          ok := srcFd >= 0;
        }
      }
    }

    /** Lines 445-459: make the directory, or do with the one there is, and open it for reading. */
    method OpenDirectory(k: System) returns (ok: bool)
      requires k.Valid() && Owns(k) && dst.Some? && dstFd == -2
      modifies this`dstFd, k`nodes, k`names, k`fds, k`log, k`denials, k`faults
      ensures k.Valid() && Owns(k) && Grew(old(k.nodes), k.nodes) && old(k.faults) <= k.faults
      ensures Besides(k.names, dst) == Besides(old(k.names), dst)
      ensures dstFd < 0 ==> k.fds == old(k.fds) && k.log == old(k.log)
      ensures dstFd >= 0 ==>
                dstFd !in old(k.fds) && k.log == old(k.log) + [Opened(dstFd)] && Opened(dstFd) !in old(k.log)
      ensures dstFd >= 0 ==> dstFd in k.fds && k.fds == old(k.fds)[dstFd := k.fds[dstFd]]
      ensures ok <==> dstFd >= 0
      ensures ok ==>
                && dst.value in k.names && k.fds[dstFd].node == k.names[dst.value] && k.fds[dstFd].pos == 0
                && (k.names[dst.value] in old(k.nodes) ==>
                      dst.value in old(k.names) && k.names[dst.value] == old(k.names)[dst.value])
                && (flags.excl ==>
                      k.names[dst.value] !in old(k.nodes) && (flags.unlink || dst.value !in old(k.names)))
                && (k.names[dst.value] !in old(k.nodes) ==>
                      k.names[dst.value] in k.nodes && k.nodes[k.names[dst.value]] == Directory)
      ensures dst.value !in old(k.names) && k.faults == old(k.faults) ==> ok
      ensures dstFd == -2 <==>
                if dst.value in old(k.names) then flags.excl else k.names == old(k.names)
    {
      ok := false;
      var made, errno := k.MakeDirectory(dst.value);
      if made || (errno == EEXIST && !flags.excl) {
        dstFd, errno := k.Open(dst.value, OpenFlags(false, false, false));
        ok := dstFd >= 0;
      }
    }

    /** Lines 460-492: the destination for a source that is not a directory. */
    method OpenFile(k: System) returns (ok: bool)
      requires k.Valid() && Owns(k) && dst.Some? && dstFd == -2
      modifies this`dstFd, k`nodes, k`names, k`fds, k`log, k`denials, k`faults
      ensures k.Valid() && Owns(k) && Grew(old(k.nodes), k.nodes) && old(k.faults) <= k.faults
      ensures Besides(k.names, dst) == Besides(old(k.names), dst)
      ensures dstFd < 0 ==> k.fds == old(k.fds) && k.log == old(k.log)
      ensures dstFd >= 0 ==>
                dstFd !in old(k.fds) && k.log == old(k.log) + [Opened(dstFd)] && Opened(dstFd) !in old(k.log)
      ensures dstFd >= 0 ==> dstFd in k.fds && k.fds == old(k.fds)[dstFd := k.fds[dstFd]]
      ensures dstFd != -2 && (ok <==> dstFd >= 0)
      ensures ok ==>
                && dst.value in k.names && k.fds[dstFd].node == k.names[dst.value] && k.fds[dstFd].pos == 0
                && (k.names[dst.value] in old(k.nodes) ==>
                      dst.value in old(k.names) && k.names[dst.value] == old(k.names)[dst.value])
                && (flags.excl ==> k.names[dst.value] !in old(k.nodes) && dst.value !in old(k.names))
                && (k.names[dst.value] !in old(k.nodes) ==>
                      k.names[dst.value] in k.nodes && !k.nodes[k.names[dst.value]].Directory?)
      ensures ok ==> DestinationOpened(k, dst.value, dstFd, flags, old(k.names), old(k.nodes))
      ensures Accepts(old(k.names), old(k.nodes), dst.value, flags) && k.faults == old(k.faults) ==> ok
    {
      dstFd := RetryOpen(k, dst.value, flags);
      ok := dstFd >= 0;
    }

    /** Lines 433-440: COPYFILE_UNLINK. */
    method UnlinkDestination(k: System) returns (ok: bool)
      requires k.Valid() && dst.Some?
      modifies k`names, k`faults, k`keptNames
      ensures k.Valid() && old(k.faults) <= k.faults && old(k.keptNames) <= k.keptNames
      ensures k.names == if ok then Unlinked(old(k.names), dst.value, flags) else old(k.names)
      ensures !ok ==> flags.unlink && old(k.faults) < k.faults
    {
      ok := true;
      if flags.unlink {
        var removed, errno := k.Remove(dst.value);
        ok := removed || errno == ENOENT;
      }
    }

    /** Lines 426-494: open the destination, making it if need be. */
    method OpenDestination(k: System, isdir: bool) returns (ok: bool)
      requires k.Valid() && Owns(k) && dst.Some? && dstFd == -2
      modifies this`dstFd, k`nodes, k`names, k`fds, k`log, k`denials, k`faults, k`keptNames
      ensures old(k.keptNames) <= k.keptNames
      ensures k.Valid() && Owns(k) && Grew(old(k.nodes), k.nodes) && old(k.faults) <= k.faults
      ensures Besides(k.names, dst) == Besides(old(k.names), dst)
      ensures dstFd < 0 ==> k.fds == old(k.fds) && k.log == old(k.log)
      ensures dstFd >= 0 ==>
                dstFd !in old(k.fds) && k.log == old(k.log) + [Opened(dstFd)] && Opened(dstFd) !in old(k.log)
      ensures dstFd >= 0 ==> dstFd in k.fds && k.fds == old(k.fds)[dstFd := k.fds[dstFd]]
      ensures ok <==> dstFd >= 0
      ensures ok ==>
                && dst.value in k.names && k.fds[dstFd].node == k.names[dst.value] && k.fds[dstFd].pos == 0
                && (k.names[dst.value] in old(k.nodes) ==>
                      dst.value in old(k.names) && k.names[dst.value] == old(k.names)[dst.value])
                && (Fresh(flags) ==>
                      k.names[dst.value] !in old(k.nodes) && (flags.unlink || dst.value !in old(k.names)))
                && (k.names[dst.value] !in old(k.nodes) ==>
                      && k.names[dst.value] in k.nodes
                      && (k.nodes[k.names[dst.value]].Directory? <==> isdir))
      ensures ok && !isdir ==>
                DestinationOpened(k, dst.value, dstFd, flags, Unlinked(old(k.names), dst.value, flags), old(k.nodes))
      ensures !isdir && k.faults == old(k.faults) ==>
                Accepts(Unlinked(old(k.names), dst.value, flags), old(k.nodes), dst.value, flags) ==> ok
      ensures isdir && k.faults == old(k.faults) ==> dst.value !in Unlinked(old(k.names), dst.value, flags) ==> ok
      ensures !isdir && dstFd == -2 ==> flags.unlink && old(k.faults) < k.faults
      ensures isdir && !flags.unlink ==>
                (dstFd == -2 <==> if dst.value in old(k.names) then flags.excl else k.names == old(k.names))
    {
      ok := UnlinkDestination(k);
      if ok {
        if isdir {
          ok := OpenDirectory(k);
        } else {
          ok := OpenFile(k);
        }
      }
    }

    /** Lines 395-424 as a whole: a source that was never opened is opened if it has a name. */
    method JoinSource(k: System) returns (ok: bool, isdir: bool)
      requires k.Valid() && Owns(k)
      modifies this`srcFd, this`sb, k
      ensures k.lostNames == old(k.lostNames) && k.readErrors == old(k.readErrors) && k.keptNames == old(k.keptNames)
      ensures k.Valid() && Owns(k) && k.names == old(k.names) && k.nodes == old(k.nodes) && old(k.log) <= k.log
      ensures k.fds.Keys - Held() == old(k.fds.Keys - Held())
      ensures Joined(old(k.Now()), k.Now())
      ensures old(srcFd) != -2 ==> ok && !isdir && srcFd == old(srcFd) && sb == old(sb) && k.fds == old(k.fds)
      ensures srcFd >= 0 && old(srcFd) == -2 ==>
                src.Some? && srcFd !in old(k.fds) && Opened(srcFd) in k.log && Opened(srcFd) !in old(k.log)
      ensures SourceResolved(old(k.names), old(k.Now()), k.Now(), src, srcFd, sb, k.blockSize)
      ensures old(k.faults) <= k.faults
      ensures old(srcFd) == -2 && IsFile(k.names, k.nodes, src) && k.faults == old(k.faults) ==>
                ok && !isdir && srcFd >= 0
      ensures srcFd == -2 ==> src.None? || sb == old(sb) || sb.node.Special?
      ensures old(srcFd) == -2 && ok && src.Some? ==> srcFd >= 0 && isdir == sb.node.Directory?
      ensures src.None? ==> !isdir
      ensures OpensDirectory(k.names, k.nodes, src, old(srcFd)) && k.faults == old(k.faults) ==>
                ok && isdir && srcFd >= 0
      ensures !ok ==> srcFd < 0
    {
      ok, isdir := true, false;
      if src.Some? && srcFd == -2 {
        ok, isdir := OpenSource(k);
      }
    }

    /** Lines 426-494 as a whole. */
    method JoinDestination(k: System, isdir: bool) returns (ok: bool)
      requires k.Valid() && Owns(k)
      modifies this`dstFd, k
      ensures k.lostNames == old(k.lostNames) && k.readErrors == old(k.readErrors)
      ensures old(k.keptNames) <= k.keptNames && (!ok ==> dstFd < 0)
      ensures 0 <= dstFd && dstFd in k.fds && dstFd !in old(k.fds) && k.fds[dstFd].node !in old(k.nodes) ==>
                k.fds[dstFd].node in k.nodes && (k.nodes[k.fds[dstFd].node].Directory? <==> isdir)
      ensures k.Valid() && Owns(k) && old(k.log) <= k.log
      ensures k.fds.Keys - Held() == old(k.fds.Keys - Held())
      ensures Joined(old(k.Now()), k.Now())
      ensures Besides(k.names, dst) == Besides(old(k.names), dst)
      ensures old(dstFd) != -2 ==> ok && dstFd == old(dstFd) && k.Now() == old(k.Now())
      ensures dstFd >= 0 && old(dstFd) == -2 ==>
                && dst.Some? && dst.value in k.names && k.names[dst.value] == k.fds[dstFd].node
                && dstFd !in old(k.fds) && Opened(dstFd) !in old(k.log)
      ensures DestinationResolved(old(k.names), old(k.Now()), k.Now(), dst, dstFd, flags)
      ensures old(k.faults) <= k.faults
      ensures !isdir && old(Takes(k, dst, dstFd, flags)) && k.faults == old(k.faults) ==>
                ok && dstFd >= 0 && (flags.data ==> k.Now().Writable(dstFd))
      ensures isdir && old(TakesDirectory(k.names, dst, dstFd, flags)) && k.faults == old(k.faults) ==> ok && dstFd >= 0
      ensures !isdir && dst.Some? && dstFd == -2 ==> flags.unlink && old(k.faults) < k.faults
    {
      ok := true;
      if dst.Some? && dstFd == -2 {
        ok := OpenDestination(k, isdir);
      }
    }

    /** copyfile_open */
    method OpenFiles(k: System) returns (ret: int)
      requires k.Valid() && Owns(k)
      modifies this`srcFd, this`dstFd, this`sb, k
      ensures k.lostNames == old(k.lostNames) && k.readErrors == old(k.readErrors) && old(k.keptNames) <= k.keptNames
      ensures k.Valid() && Owns(k) && k.fds.Keys - Held() == old(k.fds.Keys - Held()) && old(k.log) <= k.log
      ensures (ret == 0 || ret == -1) && (ret == 0 <==> srcFd >= 0 && dstFd >= 0)
      ensures old(Named()) ==> Named()
      ensures Joined(old(k.Now()), k.Now())
      ensures Besides(k.names, dst) == Besides(old(k.names), dst)
      ensures old(srcFd) != -2 ==> srcFd == old(srcFd) && sb == old(sb)
      ensures old(dstFd) != -2 ==> dstFd == old(dstFd)
      ensures Resolved(old(k.names), old(k.Now()), k.Now(), src, srcFd, dst, dstFd,
                       sb, k.blockSize, flags)
      ensures ret == 0 && old(dstFd) == -2 ==>
                dst.Some? && dst.value in k.names && k.names[dst.value] == k.fds[dstFd].node
      ensures srcFd >= 0 && old(srcFd) == -2 ==> Opened(srcFd) in k.log && Opened(srcFd) !in old(k.log)
      ensures dstFd >= 0 && old(dstFd) == -2 ==> Opened(dstFd) !in old(k.log)
      ensures old(k.faults) <= k.faults
      ensures old(Ready(k, src, srcFd, dst, dstFd, flags)) && k.faults == old(k.faults) ==>
                && ret == 0
                && (flags.data && !OpensDirectory(old(k.names), old(k.nodes), src, old(srcFd)) ==>
                      Copyable(k.Now(), srcFd, dstFd))
                && (OpensDirectory(old(k.names), old(k.nodes), src, old(srcFd)) ==> !k.Now().Readable(srcFd))
      ensures Settled(IsFile(old(k.names), old(k.nodes), src) && k.faults == old(k.faults), src, srcFd, old(sb), sb,
                      dst, old(srcFd), dstFd, flags.unlink && old(k.faults) < k.faults)
    {
      var ok, isdir := JoinSource(k);
      ghost var mid := k.Now();
      if ok {
        ok := JoinDestination(k, isdir);
        JoinedBoth(old(k.Now()), mid, k.Now());
      }
      ret := if !ok || dstFd < 0 || srcFd < 0 then -1 else 0;
    }

    /** copyfile_internal: copy the data if asked to, and remove the destination if that fails. */
    method Internal(k: System) returns (ret: int)
      requires k.Valid()
      modifies k`fds, k`nodes, k`patience, k`names, k`faults, k`readErrors, k`keptNames
      ensures old(k.keptNames) <= k.keptNames
      ensures !flags.data ==>
                k.Now() == old(k.Now()) && k.names == old(k.names) && k.readErrors == old(k.readErrors)
      ensures ret == -1 && srcFd >= 0 && dstFd >= 0 && dst.Some? && k.keptNames == old(k.keptNames) ==>
                dst.value !in k.names
      ensures k.Valid() && (ret == 0 || ret == -1) && Counts(k, ret, old(k.faults), old(k.readErrors))
      ensures SameBut(old(k.Now()), k.Now(), srcFd, dstFd)
      ensures ret == -1 ==> PartLaid(old(k.Now()), k.Now(), srcFd, dstFd)
      ensures Besides(k.names, dst) == Besides(old(k.names), dst)
      ensures ret == 0 ==> srcFd >= 0 && dstFd >= 0 && k.names == old(k.names)
      ensures CleanCopy(k, ret, flags, old(k.readErrors), sb.blockSize) ==>
                old(k.Now()).Apart(srcFd, dstFd) ==>
                  Copied(old(k.Now()), k.Now(), srcFd, old(k.Now()).fds[srcFd], old(k.Now()).fds[dstFd], sb.size)
      ensures srcFd >= 0 && dstFd >= 0 && k.faults == old(k.faults) ==>
                (flags.data && old(k.Now()).Readable(srcFd) ==> Copyable(old(k.Now()), srcFd, dstFd)) ==>
                  ret == 0 && (old(k.Now()).Readable(srcFd) ==> k.readErrors == old(k.readErrors))
    {
      StartCopy(k.Now(), srcFd, dstFd);
      ProgressIsPart(k.Now(), k.Now(), srcFd, dstFd, 0);
      if dstFd < 0 || srcFd < 0 {
        return -1;
      }
      ret := 0;
      if flags.data {
        ret := CopyData(k, srcFd, dstFd, sb);
        if ret < 0 && dst.Some? {
          var _, _ := k.Remove(dst.value);
        }
      }
    }

    /** copyfile_internal seen from before the files were opened. */
    method CopyJoined(k: System, ghost was: World) returns (ret: int)
      requires k.Valid() && Owns(k) && srcFd >= 0 && dstFd >= 0 && Joined(was, k.Now())
      modifies k
      ensures k.lostNames == old(k.lostNames) && k.log == old(k.log) && old(k.keptNames) <= k.keptNames
      ensures !flags.data ==> k.Now() == old(k.Now()) && k.readErrors == old(k.readErrors)
      ensures ret == -1 && dst.Some? && k.keptNames == old(k.keptNames) ==> dst.value !in k.names
      ensures dstFd in k.fds && k.fds[dstFd].node in k.nodes
      ensures k.nodes[k.fds[dstFd].node].Directory? <==> old(k.nodes[k.fds[dstFd].node].Directory?)
      ensures k.Valid() && Owns(k) && k.fds.Keys == old(k.fds.Keys)
      ensures (ret == 0 || ret == -1) && Counts(k, ret, old(k.faults), old(k.readErrors))
      ensures k.fds[srcFd].node == old(k.fds[srcFd].node) && k.fds[dstFd].node == old(k.fds[dstFd].node)
      ensures OthersKept(was, k.Now(), {}, srcFd, dstFd)
      ensures Besides(k.names, dst) == Besides(old(k.names), dst)
      ensures ret == 0 ==> k.names == old(k.names)
      ensures CleanCopy(k, ret, flags, old(k.readErrors), sb.blockSize) ==>
                LeavesCopy(was, k.Now(), srcFd, dstFd, sb.size)
      ensures k.faults == old(k.faults) ==>
                (flags.data && old(k.Now()).Readable(srcFd) ==> Copyable(old(k.Now()), srcFd, dstFd)) ==>
                  ret == 0 && (old(k.Now()).Readable(srcFd) ==> k.readErrors == old(k.readErrors))
    {
      ghost var mid := k.Now();
      ret := Internal(k);
      JoinedKept(was, mid, k.Now(), srcFd, dstFd);
      if CleanCopy(k, ret, flags, old(k.readErrors), sb.blockSize) {
        JoinedCopy(was, mid, k.Now(), srcFd, dstFd, sb.size);
      }
    }

    /** Lines 213-214 of copyfile: the names that are given; out of memory, a name is lost. */
    method SetNames(k: System, from: Option<Path>, to: Option<Path>) returns (ok: bool)
      requires k.Valid() && Owns(k)
      modifies this`src, this`dst, this`srcFd, this`dstFd, k`fds, k`log, k`faults, k`lostNames
      ensures k.Valid() && Owns(k) && k.fds.Keys - Held() == old(k.fds.Keys - Held()) && old(k.log) <= k.log
      ensures Dropped(old(k.Now()), k.Now(), old(Held()))
      ensures srcFd == Kept(old(src), from, old(srcFd))
      ensures dstFd == Kept(old(dst), to, old(dstFd)) || (!ok && dstFd == old(dstFd))
      ensures ok ==>
                && src == Given(old(src), from) && dst == Given(old(dst), to)
                && dstFd == Kept(old(dst), to, old(dstFd))
      ensures !ok && to.None? ==> src.None? && dst == old(dst)
      ensures ok && old(Named()) ==> Named()
      ensures ok && old(Ready(k, Given(src, from), Kept(src, from, srcFd),
                              Given(dst, to), Kept(dst, to, dstFd), flags)) ==>
                Ready(k, src, srcFd, dst, dstFd, flags)
      ensures k.lostNames == old(k.lostNames) + if ok then 0 else 1
      ensures old(k.faults) <= k.faults && (ok || old(k.faults) < k.faults)
    {
      ok := true;
      if from.Some? {
        ok := SetSource(k, from.value);
      }
      if ok && to.Some? {
        ok := SetDestination(k, to.value);
      }
    }

    /**
     Lines 218-221 of copyfile. Whatever the state was left with by earlier calls, a copy without
     a read error leaves the destination as the positions of the descriptors say.
     */
    method OpenAndCopy(k: System) returns (ret: int)
      requires k.Valid() && Owns(k)
      modifies this`srcFd, this`dstFd, this`sb, k
      ensures k.Valid() && Owns(k) && k.fds.Keys - Held() == old(k.fds.Keys - Held()) && old(k.log) <= k.log
      ensures k.lostNames == old(k.lostNames) && old(k.keptNames) <= k.keptNames
      ensures !flags.data ==> OnlyJoined(old(k.Now()), k.Now(), srcFd, dstFd)
      ensures ret == -1 && k.keptNames == old(k.keptNames) ==> Intact(old(k.nodes), k.nodes, k.names, dst)
      ensures (ret == 0 || ret == -1) && (ret == 0 ==> srcFd >= 0 && dstFd >= 0)
      ensures old(Named()) ==> Named()
      ensures OthersKept(old(k.Now()), k.Now(), {}, srcFd, dstFd)
      ensures Besides(k.names, dst) == Besides(old(k.names), dst)
      ensures old(srcFd) != -2 ==> srcFd == old(srcFd) && sb == old(sb)
      ensures old(dstFd) != -2 ==> dstFd == old(dstFd)
      ensures Resolved(old(k.names), old(k.Now()), k.Now(), src, srcFd, dst, dstFd,
                       sb, k.blockSize, flags)
      ensures ret == 0 && old(dstFd) == -2 ==>
                dst.Some? && dst.value in k.names && k.names[dst.value] == k.fds[dstFd].node
      ensures srcFd >= 0 && old(srcFd) == -2 ==> Opened(srcFd) in k.log && Opened(srcFd) !in old(k.log)
      ensures dstFd >= 0 && old(dstFd) == -2 ==> Opened(dstFd) !in old(k.log)
      ensures CleanCopy(k, ret, flags, old(k.readErrors), sb.blockSize) ==>
                LeavesCopy(old(k.Now()), k.Now(), srcFd, dstFd, sb.size)
      ensures Counts(k, ret, old(k.faults), old(k.readErrors))
      ensures old(Ready(k, src, srcFd, dst, dstFd, flags)) && k.faults == old(k.faults) ==>
                && ret == 0
                && (k.readErrors == old(k.readErrors) || OpensDirectory(old(k.names), old(k.nodes), src, old(srcFd)))
      ensures Settled(IsFile(old(k.names), old(k.nodes), src) && k.faults == old(k.faults), src, srcFd, old(sb), sb,
                      dst, old(srcFd), dstFd, flags.unlink && old(k.faults) < k.faults)
    {
      ret := OpenFiles(k);
      NewAreJoined(old(k.Now()), k.Now(), srcFd, dstFd, old(Held()), Held());
      if ret == 0 {
        ret := CopyJoined(k, old(k.Now()));
      } else {
        assert OthersKept(old(k.Now()), k.Now(), {}, srcFd, dstFd);
      }
    }

    /** Lines 213-221 of copyfile, once the state is there. */
    method CopyWith(k: System, from: Option<Path>, to: Option<Path>) returns (ok: bool, ret: int)
      requires k.Valid() && Owns(k)
      modifies this`src, this`dst, this`srcFd, this`dstFd, this`sb, k
      ensures k.Valid() && Owns(k) && k.fds.Keys - Held() == old(k.fds.Keys - Held()) && old(k.log) <= k.log
      ensures (ret == 0 || ret == -1) && (ret == 0 ==> ok && srcFd >= 0 && dstFd >= 0)
      ensures k.lostNames == old(k.lostNames) + (if ok then 0 else 1) && old(k.keptNames) <= k.keptNames
      ensures !flags.data ==> Untouched(old(k.Now()), k.Now())
      ensures ret == -1 && k.keptNames == old(k.keptNames) ==> Intact(old(k.nodes), k.nodes, k.names, dst)
      ensures ok ==> src == Given(old(src), from) && dst == Given(old(dst), to)
      ensures !ok && to.None? ==> src.None? && dst == old(dst)
      ensures ok && old(Named()) ==> Named()
      ensures Kept(old(src), from, old(srcFd)) != -2 ==>
                srcFd == Kept(old(src), from, old(srcFd)) && sb == old(sb)
      ensures ok && Kept(old(dst), to, old(dstFd)) != -2 ==> dstFd == Kept(old(dst), to, old(dstFd))
      ensures !ok ==> srcFd == Kept(old(src), from, old(srcFd)) && k.names == old(k.names) && k.nodes == old(k.nodes)
      ensures !ok ==> dstFd == old(dstFd) || dstFd == Kept(old(dst), to, old(dstFd))
      ensures OthersKept(old(k.Now()), k.Now(), old(Held()), srcFd, dstFd)
      ensures Besides(k.names, dst) == Besides(old(k.names), dst)
      ensures Resolved(old(k.names), old(k.Now()), k.Now(), src, srcFd, dst, dstFd,
                       sb, k.blockSize, flags)
      ensures ret == 0 && Kept(old(dst), to, old(dstFd)) == -2 ==>
                dstFd !in old(k.fds) && dst.Some? && dst.value in k.names && k.names[dst.value] == k.fds[dstFd].node
      ensures ret == 0 && Kept(old(src), from, old(srcFd)) == -2 ==>
                Opened(srcFd) in k.log && Opened(srcFd) !in old(k.log)
      ensures CleanCopy(k, ret, flags, old(k.readErrors), sb.blockSize) ==>
                LeavesCopy(old(k.Now()), k.Now(), srcFd, dstFd, sb.size)
      ensures Counts(k, ret, old(k.faults), old(k.readErrors))
      ensures old(Ready(k, Given(src, from), Kept(src, from, srcFd), Given(dst, to), Kept(dst, to, dstFd), flags)) ==>
                k.faults == old(k.faults) ==>
                  && ret == 0
                  && (|| k.readErrors == old(k.readErrors)
                      || OpensDirectory(old(k.names), old(k.nodes), Given(old(src), from),
                                        Kept(old(src), from, old(srcFd))))
      ensures ok ==> Settled(IsFile(old(k.names), old(k.nodes), src) && k.faults == old(k.faults),
                             src, srcFd, old(sb), sb, dst, Kept(old(src), from, old(srcFd)), dstFd,
                             flags.unlink && old(k.faults) < k.faults)
      ensures ok || old(k.faults) < k.faults
    {
      ret := -1;
      ok := SetNames(k, from, to);
      ghost var mid, log := k.Now(), k.log;
      if ok {
        ret := OpenAndCopy(k);
      }
      DroppedKept(old(k.Now()), mid, k.Now(), old(Held()), old(k.log), log,
                  old(k.names), src, srcFd, dst, dstFd, sb, k.blockSize, flags);
    }

    /** The same for a new state: from a regular source, the destination name gets what the source holds. */
    method CopyFresh(k: System, from: Option<Path>, to: Option<Path>) returns (ok: bool, ret: int)
      requires k.Valid() && src == dst == None && srcFd == dstFd == -2
      modifies this`src, this`dst, this`srcFd, this`dstFd, this`sb, k
      ensures k.Valid() && Owns(k) && k.fds.Keys - Held() == old(k.fds.Keys) && old(k.log) <= k.log
      ensures (ret == 0 || ret == -1) && (ret == 0 ==> ok)
      ensures if ok then Named() else Held() == {}
      ensures Besides(k.names, to) == Besides(old(k.names), to)
      ensures forall d :: d in old(k.fds) && d !in Held() ==> k.fds[d] == old(k.fds)[d]
      ensures forall n :: n in old(k.nodes) && (Fresh(flags) || !flags.data || !Leads(old(k.names), to, n)) ==>
                          n in k.nodes && k.nodes[n] == old(k.nodes)[n]
      ensures ret == 0 && Fresh(flags) ==> to.Some? && to.value in k.names && k.names[to.value] !in old(k.nodes)
      ensures !flags.data ==> Grew(old(k.nodes), k.nodes)
      ensures ret == 0 ==> MadeAlike(old(k.names), old(k.nodes), k.names, k.nodes, from, to)
      ensures old(k.keptNames) <= k.keptNames
      ensures ret == -1 && k.keptNames == old(k.keptNames) ==> Intact(old(k.nodes), k.nodes, k.names, to)
      ensures CleanCopy(k, ret, flags, old(k.readErrors), k.blockSize) ==>
                IsFile(old(k.names), old(k.nodes), from) ==>
                  to.Some? && NodeOf(k.names, k.nodes, to) == NodeOf(old(k.names), old(k.nodes), from)
      ensures Counts(k, ret, old(k.faults), old(k.readErrors)) && old(k.lostNames) <= k.lostNames
      ensures old(k.lostNames) < k.lostNames ==> old(k.faults) < k.faults
      ensures old(Ready(k, from, -2, to, -2, flags)) && k.faults == old(k.faults) ==> ret == 0
    {
      ok, ret := CopyWith(k, from, to);
      if CleanCopy(k, ret, flags, old(k.readErrors), k.blockSize) &&
         IsFile(old(k.names), old(k.nodes), from) {
        FreshCopy(old(k.Now()), k.Now(), srcFd, dstFd, sb.size);
      }
    }

    /** Lines 224-225: what the call opened is closed again. */
    method Release(k: System, named: bool, ghost was: map<nat, Descriptor>)
      requires k.Valid() && Owns(k) && if named then Named() else Held() == {}
      requires k.fds.Keys - Held() == was.Keys && forall d :: d in was && d !in Held() ==> k.fds[d] == was[d]
      modifies k`fds, k`log, k`faults
      ensures k.Valid() && old(k.log) <= k.log && old(k.faults) <= k.faults && k.fds == was
    {
      if named {
        var _ := Free(k);
      }
      assert k.fds == old(k.fds) - Held();
      AllGivenBack(was, old(k.fds), Held());
    }

    /** Lines 122-126 of fcopyfile: take over the source's descriptor if there is none, and measure it. */
    method AdoptSource(k: System, from: nat)
      requires k.Valid()
      modifies this`srcFd, this`sb, k`faults
      ensures srcFd == Adopted(old(srcFd), from)
      ensures sb == old(sb) || Measured(k.Now(), srcFd, sb, k.blockSize)
      ensures old(k.faults) <= k.faults
      ensures 0 <= srcFd && srcFd in k.fds && k.faults == old(k.faults) ==> Measured(k.Now(), srcFd, sb, k.blockSize)
    {
      if srcFd == -2 {
        srcFd := from;
      }
      var st := k.StatFd(srcFd);
      if st.Some? {
        sb := st.value;
      }
    }

    /**
     Lines 122-152 of fcopyfile: descriptors the state does not have are taken from the caller. A
     source that is of no kind that is copied ends the call before the state is released.
     */
    method CopyBetween(k: System, from: nat, to: nat) returns (supported: bool, ret: int)
      requires k.Valid()
      modifies this`srcFd, this`dstFd, this`sb, k
      ensures k.lostNames == old(k.lostNames) && k.log == old(k.log) && old(k.keptNames) <= k.keptNames
      ensures !flags.data ==> k.Now() == old(k.Now()) && k.names == old(k.names)
      ensures ret == -1 && supported && srcFd >= 0 && dstFd >= 0 && dst.Some? && k.keptNames == old(k.keptNames) ==>
                dst.value !in k.names
      ensures k.Valid() && (ret == 0 || ret == -1) && (ret == 0 ==> supported)
      ensures dstFd == if supported then Adopted(old(dstFd), to) else old(dstFd)
      ensures Besides(k.names, dst) == Besides(old(k.names), dst)
      ensures srcFd == Adopted(old(srcFd), from)
      ensures SameBut(old(k.Now()), k.Now(), Adopted(old(srcFd), from), Adopted(old(dstFd), to))
      ensures ret == -1 ==> PartLaid(old(k.Now()), k.Now(), Adopted(old(srcFd), from), Adopted(old(dstFd), to))
      ensures sb == old(sb) || Measured(old(k.Now()), srcFd, sb, k.blockSize)
      ensures ret == 0 && old(sb.node.Special?) ==> Measured(old(k.Now()), srcFd, sb, k.blockSize)
      ensures CleanCopy(k, ret, flags, old(k.readErrors), sb.blockSize) ==>
                CopiesBetween(old(k.Now()), k.Now(), Adopted(old(srcFd), from), Adopted(old(dstFd), to), sb.size)
      ensures Counts(k, ret, old(k.faults), old(k.readErrors))
      ensures Passable(old(k.Now()), Adopted(old(srcFd), from), Adopted(old(dstFd), to)) ==>
                k.faults == old(k.faults) ==>
                  ret == 0 && k.readErrors == old(k.readErrors) && Measured(old(k.Now()), srcFd, sb, k.blockSize)
    {
      StartCopy(k.Now(), Adopted(srcFd, from), Adopted(dstFd, to));
      ProgressIsPart(k.Now(), k.Now(), Adopted(srcFd, from), Adopted(dstFd, to), 0);
      ret := -1;
      AdoptSource(k, from);
      supported := !sb.node.Special?;
      if supported {
        if dstFd == -2 {
          dstFd := to;
        }
        ret := Internal(k);
      }
    }

    /** Lines 154-155: the release of a state that has descriptors but no names closes nothing. */
    method ReleaseNameless(k: System, supported: bool)
      requires k.Valid() && src == dst == None
      modifies k
      ensures k.Valid() && k.Now() == old(k.Now()) && k.log == old(k.log) && k.names == old(k.names)
      ensures k.faults == old(k.faults) && k.readErrors == old(k.readErrors) && k.lostNames == old(k.lostNames)
    {
      if supported {
        var _ := Free(k);
      }
    }
  }

  /** copyfile without a state: one is made for the call, and no descriptor is left over. */
  method CopyAlone(k: System, from: Option<Path>, to: Option<Path>, flags: Flags) returns (ret: int)
    requires k.Valid()
    modifies k
    ensures k.Valid() && old(k.log) <= k.log && k.fds == old(k.fds) && (ret == 0 || ret == -1)
    ensures Besides(k.names, to) == Besides(old(k.names), to)
    ensures CleanCopy(k, ret, flags, old(k.readErrors), k.blockSize) ==>
              IsFile(old(k.names), old(k.nodes), from) ==>
                to.Some? && NodeOf(k.names, k.nodes, to) == NodeOf(old(k.names), old(k.nodes), from)
    ensures forall n :: n in old(k.nodes) && (Fresh(flags) || !flags.data || !Leads(old(k.names), to, n)) ==>
                          n in k.nodes && k.nodes[n] == old(k.nodes)[n]
    ensures ret == 0 && Fresh(flags) ==> to.Some? && to.value in k.names && k.names[to.value] !in old(k.nodes)
    ensures !flags.data ==> Grew(old(k.nodes), k.nodes)
    ensures ret == 0 ==> MadeAlike(old(k.names), old(k.nodes), k.names, k.nodes, from, to)
    ensures old(k.keptNames) <= k.keptNames
    ensures ret == -1 && k.keptNames == old(k.keptNames) ==> Intact(old(k.nodes), k.nodes, k.names, to)
    ensures Counts(k, ret, old(k.faults), old(k.readErrors))
    ensures old(k.lostNames) <= k.lostNames && (old(k.lostNames) < k.lostNames ==> old(k.faults) < k.faults)
    ensures old(Ready(k, from, -2, to, -2, flags)) && k.faults == old(k.faults) ==> ret == 0
  {
    ret := -1;
    var noMemory := k.Fails();
    if !noMemory {
      var s := new State(flags);
      var ok;
      ok, ret := s.CopyFresh(k, from, to);
      s.Release(k, ok, old(k.fds));
    }
  }

  /**
   copyfile. Descriptors of others are left alone, and those of a state passed in stay its own
   and, unless memory ran out for a name, named. A copy that returns 0 without a read error
   leaves the destination as the state's descriptors stood; between freshly opened files that
   is the source. Without a state all descriptors are closed again. A state on which an open
   once failed never copies again, whatever names it is given.
   */
  method CopyNamed(k: System, from: Option<Path>, to: Option<Path>, state: State?, flags: Flags) returns (ret: int)
    requires k.Valid() && (state != null ==> state.Owns(k))
    modifies k, state
    ensures k.Valid() && old(k.log) <= k.log && (ret == 0 || ret == -1)
    ensures Counts(k, ret, old(k.faults), old(k.readErrors)) && old(k.lostNames) <= k.lostNames
    ensures old(k.lostNames) < k.lostNames ==> old(k.faults) < k.faults
    ensures old(k.keptNames) <= k.keptNames
    // without COPYFILE_DATA, or when it fails
    ensures !flags.data ==> Untouched(old(k.Now()), k.Now())
    ensures ret == -1 && k.keptNames == old(k.keptNames) ==>
              Intact(old(k.nodes), k.nodes, k.names, if state == null then to else state.dst)
    // without a state
    ensures state == null ==> k.fds == old(k.fds) && Besides(k.names, to) == Besides(old(k.names), to)
    ensures state == null && CleanCopy(k, ret, flags, old(k.readErrors), k.blockSize) ==>
              IsFile(old(k.names), old(k.nodes), from) ==>
                to.Some? && NodeOf(k.names, k.nodes, to) == NodeOf(old(k.names), old(k.nodes), from)
    ensures state == null ==>
              forall n :: n in old(k.nodes) && (Fresh(flags) || !flags.data || !Leads(old(k.names), to, n)) ==>
                            n in k.nodes && k.nodes[n] == old(k.nodes)[n]
    ensures state == null && ret == 0 && Fresh(flags) ==>
              to.Some? && to.value in k.names && k.names[to.value] !in old(k.nodes)
    ensures state == null && ret == 0 ==> MadeAlike(old(k.names), old(k.nodes), k.names, k.nodes, from, to)
    ensures state == null && old(Ready(k, from, -2, to, -2, flags)) && k.faults == old(k.faults) ==> ret == 0
    // with a state
    ensures state != null ==>
              && state.Owns(k) && k.fds.Keys - state.Held() == old(k.fds.Keys - state.Held())
              && OthersKept(old(k.Now()), k.Now(), old(state.Held()), state.srcFd, state.dstFd)
              && Besides(k.names, state.dst) == Besides(old(k.names), state.dst)
    ensures state != null && k.lostNames == old(k.lostNames) && old(state.Named()) ==> state.Named()
    ensures state != null && k.lostNames != old(k.lostNames) && to.None? ==>
              ret == -1 && state.src.None? && state.dst == old(state.dst)
    ensures state != null && ret == 0 ==>
              state.srcFd >= 0 && state.dstFd >= 0 && k.lostNames == old(k.lostNames)
    ensures state != null && k.lostNames == old(k.lostNames) ==>
              state.src == Given(old(state.src), from) && state.dst == Given(old(state.dst), to)
    ensures state != null && ret == 0 && Kept(old(state.dst), to, old(state.dstFd)) == -2 ==>
              && state.dstFd !in old(k.fds)
              && state.dst.Some? && state.dst.value in k.names && k.names[state.dst.value] == k.fds[state.dstFd].node
    ensures state != null && (from.Some? || to.Some?) && Kept(old(state.src), from, old(state.srcFd)) != -2 ==>
              state.srcFd == Kept(old(state.src), from, old(state.srcFd)) && state.sb == old(state.sb)
    ensures state != null && (k.lostNames == old(k.lostNames) || to.None?) && (from.Some? || to.Some?) ==>
              Kept(old(state.dst), to, old(state.dstFd)) != -2 ==>
                state.dstFd == Kept(old(state.dst), to, old(state.dstFd))
    ensures state != null && ret == 0 && Kept(old(state.src), from, old(state.srcFd)) == -2 ==>
              Opened(state.srcFd) in k.log && Opened(state.srcFd) !in old(k.log)
    // a descriptor that an open was tried for is open, or -1 from then on
    ensures state != null && k.lostNames == old(k.lostNames) && (from.Some? || to.Some?) ==>
              Settled(IsFile(old(k.names), old(k.nodes), state.src) && k.faults == old(k.faults),
                      state.src, state.srcFd, old(state.sb), state.sb,
                      state.dst, Kept(old(state.src), from, old(state.srcFd)), state.dstFd,
                      flags.unlink && old(k.faults) < k.faults)
    ensures state != null && (old(state.srcFd) == -1 || old(state.dstFd) == -1) ==>
              ret == -1 && (state.srcFd == -1 || state.dstFd == -1)
    ensures state != null ==>
              Resolved(old(k.names), old(k.Now()), k.Now(), state.src, state.srcFd, state.dst, state.dstFd,
                       state.sb, k.blockSize, flags)
    ensures state != null && CleanCopy(k, ret, flags, old(k.readErrors), state.sb.blockSize) ==>
              LeavesCopy(old(k.Now()), k.Now(), state.srcFd, state.dstFd, state.sb.size)
    ensures state != null && (from.Some? || to.Some?) && k.faults == old(k.faults) ==>
              old(Ready(k, Given(state.src, from), Kept(state.src, from, state.srcFd),
                        Given(state.dst, to), Kept(state.dst, to, state.dstFd), flags)) ==>
                && ret == 0
                && (|| k.readErrors == old(k.readErrors)
                    || OpensDirectory(old(k.names), old(k.nodes), Given(old(state.src), from),
                                      Kept(old(state.src), from, old(state.srcFd))))
  {
    ret := -1;
    if from.Some? || to.Some? {
      if state == null {
        ret := CopyAlone(k, from, to, flags);
      } else {
        state.flags := flags;
        var ok;
        ok, ret := state.CopyWith(k, from, to);
      }
    }
  }

  /**
   fcopyfile without a state: one is made for the call and released (lines 154-155). It has no
   names, so the release closes neither of the caller's descriptors.
   */
  method CopyOpenAlone(k: System, srcFd: nat, dstFd: nat, flags: Flags) returns (ret: int)
    requires k.Valid()
    modifies k
    ensures k.Valid() && k.fds.Keys == old(k.fds.Keys) && k.log == old(k.log) && k.lostNames == old(k.lostNames)
    ensures k.names == old(k.names) && (!flags.data ==> k.Now() == old(k.Now()))
    ensures (ret == 0 || ret == -1) && Counts(k, ret, old(k.faults), old(k.readErrors))
    ensures SameBut(old(k.Now()), k.Now(), srcFd, dstFd)
    ensures ret == -1 ==> PartLaid(old(k.Now()), k.Now(), srcFd, dstFd)
    ensures CleanCopy(k, ret, flags, old(k.readErrors), k.blockSize) ==>
              && srcFd in old(k.fds)
              && CopiesBetween(old(k.Now()), k.Now(), srcFd, dstFd, |old(k.Data(k.fds[srcFd].node))|)
    ensures Passable(old(k.Now()), srcFd, dstFd) && k.faults == old(k.faults) ==> ret == 0
  {
    StartCopy(k.Now(), srcFd, dstFd);
    ProgressIsPart(k.Now(), k.Now(), srcFd, dstFd, 0);
    ret := -1;
    var noMemory := k.Fails();
    if !noMemory {
      var s := new State(flags);
      var supported;
      supported, ret := s.CopyBetween(k, srcFd, dstFd);
      s.ReleaseNameless(k, supported);
    }
  }

  /**
   fcopyfile. It opens and closes nothing, whichever state it is given. A copy without a read
   error leaves the destination as the positions of the two descriptors say. A state takes over
   the descriptors it did not have; once it also has names, its release closes them.
   */
  method CopyOpen(k: System, srcFd: int, dstFd: int, state: State?, flags: Flags) returns (ret: int)
    requires k.Valid()
    modifies k, state
    ensures k.Valid() && k.fds.Keys == old(k.fds.Keys) && k.log == old(k.log) && (ret == 0 || ret == -1)
    ensures k.lostNames == old(k.lostNames)
    ensures Counts(k, ret, old(k.faults), old(k.readErrors))
    ensures srcFd < 0 || dstFd < 0 ==> ret == -1 && k.Now() == old(k.Now())
    ensures !flags.data ==> k.Now() == old(k.Now()) && k.names == old(k.names)
    // without a state
    ensures state == null ==> SameBut(old(k.Now()), k.Now(), srcFd, dstFd) && k.names == old(k.names)
    ensures state == null && ret == -1 ==> PartLaid(old(k.Now()), k.Now(), srcFd, dstFd)
    ensures state == null && CleanCopy(k, ret, flags, old(k.readErrors), k.blockSize) ==>
              && 0 <= srcFd && srcFd in old(k.fds)
              && CopiesBetween(old(k.Now()), k.Now(), srcFd, dstFd, |old(k.Data(k.fds[srcFd].node))|)
    ensures state == null && Passable(old(k.Now()), srcFd, dstFd) && k.faults == old(k.faults) ==> ret == 0
    // with a state
    ensures state != null ==> state.src == old(state.src) && state.dst == old(state.dst)
    ensures state != null && srcFd >= 0 && dstFd >= 0 ==>
              && state.srcFd == Adopted(old(state.srcFd), srcFd)
              && (state.dstFd == Adopted(old(state.dstFd), dstFd) || (ret == -1 && state.dstFd == old(state.dstFd)))
    ensures state != null ==>
              SameBut(old(k.Now()), k.Now(), Adopted(old(state.srcFd), srcFd), Adopted(old(state.dstFd), dstFd))
    ensures state != null && ret == -1 ==>
              PartLaid(old(k.Now()), k.Now(), Adopted(old(state.srcFd), srcFd), Adopted(old(state.dstFd), dstFd))
    ensures state != null && CleanCopy(k, ret, flags, old(k.readErrors), state.sb.blockSize) ==>
              CopiesBetween(old(k.Now()), k.Now(), Adopted(old(state.srcFd), srcFd),
                            Adopted(old(state.dstFd), dstFd), state.sb.size)
    ensures state != null && srcFd >= 0 && dstFd >= 0 && k.faults == old(k.faults) ==>
              Passable(old(k.Now()), Adopted(old(state.srcFd), srcFd), Adopted(old(state.dstFd), dstFd)) ==>
                ret == 0 && Measured(old(k.Now()), state.srcFd, state.sb, k.blockSize)
  {
    ret := -1;
    if srcFd < 0 || dstFd < 0 {
      StartCopy(k.Now(), srcFd, dstFd);
      ProgressIsPart(k.Now(), k.Now(), srcFd, dstFd, 0);
      if state != null {
        StartCopy(k.Now(), Adopted(state.srcFd, srcFd), Adopted(state.dstFd, dstFd));
        ProgressIsPart(k.Now(), k.Now(), Adopted(state.srcFd, srcFd), Adopted(state.dstFd, dstFd), 0);
      }
    } else if state == null {
      ret := CopyOpenAlone(k, srcFd, dstFd, flags);
    } else {
      state.flags := flags;
      var supported;
      supported, ret := state.CopyBetween(k, srcFd, dstFd);
    }
  }

  datatype Call = Call(from: Option<Path>, to: Option<Path>, flags: Flags)

  /** The names given last. */
  function LastFrom(calls: seq<Call>): Option<Path> {
    if calls == [] then None else Given(LastFrom(calls[..|calls| - 1]), calls[|calls| - 1].from)
  }

  function LastTo(calls: seq<Call>): Option<Path> {
    if calls == [] then None else Given(LastTo(calls[..|calls| - 1]), calls[|calls| - 1].to)
  }

  /** A first call that nothing stands in the way of. */
  ghost predicate Unopened(k: System, call: Call)
    reads k
  {
    Ready(k, call.from, -2, call.to, -2, call.flags)
  }

  /** One call in the life of a state, and what it means for the descriptors. */
  method OneCall(k: System, s: State, call: Call)
    requires k.Valid() && s.Owns(k)
    modifies k, s
    ensures k.Valid() && s.Owns(k) && old(k.log) <= k.log
    ensures old(k.faults) <= k.faults && old(k.lostNames) <= k.lostNames
    ensures k.fds.Keys - s.Held() == old(k.fds.Keys - s.Held())
    ensures forall fd :: fd in old(k.fds) && fd !in old(s.Held()) ==> fd in k.fds && k.fds[fd] == old(k.fds)[fd]
    ensures k.lostNames == old(k.lostNames) && old(s.Named()) ==> s.Named()
    ensures k.lostNames == old(k.lostNames) ==>
              s.src == Given(old(s.src), call.from) && s.dst == Given(old(s.dst), call.to)
    ensures old(s.srcFd == s.dstFd == -2 && s.src == s.dst == None && Unopened(k, call)) ==>
              k.faults == old(k.faults) ==>
                s.srcFd >= 0 && Opened(s.srcFd) in k.log && Opened(s.srcFd) !in old(k.log)
  {
    var ret := CopyNamed(k, call.from, call.to, s, call.flags);
  }

  /** What its names vouch for is closed; the rest of what the state held, and what others had, is left. */
  method FreeNamed(k: System, s: State, ghost fds: map<nat, Descriptor>)
    requires k.Valid() && s.Owns(k) && k.fds.Keys - s.Held() == fds.Keys
    requires forall fd :: fd in fds ==> k.fds[fd] == fds[fd]
    modifies k`fds, k`log, k`faults
    ensures k.Valid() && old(k.log) <= k.log && old(k.faults) <= k.faults
    ensures k.fds.Keys == fds.Keys + s.Unnamed() && s.Unnamed() !! fds.Keys
    ensures forall fd :: fd in fds ==> k.fds[fd] == fds[fd]
  {
    var _ := s.Free(k);
    assert s.srcFd >= 0 && s.src.None? ==> s.srcFd in k.fds;
    assert s.dstFd >= 0 && s.dst.None? ==> s.dstFd in k.fds;
  }

  /** The end of a state: what its names vouch for is closed, and what it held besides stays open. */
  method EndOfLife(k: System, s: State, ghost log: seq<Event>, ghost fds: map<nat, Descriptor>)
    requires k.Valid() && s.Owns(k) && k.fds.Keys - s.Held() == fds.Keys
    requires forall fd :: fd in fds ==> k.fds[fd] == fds[fd]
    requires Proper(log) && Table(log) == fds.Keys && log <= k.log
    modifies k`fds, k`log, k`faults
    ensures k.Valid() && old(k.log) <= k.log && old(k.faults) <= k.faults
    ensures k.fds.Keys == fds.Keys + s.Unnamed() && s.Unnamed() !! fds.Keys
    ensures k.fds.Keys == fds.Keys <==> s.Named()
    ensures forall fd :: fd in fds ==> k.fds[fd] == fds[fd] && Closings(k.log, fd) == 0
    ensures forall fd :: Opened(fd) in k.log && Opened(fd) !in log ==>
                           Closings(k.log, fd) == if fd in s.Unnamed() then 0 else 1
  {
    FreeNamed(k, s, fds);
    LogAccounts(log, k.log, fds.Keys, k.fds.Keys);
  }

  /**
   A whole life of one state: allocated, used for any calls of copyfile in any order, freed.
   Every descriptor opened on the way was closed exactly once, but for those whose name was
   lost and not given again; those were never closed. Nobody else's ever was. The state ends with
   the names given last, and a first call that nothing stands in the way of does open files.
   */
  method Lifetime(k: System, calls: seq<Call>) returns (s: State)
    requires k.Valid()
    modifies k
    ensures k.Valid() && fresh(s) && old(k.log) <= k.log
    ensures k.fds.Keys == old(k.fds.Keys) + s.Unnamed() && s.Unnamed() !! old(k.fds.Keys)
    ensures k.fds.Keys == old(k.fds.Keys) <==> s.Named()
    ensures k.lostNames == old(k.lostNames) ==> s.Named() && s.src == LastFrom(calls) && s.dst == LastTo(calls)
    ensures forall fd :: fd in old(k.fds) ==> k.fds[fd] == old(k.fds)[fd] && Closings(k.log, fd) == 0
    ensures forall fd :: Opened(fd) in k.log && Opened(fd) !in old(k.log) ==>
                           Closings(k.log, fd) == if fd in s.Unnamed() then 0 else 1
    ensures calls != [] && old(Unopened(k, calls[0])) && k.faults == old(k.faults) ==>
              exists fd :: Opened(fd) in k.log && Opened(fd) !in old(k.log)
  {
    s := new State(Flags(false, false, false));
    assert k.fds.Keys - s.Held() == k.fds.Keys;
    ghost var first: nat := 0;
    for i := 0 to |calls|
      invariant k.Valid() && fresh(s) && s.Owns(k) && old(k.log) <= k.log
      invariant old(k.faults) <= k.faults && old(k.lostNames) <= k.lostNames
      invariant k.fds.Keys - s.Held() == old(k.fds.Keys)
      invariant forall fd :: fd in old(k.fds) ==> k.fds[fd] == old(k.fds)[fd]
      invariant k.lostNames == old(k.lostNames) ==>
                  s.Named() && s.src == LastFrom(calls[..i]) && s.dst == LastTo(calls[..i])
      invariant i == 0 ==> s.srcFd == s.dstFd == -2 && s.src == s.dst == None && unchanged(k)
      invariant i > 0 && k.faults == old(k.faults) && old(Unopened(k, calls[0])) ==>
                  Opened(first) in k.log && Opened(first) !in old(k.log)
    {
      assert calls[..i + 1][..i] == calls[..i];
      OneCall(k, s, calls[i]);
      first := if i == 0 && s.srcFd >= 0 then s.srcFd else first;
    }
    assert calls[..|calls|] == calls;
    EndOfLife(k, s, old(k.log), old(k.fds));
  }
}
