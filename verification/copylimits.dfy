/** Uses of one copy state that go wrong without any call failing, or after one that did. */
module CopyLimits {
  import opened Wrappers
  import opened Kernel
  import opened CopyLoop
  import opened CopyFile

  const DATA := Flags(true, false, false)

  /** The file behind a name holds nothing but zeros. */
  predicate Zeroed(names: Names, nodes: Nodes, path: Path, size: nat) {
    && IsFile(names, nodes, Some(path))
    && |nodes[names[path]].data| == size
    && forall i :: 0 <= i < size ==> nodes[names[path]].data[i] == 0
  }

  /** The state's source has been read to its end, and its destination is another name than c, which is free. */
  ghost predicate Spent(k: System, s: State, c: Path)
    requires s.Owns(k)
    reads k, s
  {
    && s.srcFd >= 0 && s.src.Some? && k.Now().Readable(s.srcFd)
    && |k.Data(k.fds[s.srcFd].node)| <= k.fds[s.srcFd].pos && s.sb.blockSize > 0
    && s.dstFd >= 0 && s.dst.Some? && s.dst.value != c && c !in k.names
  }

  /** Then a copy succeeds, but there is nothing left to read, and the new destination is only extended. */
  method CopyAgain(k: System, s: State, a: Option<Path>, c: Path) returns (ret: int)
    requires k.Valid() && s.Owns(k) && k.ioSize > 0
    modifies k, s
    ensures old(k.faults) <= k.faults
    ensures old(Spent(k, s, c)) && a == old(s.src) && k.faults == old(k.faults) ==>
              ret == 0 && Zeroed(k.names, k.nodes, c, old(s.sb.size))
  {
    ghost var was := k.Now();
    ret := CopyNamed(k, a, Some(c), s, DATA);
    if old(Spent(k, s, c)) && a == old(s.src) && k.faults == old(k.faults) {
      var d, e := Began(was, k.Now(), s.srcFd), Began(was, k.Now(), s.dstFd);
      assert d == was.fds[s.srcFd] && was.Data(e.node) == [];
      CopyFromEnd(was, d, e, s.sb.size);
    }
  }

  /** Copying one source twice with one state does that: the second destination is a file of zeros. */
  method SecondCopyIsZeros(k: System, a: Path, b: Path, c: Path) returns (first: int, second: int)
    requires k.Valid() && k.ioSize > 0 && k.blockSize > 0
    requires IsFile(k.names, k.nodes, Some(a)) && b !in k.names && c !in k.names && b != c
    modifies k
    ensures k.faults == old(k.faults) ==>
              && first == 0 && second == 0
              && Zeroed(k.names, k.nodes, c, |old(k.nodes[k.names[a]].data)|)
  {
    var s := new State(DATA);
    first := CopyNamed(k, Some(a), Some(b), s, DATA);
    if k.faults == old(k.faults) {
      assert c !in Besides(k.names, s.dst);
      assert Spent(k, s, c) && s.sb.size == |old(k.nodes[k.names[a]].data)|;
    }
    second := CopyAgain(k, s, Some(a), c);
  }

  /**
   A state with a source is given the source's name once more and then freed. The source's
   descriptor outlives the state exactly when there is no memory for the name.
   */
  method NameAgain(k: System, s: State, ghost others: set<nat>)
    requires k.Valid() && s.Owns(k) && s.Named() && s.srcFd >= 0 && k.fds.Keys - s.Held() == others
    modifies k, s
    ensures k.Valid() && s.srcFd == old(s.srcFd)
    ensures s.srcFd in k.fds <==> k.lostNames != old(k.lostNames)
    ensures k.fds.Keys == others + (if s.srcFd in k.fds then {s.srcFd} else {})
  {
    var _ := CopyNamed(k, s.src, None, s, DATA);
    var _ := s.Free(k);
  }

  /** So one name lost after a copy that went well leaves a descriptor open for good. */
  method LostNameLeaks(k: System, a: Path, b: Path) returns (first: int, s: State)
    requires k.Valid()
    modifies k
    ensures k.Valid() && fresh(s)
    ensures first == 0 ==> s.srcFd >= 0 && s.srcFd !in old(k.fds)
    ensures first == 0 ==> (s.srcFd in k.fds <==> k.lostNames != old(k.lostNames))
    ensures first == 0 ==> k.fds.Keys == old(k.fds.Keys) + (if s.srcFd in k.fds then {s.srcFd} else {})
  {
    s := new State(DATA);
    assert k.fds.Keys - s.Held() == k.fds.Keys;
    first := CopyNamed(k, Some(a), Some(b), s, DATA);
    if first == 0 {
      NameAgain(k, s, old(k.fds.Keys));
    }
  }

  /**
   A directory is copied to a free name by making a directory there. With COPYFILE_DATA as well:
   reading it fails, and that counts as success.
   */
  method CopyDirectory(k: System, a: Path, b: Path, flags: Flags) returns (ret: int)
    requires k.Valid() && a in k.names && k.nodes[k.names[a]] == Directory && b !in k.names
    modifies k
    ensures k.Valid() && k.fds == old(k.fds)
    ensures k.faults == old(k.faults) ==>
              && ret == 0 && b in k.names && k.names[b] !in old(k.nodes)
              && k.names[b] in k.nodes && k.nodes[k.names[b]] == Directory
  {
    ret := CopyNamed(k, Some(a), Some(b), null, flags);
  }

  const EXCL := Flags(true, true, false)

  /**
   An open that failed once is final. A copy that COPYFILE_EXCL refuses leaves a state that then
   refuses to copy to a free name as well, although nothing ever failed.
   */
  method RefusedOnce(k: System, a: Path, b: Path, c: Path) returns (first: int, second: int)
    requires k.Valid() && IsFile(k.names, k.nodes, Some(a)) && b in k.names && c !in k.names
    modifies k
    ensures k.faults == old(k.faults) ==> first == -1 && second == -1
  {
    var s := new State(EXCL);
    first := CopyNamed(k, Some(a), Some(b), s, EXCL);
    second := CopyNamed(k, Some(a), Some(c), s, DATA);
  }

  /** Giving names to a state that has descriptors without names makes its release close them. */
  method NameAndFree(k: System, s: State, a: Path, b: Path)
    requires k.Valid() && s.Owns(k) && s.src == s.dst == None && s.srcFd >= 0
    modifies k, s
    ensures k.Valid() && old(k.faults) <= k.faults && old(k.lostNames) <= k.lostNames
    ensures k.lostNames == old(k.lostNames) ==> old(s.srcFd) !in k.fds
    ensures k.lostNames == old(k.lostNames) && old(s.dstFd) >= 0 ==> k.fds.Keys == old(k.fds.Keys - s.Held())
  {
    var _ := CopyNamed(k, Some(a), Some(b), s, DATA);
    ghost var held, keys := s.Held(), k.fds.Keys;
    var _ := s.Free(k);
    assert s.Named() ==> k.fds.Keys == keys - held;
  }

  /**
   A state keeps the descriptors that fcopyfile was given. Once copyfile has given it names too, its
   release closes them: the caller's own two descriptors are gone.
   */
  method AdoptedAreClosed(k: System, from: nat, to: nat, a: Path, b: Path) returns (first: int)
    requires k.Valid() && from in k.fds && to in k.fds && from != to
    modifies k
    ensures k.Valid() && (k.lostNames == old(k.lostNames) ==> from !in k.fds)
    ensures k.lostNames == old(k.lostNames) && first == 0 ==> k.fds.Keys == old(k.fds.Keys) - {from, to}
    ensures Passable(old(k.Now()), from, to) && k.faults == old(k.faults) ==> first == 0
  {
    var s := new State(DATA);
    first := CopyOpen(k, from, to, s, DATA);
    assert first == 0 ==> s.Held() == {from, to};
    NameAndFree(k, s, a, b);
  }
}
