/**
 copyfile_data: the read and write loops.
 Line numbers are those of copyfile.c.
 */
module CopyLoop {
  import opened Machine
  import opened Wrappers
  import opened Kernel

  /** What is left of a file from a position on. */
  function Rest(s: Bytes, pos: nat): Bytes {
    if pos <= |s| then s[pos..] else []
  }

  /** The effect of writing `chunk`, which may be empty, in one go. */
  predicate Put(was: World, now: World, fd: int, chunk: Bytes) {
    if chunk == [] then now == was else Wrote(was, now, fd, chunk)
  }

  /** Writing on from where the last write stopped is one longer write. */
  lemma PutMore(was: World, mid: World, now: World, fd: int, bp: Bytes, ptr: nat, n: nat)
    requires ptr + n <= |bp| && Put(was, mid, fd, bp[..ptr]) && Wrote(mid, now, fd, bp[ptr..ptr + n])
    ensures Put(was, now, fd, bp[..ptr + n])
  {
    var a, b := bp[..ptr], bp[ptr..ptr + n];
    assert a + b == bp[..ptr + n];
    if a != [] {
      OverwriteNext(was.Data(was.fds[fd].node), was.fds[fd].pos, a, b);
    }
  }

  /** One write of what is left of a block, from ptr on (lines 554-571). */
  method WriteSome(k: System, dstFd: int, bp: Bytes, ptr: nat, ghost was: World) returns (nwritten: int)
    requires k.Valid() && ptr < |bp| && Put(was, k.Now(), dstFd, bp[..ptr])
    modifies k`fds, k`nodes, k`patience, k`faults
    ensures k.Valid() && -1 <= nwritten <= |bp| - ptr
    ensures nwritten > 0 ==> Put(was, k.Now(), dstFd, bp[..ptr + nwritten])
    ensures if nwritten == 0 then k.patience < old(k.patience) else k.patience == old(k.patience)
    ensures nwritten > 0 ==> Position(k.Now(), dstFd) <= k.limit
    ensures nwritten <= 0 ==> k.Now() == old(k.Now())
    ensures old(k.faults) <= k.faults
    ensures old(k.Now()).Writable(dstFd) ==> k.Now().Writable(dstFd) && (nwritten == -1 ==> old(k.faults) < k.faults)
  {
    ghost var mid := k.Now();
    nwritten := k.Write(dstFd, bp, ptr);
    if nwritten > 0 {
      PutMore(was, mid, k.Now(), dstFd, bp, ptr, nwritten);
    }
  }

  /** The inner loop (lines 549-573): write a block out, however little each write takes. */
  method WriteBlock(k: System, dstFd: int, bp: Bytes) returns (ret: int, ghost taken: nat)
    requires k.Valid() && bp != []
    modifies k`fds, k`nodes, k`patience, k`faults
    ensures k.Valid() && (ret == 0 || ret == -1)
    ensures taken <= |bp| && Put(old(k.Now()), k.Now(), dstFd, bp[..taken]) && (ret == 0 <==> taken == |bp|)
    ensures ret == 0 ==> Position(old(k.Now()), dstFd) < Position(k.Now(), dstFd) <= k.limit
    ensures old(k.faults) <= k.faults && (ret == -1 && old(k.Now()).Writable(dstFd) ==> old(k.faults) < k.faults)
  {
    ghost var was := k.Now();
    var left, ptr := |bp|, 0;
    while left > 0
      invariant k.Valid() && 0 <= left && ptr + left == |bp|
      invariant Put(was, k.Now(), dstFd, bp[..ptr])
      invariant ptr > 0 ==> Position(k.Now(), dstFd) <= k.limit
      invariant old(k.faults) <= k.faults && (was.Writable(dstFd) ==> k.Now().Writable(dstFd))
      decreases left, k.patience
    {
      var loop := 0;
      var nwritten := WriteSome(k, dstFd, bp, ptr, was);
      if nwritten == 0 {
        loop := loop + 1;
        if loop > 5 {
          assert false;  // the counter starts again in every iteration, so the source never gives up here
        }
      } else if nwritten == -1 {
        return -1, ptr;
      } else {
        left := left - nwritten;
        ptr := ptr + nwritten;
      }
    }
    ret, taken := 0, ptr;
  }

  /** The node behind a descriptor. */
  function NodeAt(w: World, fd: int): Option<nat> {
    if 0 <= fd && fd in w.fds then Some(w.fds[fd].node) else None
  }

  function Position(w: World, fd: int): nat {
    if 0 <= fd && fd in w.fds then w.fds[fd].pos else 0
  }

  /** How far a descriptor can still move before its file is as large as files get. */
  function Room(w: World, fd: int, limit: nat): nat {
    Max(limit - Position(w, fd), 0)
  }

  /** A descriptor table with one descriptor moved. */
  function MovedTo(fds: map<nat, Descriptor>, fd: int, pos: nat): map<nat, Descriptor> {
    if 0 <= fd && fd in fds then fds[fd := fds[fd].(pos := pos)] else fds
  }

  /** Only the descriptors of the copy moved. */
  predicate SameTable(was: World, now: World, srcFd: int, dstFd: int) {
    now.fds == MovedTo(MovedTo(was.fds, srcFd, Position(now, srcFd)), dstFd, Position(now, dstFd))
  }

  /** Only the destination's node changed, if it is a file, and stayed one. */
  predicate SameNodes(was: World, now: World, dstFd: int) {
    var at := NodeAt(was, dstFd);
    if at.Some? && at.value in was.nodes && at.value in now.nodes then
      && now.nodes == was.nodes[at.value := now.nodes[at.value]]
      && (if was.nodes[at.value].File? then now.nodes[at.value].File? else now.nodes == was.nodes)
    else
      now.nodes == was.nodes
  }

  /** All that a copy from srcFd to dstFd leaves alone. */
  predicate SameBut(was: World, now: World, srcFd: int, dstFd: int) {
    SameTable(was, now, srcFd, dstFd) && SameNodes(was, now, dstFd)
  }

  lemma PutSame(was: World, now: World, srcFd: int, dstFd: int, chunk: Bytes)
    requires Put(was, now, dstFd, chunk)
    ensures SameBut(was, now, srcFd, dstFd)
  {
  }

  lemma SameOnwards(was: World, mid: World, now: World, srcFd: int, dstFd: int)
    requires SameBut(was, mid, srcFd, dstFd) && SameBut(mid, now, srcFd, dstFd)
    ensures SameBut(was, now, srcFd, dstFd)
  {
  }

  /** The bytes a copy has to move. */
  function Source(was: World, d: Descriptor): Bytes {
    Rest(was.Data(d.node), d.pos)
  }

  /** The destination has the first `done` bytes of the source laid over its own; the source keeps its contents. */
  predicate Laid(was: World, now: World, d: Descriptor, e: Descriptor, done: nat) {
    && done <= |Source(was, d)|
    && now.Data(d.node) == was.Data(d.node)
    && now.Data(e.node) == Overwrite(was.Data(e.node), e.pos, Source(was, d)[..done])
  }

  /** Since `was`, `done` bytes went from srcFd to dstFd. */
  predicate Moved(was: World, now: World, srcFd: nat, dstFd: nat, done: nat)
    requires was.Apart(srcFd, dstFd)
  {
    var d, e := was.fds[srcFd], was.fds[dstFd];
    && now.fds == was.fds[srcFd := d.(pos := d.pos + done)][dstFd := e.(pos := e.pos + done)]
    && Laid(was, now, d, e, done)
  }

  /** How far the copy is. Of descriptors that get in each other's way only what they leave alone is known. */
  predicate Progress(was: World, now: World, srcFd: int, dstFd: int, done: nat) {
    && SameBut(was, now, srcFd, dstFd)
    && (was.Apart(srcFd, dstFd) ==> Moved(was, now, srcFd, dstFd, done))
  }

  lemma OverwriteMore(o: Bytes, pos: nat, rest: Bytes, done: nat, mid: Bytes, chunk: Bytes, n: nat)
    requires n == done + |chunk| <= |rest| && chunk == rest[done..n] && mid == Overwrite(o, pos, rest[..done])
    ensures Overwrite(mid, pos + done, chunk) == Overwrite(o, pos, rest[..n])
  {
    OverwriteNext(o, pos, rest[..done], chunk);
    assert rest[..done] + chunk == rest[..n];
  }

  lemma SelfLaid(s: Bytes, pos: nat, n: nat)
    requires n <= |Rest(s, pos)| && n > 0
    ensures Overwrite(s, pos, Rest(s, pos)[..n]) == s
  {
    assert Rest(s, pos)[..n] == s[pos..pos + n];
    OverwriteSelf(s, pos, n);
  }

  /** One more chunk of the source on the destination, also when both are the same place of one file. */
  lemma LaidMore(was: World, mid: World, now: World, d: Descriptor, e: Descriptor, done: nat, chunk: Bytes)
    requires Laid(was, mid, d, e, done) && (d.node != e.node || d.pos == e.pos) && chunk != []
    requires done + |chunk| <= |Source(was, d)| && chunk == Source(was, d)[done..done + |chunk|]
    requires now.nodes == mid.nodes[e.node := File(Overwrite(mid.Data(e.node), e.pos + done, chunk))]
    ensures Laid(was, now, d, e, done + |chunk|)
  {
    var o, rest, n := was.Data(e.node), Source(was, d), done + |chunk|;
    var laid := Overwrite(mid.Data(e.node), e.pos + done, chunk);
    OverwriteMore(o, e.pos, rest, done, mid.Data(e.node), chunk, n);
    assert now.Data(e.node) == laid;
    if d.node == e.node {
      SelfLaid(o, d.pos, n);
    } else {
      assert now.Data(d.node) == mid.Data(d.node);
    }
  }

  lemma SliceTail(s: Bytes, a: nat, b: nat, n: nat)
    requires a + b + n <= |s|
    ensures Rest(s, a)[b..b + n] == s[a + b..a + b + n]
  {
  }

  /** The block that is read next continues the source. */
  lemma BlockRead(was: World, from: World, mid: World, srcFd: int, dstFd: int, done: nat, block: Bytes)
    requires was.Apart(srcFd, dstFd) && Moved(was, from, srcFd, dstFd, done) && TookIn(from, mid, srcFd, block)
    ensures var d, e := was.fds[srcFd], was.fds[dstFd];
            && mid.fds[dstFd] == e.(pos := e.pos + done) && mid.nodes == from.nodes
            && done + |block| <= |Source(was, d)| && block == Source(was, d)[done..done + |block|]
  {
    var d := was.fds[srcFd];
    assert from.fds[srcFd] == d.(pos := d.pos + done);
    SliceTail(was.Data(d.node), d.pos, done, |block|);
  }

  lemma SliceStart(s: Bytes, done: nat, block: Bytes, taken: nat)
    requires done + |block| <= |s| && block == s[done..done + |block|] && taken <= |block|
    ensures block[..taken] == s[done..done + taken]
  {
  }

  /** A block read and written out moves the copy on. */
  lemma MovedMore(was: World, from: World, mid: World, now: World, srcFd: int, dstFd: int, done: nat, block: Bytes)
    requires was.Apart(srcFd, dstFd) && Moved(was, from, srcFd, dstFd, done)
    requires TookIn(from, mid, srcFd, block) && Wrote(mid, now, dstFd, block)
    ensures Moved(was, now, srcFd, dstFd, done + |block|)
  {
    var d, e := was.fds[srcFd], was.fds[dstFd];
    BlockRead(was, from, mid, srcFd, dstFd, done, block);
    assert mid.Data(e.node) == from.Data(e.node);
    LaidMore(was, from, now, d, e, done, block);
  }

  lemma ReadSame(was: World, now: World, srcFd: int, dstFd: int, block: Bytes)
    requires TookIn(was, now, srcFd, block)
    ensures SameBut(was, now, srcFd, dstFd) && Position(was, dstFd) <= Position(now, dstFd)
  {
  }

  /** What is left alone when the block that was read is not all written out. */
  lemma BrokenOff(was: World, from: World, mid: World, now: World, srcFd: int, dstFd: int, block: Bytes, part: Bytes)
    requires SameBut(was, from, srcFd, dstFd) && TookIn(from, mid, srcFd, block) && Put(mid, now, dstFd, part)
    ensures SameBut(was, now, srcFd, dstFd)
  {
    ReadSame(from, mid, srcFd, dstFd, block);
    PutSame(mid, now, srcFd, dstFd, part);
    SameOnwards(was, from, mid, srcFd, dstFd);
    SameOnwards(was, mid, now, srcFd, dstFd);
  }

  lemma ProgressMore(was: World, from: World, mid: World, now: World, srcFd: int, dstFd: int, done: nat,
                     block: Bytes, next: nat)
    requires Progress(was, from, srcFd, dstFd, done) && next == done + |block|
    requires TookIn(from, mid, srcFd, block) && Wrote(mid, now, dstFd, block)
    ensures Progress(was, now, srcFd, dstFd, next)
  {
    BrokenOff(was, from, mid, now, srcFd, dstFd, block, block);
    if was.Apart(srcFd, dstFd) {
      MovedMore(was, from, mid, now, srcFd, dstFd, done, block);
    }
  }

  /** A copy starts with nothing moved. */
  lemma StartCopy(was: World, srcFd: int, dstFd: int)
    ensures Progress(was, was, srcFd, dstFd, 0)
  {
    if was.Apart(srcFd, dstFd) {
      var d, e := was.fds[srcFd], was.fds[dstFd];
      assert Source(was, d)[..0] == [];
      assert d.(pos := d.pos + 0) == d && e.(pos := e.pos + 0) == e;
      assert was.fds[srcFd := d] == was.fds && was.fds[dstFd := e] == was.fds;
    }
  }

  /** At the end of the source everything has been moved. */
  lemma AllMoved(was: World, now: World, srcFd: int, dstFd: int, done: nat)
    requires was.Apart(srcFd, dstFd) && Progress(was, now, srcFd, dstFd, done)
    requires AtEnd(now, srcFd)
    ensures done == |Source(was, was.fds[srcFd])|
  {
    assert now.fds[srcFd] == was.fds[srcFd].(pos := was.fds[srcFd].pos + done);
  }

  /** A file open for reading and a file open for writing. */
  predicate Copyable(w: World, srcFd: int, dstFd: int) {
    w.Readable(srcFd) && w.Writable(dstFd)
  }

  predicate AtEnd(w: World, fd: int) {
    0 <= fd && fd in w.fds && |w.Data(w.fds[fd].node)| <= w.fds[fd].pos
  }

  /** A block that was read, and written out whole: the states before, between and after. */
  datatype Step = Step(from: World, mid: World, to: World, block: Bytes)

  predicate GoodStep(s: Step, srcFd: int, dstFd: int) {
    TookIn(s.from, s.mid, srcFd, s.block) && Wrote(s.mid, s.to, dstFd, s.block)
  }

  /** A run of the loops. */
  predicate Run(was: World, now: World, srcFd: int, dstFd: int, steps: seq<Step>)
    decreases |steps|
  {
    if steps == [] then now == was
    else
      var last := steps[|steps| - 1];
      last.to == now && GoodStep(last, srcFd, dstFd) && Run(was, last.from, srcFd, dstFd, steps[..|steps| - 1])
  }

  lemma RunMore(was: World, now: World, srcFd: int, dstFd: int, steps: seq<Step>, step: Step)
    requires Run(was, step.from, srcFd, dstFd, steps) && GoodStep(step, srcFd, dstFd) && step.to == now
    ensures Run(was, now, srcFd, dstFd, steps + [step])
  {
    assert (steps + [step])[..|steps|] == steps;
  }

  /** The bytes a run moved. */
  function Total(steps: seq<Step>): nat {
    if steps == [] then 0 else Total(steps[..|steps| - 1]) + |steps[|steps| - 1].block|
  }

  /** However the source was cut into blocks, a run moves it on from where it was. */
  lemma {:induction false} RunProgress(was: World, now: World, srcFd: int, dstFd: int, steps: seq<Step>)
    requires Run(was, now, srcFd, dstFd, steps)
    ensures Progress(was, now, srcFd, dstFd, Total(steps))
    decreases |steps|
  {
    if steps == [] {
      StartCopy(was, srcFd, dstFd);
    } else {
      var before, last := steps[..|steps| - 1], steps[|steps| - 1];
      RunProgress(was, last.from, srcFd, dstFd, before);
      ProgressMore(was, last.from, last.mid, now, srcFd, dstFd, Total(before), last.block, Total(steps));
    }
  }

  /** However a copy ended before anything was cut: the destination has a first part of the source laid over it. */
  ghost predicate PartLaid(was: World, now: World, srcFd: int, dstFd: int) {
    was.Apart(srcFd, dstFd) ==> exists done: nat :: Laid(was, now, was.fds[srcFd], was.fds[dstFd], done)
  }

  lemma ProgressIsPart(was: World, now: World, srcFd: int, dstFd: int, done: nat)
    requires Progress(was, now, srcFd, dstFd, done)
    ensures PartLaid(was, now, srcFd, dstFd)
  {
  }

  /** A block of which only a part was written out. */
  lemma PartOfBlock(was: World, from: World, mid: World, now: World, srcFd: int, dstFd: int, done: nat,
                    block: Bytes, taken: nat)
    requires was.Apart(srcFd, dstFd) && Moved(was, from, srcFd, dstFd, done)
    requires TookIn(from, mid, srcFd, block) && taken <= |block| && Put(mid, now, dstFd, block[..taken])
    ensures PartLaid(was, now, srcFd, dstFd)
  {
    var d, e := was.fds[srcFd], was.fds[dstFd];
    if taken == 0 {
      assert Laid(was, now, d, e, done);
    } else {
      BlockRead(was, from, mid, srcFd, dstFd, done, block);
      SliceStart(Source(was, d), done, block, taken);
      LaidMore(was, from, now, d, e, done, block[..taken]);
    }
  }

  lemma BrokenPart(was: World, from: World, mid: World, now: World, srcFd: int, dstFd: int,
                   steps: seq<Step>, block: Bytes, taken: nat)
    requires Run(was, from, srcFd, dstFd, steps) && TookIn(from, mid, srcFd, block)
    requires taken <= |block| && Put(mid, now, dstFd, block[..taken])
    ensures PartLaid(was, now, srcFd, dstFd)
  {
    RunProgress(was, from, srcFd, dstFd, steps);
    if was.Apart(srcFd, dstFd) {
      PartOfBlock(was, from, mid, now, srcFd, dstFd, Total(steps), block, taken);
    }
  }

  /** What a run leaves alone, also when the last block that was read is not all written out. */
  lemma BrokenRun(was: World, from: World, mid: World, now: World, srcFd: int, dstFd: int,
                  steps: seq<Step>, block: Bytes, part: Bytes)
    requires Run(was, from, srcFd, dstFd, steps) && TookIn(from, mid, srcFd, block) && Put(mid, now, dstFd, part)
    ensures SameBut(was, now, srcFd, dstFd)
  {
    RunProgress(was, from, srcFd, dstFd, steps);
    BrokenOff(was, from, mid, now, srcFd, dstFd, block, part);
  }

  /** One read (line 546). */
  method ReadBlock(k: System, srcFd: int, dstFd: int, blen: nat) returns (nread: int, bp: Bytes)
    requires k.Valid()
    modifies k`fds, k`faults, k`readErrors
    ensures k.Valid() && -1 <= nread && |bp| == Max(nread, 0)
    ensures if nread > 0 then TookIn(old(k.Now()), k.Now(), srcFd, bp) else k.Now() == old(k.Now())
    ensures nread == 0 && blen > 0 ==> AtEnd(k.Now(), srcFd)
    ensures !old(k.Now()).Readable(srcFd) ==> nread == -1
    ensures k.readErrors == old(k.readErrors) + if nread == -1 then 1 else 0
    ensures old(k.faults) <= k.faults
    ensures Copyable(old(k.Now()), srcFd, dstFd) ==>
              Copyable(k.Now(), srcFd, dstFd) && (nread == -1 ==> old(k.faults) < k.faults)
    ensures Room(k.Now(), dstFd, k.limit) <= Room(old(k.Now()), dstFd, k.limit)
  {
    ghost var now := k.Now();
    nread, bp := k.Read(srcFd, blen);
    if nread > 0 {
      ReadSame(now, k.Now(), srcFd, dstFd, bp);
    }
  }

  /** Write out the block that was read last; `from` is the state before that read. */
  method CopyBlock(k: System, srcFd: int, dstFd: int, bp: Bytes,
                   ghost was: World, ghost from: World, ghost steps: seq<Step>)
    returns (ret: int)
    requires k.Valid() && Run(was, from, srcFd, dstFd, steps) && TookIn(from, k.Now(), srcFd, bp)
    modifies k`fds, k`nodes, k`patience, k`faults
    ensures k.Valid() && (ret == 0 || ret == -1) && old(k.faults) <= k.faults
    ensures if ret == 0 then GoodStep(Step(from, old(k.Now()), k.Now(), bp), srcFd, dstFd)
            else SameBut(was, k.Now(), srcFd, dstFd) && PartLaid(was, k.Now(), srcFd, dstFd)
    ensures ret == 0 ==> Room(k.Now(), dstFd, k.limit) < Room(old(k.Now()), dstFd, k.limit)
    ensures Copyable(old(k.Now()), srcFd, dstFd) ==>
              Copyable(k.Now(), srcFd, dstFd) && (ret == -1 ==> old(k.faults) < k.faults)
  {
    ghost var mid := k.Now();
    ghost var taken;
    ret, taken := WriteBlock(k, dstFd, bp);
    if ret == 0 {
      assert bp[..taken] == bp;
    } else {
      BrokenRun(was, from, mid, k.Now(), srcFd, dstFd, steps, bp, bp[..taken]);
      BrokenPart(was, from, mid, k.Now(), srcFd, dstFd, steps, bp, taken);
    }
  }

  /**
   Between two rounds of the outer loop: a run has led to `from`; then a block was read, the
   source came to its end, or the read failed.
   */
  predicate Between(was: World, from: World, now: World, srcFd: int, dstFd: int, blen: nat, steps: seq<Step>,
                    nread: int, bp: Bytes)
  {
    && -1 <= nread && |bp| == Max(nread, 0)
    && Run(was, from, srcFd, dstFd, steps)
    && (if nread > 0 then TookIn(from, now, srcFd, bp) else now == from)
    && (nread == 0 && blen > 0 ==> AtEnd(now, srcFd))
  }

  /** One round of the outer loop: write out the block that was read, and read the next. */
  method CopyRound(k: System, srcFd: int, dstFd: int, blen: nat, bp: Bytes,
                   ghost was: World, ghost from: World, ghost steps: seq<Step>)
    returns (ret: int, nread: int, next: Bytes, ghost to: World, ghost more: seq<Step>)
    requires k.Valid() && bp != [] && Between(was, from, k.Now(), srcFd, dstFd, blen, steps, |bp|, bp)
    modifies k`fds, k`nodes, k`patience, k`faults, k`readErrors
    ensures k.Valid() && (ret == 0 || ret == -1) && old(k.faults) <= k.faults
    ensures if ret == 0 then Between(was, to, k.Now(), srcFd, dstFd, blen, more, nread, next)
            else SameBut(was, k.Now(), srcFd, dstFd) && PartLaid(was, k.Now(), srcFd, dstFd) && nread == |bp|
    ensures k.readErrors == old(k.readErrors) + if nread == -1 then 1 else 0
    ensures ret == 0 ==> Room(k.Now(), dstFd, k.limit) < Room(old(k.Now()), dstFd, k.limit)
    ensures Copyable(old(k.Now()), srcFd, dstFd) ==>
              Copyable(k.Now(), srcFd, dstFd) && (ret == -1 || nread == -1 ==> old(k.faults) < k.faults)
  {
    ghost var mid := k.Now();
    nread, next, to, more := |bp|, bp, from, steps;
    ret := CopyBlock(k, srcFd, dstFd, bp, was, from, steps);
    if ret == 0 {
      ghost var step := Step(from, mid, k.Now(), bp);
      RunMore(was, k.Now(), srcFd, dstFd, steps, step);
      to, more := k.Now(), steps + [step];
      nread, next := ReadBlock(k, srcFd, dstFd, blen);
    }
  }

  /**
   The outer loop (lines 546-574): blocks until the end of the source, a read error, or a
   write error. Without a fault it gets to the end.
   */
  method CopyBlocks(k: System, srcFd: int, dstFd: int, blen: nat) returns (ret: int, nread: int, ghost steps: seq<Step>)
    requires k.Valid()
    modifies k`fds, k`nodes, k`patience, k`faults, k`readErrors
    ensures k.Valid() && (ret == 0 || ret == -1) && (if ret == 0 then -1 <= nread <= 0 else nread > 0)
    ensures if ret == 0 then Between(old(k.Now()), k.Now(), k.Now(), srcFd, dstFd, blen, steps, nread, [])
            else SameBut(old(k.Now()), k.Now(), srcFd, dstFd) && PartLaid(old(k.Now()), k.Now(), srcFd, dstFd)
    ensures k.readErrors == old(k.readErrors) + if nread == -1 then 1 else 0
    ensures old(k.faults) <= k.faults
    ensures !old(k.Now()).Readable(srcFd) ==> ret == 0 && nread == -1 && k.Now() == old(k.Now())
    ensures Copyable(old(k.Now()), srcFd, dstFd) && k.faults == old(k.faults) ==> ret == 0 && nread == 0
  {
    ghost var was, from := k.Now(), k.Now();
    ret, steps := 0, [];
    var bp;
    nread, bp := ReadBlock(k, srcFd, dstFd, blen);
    while nread > 0 && ret == 0
      invariant k.Valid() && (ret == 0 || (ret == -1 && nread > 0))
      invariant if ret == 0 then Between(was, from, k.Now(), srcFd, dstFd, blen, steps, nread, bp)
                else SameBut(was, k.Now(), srcFd, dstFd) && PartLaid(was, k.Now(), srcFd, dstFd)
      invariant k.readErrors == old(k.readErrors) + if nread == -1 then 1 else 0
      invariant old(k.faults) <= k.faults
      invariant !was.Readable(srcFd) ==> ret == 0 && nread == -1 && k.Now() == was
      invariant Copyable(was, srcFd, dstFd) ==>
                  Copyable(k.Now(), srcFd, dstFd) && (k.faults == old(k.faults) ==> ret == 0 && nread >= 0)
      decreases ret == 0, Room(k.Now(), dstFd, k.limit)
    {
      ret, nread, bp, from, steps := CopyRound(k, srcFd, dstFd, blen, bp, was, from, steps);
    }
  }

  /** What the destination of a complete copy holds. */
  function Copy(was: World, d: Descriptor, e: Descriptor, size: nat): Bytes {
    Resize(Overwrite(was.Data(e.node), e.pos, Source(was, d)), size)
  }

  /** From the positions d and e had, the source is read to its end, and the destination holds the copy. */
  predicate Copied(was: World, now: World, srcFd: int, d: Descriptor, e: Descriptor, size: nat) {
    && e.node in now.nodes && now.nodes[e.node] == File(Copy(was, d, e, size))
    && (d.node != e.node ==> now.Data(d.node) == was.Data(d.node))
    && srcFd in now.fds && now.fds[srcFd].pos == d.pos + |Source(was, d)|
  }

  /** Cutting the destination of a complete copy to the source's recorded size (line 581). */
  lemma CutCopy(was: World, mid: World, now: World, srcFd: int, dstFd: int, done: nat, size: nat)
    requires was.Apart(srcFd, dstFd) && Progress(was, mid, srcFd, dstFd, done)
    requires done == |Source(was, was.fds[srcFd])|
    requires now == World(mid.fds, mid.nodes[was.fds[dstFd].node := File(Resize(mid.Data(was.fds[dstFd].node), size))])
    ensures Copied(was, now, srcFd, was.fds[srcFd], was.fds[dstFd], size)
  {
    var d := was.fds[srcFd];
    assert Source(was, d)[..done] == Source(was, d);
    assert mid.fds[srcFd].pos == d.pos + done;
  }

  lemma CutSame(was: World, mid: World, now: World, srcFd: int, dstFd: int, size: nat)
    requires SameBut(was, mid, srcFd, dstFd) && mid.Writable(dstFd) && now.fds == mid.fds
    requires now.nodes == mid.nodes[mid.fds[dstFd].node := File(Resize(mid.Data(mid.fds[dstFd].node), size))]
    ensures SameBut(was, now, srcFd, dstFd)
  {
  }

  /** The loops as a whole: how far they moved the copy, and that without an error this is to the end. */
  method CopyAll(k: System, srcFd: int, dstFd: int, blen: nat) returns (ret: int, nread: int, ghost done: nat)
    requires k.Valid()
    modifies k`fds, k`nodes, k`patience, k`faults, k`readErrors
    ensures k.Valid() && (ret == 0 || ret == -1) && (ret == 0 ==> -1 <= nread <= 0)
    ensures if ret == 0 then Progress(old(k.Now()), k.Now(), srcFd, dstFd, done)
            else SameBut(old(k.Now()), k.Now(), srcFd, dstFd) && PartLaid(old(k.Now()), k.Now(), srcFd, dstFd)
    ensures ret == 0 && nread == 0 && blen > 0 ==> Finished(old(k.Now()), srcFd, dstFd, done)
    ensures k.readErrors == old(k.readErrors) + if ret == 0 && nread == -1 then 1 else 0
    ensures old(k.faults) <= k.faults
    ensures !old(k.Now()).Readable(srcFd) ==> ret == 0 && nread == -1 && k.Now() == old(k.Now())
    ensures Copyable(old(k.Now()), srcFd, dstFd) && k.faults == old(k.faults) ==> ret == 0 && nread == 0
  {
    ghost var was, steps := k.Now(), [];
    ret, nread, steps := CopyBlocks(k, srcFd, dstFd, blen);
    done := Total(steps);
    if ret == 0 {
      RunProgress(was, k.Now(), srcFd, dstFd, steps);
      if nread == 0 && blen > 0 && was.Apart(srcFd, dstFd) {
        AllMoved(was, k.Now(), srcFd, dstFd, done);
      }
    }
  }

  /** Everything there was to move has been moved. */
  predicate Finished(was: World, srcFd: int, dstFd: int, done: nat) {
    was.Apart(srcFd, dstFd) ==> done == |Source(was, was.fds[srcFd])|
  }

  /** ftruncate (line 581) behind the loops. */
  method CutAtSize(k: System, srcFd: int, dstFd: int, size: nat, ghost was: World, ghost done: nat) returns (ret: int)
    requires k.Valid() && Progress(was, k.Now(), srcFd, dstFd, done)
    modifies k`nodes, k`faults
    ensures k.Valid() && (ret == 0 || ret == -1)
    ensures SameBut(was, k.Now(), srcFd, dstFd) && (ret == -1 ==> PartLaid(was, k.Now(), srcFd, dstFd))
    ensures ret == 0 && was.Apart(srcFd, dstFd) && Finished(was, srcFd, dstFd, done) ==>
              Copied(was, k.Now(), srcFd, was.fds[srcFd], was.fds[dstFd], size)
    ensures old(k.faults) <= k.faults && (ret == -1 && Copyable(was, srcFd, dstFd) ==> old(k.faults) < k.faults)
  {
    ghost var mid := k.Now();
    ret := k.Truncate(dstFd, size);
    if ret == -1 {
      ProgressIsPart(was, mid, srcFd, dstFd, done);
    } else {
      CutSame(was, mid, k.Now(), srcFd, dstFd, size);
      if was.Apart(srcFd, dstFd) && Finished(was, srcFd, dstFd, done) {
        CutCopy(was, mid, k.Now(), srcFd, dstFd, done, size);
      }
    }
  }

  /**
   copyfile_data. Whatever the block size and however short the reads and writes, a copy that
   returns 0 without a read error leaves the destination as Copy says. A read error ends the
   loop with 0 too: then only a first part of the source was laid over the destination, and
   nothing was cut, and so it is when the copy fails. Without a fault the copy succeeds. From a
   directory nothing can be read, and the copy, which then does nothing, succeeds too.
   */
  method CopyData(k: System, srcFd: int, dstFd: int, sb: Stat) returns (ret: int)
    requires k.Valid()
    modifies k`fds, k`nodes, k`patience, k`faults, k`readErrors
    ensures k.Valid() && (ret == 0 || ret == -1)
    ensures SameBut(old(k.Now()), k.Now(), srcFd, dstFd)
    ensures ret == -1 ==> PartLaid(old(k.Now()), k.Now(), srcFd, dstFd)
    ensures ret == 0 && k.readErrors == old(k.readErrors) && old(k.Now()).Apart(srcFd, dstFd) &&
            k.ioSize > 0 && (sb.blockSize > 0 || k.faults == old(k.faults)) ==>
              Copied(old(k.Now()), k.Now(), srcFd, old(k.Now()).fds[srcFd], old(k.Now()).fds[dstFd], sb.size)
    ensures old(k.readErrors) <= k.readErrors
    ensures k.readErrors > old(k.readErrors) ==>
              ret == 0 && exists done: nat :: Progress(old(k.Now()), k.Now(), srcFd, dstFd, done)
    ensures old(k.faults) <= k.faults
    ensures !old(k.Now()).Readable(srcFd) ==> k.Now() == old(k.Now()) && (ret == 0 || old(k.faults) < k.faults)
    ensures Copyable(old(k.Now()), srcFd, dstFd) && k.faults == old(k.faults) ==>
              ret == 0 && k.readErrors == old(k.readErrors)
  {
    StartCopy(k.Now(), srcFd, dstFd);
    ProgressIsPart(k.Now(), k.Now(), srcFd, dstFd, 0);
    var noHint := k.Fails();
    var noMemory := k.Fails();
    ret := -1;
    if !noMemory {
      var blen := if noHint then sb.blockSize else k.ioSize;
      var nread;
      ghost var done;
      ret, nread, done := CopyAll(k, srcFd, dstFd, blen);
      if ret == 0 && nread == 0 {
        ret := CutAtSize(k, srcFd, dstFd, sb.size, old(k.Now()), done);
      }
    }
  }

  /**
   A copy between fresh descriptors, cut to the size the source had, is the source, however
   long the destination was before.
   */
  lemma WholeCopy(was: World, d: Descriptor, e: Descriptor)
    requires d.pos == e.pos == 0
    ensures Copy(was, d, e, |was.Data(d.node)|) == was.Data(d.node)
  {
    assert Source(was, d) == was.Data(d.node);
    OverwriteAll(was.Data(d.node), was.Data(e.node));
  }

  /** From the end of the source nothing is copied: the destination is only cut, or filled up with zeros. */
  lemma CopyFromEnd(was: World, d: Descriptor, e: Descriptor, size: nat)
    requires d.pos >= |was.Data(d.node)|
    ensures Copy(was, d, e, size) == Resize(was.Data(e.node), size)
  {
  }

  /** Copying from and to these positions makes any destination the source, whatever the two hold. */
  ghost predicate Faithful(from: nat, to: nat, size: nat) {
    forall s: Bytes, o: Bytes :: |s| == size ==> Resize(Overwrite(o, to, Rest(s, from)), size) == s
  }

  /** Only a copy from start to start does that, or one of an empty file. */
  lemma FaithfulExactly(from: nat, to: nat, size: nat)
    ensures Faithful(from, to, size) <==> (from == 0 && to == 0) || size == 0
  {
    if from == 0 && to == 0 {
      forall s: Bytes, o: Bytes | |s| == size ensures Resize(Overwrite(o, to, Rest(s, from)), size) == s {
        OverwriteAll(s, o);
        assert Rest(s, 0) == s;
      }
    } else if size > 0 {
      var s: Bytes := seq(size, i => if i == 0 then 1 else 0);
      var o: Bytes := [];
      assert Resize(Overwrite(o, to, Rest(s, from)), size)[0] == 0 != s[0];
    }
  }
}
