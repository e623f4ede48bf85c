/** `publish_staged` as the code that runs it: one attempt issues system calls while other
    attempts act between any two of them. Its control flow is an attempt of the step
    machine, so every theorem about interleavings speaks about this code. */
module PublishAttempt {
  import opened Wrappers
  import opened PublishProtocol
  import opened PublishSafety

  /** `t` follows from `s` by calls of attempts other than `me`. */
  ghost predicate ByOthers(me: nat, s: System, t: System) {
    exists moves: seq<Move> :: Run(s, moves) == Some(t) && forall k :: 0 <= k < |moves| ==> moves[k].who != me
  }

  lemma {:induction false} RunAppend(s: System, first: seq<Move>, second: seq<Move>)
    requires Run(s, first).Some?
    ensures Run(s, first + second) == Run(Run(s, first).value, second)
    decreases |first|
  {
    if first == [] {
      assert first + second == second;
    } else {
      assert (first + second)[1..] == first[1..] + second;
      RunAppend(Step(s, first[0]).value, first[1..], second);
    }
  }

  datatype LinkResult = Linked | AlreadyExists | LinkFailed

  class Publisher {
    var sys: System
    var clock: nat
    const me: nat
    /** Whether the call made at this time fails. */
    const fails: nat -> bool
    /** How many bytes a read or write moves at most at this time, less one. */
    const burst: nat -> nat
    /** The inode an exclusive creation hands out at this time. */
    const inode: (nat, System) -> Inode
    /** What the other attempts do between two calls. */
    const others: (nat, System) -> System
    /** The empty directory everything started from, and every call made since. */
    ghost const origin: System
    ghost var history: seq<Move>

    ghost predicate Fair() {
      && (forall n: nat, s: System :: Inv(s) ==> inode(n, s) !in s.disk.data)
      && (forall n: nat, s: System :: Inv(s) && me < |s.procs| ==> ByOthers(me, s, others(n, s)))
    }

    /** The current state is reached by the interleaving in `history`. */
    ghost predicate Valid()
      reads this
    {
      Init(origin) && Run(origin, history) == Some(sys) && me < |sys.procs| && Fair()
    }

    constructor (ghost origin: System, ghost history: seq<Move>, sys: System, me: nat,
                 fails: nat -> bool, burst: nat -> nat,
                 inode: (nat, System) -> Inode, others: (nat, System) -> System)
      requires Init(origin) && Run(origin, history) == Some(sys) && me < |sys.procs|
      requires forall n: nat, s: System :: Inv(s) ==> inode(n, s) !in s.disk.data
      requires forall n: nat, s: System :: Inv(s) && me < |s.procs| ==> ByOthers(me, s, others(n, s))
      ensures Valid() && this.sys == sys && this.me == me && this.fails == fails
      ensures this.origin == origin && this.history == history
    {
      this.origin, this.history := origin, history;
      this.sys, this.me, this.fails, this.burst, this.inode, this.others := sys, me, fails, burst, inode, others;
      clock := 0;
    }

    ghost function Mine(): Proc
      requires Valid()
      reads this
    {
      sys.procs[me]
    }

    /** The attempt's temporary name is in the directory. */
    ghost predicate Littered()
      reads this
    {
      Temp(me) in sys.disk.dir
    }

    /** The machine's invariant holds at every call. */
    lemma Sound()
      requires Valid()
      ensures Inv(sys) && ProcInv(sys.disk, me, Mine())
    {
      InitInv(origin);
      RunInv(origin, history);
      assert ProcInv(sys.disk, me, sys.procs[me]);
    }

    /** One call of this attempt, then whatever the others do before the next one. */
    method Call(e: Event)
      requires Valid() && Act(sys.disk, me, sys.procs[me], e).Some?
      modifies this
      ensures Valid() && old(history) <= history
      ensures Mine() == Act(old(sys.disk), me, old(sys.procs[me]), e).value.proc
      ensures Littered() <==> Temp(me) in Act(old(sys.disk), me, old(sys.procs[me]), e).value.disk.dir
      ensures clock == old(clock) + 1
    {
      Sound();
      ghost var move := Move(me, e);
      StepInv(sys, move);
      ghost var before := sys;
      sys := Step(sys, Move(me, e)).value;
      ghost var between := sys;
      assert ByOthers(me, sys, others(clock, sys));
      sys := others(clock, sys);
      ghost var rest: seq<Move> :| Run(between, rest) == Some(sys) && forall k :: 0 <= k < |rest| ==> rest[k].who != me;
      assert Run(before, [move] + rest) == Some(sys) by { assert ([move] + rest)[1..] == rest; }
      RunAppend(origin, history, [move] + rest);
      history := history + ([move] + rest);
      OthersLeaveMe(me, between, rest);
      OthersLeaveTemp(me, between, rest);
      clock := clock + 1;
    }

    method Stat() returns (r: Result<Inode, Reason>)
      requires Valid() && Mine().pc.StatTarget?
      modifies this
      ensures Valid() && old(history) <= history && Littered() == old(Littered())
      ensures r.Ok? ==> Mine() == old(Mine()).(pc := OpenTarget(old(Mine()).pc.purpose, r.value))
      ensures r.Err? ==> Unreadable(old(Mine()), Mine(), r.error)
    {
      var disk, limit := sys.disk, sys.procs[me].maxBytes;
      if fails(clock) {
        Call(Fail);
        return Err(IoError);
      }
      Call(Proceed);
      if Target !in disk.dir || disk.dir[Target] !in disk.data {
        return Err(IoError);
      } else if |disk.data[disk.dir[Target]]| > limit {
        return Err(TooLarge);
      }
      return Ok(disk.dir[Target]);
    }

    method Open(expected: Inode) returns (r: Result<Inode, Reason>)
      requires Valid() && Mine().pc.OpenTarget? && Mine().pc.expected == expected
      modifies this
      ensures Valid() && old(history) <= history && Littered() == old(Littered())
      ensures r.Ok? ==> r.value == expected && Mine() == old(Mine()).(pc := ReadTarget(old(Mine()).pc.purpose, expected, []))
      ensures r.Err? ==> Unreadable(old(Mine()), Mine(), r.error)
    {
      var disk := sys.disk;
      if fails(clock) {
        Call(Fail);
        return Err(IoError);
      }
      Call(Proceed);
      if Target !in disk.dir || disk.dir[Target] != expected {
        return Err(IoError);
      }
      return Ok(expected);
    }

    /** A read of the target failed: before staging that is ignored, after a taken link it
        is the attempt's outcome. */
    ghost predicate Unreadable(p: Proc, q: Proc, why: Reason)
      requires p.pc.StatTarget? || p.pc.OpenTarget? || p.pc.ReadTarget?
    {
      q == AfterUnreadable(p.(faulted := q.faulted), p.pc.purpose, why)
    }

    /** One read call: some bytes, or none at the end of the file or one past the limit. */
    method Read(from: Inode, ghost buffer: Bytes) returns (r: Result<Bytes, Reason>)
      requires Valid() && Mine().pc.ReadTarget? && Mine().pc == ReadTarget(Mine().pc.purpose, from, buffer)
      modifies this
      ensures Valid() && old(history) <= history && Littered() == old(Littered())
      ensures r.Err? ==> Unreadable(old(Mine()), Mine(), r.error)
      ensures r.Ok? && r.value != [] ==>
                && |buffer + r.value| <= Mine().maxBytes + 1
                && Mine() == old(Mine()).(pc := ReadTarget(old(Mine()).pc.purpose, from, buffer + r.value))
      ensures r.Ok? && r.value == [] ==>
                if |buffer| > Mine().maxBytes then Unreadable(old(Mine()), Mine(), TooLarge)
                else Mine() == AfterRead(old(Mine()), old(Mine()).pc.purpose, buffer)
    {
      Sound();
      if fails(clock) {
        Call(Fail);
        return Err(IoError);
      }
      var have := |sys.procs[me].pc.buffer|;
      var content := sys.disk.data[from];
      var end := Min(|content|, sys.procs[me].maxBytes + 1);
      if have == end {
        Call(Proceed);
        return Ok([]);
      }
      var count := Min(burst(clock) + 1, end - have);
      Call(Chunk(count));
      return Ok(content[have..have + count]);
    }

    /** Read to the end of the file or one byte past the limit. */
    method ReadToEnd(from: Inode) returns (r: Result<Bytes, Reason>)
      requires Valid() && Mine().pc.ReadTarget? && Mine().pc == ReadTarget(Mine().pc.purpose, from, [])
      modifies this
      ensures Valid() && old(history) <= history && Littered() == old(Littered())
      ensures r.Ok? ==> Mine() == AfterRead(old(Mine()), old(Mine()).pc.purpose, r.value)
      ensures r.Err? ==> Unreadable(old(Mine()), Mine(), r.error)
    {
      var buffer: Bytes := [];
      var limit := sys.procs[me].maxBytes;
      ghost var p := Mine();
      while true
        invariant Valid() && old(history) <= history && Littered() == old(Littered())
        invariant Mine() == p.(pc := ReadTarget(p.pc.purpose, from, buffer))
        invariant limit == p.maxBytes && |buffer| <= limit + 1
        decreases limit + 1 - |buffer|
      {
        var chunk := Read(from, buffer);
        if chunk.Err? { return chunk; }
        if chunk.value == [] {
          return if |buffer| > limit then Err(TooLarge) else Ok(buffer);
        }
        buffer := buffer + chunk.value;
      }
    }

    method ReadRegular() returns (r: Result<Bytes, Reason>)
      requires Valid() && Mine().pc.StatTarget?
      modifies this
      ensures Valid() && old(history) <= history && Littered() == old(Littered())
      ensures r.Ok? ==> Mine() == AfterRead(old(Mine()), old(Mine()).pc.purpose, r.value)
      ensures r.Err? ==> Unreadable(old(Mine()), Mine(), r.error)
    {
      var stat := Stat();
      if stat.Err? { return Err(stat.error); }
      var handle := Open(stat.value);
      if handle.Err? { return Err(handle.error); }
      r := ReadToEnd(handle.value);
    }

    /** A call whose result is only success or failure. */
    method Request() returns (ok: bool)
      requires Valid()
      requires Mine().pc.MakeDirectory? || Mine().pc.SyncTemp? || Mine().pc.SyncDirectory? || Mine().pc.RemoveTemp?
      modifies this
      ensures Valid() && old(history) <= history
      ensures Mine() == Act(Disk(map[], map[], None), me, old(Mine()), if ok then Proceed else Fail).value.proc
      ensures !fails(old(clock)) ==> ok
      ensures if old(Mine()).pc.RemoveTemp? then ok ==> !Littered() else Littered() == old(Littered())
    {
      ok := !fails(clock);
      Call(if ok then Proceed else Fail);
    }

    method CreateNew() returns (r: Option<Inode>)
      requires Valid() && Mine().pc.CreateTemp?
      modifies this
      ensures Valid() && old(history) <= history
      ensures r.Some? ==> Mine() == old(Mine()).(pc := WriteTemp(r.value, 0))
      ensures r.None? ==> Mine() == Refuse(old(Mine()))
    {
      if fails(clock) {
        Call(Fail);
        return None;
      }
      Sound();
      var file := inode(clock, sys);
      Call(Create(file));
      return Some(file);
    }

    /** One write call: some more bytes of the payload. */
    method WriteSome(file: Inode, written: nat) returns (count: Option<nat>)
      requires Valid() && Mine().pc == WriteTemp(file, written) && written < |Mine().bytes|
      modifies this
      ensures Valid() && old(history) <= history
      ensures count.None? ==> Mine() == Refuse(old(Mine()))
      ensures count.Some? ==> 0 < count.value <= |Mine().bytes| - written
                              && Mine() == old(Mine()).(pc := WriteTemp(file, written + count.value))
    {
      Sound();
      if fails(clock) {
        Call(Fail);
        return None;
      }
      var some := Min(burst(clock) + 1, |sys.procs[me].bytes| - written);
      Call(Chunk(some));
      return Some(some);
    }

    /** Write the whole payload and flush it. */
    method WriteAll(file: Inode) returns (ok: bool)
      requires Valid() && Mine().pc == WriteTemp(file, 0)
      modifies this
      ensures Valid() && old(history) <= history
      ensures Mine() == if ok then old(Mine()).(pc := LinkTemp(file)) else Refuse(old(Mine()))
    {
      var written, total := 0, |sys.procs[me].bytes|;
      ghost var p := Mine();
      while written < total
        invariant Valid() && old(history) <= history
        invariant written <= total == |p.bytes| && Mine() == p.(pc := WriteTemp(file, written))
      {
        var count := WriteSome(file, written);
        if count.None? { return false; }
        written := written + count.value;
      }
      Call(Proceed);
      ok := Request();
    }

    method HardLink() returns (r: LinkResult)
      requires Valid() && Mine().pc.LinkTemp?
      modifies this
      ensures Valid() && old(history) <= history
      ensures Mine() == match r
        case Linked => old(Mine()).(pc := SyncDirectory)
        case AlreadyExists => old(Mine()).(pc := StatTarget(Compare))
        case LinkFailed => Refuse(old(Mine()))
    {
      Sound();
      if fails(clock) {
        Call(Fail);
        return LinkFailed;
      }
      r := if Target in sys.disk.dir then AlreadyExists else Linked;
      Call(Proceed);
    }

    /** Everything between creating the temporary file and removing it. */
    method Stage() returns (outcome: Outcome)
      requires Valid() && Mine().pc.CreateTemp?
      modifies this
      ensures Valid() && old(history) <= history
      ensures Mine().pc == RemoveTemp(outcome) && Mine().bytes == old(Mine()).bytes
    {
      var bytes := sys.procs[me].bytes;
      var file := CreateNew();
      if file.None? { return BeforeLink(IoError); }
      var written := WriteAll(file.value);
      if !written { return BeforeLink(IoError); }
      var link := HardLink();
      match link {
        case Linked =>
        case LinkFailed => return BeforeLink(IoError);
        case AlreadyExists =>
          var existing := ReadRegular();
          if existing.Err? { return Visible(existing.error); }
          if existing.value != bytes { return Visible(Conflict); }
      }
      var synced := Request();
      return if synced then Published else Visible(IoError);
    }

    /** Publish once: read the target first, stage and link otherwise, and always try to
        remove the temporary file. */
    method PublishStaged() returns (outcome: Outcome)
      requires Valid() && Mine().pc == StatTarget(Probe)
      modifies this
      ensures Valid() && old(history) <= history
      ensures Mine().pc == Returned(outcome) && Mine().bytes == old(Mine()).bytes
      ensures outcome == Published ==> sys.disk.Bound() && sys.disk.Content() == old(Mine()).bytes
      ensures outcome == Visible(Conflict) ==> sys.disk.Bound() && sys.disk.Content() != old(Mine()).bytes
      ensures outcome.BeforeLink? ==> sys.disk.winner != Some(me)
      ensures (forall n :: !fails(n)) ==> !Littered()
      ensures Littered() ==> me < |origin.procs| && RemovalFailed(origin, history, me)
    {
      Sound();
      var bytes := sys.procs[me].bytes;
      var existing := ReadRegular();
      if existing.Ok? {
        outcome := if existing.value == bytes then Published else Visible(Conflict);
      } else {
        var made := Request();
        if !made {
          outcome := BeforeLink(IoError);
        } else {
          outcome := Stage();
          var _ := Request();
        }
      }
      Sound();
      if Littered() { OnlyFailedRemovalsLitter(origin, history, sys, me); }
    }
  }
}
