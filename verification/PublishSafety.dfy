/** Theorems about every interleaving of publish attempts: what the target can hold, what
    each outcome proves, and that an undisturbed retry succeeds. */
module PublishSafety {
  import opened Wrappers
  import opened PublishProtocol

  /** `t` is reached from an empty directory by some interleaving. */
  ghost predicate Reachable(t: System) {
    exists s, moves :: Init(s) && Run(s, moves) == Some(t)
  }

  ghost predicate SameAttempts(s: System, t: System) {
    && |t.procs| == |s.procs|
    && forall i :: 0 <= i < |s.procs| ==>
         t.procs[i].bytes == s.procs[i].bytes && t.procs[i].maxBytes == s.procs[i].maxBytes
  }

  lemma {:induction false} RunAttempts(s: System, moves: seq<Move>)
    requires Run(s, moves).Some?
    ensures SameAttempts(s, Run(s, moves).value)
    decreases |moves|
  {
    if moves != [] { RunAttempts(Step(s, moves[0]).value, moves[1..]); }
  }

  lemma {:induction false} RunStable(s: System, moves: seq<Move>)
    requires Inv(s) && Run(s, moves).Some?
    ensures Inv(Run(s, moves).value) && Stable(s.disk, Run(s, moves).value.disk)
    decreases |moves|
  {
    if moves != [] {
      var next := Step(s, moves[0]).value;
      StepInv(s, moves[0]);
      RunStable(next, moves[1..]);
      StableTwice(s.disk, next.disk, Run(s, moves).value.disk);
    }
  }

  lemma StableTwice(a: Disk, b: Disk, c: Disk)
    requires Stable(a, b) && Stable(b, c)
    ensures Stable(a, c)
  {
  }

  lemma RunInv(s: System, moves: seq<Move>)
    requires Inv(s) && Run(s, moves).Some?
    ensures Inv(Run(s, moves).value)
    ensures Stable(s.disk, Run(s, moves).value.disk)
    ensures SameAttempts(s, Run(s, moves).value)
  {
    RunStable(s, moves);
    RunAttempts(s, moves);
  }

  lemma ReachableInv(t: System)
    requires Reachable(t)
    ensures Inv(t)
  {
    var s, moves :| Init(s) && Run(s, moves) == Some(t);
    InitInv(s);
    RunInv(s, moves);
  }

  /** The target is bound at most once, to the whole payload of one attempt, and from then
      on keeps its inode and its bytes whatever happens. */
  lemma TargetIsWriteOnce(s: System, moves: seq<Move>, t: System)
    requires Reachable(s) && Run(s, moves) == Some(t)
    ensures Target in t.disk.dir <==> t.disk.winner.Some?
    ensures Target in t.disk.dir ==>
              && t.disk.Bound() && t.disk.winner.value < |t.procs|
              && t.disk.Content() == t.procs[t.disk.winner.value].bytes
    ensures Target in s.disk.dir ==>
              && t.disk.Bound() && s.disk.Bound()
              && t.disk.winner == s.disk.winner
              && t.disk.dir[Target] == s.disk.dir[Target] && t.disk.Content() == s.disk.Content()
  {
    ReachableInv(s);
    RunInv(s, moves);
  }

  /** What each way of returning proves, in the state of the return and in every later one. */
  lemma OutcomesAreTruthful(s: System, moves: seq<Move>, t: System, i: nat)
    requires Reachable(s) && Run(s, moves) == Some(t)
    requires i < |s.procs| && s.procs[i].pc.Returned?
    ensures s.procs[i].pc.outcome == Published ==> t.disk.Bound() && t.disk.Content() == s.procs[i].bytes
    ensures s.procs[i].pc.outcome.BeforeLink? ==> t.disk.winner != Some(i) && s.procs[i].faulted
    ensures s.procs[i].pc.outcome == Visible(Conflict) ==>
              t.disk.Bound() && t.disk.Content() != s.procs[i].bytes
    ensures s.procs[i].pc.outcome.Visible? ==> t.disk.Bound()
  {
    ReachableInv(s);
    assert ProcInv(s.disk, i, s.procs[i]);
    RunInv(s, moves);
    ReturnedStays(s, moves, i);
    assert ProcInv(t.disk, i, t.procs[i]);
  }

  lemma {:induction false} ReturnedStays(s: System, moves: seq<Move>, i: nat)
    requires i < |s.procs| && s.procs[i].pc.Returned? && Run(s, moves).Some?
    ensures i < |Run(s, moves).value.procs| && Run(s, moves).value.procs[i] == s.procs[i]
    decreases |moves|
  {
    if moves != [] {
      ReturnedStays(Step(s, moves[0]).value, moves[1..], i);
    }
  }

  /** Two attempts that both report success published the same bytes. */
  lemma PublishedAgree(s: System, i: nat, j: nat)
    requires Reachable(s) && i < |s.procs| && j < |s.procs|
    requires s.procs[i].pc == Returned(Published) && s.procs[j].pc == Returned(Published)
    ensures s.procs[i].bytes == s.procs[j].bytes
  {
    ReachableInv(s);
    assert ProcInv(s.disk, i, s.procs[i]) && ProcInv(s.disk, j, s.procs[j]);
  }

  /** Exactly when an attempt without I/O failures succeeds: the target holds its bytes, and
      either they fit the limit or the attempt linked them itself. */
  lemma CleanOutcome(s: System, i: nat)
    requires Reachable(s) && i < |s.procs| && s.procs[i].pc.Returned? && !s.procs[i].faulted
    ensures s.disk.Bound()
    ensures s.procs[i].pc.outcome == Published
            <==> s.disk.Content() == s.procs[i].bytes
                 && (|s.procs[i].bytes| <= s.procs[i].maxBytes || s.disk.winner == Some(i))
  {
    ReachableInv(s);
    assert ProcInv(s.disk, i, s.procs[i]);
  }

  // ----- what happened in a run -----

  /** In this run attempt `i` made a call of this kind with this result. */
  ghost predicate Happened(s: System, moves: seq<Move>, i: nat, call: Pc -> bool, result: Event)
    requires i < |s.procs|
    decreases |moves|
  {
    moves != [] && (
      || (moves[0] == Move(i, result) && call(s.procs[i].pc))
      || (Step(s, moves[0]).Some? && Happened(Step(s, moves[0]).value, moves[1..], i, call, result)))
  }

  const REMOVAL: Pc -> bool := (pc: Pc) => pc.RemoveTemp?
  const FILE_FLUSH: Pc -> bool := (pc: Pc) => pc.SyncTemp?
  const LINK: Pc -> bool := (pc: Pc) => pc.LinkTemp?
  const DIRECTORY_FLUSH: Pc -> bool := (pc: Pc) => pc.SyncDirectory?

  lemma {:induction false} LinkedIsFlushed(s: System, moves: seq<Move>, i: nat)
    requires Inv(s) && i < |s.procs| && Run(s, moves).Some?
    requires !s.procs[i].pc.LinkTemp? && s.disk.winner != Some(i)
    ensures Run(s, moves).value.disk.winner == Some(i) ==> Happened(s, moves, i, FILE_FLUSH, Proceed)
    decreases |moves|
  {
    if moves != [] {
      var next := Step(s, moves[0]).value;
      StepInv(s, moves[0]);
      ActGuarantee(s, moves[0]);
      if next.procs[i].pc.LinkTemp? {
        assert s.procs[i].pc.SyncTemp? && moves[0] == Move(i, Proceed);
      } else {
        LinkedIsFlushed(next, moves[1..], i);
      }
    }
  }

  lemma {:induction false} WinnerLinked(s: System, moves: seq<Move>, i: nat)
    requires i < |s.procs| && Run(s, moves).Some? && s.disk.winner != Some(i)
    ensures Run(s, moves).value.disk.winner == Some(i) ==> Happened(s, moves, i, LINK, Proceed)
    decreases |moves|
  {
    if moves != [] {
      var next := Step(s, moves[0]).value;
      if next.disk.winner == Some(i) {
        assert s.procs[i].pc.LinkTemp? && moves[0] == Move(i, Proceed);
      } else {
        WinnerLinked(next, moves[1..], i);
      }
    }
  }

  ghost predicate Succeeded(pc: Pc) { pc == RemoveTemp(Published) || pc == Returned(Published) }

  /** An attempt that has staged cannot succeed any more without flushing the directory. */
  lemma {:induction false} StagedIsFlushed(s: System, moves: seq<Move>, i: nat)
    requires i < |s.procs| && Run(s, moves).Some?
    requires !BeforeCreate(s.procs[i].pc) && !Succeeded(s.procs[i].pc)
    ensures i < |Run(s, moves).value.procs|
    ensures Succeeded(Run(s, moves).value.procs[i].pc) ==> Happened(s, moves, i, DIRECTORY_FLUSH, Proceed)
    decreases |moves|
  {
    if moves != [] {
      var next := Step(s, moves[0]).value;
      if Succeeded(next.procs[i].pc) {
        assert s.procs[i].pc.SyncDirectory? && moves[0] == Move(i, Proceed);
        RunAttempts(s, moves);
      } else {
        StagedIsFlushed(next, moves[1..], i);
      }
    }
  }

  lemma {:induction false} ReturnedIsQuiet(s: System, moves: seq<Move>, i: nat)
    requires i < |s.procs| && s.procs[i].pc.Returned? && Run(s, moves).Some?
    ensures !Happened(s, moves, i, LINK, Proceed)
    decreases |moves|
  {
    if moves != [] { ReturnedIsQuiet(Step(s, moves[0]).value, moves[1..], i); }
  }

  lemma {:induction false} SuccessIsFlushedFrom(s: System, moves: seq<Move>, i: nat)
    requires i < |s.procs| && Run(s, moves).Some? && BeforeCreate(s.procs[i].pc)
    ensures i < |Run(s, moves).value.procs|
    ensures Succeeded(Run(s, moves).value.procs[i].pc) && Happened(s, moves, i, LINK, Proceed) ==>
              Happened(s, moves, i, DIRECTORY_FLUSH, Proceed)
    decreases |moves|
  {
    if moves != [] {
      var next := Step(s, moves[0]).value;
      if BeforeCreate(next.procs[i].pc) {
        SuccessIsFlushedFrom(next, moves[1..], i);
      } else if next.procs[i].pc.Returned? {
        ReturnedIsQuiet(next, moves[1..], i);
        RunAttempts(s, moves);
      } else {
        StagedIsFlushed(next, moves[1..], i);
      }
    }
  }

  /** The linked file was flushed by its attempt before, and an attempt that called for a link
      reports success only after it flushed the directory, whoever had linked. */
  lemma SuccessIsFlushed(s: System, moves: seq<Move>, t: System, i: nat)
    requires Init(s) && Run(s, moves) == Some(t) && i < |s.procs|
    ensures i < |t.procs|
    ensures t.disk.winner == Some(i) ==> Happened(s, moves, i, FILE_FLUSH, Proceed) && Happened(s, moves, i, LINK, Proceed)
    ensures t.procs[i].pc == Returned(Published) && Happened(s, moves, i, LINK, Proceed) ==>
              Happened(s, moves, i, DIRECTORY_FLUSH, Proceed)
  {
    InitInv(s);
    RunInv(s, moves);
    LinkedIsFlushed(s, moves, i);
    WinnerLinked(s, moves, i);
    SuccessIsFlushedFrom(s, moves, i);
  }

  // ----- temporary names -----

  /** In this run a removal of the temporary name of `i` failed. */
  ghost predicate RemovalFailed(s: System, moves: seq<Move>, i: nat)
    requires i < |s.procs|
  {
    Happened(s, moves, i, REMOVAL, Fail)
  }

  /** The call that makes an attempt return leaves no temporary name, unless it is a removal
      that fails. */
  lemma ReturnRemoves(d: Disk, me: nat, p: Proc, e: Event)
    requires ProcInv(d, me, p) && Act(d, me, p, e).Some? && Act(d, me, p, e).value.proc.pc.Returned?
    ensures Temp(me) in Act(d, me, p, e).value.disk.dir ==> p.pc.RemoveTemp? && e == Fail
  {
  }

  lemma {:induction false} TempLeft(s: System, moves: seq<Move>, i: nat)
    requires Inv(s) && i < |s.procs| && Run(s, moves).Some?
    requires s.procs[i].pc.Returned? ==> Temp(i) !in s.disk.dir
    ensures i < |Run(s, moves).value.procs|
    ensures var t := Run(s, moves).value;
            t.procs[i].pc.Returned? && Temp(i) in t.disk.dir ==> RemovalFailed(s, moves, i)
    decreases |moves|
  {
    if moves != [] {
      var next := Step(s, moves[0]).value;
      StepInv(s, moves[0]);
      ActGuarantee(s, moves[0]);
      if moves[0].who == i {
        assert ProcInv(s.disk, i, s.procs[i]);
        if next.procs[i].pc.Returned? {
          ReturnRemoves(s.disk, i, s.procs[i], moves[0].event);
          ReturnedStays(next, moves[1..], i);
        }
      }
      if !(next.procs[i].pc.Returned? && Temp(i) in next.disk.dir) { TempLeft(next, moves[1..], i); }
    }
  }

  /** A name in the directory is the target, or the temporary name of an attempt that is
      staging, has crashed, or returned although its removal failed. */
  lemma OnlyFailedRemovalsLitter(s: System, moves: seq<Move>, t: System, i: nat)
    requires Init(s) && Run(s, moves) == Some(t) && Temp(i) in t.disk.dir
    ensures i < |s.procs| == |t.procs|
    ensures !BeforeCreate(t.procs[i].pc) && (t.procs[i].pc.Returned? ==> RemovalFailed(s, moves, i))
  {
    InitInv(s);
    RunInv(s, moves);
    if i < |s.procs| {
      TempLeft(s, moves, i);
      assert ProcInv(t.disk, i, t.procs[i]);
    } else {
      NobodysTemp(s, moves, i);
    }
  }

  lemma {:induction false} NobodysTemp(s: System, moves: seq<Move>, i: nat)
    requires Inv(s) && i >= |s.procs| && Temp(i) !in s.disk.dir && Run(s, moves).Some?
    ensures Temp(i) !in Run(s, moves).value.disk.dir
    decreases |moves|
  {
    if moves != [] {
      StepInv(s, moves[0]);
      ActGuarantee(s, moves[0]);
      NobodysTemp(Step(s, moves[0]).value, moves[1..], i);
    }
  }

  lemma {:induction false} UndisturbedRemoves(s: System, moves: seq<Move>, i: nat)
    requires i < |s.procs| && Undisturbed(moves, i)
    ensures !RemovalFailed(s, moves, i)
    decreases |moves|
  {
    if moves != [] && Step(s, moves[0]).Some? {
      assert forall k :: 0 <= k < |moves| - 1 ==> moves[1..][k] == moves[k + 1];
      UndisturbedRemoves(Step(s, moves[0]).value, moves[1..], i);
    }
  }

  // ----- every attempt finishes -----

  /** An upper bound on the calls an attempt still makes, whatever the others do. */
  function CallsLeft(p: Proc): nat {
    var b, m := |p.bytes|, p.maxBytes + 1;
    match p.pc
    case Returned(_) => 0
    case Crashed => 0
    case RemoveTemp(_) => 1
    case SyncDirectory => 2
    case ReadTarget(Compare, _, buffer) => 3 + if |buffer| <= m then m - |buffer| else 0
    case OpenTarget(Compare, _) => 4 + m
    case StatTarget(Compare) => 5 + m
    case LinkTemp(_) => 6 + m
    case SyncTemp(_) => 7 + m
    case WriteTemp(_, written) => 8 + m + if written <= b then b - written else 0
    case CreateTemp => 9 + m + b
    case MakeDirectory => 10 + m + b
    case ReadTarget(Probe, _, buffer) => 11 + m + b + if |buffer| <= m then m - |buffer| else 0
    case OpenTarget(Probe, _) => 12 + 2 * m + b
    case StatTarget(Probe) => 13 + 2 * m + b
  }

  function Calls(moves: seq<Move>, i: nat): nat {
    if moves == [] then 0 else (if moves[0].who == i then 1 else 0) + Calls(moves[1..], i)
  }

  lemma ActUsesACall(d: Disk, me: nat, p: Proc, e: Event)
    requires ProcInv(d, me, p) && Act(d, me, p, e).Some?
    ensures CallsLeft(Act(d, me, p, e).value.proc) < CallsLeft(p)
  {
  }

  /** No schedule keeps an attempt busy for more than CallsLeft calls of its own. */
  lemma {:induction false} WaitFree(s: System, moves: seq<Move>, i: nat)
    requires Inv(s) && Run(s, moves).Some? && i < |s.procs|
    ensures i < |Run(s, moves).value.procs|
    ensures Calls(moves, i) + CallsLeft(Run(s, moves).value.procs[i]) <= CallsLeft(s.procs[i])
    decreases |moves|
  {
    if moves != [] {
      StepInv(s, moves[0]);
      assert ProcInv(s.disk, moves[0].who, s.procs[moves[0].who]);
      ActUsesACall(s.disk, moves[0].who, s.procs[moves[0].who], moves[0].event);
      WaitFree(Step(s, moves[0]).value, moves[1..], i);
    }
  }

  ghost predicate Undisturbed(moves: seq<Move>, i: nat) {
    forall k :: 0 <= k < |moves| ==> moves[k].who == i && moves[k].event != Fail && moves[k].event != Crash
  }

  lemma FreshInode(used: set<Inode>) returns (n: Inode)
    ensures n !in used
  {
    n := 0;
    var below: set<Inode> := {};
    while n in used
      invariant below <= used
      invariant forall k :: k in below <==> 0 <= k < n
      decreases used - below
    {
      below := below + {n};
      n := n + 1;
    }
  }

  /** A running attempt always has a next call that can succeed. */
  lemma NextCall(d: Disk, me: nat, p: Proc) returns (e: Event)
    requires ProcInv(d, me, p) && !p.pc.Returned? && !p.pc.Crashed?
    ensures e != Fail && e != Crash && Act(d, me, p, e).Some?
    ensures Act(d, me, p, e).value.proc.faulted == p.faulted
    ensures !Act(d, me, p, e).value.proc.pc.Crashed?
  {
    e := Proceed;
    match p.pc {
      case CreateTemp =>
        var file := FreshInode(d.data.Keys);
        e := Create(file);
      case WriteTemp(_, written) =>
        if written < |p.bytes| { e := Chunk(|p.bytes| - written); }
      case ReadTarget(_, from, buffer) =>
        var end := Min(|d.data[from]|, p.maxBytes + 1);
        if |buffer| < end { e := Chunk(end - |buffer|); }
      case _ =>
    }
  }

  /** Left alone, an attempt returns. */
  lemma {:induction false} RunsToReturn(s: System, i: nat) returns (moves: seq<Move>, t: System)
    requires Inv(s) && i < |s.procs| && !s.procs[i].pc.Crashed?
    ensures Undisturbed(moves, i) && Run(s, moves) == Some(t)
    ensures i < |t.procs| && t.procs[i].pc.Returned? && t.procs[i].faulted == s.procs[i].faulted
    ensures t.disk.winner == s.disk.winner || t.disk.winner == Some(i)
    decreases CallsLeft(s.procs[i])
  {
    if s.procs[i].pc.Returned? {
      moves, t := [], s;
    } else {
      assert ProcInv(s.disk, i, s.procs[i]);
      var e := NextCall(s.disk, i, s.procs[i]);
      var move := Move(i, e);
      ActUsesACall(s.disk, i, s.procs[i], e);
      StepInv(s, move);
      ActGuarantee(s, move);
      var rest;
      rest, t := RunsToReturn(Step(s, move).value, i);
      moves := [move] + rest;
      assert moves[1..] == rest;
    }
  }

  /** A retry, started in any reachable state (in particular after any crash) and left
      alone, returns; it succeeds exactly when nothing was published yet, or the published
      payload is its own and fits the limit. */
  lemma RetryOutcome(s: System, i: nat) returns (moves: seq<Move>, t: System)
    requires Reachable(s) && i < |s.procs|
    requires s.procs[i].pc == StatTarget(Probe) && !s.procs[i].faulted
    ensures Undisturbed(moves, i) && Run(s, moves) == Some(t) && SameAttempts(s, t)
    ensures t.procs[i].pc.Returned?
    ensures t.procs[i].pc.outcome == Published
            <==> !s.disk.Bound()
                 || (s.disk.Content() == s.procs[i].bytes && |s.procs[i].bytes| <= s.procs[i].maxBytes)
    ensures Temp(i) !in t.disk.dir
  {
    ReachableInv(s);
    assert ProcInv(s.disk, i, s.procs[i]);
    moves, t := RunsToReturn(s, i);
    RunInv(s, moves);
    TempLeft(s, moves, i);
    UndisturbedRemoves(s, moves, i);
    assert ProcInv(t.disk, i, t.procs[i]);
  }

  // ----- a retry that fails -----

  lemma {:induction false} OthersLeaveTemp(me: nat, s: System, moves: seq<Move>)
    requires Inv(s) && Run(s, moves).Some?
    requires forall k :: 0 <= k < |moves| ==> moves[k].who != me
    ensures Temp(me) in Run(s, moves).value.disk.dir <==> Temp(me) in s.disk.dir
    decreases |moves|
  {
    if moves != [] {
      StepInv(s, moves[0]);
      ActGuarantee(s, moves[0]);
      OthersLeaveTemp(me, Step(s, moves[0]).value, moves[1..]);
    }
  }

  lemma {:induction false} OthersLeaveMe(me: nat, s: System, moves: seq<Move>)
    requires me < |s.procs| && Run(s, moves).Some?
    requires forall k :: 0 <= k < |moves| ==> moves[k].who != me
    ensures me < |Run(s, moves).value.procs| && Run(s, moves).value.procs[me] == s.procs[me]
    decreases |moves|
  {
    if moves != [] {
      OthersLeaveMe(me, Step(s, moves[0]).value, moves[1..]);
    }
  }

  /** Two attempts with the same one-byte payload and a limit of zero bytes: the first one
      publishes it, and the retry of the second one finds it and still does not succeed. */
  lemma OversizedRetryFails() returns (first: seq<Move>, s: System, retry: seq<Move>, t: System)
    ensures var p := Proc([7], 0, StatTarget(Probe), false);
            Run(System(Disk(map[], map[], None), [p, p]), first) == Some(s)
    ensures |s.procs| == 2 && s.procs[0].pc == Returned(Published) && s.disk.Bound() && s.disk.Content() == [7]
    ensures s.procs[1] == Proc([7], 0, StatTarget(Probe), false)
    ensures Undisturbed(retry, 1) && Run(s, retry) == Some(t) && |t.procs| == 2
    ensures t.procs[1].pc.Returned? && t.procs[1].pc.outcome != Published
  {
    var p := Proc([7], 0, StatTarget(Probe), false);
    var origin := System(Disk(map[], map[], None), [p, p]);
    InitInv(origin);
    first, s := RunsToReturn(origin, 0);
    RunInv(origin, first);
    OthersLeaveMe(1, origin, first);
    assert ProcInv(s.disk, 0, s.procs[0]);
    retry, t := RetryOutcome(s, 1);
  }
}
