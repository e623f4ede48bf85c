/** The write-once publication protocol of file channels as a step machine.

    Any number of attempts run `publish_staged` against one path. Every system call is one
    step; reads and writes advance in chunks of any size; any call may fail and any attempt
    may die between two calls. Temporary names are unique per attempt and only attempts
    write the directory. */
module PublishProtocol {
  import opened Wrappers

  type Bytes = seq<bv8>
  type Inode = nat

  datatype Name = Target | Temp(attempt: nat)

  /** The directory, the contents of every inode, and (as history) which attempt linked
      the target. */
  datatype Disk = Disk(dir: map<Name, Inode>, data: map<Inode, Bytes>, winner: Option<nat>) {
    ghost predicate Bound() { Target in dir && dir[Target] in data }

    ghost function Content(): Bytes
      requires Bound()
    {
      data[dir[Target]]
    }
  }

  datatype Reason = IoError | Conflict | TooLarge

  datatype Outcome = Published | BeforeLink(why: Reason) | Visible(why: Reason)

  /** The target is read twice: before staging, and again when the link finds it taken. */
  datatype Purpose = Probe | Compare

  datatype Pc =
    | StatTarget(purpose: Purpose)
    | OpenTarget(purpose: Purpose, expected: Inode)
    | ReadTarget(purpose: Purpose, from: Inode, buffer: Bytes)
    | MakeDirectory
    | CreateTemp
    | WriteTemp(file: Inode, written: nat)
    | SyncTemp(file: Inode)
    | LinkTemp(file: Inode)
    | SyncDirectory
    | RemoveTemp(outcome: Outcome)
    | Returned(outcome: Outcome)
    | Crashed

  /** One publish attempt. `faulted` records that some call of this attempt failed with an
      I/O error. */
  datatype Proc = Proc(bytes: Bytes, maxBytes: nat, pc: Pc, faulted: bool)

  /** What the environment decides about the next call of an attempt. */
  datatype Event =
    | Proceed            // the call returns; its result follows from the disk
    | Fail               // the call fails with an I/O error
    | Create(file: Inode) // exclusive creation hands out this inode
    | Chunk(count: nat)  // a read or write moves this many bytes
    | Crash

  datatype Effect = Effect(disk: Disk, proc: Proc)

  datatype System = System(disk: Disk, procs: seq<Proc>)

  datatype Move = Move(who: nat, event: Event)

  function Min(a: nat, b: nat): nat { if a <= b then a else b }

  /** Where a failed read of the target leads: before staging it is ignored, after a taken
      link it is reported. */
  function AfterUnreadable(p: Proc, purpose: Purpose, why: Reason): Proc {
    match purpose
    case Probe => p.(pc := MakeDirectory)
    case Compare => p.(pc := RemoveTemp(Visible(why)))
  }

  function AfterRead(p: Proc, purpose: Purpose, bytes: Bytes): Proc {
    match purpose
    case Probe => p.(pc := Returned(if bytes == p.bytes then Published else Visible(Conflict)))
    case Compare => p.(pc := if bytes == p.bytes then SyncDirectory else RemoveTemp(Visible(Conflict)))
  }

  function ReadStep(d: Disk, p: Proc, e: Event): Option<Effect>
    requires p.pc.StatTarget? || p.pc.OpenTarget? || p.pc.ReadTarget?
  {
    var purpose := p.pc.purpose;
    if e == Fail then
      Some(Effect(d, AfterUnreadable(p.(faulted := true), purpose, IoError)))
    else match p.pc
      case StatTarget(_) =>
        if e != Proceed then None
        else if Target !in d.dir || d.dir[Target] !in d.data then
          Some(Effect(d, AfterUnreadable(p, purpose, IoError)))
        else if |d.data[d.dir[Target]]| > p.maxBytes then
          Some(Effect(d, AfterUnreadable(p, purpose, TooLarge)))
        else
          Some(Effect(d, p.(pc := OpenTarget(purpose, d.dir[Target]))))
      case OpenTarget(_, expected) =>
        if e != Proceed then None
        else if Target !in d.dir || d.dir[Target] != expected then
          Some(Effect(d, AfterUnreadable(p, purpose, IoError)))
        else
          Some(Effect(d, p.(pc := ReadTarget(purpose, expected, []))))
      case ReadTarget(_, from, buffer) =>
        if from !in d.data then None else
        var end := Min(|d.data[from]|, p.maxBytes + 1);
        if e.Chunk? && e.count > 0 && |buffer| + e.count <= end then
          Some(Effect(d, p.(pc := ReadTarget(purpose, from,
            buffer + d.data[from][|buffer|..|buffer| + e.count]))))
        else if e == Proceed && |buffer| == end then
          if |buffer| > p.maxBytes then
            Some(Effect(d, AfterUnreadable(p, purpose, TooLarge)))
          else
            Some(Effect(d, AfterRead(p, purpose, buffer)))
        else None
  }

  function Refuse(p: Proc): Proc {
    p.(pc := RemoveTemp(BeforeLink(IoError)), faulted := true)
  }

  /** One system call of attempt `me`, or None when the event cannot happen here. */
  function Act(d: Disk, me: nat, p: Proc, e: Event): Option<Effect> {
    if p.pc.Returned? || p.pc.Crashed? then None
    else if e == Crash then Some(Effect(d, p.(pc := Crashed)))
    else match p.pc
      case StatTarget(_) => ReadStep(d, p, e)
      case OpenTarget(_, _) => ReadStep(d, p, e)
      case ReadTarget(_, _, _) => ReadStep(d, p, e)
      case MakeDirectory =>
        if e == Fail then Some(Effect(d, p.(pc := Returned(BeforeLink(IoError)), faulted := true)))
        else if e == Proceed then Some(Effect(d, p.(pc := CreateTemp)))
        else None
      case CreateTemp =>
        if e == Fail then Some(Effect(d, Refuse(p)))
        else if e.Create? && e.file !in d.data && Temp(me) !in d.dir then
          Some(Effect(d.(dir := d.dir[Temp(me) := e.file], data := d.data[e.file := []]),
                      p.(pc := WriteTemp(e.file, 0))))
        else None
      case WriteTemp(file, written) =>
        if e == Fail then Some(Effect(d, Refuse(p)))
        else if e.Chunk? && e.count > 0 && written + e.count <= |p.bytes| && file in d.data then
          Some(Effect(d.(data := d.data[file := d.data[file] + p.bytes[written..written + e.count]]),
                      p.(pc := WriteTemp(file, written + e.count))))
        else if e == Proceed && written == |p.bytes| then Some(Effect(d, p.(pc := SyncTemp(file))))
        else None
      case SyncTemp(file) =>
        if e == Fail then Some(Effect(d, Refuse(p)))
        else if e == Proceed then Some(Effect(d, p.(pc := LinkTemp(file))))
        else None
      case LinkTemp(_) =>
        if e == Fail then Some(Effect(d, Refuse(p)))
        else if e != Proceed || Temp(me) !in d.dir then None
        else if Target in d.dir then Some(Effect(d, p.(pc := StatTarget(Compare))))
        else Some(Effect(d.(dir := d.dir[Target := d.dir[Temp(me)]], winner := Some(me)),
                         p.(pc := SyncDirectory)))
      case SyncDirectory =>
        if e == Fail then Some(Effect(d, p.(pc := RemoveTemp(Visible(IoError)), faulted := true)))
        else if e == Proceed then Some(Effect(d, p.(pc := RemoveTemp(Published))))
        else None
      case RemoveTemp(outcome) =>
        if e == Fail then Some(Effect(d, p.(pc := Returned(outcome))))
        else if e == Proceed then Some(Effect(d.(dir := d.dir - {Temp(me)}), p.(pc := Returned(outcome))))
        else None
  }

  function Step(s: System, m: Move): Option<System> {
    if m.who >= |s.procs| then None
    else match Act(s.disk, m.who, s.procs[m.who], m.event)
      case None => None
      case Some(effect) => Some(System(effect.disk, s.procs[m.who := effect.proc]))
  }

  /** The state after a whole interleaving, or None if some move cannot happen. */
  function Run(s: System, moves: seq<Move>): Option<System>
    decreases |moves|
  {
    if moves == [] then Some(s)
    else match Step(s, moves[0])
      case None => None
      case Some(next) => Run(next, moves[1..])
  }

  /** An empty directory and attempts that have not started. */
  ghost predicate Init(s: System) {
    && s.disk == Disk(map[], map[], None)
    && forall i :: 0 <= i < |s.procs| ==> s.procs[i].pc == StatTarget(Probe) && !s.procs[i].faulted
  }

  // ----- the invariant -----

  ghost predicate BeforeCreate(pc: Pc) {
    pc.MakeDirectory? || pc.CreateTemp?
    || ((pc.StatTarget? || pc.OpenTarget? || pc.ReadTarget?) && pc.purpose == Probe)
  }

  ghost predicate Comparing(pc: Pc) {
    (pc.StatTarget? || pc.OpenTarget? || pc.ReadTarget?) && pc.purpose == Compare
  }

  ghost predicate HoldsTemp(pc: Pc) {
    pc.WriteTemp? || pc.SyncTemp? || pc.LinkTemp?
  }

  ghost predicate WrittenSoFar(p: Proc, content: Bytes)
    requires HoldsTemp(p.pc)
  {
    if p.pc.WriteTemp? then p.pc.written <= |p.bytes| && content == p.bytes[..p.pc.written]
    else content == p.bytes
  }

  /** What an outcome claims about the disk. */
  ghost predicate OutcomeHolds(d: Disk, me: nat, p: Proc, o: Outcome) {
    match o
    case Published =>
      && d.Bound() && d.Content() == p.bytes
      && (|p.bytes| <= p.maxBytes || d.winner == Some(me))
    case BeforeLink(_) => d.winner != Some(me) && p.faulted
    case Visible(Conflict) => d.Bound() && d.Content() != p.bytes && d.winner != Some(me)
    case Visible(TooLarge) => d.Bound() && |d.Content()| > p.maxBytes && d.winner != Some(me)
    case Visible(IoError) => p.faulted && d.Bound()
  }

  /** What one attempt may rely on at its current call. */
  ghost predicate ProcInv(d: Disk, me: nat, p: Proc) {
    && (BeforeCreate(p.pc) ==> Temp(me) !in d.dir && d.winner != Some(me))
    && (Comparing(p.pc) ==> d.Bound() && d.winner != Some(me))
    && (p.pc.OpenTarget? ==> d.Bound() && d.dir[Target] == p.pc.expected)
    && (p.pc.ReadTarget? ==>
          && d.Bound() && d.dir[Target] == p.pc.from && p.pc.buffer <= d.Content()
          && |p.pc.buffer| <= p.maxBytes + 1)
    && (HoldsTemp(p.pc) ==>
          && Temp(me) in d.dir && d.dir[Temp(me)] == p.pc.file && p.pc.file in d.data
          && d.winner != Some(me) && WrittenSoFar(p, d.data[p.pc.file]))
    && (p.pc.SyncDirectory? ==> OutcomeHolds(d, me, p, Published))
    && (p.pc.RemoveTemp? || p.pc.Returned? ==> OutcomeHolds(d, me, p, p.pc.outcome))
  }

  /** The shape of the directory: one inode per temporary name, and the target names the
      winner's inode, holding the winner's whole payload. */
  ghost predicate DiskInv(s: System) {
    var d := s.disk;
    && (forall n :: n in d.dir ==> d.dir[n] in d.data)
    && (forall i: nat, j: nat :: Temp(i) in d.dir && Temp(j) in d.dir && i != j ==> d.dir[Temp(i)] != d.dir[Temp(j)])
    && (Target in d.dir <==> d.winner.Some?)
    && (d.winner.Some? ==>
          && d.winner.value < |s.procs|
          && d.data[d.dir[Target]] == s.procs[d.winner.value].bytes)
    && (forall i: nat :: Target in d.dir && Temp(i) in d.dir && d.dir[Temp(i)] == d.dir[Target] ==> d.winner == Some(i))
  }

  ghost predicate Inv(s: System) {
    && DiskInv(s)
    && forall i :: 0 <= i < |s.procs| ==> ProcInv(s.disk, i, s.procs[i])
  }

  /** From `d` on the target keeps its inode, its content and its winner. */
  ghost predicate Stable(d: Disk, d': Disk) {
    && (d.Bound() ==> d'.Bound() && d'.dir[Target] == d.dir[Target] && d'.Content() == d.Content())
    && (d.winner.Some? ==> d'.winner == d.winner)
  }

  /** What a step of `me` guarantees to every other attempt. */
  ghost predicate Guarantee(d: Disk, me: nat, d': Disk) {
    && Stable(d, d')
    && (d'.winner == d.winner || d'.winner == Some(me))
    && (forall i: nat :: i != me ==> (Temp(i) in d'.dir <==> Temp(i) in d.dir))
    && (forall i: nat :: i != me && Temp(i) in d.dir && d.dir[Temp(i)] in d.data ==>
          && d'.dir[Temp(i)] == d.dir[Temp(i)]
          && d'.dir[Temp(i)] in d'.data && d'.data[d'.dir[Temp(i)]] == d.data[d.dir[Temp(i)]])
  }

  lemma InitInv(s: System)
    requires Init(s)
    ensures Inv(s)
  {
  }

  /** The key invariant: a call writes only its own inode, which is not the linked one. */
  lemma ActGuarantee(s: System, m: Move)
    requires Inv(s) && Step(s, m).Some?
    ensures Guarantee(s.disk, m.who, Step(s, m).value.disk)
  {
    assert ProcInv(s.disk, m.who, s.procs[m.who]);
  }

  lemma ActDiskInv(s: System, m: Move)
    requires Inv(s) && Step(s, m).Some?
    ensures DiskInv(Step(s, m).value)
  {
    assert ProcInv(s.disk, m.who, s.procs[m.who]);
  }

  lemma ActReadInv(d: Disk, me: nat, p: Proc, e: Event)
    requires p.pc.StatTarget? || p.pc.OpenTarget? || p.pc.ReadTarget?
    requires ProcInv(d, me, p) && (Target in d.dir ==> d.Bound()) && Act(d, me, p, e).Some?
    ensures Act(d, me, p, e).value.disk == d && ProcInv(d, me, Act(d, me, p, e).value.proc)
  {
    if p.pc.ReadTarget? && e.Chunk? {
      var got := d.data[p.pc.from];
      assert p.pc.buffer == got[..|p.pc.buffer|];
      assert p.pc.buffer + got[|p.pc.buffer|..|p.pc.buffer| + e.count] == got[..|p.pc.buffer| + e.count];
    } else if p.pc.ReadTarget? && e == Proceed && |p.pc.buffer| <= p.maxBytes {
      assert p.pc.buffer == d.Content();
    }
  }

  lemma ActStageInv(d: Disk, me: nat, p: Proc, e: Event)
    requires p.pc.MakeDirectory? || p.pc.CreateTemp? || p.pc.WriteTemp? || p.pc.SyncTemp?
    requires ProcInv(d, me, p) && Act(d, me, p, e).Some?
    ensures var r := Act(d, me, p, e).value; ProcInv(r.disk, me, r.proc)
  {
    if p.pc.WriteTemp? && e.Chunk? {
      var k := p.pc.written;
      assert p.bytes[..k] + p.bytes[k..k + e.count] == p.bytes[..k + e.count];
    }
  }

  lemma ActTailInv(d: Disk, me: nat, p: Proc, e: Event)
    requires p.pc.LinkTemp? || p.pc.SyncDirectory? || p.pc.RemoveTemp?
    requires ProcInv(d, me, p) && (Target in d.dir ==> d.Bound()) && Act(d, me, p, e).Some?
    ensures var r := Act(d, me, p, e).value; ProcInv(r.disk, me, r.proc)
  {
    var r := Act(d, me, p, e).value;
    if p.pc.RemoveTemp? && e == Proceed {
      assert d.Bound() ==> r.disk.Bound() && r.disk.Content() == d.Content();
      assert OutcomeHolds(r.disk, me, r.proc, p.pc.outcome);
    }
  }

  lemma ActProcInv(s: System, m: Move)
    requires Inv(s) && Step(s, m).Some?
    ensures var s' := Step(s, m).value; ProcInv(s'.disk, m.who, s'.procs[m.who])
  {
    var p := s.procs[m.who];
    assert ProcInv(s.disk, m.who, p);
    match p.pc {
      case StatTarget(_) | OpenTarget(_, _) | ReadTarget(_, _, _) =>
        if m.event != Crash { ActReadInv(s.disk, m.who, p, m.event); }
      case MakeDirectory | CreateTemp | WriteTemp(_, _) | SyncTemp(_) =>
        ActStageInv(s.disk, m.who, p, m.event);
      case LinkTemp(_) | SyncDirectory | RemoveTemp(_) =>
        ActTailInv(s.disk, m.who, p, m.event);
    }
  }

  lemma OthersKeep(d: Disk, me: nat, d': Disk, i: nat, p: Proc)
    requires Guarantee(d, me, d') && i != me && ProcInv(d, i, p)
    ensures ProcInv(d', i, p)
  {
  }

  lemma StepInv(s: System, m: Move)
    requires Inv(s) && Step(s, m).Some?
    ensures Inv(Step(s, m).value)
    ensures Stable(s.disk, Step(s, m).value.disk)
  {
    var s' := Step(s, m).value;
    ActGuarantee(s, m);
    ActDiskInv(s, m);
    ActProcInv(s, m);
    forall i | 0 <= i < |s'.procs|
      ensures ProcInv(s'.disk, i, s'.procs[i])
    {
      if i != m.who { OthersKeep(s.disk, m.who, s'.disk, i, s.procs[i]); }
    }
  }
}
