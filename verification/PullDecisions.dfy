/** What a file-channel pull decides for each input, and what those decisions add up to over
    a whole pull and between pulls. */
module PullDecisions {
  import opened Wrappers
  import opened Evidence

  /** The identity of a message: its local id is a digest of this pair. */
  datatype Key = Key(source: Bytes, external: Bytes)

  datatype PublishResult = Published | FailedBeforeLink | FailedVisible

  /** What fails while one input is processed. */
  datatype Faults = Faults(evidenceReadable: bool, materialized: bool, metadataWritten: bool,
                           publish: PublishResult, artifactsWritten: bool)

  const NO_FAULTS := Faults(true, true, true, Published, true)

  /** The parts of the world a pull depends on: how native JSON is read (giving its external
      id), the clock, and failures, by position of the input. */
  datatype Env = Env(native: Bytes -> Option<Bytes>, timestamp: nat -> Bytes, faults: nat -> Faults)

  /** An inbox file of a source, with the content a read finds. */
  datatype Item = Item(source: Bytes, maxMessageBytes: nat, path: string, file: Option<Bytes>)

  datatype State = State(evidence: map<Key, Bytes>, remainingCount: nat, remainingBytes: nat)

  datatype Reason = CountBudget | BytesBudget

  datatype Warning =
    | Unreadable | Invalid | EvidenceUnreadable | Conflict | NotMaterialized | MetadataFailed
    | PublishFailed(visible: bool) | ArtifactsFailed(size: nat)

  datatype Outcome =
    | Merged | Skipped(reason: Reason, size: nat) | DryAccepted(size: nat) | Imported(size: nat) | Warned(warning: Warning)

  datatype Step = Step(state: State, outcome: Outcome)

  const INBOUND: Bytes := Ascii("inbound")

  function KeyOf(env: Env, item: Item): Option<Key> {
    if item.file.None? || |item.file.value| > item.maxMessageBytes then None
    else match env.native(item.file.value)
      case None => None
      case Some(external) => Some(Key(item.source, external))
  }

  function NewEvidence(env: Env, item: Item, n: nat): Bytes
    requires item.file.Some?
  {
    Encode(LAYOUT, Stored(item.source, INBOUND, env.timestamp(n), item.file.value))
  }

  /** An identity that is already known: the same bytes merge, others conflict. */
  function Revisit(item: Item, known: Bytes, readable: bool): Outcome
    requires item.file.Some?
  {
    if !readable || |known| > ReadLimit(item.maxMessageBytes) then Warned(EvidenceUnreadable)
    else match Decode(LAYOUT, known)
      case None => Warned(EvidenceUnreadable)
      case Some(stored) =>
        if stored.sourceId != item.source || stored.content != item.file.value then Warned(Conflict) else Merged
  }

  /** A new identity within the budget is written step by step. */
  function Import(env: Env, st: State, item: Item, key: Key, n: nat): Step
    requires item.file.Some? && st.remainingCount > 0 && |item.file.value| <= st.remainingBytes
  {
    var size, faults := |item.file.value|, env.faults(n);
    var written := st.(evidence := st.evidence[key := NewEvidence(env, item, n)]);
    if !faults.materialized then Step(st, Warned(NotMaterialized))
    else if !faults.metadataWritten then Step(st, Warned(MetadataFailed))
    else match faults.publish
      case FailedBeforeLink => Step(st, Warned(PublishFailed(false)))
      case FailedVisible => Step(written, Warned(PublishFailed(true)))
      case Published =>
        Step(written.(remainingCount := st.remainingCount - 1, remainingBytes := st.remainingBytes - size),
             if faults.artifactsWritten then Imported(size) else Warned(ArtifactsFailed(size)))
  }

  /** One input. */
  function Visit(env: Env, dry: bool, st: State, item: Item, n: nat): Step {
    if item.file.None? || |item.file.value| > item.maxMessageBytes then Step(st, Warned(Unreadable))
    else if KeyOf(env, item).None? then Step(st, Warned(Invalid))
    else
      var key, size := KeyOf(env, item).value, |item.file.value|;
      if key in st.evidence then Step(st, Revisit(item, st.evidence[key], env.faults(n).evidenceReadable))
      else if st.remainingCount == 0 then Step(st, Skipped(CountBudget, size))
      else if size > st.remainingBytes then Step(st, Skipped(BytesBudget, size))
      else if dry then
        Step(st.(remainingCount := st.remainingCount - 1, remainingBytes := st.remainingBytes - size), DryAccepted(size))
      else Import(env, st, item, key, n)
  }

  datatype Log = Log(state: State, trace: seq<Outcome>)

  /** All inputs in order. */
  function Fold(env: Env, dry: bool, start: State, items: seq<Item>): (r: Log)
    ensures |r.trace| == |items|
  {
    if items == [] then Log(start, []) else
      var before := Fold(env, dry, start, items[..|items| - 1]);
      var step := Visit(env, dry, before.state, items[|items| - 1], |items| - 1);
      Log(step.state, before.trace + [step.outcome])
  }

  /** The state in which input `i` is reached. */
  function Reached(env: Env, dry: bool, start: State, items: seq<Item>, i: nat): State
    requires i <= |items|
  {
    Fold(env, dry, start, items[..i]).state
  }

  lemma FoldStep(env: Env, dry: bool, start: State, items: seq<Item>, i: nat)
    requires i < |items|
    ensures var step := Visit(env, dry, Reached(env, dry, start, items, i), items[i], i);
            && Reached(env, dry, start, items, i + 1) == step.state
            && Fold(env, dry, start, items[..i + 1]).trace == Fold(env, dry, start, items[..i]).trace + [step.outcome]
  {
    assert items[..i + 1][..i] == items[..i];
  }

  lemma {:induction false} TracePrefix(env: Env, dry: bool, start: State, items: seq<Item>, i: nat)
    requires i <= |items|
    ensures Fold(env, dry, start, items[..i]).trace == Fold(env, dry, start, items).trace[..i]
    decreases |items| - i
  {
    if i == |items| {
      assert items[..i] == items;
    } else {
      FoldStep(env, dry, start, items, i);
      TracePrefix(env, dry, start, items, i + 1);
      var before, all := Fold(env, dry, start, items[..i]).trace, Fold(env, dry, start, items).trace;
      assert all[..i + 1][..i] == all[..i];
      assert Fold(env, dry, start, items[..i + 1]).trace[..i] == before;
    }
  }

  /** Every decision is the decision for that input in the state in which it is reached. */
  lemma TraceAt(env: Env, dry: bool, start: State, items: seq<Item>, i: nat)
    requires i < |items|
    ensures Fold(env, dry, start, items).trace[i] == Visit(env, dry, Reached(env, dry, start, items, i), items[i], i).outcome
  {
    FoldStep(env, dry, start, items, i);
    TracePrefix(env, dry, start, items, i + 1);
  }

  // ----- budgets -----

  predicate Consumes(o: Outcome) { o.DryAccepted? || o.Imported? || (o.Warned? && o.warning.ArtifactsFailed?) }

  function SizeOf(o: Outcome): nat {
    match o
    case DryAccepted(size) => size
    case Imported(size) => size
    case Warned(ArtifactsFailed(size)) => size
    case _ => 0
  }

  function Count(p: Outcome -> bool, trace: seq<Outcome>): nat {
    if trace == [] then 0
    else Count(p, trace[..|trace| - 1]) + if p(trace[|trace| - 1]) then 1 else 0
  }

  function TotalSize(trace: seq<Outcome>): nat {
    if trace == [] then 0 else TotalSize(trace[..|trace| - 1]) + SizeOf(trace[|trace| - 1])
  }

  lemma ImportBudget(env: Env, st: State, item: Item, key: Key, n: nat)
    requires item.file.Some? && st.remainingCount > 0 && |item.file.value| <= st.remainingBytes
    ensures var step := Import(env, st, item, key, n);
            && step.state.remainingCount + (if Consumes(step.outcome) then 1 else 0) == st.remainingCount
            && step.state.remainingBytes + SizeOf(step.outcome) == st.remainingBytes
  {
  }

  lemma RevisitIsFree(item: Item, known: Bytes, readable: bool)
    requires item.file.Some?
    ensures !Consumes(Revisit(item, known, readable)) && SizeOf(Revisit(item, known, readable)) == 0
  {
  }

  lemma VisitBudget(env: Env, dry: bool, st: State, item: Item, n: nat)
    ensures var step := Visit(env, dry, st, item, n);
            && step.state.remainingCount + (if Consumes(step.outcome) then 1 else 0) == st.remainingCount
            && step.state.remainingBytes + SizeOf(step.outcome) == st.remainingBytes
  {
    if KeyOf(env, item).Some? {
      var key, size := KeyOf(env, item).value, |item.file.value|;
      if key in st.evidence {
        RevisitIsFree(item, st.evidence[key], env.faults(n).evidenceReadable);
      } else if st.remainingCount > 0 && size <= st.remainingBytes && !dry {
        ImportBudget(env, st, item, key, n);
      }
    }
  }

  /** Budgets never underflow, and what is consumed is exactly the accepted inputs: in a real
      run those whose evidence was reported published. */
  lemma {:induction false} BudgetIsConserved(env: Env, dry: bool, start: State, items: seq<Item>)
    ensures var r := Fold(env, dry, start, items);
            && r.state.remainingCount + Count(Consumes, r.trace) == start.remainingCount
            && r.state.remainingBytes + TotalSize(r.trace) == start.remainingBytes
    decreases |items|
  {
    if items != [] {
      BudgetIsConserved(env, dry, start, items[..|items| - 1]);
      VisitBudget(env, dry, Fold(env, dry, start, items[..|items| - 1]).state, items[|items| - 1], |items| - 1);
      var before, r := Fold(env, dry, start, items[..|items| - 1]), Fold(env, dry, start, items);
      assert r.trace[..|items| - 1] == before.trace;
    }
  }

  predicate VisibleFailure(o: Outcome) { o == Warned(PublishFailed(true)) }

  ghost predicate Keeps(before: map<Key, Bytes>, after: map<Key, Bytes>) {
    forall k :: k in before ==> k in after && after[k] == before[k]
  }

  lemma ImportEvidence(env: Env, st: State, item: Item, key: Key, n: nat)
    requires item.file.Some? && st.remainingCount > 0 && |item.file.value| <= st.remainingBytes && key !in st.evidence
    ensures var step := Import(env, st, item, key, n);
            && Keeps(st.evidence, step.state.evidence)
            && |step.state.evidence|
               == |st.evidence| + (if Consumes(step.outcome) || VisibleFailure(step.outcome) then 1 else 0)
  {
  }

  lemma RevisitIsNoPublication(item: Item, known: Bytes, readable: bool)
    requires item.file.Some?
    ensures !VisibleFailure(Revisit(item, known, readable)) && !Revisit(item, known, readable).Skipped?
  {
  }

  lemma VisitEvidence(env: Env, dry: bool, st: State, item: Item, n: nat)
    ensures var step := Visit(env, dry, st, item, n);
            && Keeps(st.evidence, step.state.evidence)
            && (dry ==> step.state.evidence == st.evidence)
            && (!dry ==> |step.state.evidence|
                         == |st.evidence| + (if Consumes(step.outcome) || VisibleFailure(step.outcome) then 1 else 0))
  {
    if KeyOf(env, item).Some? {
      var key, size := KeyOf(env, item).value, |item.file.value|;
      if key in st.evidence {
        RevisitIsFree(item, st.evidence[key], env.faults(n).evidenceReadable);
        RevisitIsNoPublication(item, st.evidence[key], env.faults(n).evidenceReadable);
      } else if st.remainingCount > 0 && size <= st.remainingBytes && !dry {
        ImportEvidence(env, st, item, key, n);
      }
    }
  }

  lemma VisitSkips(env: Env, dry: bool, st: State, item: Item, n: nat)
    requires Visit(env, dry, st, item, n).outcome.Skipped?
    ensures var skip := Visit(env, dry, st, item, n).outcome;
            && item.file.Some? && skip.size == |item.file.value|
            && (skip.reason == CountBudget ==> st.remainingCount == 0)
            && (skip.reason == BytesBudget ==> skip.size > st.remainingBytes)
  {
    if KeyOf(env, item).Some? && KeyOf(env, item).value in st.evidence {
      RevisitIsNoPublication(item, st.evidence[KeyOf(env, item).value], env.faults(n).evidenceReadable);
    }
  }

  /** Evidence that was linked although its publication failed later is the only evidence that
      consumed no budget. */
  lemma {:induction false} EvidenceIsCounted(env: Env, start: State, items: seq<Item>)
    ensures var r := Fold(env, false, start, items);
            |r.state.evidence| == |start.evidence| + Count(Consumes, r.trace) + Count(VisibleFailure, r.trace)
    decreases |items|
  {
    if items != [] {
      EvidenceIsCounted(env, start, items[..|items| - 1]);
      VisitEvidence(env, false, Fold(env, false, start, items[..|items| - 1]).state, items[|items| - 1], |items| - 1);
      var before, r := Fold(env, false, start, items[..|items| - 1]), Fold(env, false, start, items);
      assert r.trace[..|items| - 1] == before.trace;
    }
  }

  /** A new input within the budget whose preparation works is about to be published. */
  predicate ReachesPublication(env: Env, st: State, item: Item, n: nat) {
    && KeyOf(env, item).Some? && KeyOf(env, item).value !in st.evidence
    && st.remainingCount > 0 && |item.file.value| <= st.remainingBytes
    && env.faults(n).materialized && env.faults(n).metadataWritten
  }

  lemma VisitFailsVisibly(env: Env, st: State, item: Item, n: nat)
    ensures VisibleFailure(Visit(env, false, st, item, n).outcome)
            <==> ReachesPublication(env, st, item, n) && env.faults(n).publish == FailedVisible
  {
    if KeyOf(env, item).Some? && KeyOf(env, item).value in st.evidence {
      RevisitIsNoPublication(item, st.evidence[KeyOf(env, item).value], env.faults(n).evidenceReadable);
    }
  }

  /** So the consumed count is the number of new evidence files exactly when, for every input
      that is reached with its publication still to come, that publication does not fail
      after its link. */
  lemma ConsumedIsPublished(env: Env, start: State, items: seq<Item>)
    ensures var r := Fold(env, false, start, items);
            start.remainingCount - r.state.remainingCount == |r.state.evidence| - |start.evidence|
            <==> forall i :: 0 <= i < |items| && ReachesPublication(env, Reached(env, false, start, items, i), items[i], i)
                   ==> env.faults(i).publish != FailedVisible
  {
    var trace := Fold(env, false, start, items).trace;
    BudgetIsConserved(env, false, start, items);
    EvidenceIsCounted(env, start, items);
    CountZero(VisibleFailure, trace);
    forall i | 0 <= i < |items|
      ensures VisibleFailure(trace[i])
              <==> ReachesPublication(env, Reached(env, false, start, items, i), items[i], i)
                   && env.faults(i).publish == FailedVisible
    {
      TraceAt(env, false, start, items, i);
      VisitFailsVisibly(env, Reached(env, false, start, items, i), items[i], i);
    }
  }

  /** An input whose publication fails after its link: one evidence file, nothing consumed. */
  lemma VisibleFailureIsFree()
    ensures var env := Env(raw => Some(raw), _ => [], _ => NO_FAULTS.(publish := FailedVisible));
            var r := Fold(env, false, State(map[], 10, 1000), [Item([], 100, "a.json", Some([]))]).state;
            |r.evidence| == 1 && r.remainingCount == 10 && r.remainingBytes == 1000
  {
    var env := Env(raw => Some(raw), _ => [], _ => NO_FAULTS.(publish := FailedVisible));
    var start, item := State(map[], 10, 1000), Item([], 100, "a.json", Some([]));
    assert [item][..0] == [] && Fold(env, false, start, []).state == start;
    assert Visit(env, false, start, item, 0) == Import(env, start, item, Key([], []), 0);
  }

  lemma {:induction false} CountZero(p: Outcome -> bool, trace: seq<Outcome>)
    ensures Count(p, trace) == 0 <==> forall i :: 0 <= i < |trace| ==> !p(trace[i])
    decreases |trace|
  {
    if trace != [] { CountZero(p, trace[..|trace| - 1]); }
  }

  lemma {:induction false} BudgetsShrink(env: Env, dry: bool, start: State, items: seq<Item>, i: nat, j: nat)
    requires i <= j <= |items|
    ensures Reached(env, dry, start, items, j).remainingCount <= Reached(env, dry, start, items, i).remainingCount
    ensures Reached(env, dry, start, items, j).remainingBytes <= Reached(env, dry, start, items, i).remainingBytes
    decreases j - i
  {
    if i < j {
      FoldStep(env, dry, start, items, j - 1);
      VisitBudget(env, dry, Reached(env, dry, start, items, j - 1), items[j - 1], j - 1);
      BudgetsShrink(env, dry, start, items, i, j - 1);
    }
  }

  /** A skipped input failed the budget test when it was reached; after a skip for the count
      nothing more is accepted, and after a skip for the size only smaller inputs are. */
  lemma SkipsAreJustified(env: Env, dry: bool, start: State, items: seq<Item>, i: nat, j: nat)
    requires i <= j < |items| && Fold(env, dry, start, items).trace[i].Skipped?
    ensures var skip := Fold(env, dry, start, items).trace[i];
            var later := Fold(env, dry, start, items).trace[j];
            && items[i].file.Some? && skip.size == |items[i].file.value|
            && (skip.reason == CountBudget ==> Reached(env, dry, start, items, i).remainingCount == 0 && !Consumes(later))
            && (skip.reason == BytesBudget ==>
                  && skip.size > Reached(env, dry, start, items, i).remainingBytes
                  && (Consumes(later) ==> SizeOf(later) < skip.size))
  {
    TraceAt(env, dry, start, items, i);
    TraceAt(env, dry, start, items, j);
    BudgetsShrink(env, dry, start, items, i, j);
    VisitSkips(env, dry, Reached(env, dry, start, items, i), items[i], i);
    VisitBudget(env, dry, Reached(env, dry, start, items, j), items[j], j);
  }

  // ----- evidence is written once -----

  /** No pull, real or dry, whatever fails, changes or removes evidence. */
  lemma {:induction false} EvidenceIsWriteOnce(env: Env, dry: bool, start: State, items: seq<Item>, i: nat)
    requires i <= |items|
    ensures Keeps(Reached(env, dry, start, items, i).evidence, Fold(env, dry, start, items).state.evidence)
    decreases |items| - i
  {
    if i == |items| {
      assert items[..i] == items;
    } else {
      FoldStep(env, dry, start, items, i);
      VisitEvidence(env, dry, Reached(env, dry, start, items, i), items[i], i);
      EvidenceIsWriteOnce(env, dry, start, items, i + 1);
    }
  }

  /** These evidence bytes read back as this source and this input. */
  ghost predicate Records(known: Bytes, item: Item) {
    && item.file.Some? && |known| <= ReadLimit(item.maxMessageBytes)
    && Decode(LAYOUT, known).Some?
    && Decode(LAYOUT, known).value.sourceId == item.source && Decode(LAYOUT, known).value.content == item.file.value
  }

  /** The input's identity is bound to the input's own bytes. */
  ghost predicate Bound(env: Env, evidence: map<Key, Bytes>, item: Item) {
    && KeyOf(env, item).Some? && KeyOf(env, item).value in evidence
    && Records(evidence[KeyOf(env, item).value], item)
  }

  /** Decisions after which the input's bytes are on record. */
  predicate Landed(o: Outcome) {
    o.Merged? || o.Imported? || o == Warned(PublishFailed(true)) || (o.Warned? && o.warning.ArtifactsFailed?)
  }

  /** Bounds that configuration validation and the clock give. */
  ghost predicate ValidItem(item: Item) { |item.source| <= 128 && item.maxMessageBytes <= MAX_MESSAGE_LIMIT }

  ghost predicate ValidClock(env: Env) { forall n :: |env.timestamp(n)| <= 64 }

  lemma NewEvidenceRecords(env: Env, item: Item, n: nat)
    requires ValidItem(item) && ValidClock(env) && item.file.Some? && |item.file.value| <= item.maxMessageBytes
    ensures Records(NewEvidence(env, item, n), item)
  {
    var stored := Stored(item.source, INBOUND, env.timestamp(n), item.file.value);
    assert |INBOUND| == 7;
    EvidenceFits(stored, item.maxMessageBytes);
    DecodeEncode(LAYOUT, stored);
  }

  /** Merging is exactly finding the input on record. */
  lemma RevisitIs(item: Item, known: Bytes)
    requires item.file.Some?
    ensures Revisit(item, known, true) == Merged <==> Records(known, item)
    ensures !Revisit(item, known, true).Imported? && !Revisit(item, known, true).DryAccepted?
  {
  }

  lemma ImportBinds(env: Env, st: State, item: Item, key: Key, n: nat)
    requires item.file.Some? && st.remainingCount > 0 && |item.file.value| <= st.remainingBytes
    requires Landed(Import(env, st, item, key, n).outcome)
    ensures Import(env, st, item, key, n).state.evidence == st.evidence[key := NewEvidence(env, item, n)]
  {
  }

  lemma RevisitLands(item: Item, known: Bytes, readable: bool)
    requires item.file.Some? && Landed(Revisit(item, known, readable))
    ensures Revisit(item, known, true) == Merged
  {
  }

  lemma VisitBinds(env: Env, dry: bool, st: State, item: Item, n: nat)
    requires ValidItem(item) && ValidClock(env) && Landed(Visit(env, dry, st, item, n).outcome)
    ensures Bound(env, Visit(env, dry, st, item, n).state.evidence, item)
  {
    var key := KeyOf(env, item).value;
    if key in st.evidence {
      RevisitLands(item, st.evidence[key], env.faults(n).evidenceReadable);
      RevisitIs(item, st.evidence[key]);
    } else {
      ImportBinds(env, st, item, key, n);
      NewEvidenceRecords(env, item, n);
    }
  }

  lemma LimitGrows(a: nat, b: nat)
    requires a <= b
    ensures ReadLimit(a) <= ReadLimit(b)
  {
  }

  /** Whatever a later pull does, the bytes of an input that once landed are merged when they
      come from that source again, under any file name and a limit that was not lowered: they
      are never imported twice, never counted against the budget and never a conflict. */
  lemma LandedStaysMerged(env: Env, dry: bool, start: State, items: seq<Item>, i: nat,
                          env': Env, dry': bool, start': State, items': seq<Item>, j: nat)
    requires i < |items| && ValidItem(items[i]) && ValidClock(env)
    requires Landed(Fold(env, dry, start, items).trace[i])
    requires Keeps(Fold(env, dry, start, items).state.evidence, start'.evidence)
    requires j < |items'| && env'.native == env.native && env'.faults(j).evidenceReadable
    requires items'[j].source == items[i].source && items'[j].file == items[i].file
    requires items'[j].maxMessageBytes >= items[i].maxMessageBytes
    ensures Fold(env', dry', start', items').trace[j] == Merged
  {
    LimitGrows(items[i].maxMessageBytes, items'[j].maxMessageBytes);
    TraceAt(env, dry, start, items, i);
    FoldStep(env, dry, start, items, i);
    VisitBinds(env, dry, Reached(env, dry, start, items, i), items[i], i);
    EvidenceIsWriteOnce(env, dry, start, items, i + 1);
    EvidenceFromStart(env', dry', start', items', j);
    TraceAt(env', dry', start', items', j);
    RevisitIs(items'[j], Reached(env', dry', start', items', j).evidence[KeyOf(env, items[i]).value]);
  }

  lemma {:induction false} EvidenceFromStart(env: Env, dry: bool, start: State, items: seq<Item>, i: nat)
    requires i <= |items|
    ensures Keeps(start.evidence, Reached(env, dry, start, items, i).evidence)
    decreases i
  {
    if i > 0 {
      FoldStep(env, dry, start, items, i - 1);
      VisitEvidence(env, dry, Reached(env, dry, start, items, i - 1), items[i - 1], i - 1);
      EvidenceFromStart(env, dry, start, items, i - 1);
    }
  }

  /** Once an input landed, other bytes under its identity are refused in every later pull. */
  lemma OtherBytesConflict(env: Env, dry: bool, start: State, items: seq<Item>, i: nat,
                           env': Env, dry': bool, start': State, items': seq<Item>, j: nat)
    requires i < |items| && ValidItem(items[i]) && ValidClock(env)
    requires Landed(Fold(env, dry, start, items).trace[i])
    requires Keeps(Fold(env, dry, start, items).state.evidence, start'.evidence)
    requires j < |items'| && env'.native == env.native && env'.faults(j).evidenceReadable
    requires KeyOf(env, items'[j]) == KeyOf(env, items[i]) && items'[j].file != items[i].file
    requires items'[j].maxMessageBytes >= items[i].maxMessageBytes
    ensures Fold(env', dry', start', items').trace[j] == Warned(Conflict)
  {
    LimitGrows(items[i].maxMessageBytes, items'[j].maxMessageBytes);
    TraceAt(env, dry, start, items, i);
    FoldStep(env, dry, start, items, i);
    VisitBinds(env, dry, Reached(env, dry, start, items, i), items[i], i);
    EvidenceIsWriteOnce(env, dry, start, items, i + 1);
    EvidenceFromStart(env', dry', start', items', j);
    TraceAt(env', dry', start', items', j);
  }
}
