/** Which inputs a pull takes for the same message: those of one source with one external id,
    and no others. */
module PullIdentity {
  import opened Wrappers
  import opened Evidence
  import opened PullDecisions

  /** The item is a readable message of this source with this external id. */
  ghost predicate Carries(env: Env, item: Item, source: Bytes, external: Bytes) {
    && item.file.Some? && |item.file.value| <= item.maxMessageBytes
    && item.source == source && env.native(item.file.value) == Some(external)
  }

  /** Decisions that put a message on record. */
  predicate Adds(o: Outcome) { o.Imported? || (o.Warned? && o.warning.ArtifactsFailed?) || o == Warned(PublishFailed(true)) }

  /** The message was on record at the start, or an earlier input of this source with this
      external id put it there. */
  ghost predicate Known(env: Env, dry: bool, start: State, items: seq<Item>, i: nat, source: Bytes, external: Bytes)
    requires i <= |items|
  {
    || Key(source, external) in start.evidence
    || exists j :: 0 <= j < i && Adds(Fold(env, dry, start, items).trace[j]) && Carries(env, items[j], source, external)
  }

  lemma RevisitAddsNothing(item: Item, known: Bytes, readable: bool)
    requires item.file.Some?
    ensures var o := Revisit(item, known, readable);
            !Adds(o) && (o == Merged || o == Warned(Conflict) || o == Warned(EvidenceUnreadable))
  {
  }

  lemma ImportAdds(env: Env, st: State, item: Item, key: Key, n: nat)
    requires item.file.Some? && st.remainingCount > 0 && |item.file.value| <= st.remainingBytes
    ensures var step := Import(env, st, item, key, n);
            step.state.evidence.Keys == st.evidence.Keys + (if Adds(step.outcome) then {key} else {})
  {
  }

  lemma VisitAdds(env: Env, dry: bool, st: State, item: Item, n: nat, source: Bytes, external: Bytes)
    ensures var step := Visit(env, dry, st, item, n); var key := Key(source, external);
            key in step.state.evidence <==> key in st.evidence || (Adds(step.outcome) && Carries(env, item, source, external))
  {
    if KeyOf(env, item).Some? {
      var key, size := KeyOf(env, item).value, |item.file.value|;
      if key in st.evidence {
        RevisitAddsNothing(item, st.evidence[key], env.faults(n).evidenceReadable);
      } else if st.remainingCount > 0 && size <= st.remainingBytes && !dry {
        ImportAdds(env, st, item, key, n);
      }
    }
  }

  lemma {:induction false} OnRecord(env: Env, dry: bool, start: State, items: seq<Item>, i: nat, source: Bytes, external: Bytes)
    requires i <= |items|
    ensures Key(source, external) in Reached(env, dry, start, items, i).evidence
            <==> Known(env, dry, start, items, i, source, external)
    decreases i
  {
    if i == 0 {
      assert items[..0] == [];
    } else {
      OnRecord(env, dry, start, items, i - 1, source, external);
      FoldStep(env, dry, start, items, i - 1);
      TraceAt(env, dry, start, items, i - 1);
      VisitAdds(env, dry, Reached(env, dry, start, items, i - 1), items[i - 1], i - 1, source, external);
    }
  }

  /** What becomes of a new message that is written. */
  function Written(f: Faults, size: nat): Outcome {
    if !f.materialized then Warned(NotMaterialized)
    else if !f.metadataWritten then Warned(MetadataFailed)
    else if f.publish != Published then Warned(PublishFailed(f.publish == FailedVisible))
    else if !f.artifactsWritten then Warned(ArtifactsFailed(size))
    else Imported(size)
  }

  lemma VisitNew(env: Env, dry: bool, st: State, item: Item, n: nat, external: Bytes)
    requires Carries(env, item, item.source, external) && Key(item.source, external) !in st.evidence
    ensures var size := |item.file.value|;
            Visit(env, dry, st, item, n).outcome ==
              if st.remainingCount == 0 then Skipped(CountBudget, size)
              else if size > st.remainingBytes then Skipped(BytesBudget, size)
              else if dry then DryAccepted(size)
              else Written(env.faults(n), size)
  {
  }

  /** Every decision, told by source, external id, budget and faults: a message is merged or
      refused exactly when this source's message with this id is known; a new one within the
      budgets is imported when nothing fails. */
  lemma EveryDecision(env: Env, dry: bool, start: State, items: seq<Item>, i: nat)
    requires i < |items|
    ensures var o, item, st := Fold(env, dry, start, items).trace[i], items[i], Reached(env, dry, start, items, i);
            if item.file.None? || |item.file.value| > item.maxMessageBytes then o == Warned(Unreadable)
            else
              var size := |item.file.value|;
              match env.native(item.file.value)
              case None => o == Warned(Invalid)
              case Some(external) =>
                if Known(env, dry, start, items, i, item.source, external) then
                  o == Merged || o == Warned(Conflict) || o == Warned(EvidenceUnreadable)
                else if st.remainingCount == 0 then o == Skipped(CountBudget, size)
                else if size > st.remainingBytes then o == Skipped(BytesBudget, size)
                else if dry then o == DryAccepted(size)
                else o == Written(env.faults(i), size)
  {
    var item, st := items[i], Reached(env, dry, start, items, i);
    TraceAt(env, dry, start, items, i);
    if item.file.Some? && |item.file.value| <= item.maxMessageBytes && env.native(item.file.value).Some? {
      var external := env.native(item.file.value).value;
      OnRecord(env, dry, start, items, i, item.source, external);
      if Key(item.source, external) in st.evidence {
        RevisitAddsNothing(item, st.evidence[Key(item.source, external)], env.faults(i).evidenceReadable);
      } else {
        VisitNew(env, dry, st, item, i, external);
      }
    }
  }

  /** A message on record is compared with what its evidence says: the same source and bytes
      merge, anything else is a conflict; evidence that is unreadable, or over six times the
      limit and 4096 bytes, is reported. */
  lemma KnownIsCompared(item: Item, stored: Stored, readable: bool)
    requires item.file.Some? && ValidItem(item)
    ensures var known := Encode(LAYOUT, stored);
            Revisit(item, known, readable) ==
              if !readable || |known| > 6 * item.maxMessageBytes + 4096 then Warned(EvidenceUnreadable)
              else if stored.sourceId == item.source && stored.content == item.file.value then Merged
              else Warned(Conflict)
  {
    DecodeEncode(LAYOUT, stored);
  }

  lemma ImportWrites(env: Env, st: State, item: Item, key: Key, n: nat)
    requires item.file.Some? && st.remainingCount > 0 && |item.file.value| <= st.remainingBytes
    requires Adds(Import(env, st, item, key, n).outcome)
    ensures var after := Import(env, st, item, key, n).state.evidence;
            key in after
            && Decode(LAYOUT, after[key]) == Some(Stored(item.source, Ascii("inbound"), env.timestamp(n), item.file.value))
  {
    DecodeEncode(LAYOUT, Stored(item.source, INBOUND, env.timestamp(n), item.file.value));
  }

  lemma VisitWrites(env: Env, dry: bool, st: State, item: Item, n: nat, external: Bytes)
    requires Adds(Visit(env, dry, st, item, n).outcome) && Carries(env, item, item.source, external)
    ensures var after, key := Visit(env, dry, st, item, n).state.evidence, Key(item.source, external);
            key in after
            && Decode(LAYOUT, after[key]) == Some(Stored(item.source, Ascii("inbound"), env.timestamp(n), item.file.value))
  {
    var key := Key(item.source, external);
    if key in st.evidence {
      RevisitAddsNothing(item, st.evidence[key], env.faults(n).evidenceReadable);
    } else {
      ImportWrites(env, st, item, key, n);
    }
  }

  /** What a pull puts on record says who sent it, which way, when and what, and is still
      there at the end of the pull. */
  lemma RecordIsComplete(env: Env, dry: bool, start: State, items: seq<Item>, i: nat, external: Bytes)
    requires i < |items| && Adds(Fold(env, dry, start, items).trace[i]) && Carries(env, items[i], items[i].source, external)
    ensures var evidence, key := Fold(env, dry, start, items).state.evidence, Key(items[i].source, external);
            key in evidence
            && Decode(LAYOUT, evidence[key])
               == Some(Stored(items[i].source, Ascii("inbound"), env.timestamp(i), items[i].file.value))
  {
    TraceAt(env, dry, start, items, i);
    FoldStep(env, dry, start, items, i);
    VisitWrites(env, dry, Reached(env, dry, start, items, i), items[i], i, external);
    KeptBetween(env, dry, start, items, i + 1, |items|);
    assert items[..|items|] == items;
  }

  /** Two sources that use one external id do not disturb each other: both messages are
      imported. */
  lemma SourcesAreSeparate(env: Env, start: State, a: Item, b: Item, external: Bytes)
    requires a.source != b.source && Carries(env, a, a.source, external) && Carries(env, b, b.source, external)
    requires Key(a.source, external) !in start.evidence && Key(b.source, external) !in start.evidence
    requires start.remainingCount >= 2 && |a.file.value| + |b.file.value| <= start.remainingBytes
    requires env.faults(0) == env.faults(1) == NO_FAULTS
    ensures Fold(env, false, start, [a, b]).trace == [Imported(|a.file.value|), Imported(|b.file.value|)]
  {
    var items := [a, b];
    EveryDecision(env, false, start, items, 0);
    EveryDecision(env, false, start, items, 1);
    assert items[..0] == [];
    FoldStep(env, false, start, items, 0);
    VisitBudget(env, false, start, a, 0);
    TraceAt(env, false, start, items, 0);
  }

  lemma {:induction false} KeptBetween(env: Env, dry: bool, start: State, items: seq<Item>, i: nat, j: nat)
    requires i <= j <= |items|
    ensures Keeps(Reached(env, dry, start, items, i).evidence, Reached(env, dry, start, items, j).evidence)
    decreases j - i
  {
    if i < j {
      FoldStep(env, dry, start, items, j - 1);
      VisitEvidence(env, dry, Reached(env, dry, start, items, j - 1), items[j - 1], j - 1);
      KeptBetween(env, dry, start, items, i, j - 1);
    }
  }

  /** Within one pull a message stays bound to the first bytes that landed: the same bytes
      merge, others under the same source and external id are a conflict. */
  lemma FirstBytesBind(env: Env, dry: bool, start: State, items: seq<Item>, i: nat, j: nat, external: Bytes)
    requires i < j < |items| && ValidItem(items[i]) && ValidClock(env) && Landed(Fold(env, dry, start, items).trace[i])
    requires Carries(env, items[i], items[i].source, external) && Carries(env, items[j], items[i].source, external)
    requires items[j].maxMessageBytes >= items[i].maxMessageBytes && env.faults(j).evidenceReadable
    ensures Fold(env, dry, start, items).trace[j] == if items[j].file == items[i].file then Merged else Warned(Conflict)
  {
    LimitGrows(items[i].maxMessageBytes, items[j].maxMessageBytes);
    TraceAt(env, dry, start, items, i);
    FoldStep(env, dry, start, items, i);
    VisitBinds(env, dry, Reached(env, dry, start, items, i), items[i], i);
    KeptBetween(env, dry, start, items, i + 1, j);
    TraceAt(env, dry, start, items, j);
  }
}
