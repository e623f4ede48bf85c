/** `pull` over all sources: nested loops that spend a shared budget and account for every
    input by name. */
module PullRun {
  import opened Wrappers
  import opened Sorting
  import opened Evidence
  import opened PullDecisions

  datatype DirEntry = DirEntry(path: string, json: bool)

  /** A configured source. `listing` is what enumerating its inbox yields, an entry that
      cannot be read as None; `read` is what reading a file finds. */
  datatype Source = Source(
    id: Bytes, maxMessageBytes: nat, maxInputFiles: nat, conflicted: bool,
    listing: Option<seq<Option<DirEntry>>>, read: string -> Option<Bytes>)

  datatype SourceProblem = ConfigInvalid | InboxUnavailable | InboxLimit

  function JsonPaths(entries: seq<Option<DirEntry>>): seq<string> {
    if entries == [] then [] else
      var last := entries[|entries| - 1];
      JsonPaths(entries[..|entries| - 1]) + (if last.Some? && last.value.json then [last.value.path] else [])
  }

  ghost predicate Listable(s: Source) {
    && s.listing.Some? && None !in s.listing.value
    && |JsonPaths(s.listing.value)| <= s.maxInputFiles
  }

  /** The file limit is passed before any unreadable entry. */
  ghost predicate Overfull(s: Source) {
    s.listing.Some? && exists n: nat :: PassedAt(s.listing.value, n, s.maxInputFiles)
  }

  ghost predicate PassedAt(entries: seq<Option<DirEntry>>, n: nat, limit: nat) {
    n <= |entries| && None !in entries[..n] && |JsonPaths(entries[..n])| > limit
  }

  /** Why a source as a whole is not pulled, if it is not. */
  ghost function ProblemOf(s: Source): Option<SourceProblem> {
    if s.conflicted then Some(ConfigInvalid)
    else if Listable(s) then None
    else if Overfull(s) then Some(InboxLimit)
    else Some(InboxUnavailable)
  }

  lemma {:induction false} JsonPathsGrow(entries: seq<Option<DirEntry>>, n: nat)
    requires n <= |entries|
    ensures |JsonPaths(entries[..n])| <= |JsonPaths(entries)|
    decreases |entries| - n
  {
    if n == |entries| {
      assert entries[..n] == entries;
    } else {
      assert entries[..n + 1][..n] == entries[..n];
      JsonPathsGrow(entries, n + 1);
    }
  }

  lemma NotPassed(entries: seq<Option<DirEntry>>, i: nat, limit: nat)
    requires i < |entries| && entries[i].None? && |JsonPaths(entries[..i])| <= limit
    ensures !exists n: nat :: PassedAt(entries, n, limit)
  {
    forall n: nat | n <= |entries|
      ensures !PassedAt(entries, n, limit)
    {
      if n <= i {
        JsonPathsGrow(entries[..i], n);
        assert entries[..i][..n] == entries[..n];
      } else {
        assert entries[..n][i] == None;
      }
    }
  }

  /** The JSON files of an inbox, unless it cannot be enumerated or holds too many. */
  method ListInbox(s: Source) returns (r: Result<seq<string>, SourceProblem>)
    ensures r.Ok? <==> Listable(s)
    ensures r.Ok? ==> r.value == JsonPaths(s.listing.value)
    ensures r.Err? ==> r.error == if Overfull(s) then InboxLimit else InboxUnavailable
  {
    if s.listing.None? { return Err(InboxUnavailable); }
    var entries := s.listing.value;
    var paths: seq<string> := [];
    for i := 0 to |entries|
      invariant paths == JsonPaths(entries[..i]) && |paths| <= s.maxInputFiles && None !in entries[..i]
    {
      assert entries[..i + 1][..i] == entries[..i];
      if entries[i].None? {
        NotPassed(entries, i, s.maxInputFiles);
        return Err(InboxUnavailable);
      }
      if entries[i].value.json { paths := paths + [entries[i].value.path]; }
      JsonPathsGrow(entries, i + 1);
      if |paths| > s.maxInputFiles {
        assert PassedAt(entries, i + 1, s.maxInputFiles);
        return Err(InboxLimit);
      }
    }
    assert entries[..|entries|] == entries;
    return Ok(paths);
  }

  function ItemOf(s: Source, path: string): Item { Item(s.id, s.maxMessageBytes, path, s.read(path)) }

  const BY_PATH: string -> string := (path: string) => path

  /** The inputs of one source in the order in which they are processed. */
  ghost function ItemsOf(s: Source): seq<Item> {
    if s.conflicted || !Listable(s) then [] else
      var paths := SortBy(BY_PATH, JsonPaths(s.listing.value));
      seq(|paths|, i requires 0 <= i < |paths| => ItemOf(s, paths[i]))
  }

  ghost function AllItems(sources: seq<Source>): seq<Item> {
    if sources == [] then [] else AllItems(sources[..|sources| - 1]) + ItemsOf(sources[|sources| - 1])
  }

  lemma {:induction false} JsonPathsAre(entries: seq<Option<DirEntry>>, path: string)
    ensures path in JsonPaths(entries) <==> Some(DirEntry(path, true)) in entries
    decreases |entries|
  {
    if entries != [] {
      var n := |entries| - 1;
      JsonPathsAre(entries[..n], path);
      assert entries == entries[..n] + [entries[n]];
    }
  }

  /** The JSON files among these entries, in the order of their paths. */
  ghost predicate InOrder(entries: seq<Option<DirEntry>>, paths: seq<string>) {
    && (forall path :: path in paths <==> Some(DirEntry(path, true)) in entries)
    && forall i, j :: 0 <= i < j < |paths| ==> Leq(paths[i], paths[j])
  }

  lemma SortedPathsAre(entries: seq<Option<DirEntry>>)
    ensures InOrder(entries, SortBy(BY_PATH, JsonPaths(entries)))
  {
    var json := JsonPaths(entries);
    var paths := SortBy(BY_PATH, json);
    SortByIs(BY_PATH, json);
    forall path
      ensures path in paths <==> Some(DirEntry(path, true)) in entries
    {
      JsonPathsAre(entries, path);
      assert path in multiset(paths) <==> path in multiset(json);
    }
    forall i, j | 0 <= i < j < |paths|
      ensures Leq(paths[i], paths[j])
    {
      assert Leq(BY_PATH(paths[i]), BY_PATH(paths[j]));
    }
  }

  /** The inputs of a source are the JSON files of its inbox, in the order of their paths, each
      with what a read finds, under the source's name and limit. */
  lemma InputsAre(s: Source) returns (paths: seq<string>)
    requires !s.conflicted && Listable(s)
    ensures InOrder(s.listing.value, paths) && |ItemsOf(s)| == |paths|
    ensures forall i :: 0 <= i < |paths| ==> ItemsOf(s)[i] == Item(s.id, s.maxMessageBytes, paths[i], s.read(paths[i]))
  {
    SortedPathsAre(s.listing.value);
    paths := SortBy(BY_PATH, JsonPaths(s.listing.value));
  }

  /** The order in which the file system enumerates an inbox has no influence. */
  lemma ListingOrderIsInvisible(s: Source, t: Source)
    requires t == s.(listing := t.listing) && Listable(s) && Listable(t)
    requires multiset(JsonPaths(s.listing.value)) == multiset(JsonPaths(t.listing.value))
    ensures ItemsOf(s) == ItemsOf(t)
  {
    SortIgnoresOrder(BY_PATH, JsonPaths(s.listing.value), JsonPaths(t.listing.value));
  }

  // ----- the report -----

  datatype SkippedInput = SkippedInput(source: Bytes, path: string, reason: Reason, size: nat)

  datatype PullWarning =
    | SourceWarning(source: Bytes, problem: SourceProblem)
    | InputWarning(source: Bytes, path: string, warning: Warning)

  /** What each list of the report holds for these decisions. */
  function SkippedOf(items: seq<Item>, trace: seq<Outcome>): seq<SkippedInput>
    requires |items| == |trace|
  {
    if items == [] then [] else
      var n := |items| - 1;
      SkippedOf(items[..n], trace[..n])
      + (if trace[n].Skipped? then [SkippedInput(items[n].source, items[n].path, trace[n].reason, trace[n].size)] else [])
  }

  function ImportedOf(env: Env, items: seq<Item>, trace: seq<Outcome>): seq<Option<Key>>
    requires |items| == |trace|
  {
    if items == [] then [] else
      var n := |items| - 1;
      ImportedOf(env, items[..n], trace[..n]) + (if trace[n].Imported? then [KeyOf(env, items[n])] else [])
  }

  function WarnedOf(items: seq<Item>, trace: seq<Outcome>): seq<PullWarning>
    requires |items| == |trace|
  {
    if items == [] then [] else
      var n := |items| - 1;
      WarnedOf(items[..n], trace[..n])
      + (if trace[n].Warned? then [InputWarning(items[n].source, items[n].path, trace[n].warning)] else [])
  }

  function InputWarnings(warnings: seq<PullWarning>): seq<PullWarning> {
    if warnings == [] then [] else
      var last := warnings[|warnings| - 1];
      InputWarnings(warnings[..|warnings| - 1]) + (if last.InputWarning? then [last] else [])
  }

  function SourceWarnings(warnings: seq<PullWarning>): seq<PullWarning> {
    if warnings == [] then [] else
      var last := warnings[|warnings| - 1];
      SourceWarnings(warnings[..|warnings| - 1]) + (if last.SourceWarning? then [last] else [])
  }

  /** One warning for every source that is not pulled, in the order of the sources. */
  ghost function ProblemsOf(sources: seq<Source>): seq<PullWarning> {
    if sources == [] then [] else
      var n := |sources| - 1;
      ProblemsOf(sources[..n])
      + (if ProblemOf(sources[n]).Some? then [SourceWarning(sources[n].id, ProblemOf(sources[n]).value)] else [])
  }

  predicate IsMerged(o: Outcome) { o.Merged? }

  predicate IsDryAccepted(o: Outcome) { o.DryAccepted? }

  /** One more input extends the log, the lists and the counts by its own decision. */
  lemma OneMore(env: Env, dry: bool, start: State, items: seq<Item>, item: Item)
    ensures var before := Fold(env, dry, start, items);
            var step := Visit(env, dry, before.state, item, |items|);
            Fold(env, dry, start, items + [item]) == Log(step.state, before.trace + [step.outcome])
  {
    assert (items + [item])[..|items|] == items;
  }

  lemma ListsExtend(env: Env, items: seq<Item>, trace: seq<Outcome>, item: Item, o: Outcome)
    requires |items| == |trace|
    ensures var (xs, os) := (items + [item], trace + [o]);
            && SkippedOf(xs, os) == SkippedOf(items, trace)
                 + (if o.Skipped? then [SkippedInput(item.source, item.path, o.reason, o.size)] else [])
            && ImportedOf(env, xs, os) == ImportedOf(env, items, trace) + (if o.Imported? then [KeyOf(env, item)] else [])
            && WarnedOf(xs, os) == WarnedOf(items, trace)
                 + (if o.Warned? then [InputWarning(item.source, item.path, o.warning)] else [])
            && Count(IsMerged, os) == Count(IsMerged, trace) + (if o.Merged? then 1 else 0)
  {
    assert (items + [item])[..|items|] == items && (trace + [o])[..|trace|] == trace;
  }

  lemma WarningsExtend(warnings: seq<PullWarning>, w: PullWarning)
    ensures InputWarnings(warnings + [w]) == InputWarnings(warnings) + (if w.InputWarning? then [w] else [])
    ensures SourceWarnings(warnings + [w]) == SourceWarnings(warnings) + (if w.SourceWarning? then [w] else [])
  {
    assert (warnings + [w])[..|warnings|] == warnings;
  }

  lemma TakeOneMore(done: seq<Item>, all: seq<Item>, i: nat)
    requires i < |all|
    ensures done + all[..i + 1] == done + all[..i] + [all[i]] && done + all[..0] == done
  {
    assert all[..i + 1] == all[..i] + [all[i]];
  }

  /** Every input is in exactly one of the report's lists and counts. */
  lemma {:induction false} EveryInputIsAccountedFor(env: Env, items: seq<Item>, trace: seq<Outcome>)
    requires |items| == |trace|
    ensures |items| == Count(IsMerged, trace) + |SkippedOf(items, trace)| + |ImportedOf(env, items, trace)|
                       + Count(IsDryAccepted, trace) + |WarnedOf(items, trace)|
    decreases |items|
  {
    if items != [] {
      var n := |items| - 1;
      EveryInputIsAccountedFor(env, items[..n], trace[..n]);
    }
  }

  const IS_SKIPPED: Outcome -> bool := (o: Outcome) => o.Skipped?
  const IS_IMPORTED: Outcome -> bool := (o: Outcome) => o.Imported?
  const IS_WARNED: Outcome -> bool := (o: Outcome) => o.Warned?

  lemma {:induction false} ListLengths(env: Env, items: seq<Item>, trace: seq<Outcome>)
    requires |items| == |trace|
    ensures |SkippedOf(items, trace)| == Count(IS_SKIPPED, trace)
    ensures |ImportedOf(env, items, trace)| == Count(IS_IMPORTED, trace)
    ensures |WarnedOf(items, trace)| == Count(IS_WARNED, trace)
    decreases |items|
  {
    if items != [] { ListLengths(env, items[..|items| - 1], trace[..|trace| - 1]); }
  }

  /** Each list names the inputs it is about, in the order in which they were processed, with
      what was decided for them. */
  lemma {:induction false} ListsAreExact(env: Env, items: seq<Item>, trace: seq<Outcome>, i: nat)
    requires i < |items| == |trace|
    ensures var (item, o, before) := (items[i], trace[i], trace[..i]);
            && (o.Skipped? ==>
                  var (list, at) := (SkippedOf(items, trace), Count(IS_SKIPPED, before));
                  at < |list| && list[at] == SkippedInput(item.source, item.path, o.reason, o.size))
            && (o.Imported? ==>
                  var (list, at) := (ImportedOf(env, items, trace), Count(IS_IMPORTED, before));
                  at < |list| && list[at] == KeyOf(env, item))
            && (o.Warned? ==>
                  var (list, at) := (WarnedOf(items, trace), Count(IS_WARNED, before));
                  at < |list| && list[at] == InputWarning(item.source, item.path, o.warning))
    decreases |items|
  {
    var n := |items| - 1;
    ListLengths(env, items[..n], trace[..n]);
    if i < n {
      ListsAreExact(env, items[..n], trace[..n], i);
      assert trace[..n][..i] == trace[..i];
    }
  }

  /** A dry run imports nothing, a real run accepts nothing only for counting. */
  lemma {:induction false} DryAcceptsOnly(env: Env, dry: bool, start: State, items: seq<Item>)
    ensures var trace := Fold(env, dry, start, items).trace;
            if dry then ImportedOf(env, items, trace) == [] && Count(IsDryAccepted, trace) == Count(Consumes, trace)
            else Count(IsDryAccepted, trace) == 0
    decreases |items|
  {
    if items != [] {
      var n := |items| - 1;
      DryAcceptsOnly(env, dry, start, items[..n]);
      var before := Fold(env, dry, start, items[..n]);
      assert Fold(env, dry, start, items).trace[..n] == before.trace;
      VisitKind(env, dry, before.state, items[n], n);
    }
  }

  lemma VisitKind(env: Env, dry: bool, st: State, item: Item, n: nat)
    ensures var o := Visit(env, dry, st, item, n).outcome;
            if dry then !o.Imported? && (Consumes(o) ==> o.DryAccepted?) else !o.DryAccepted?
  {
    if KeyOf(env, item).Some? && KeyOf(env, item).value in st.evidence {
      RevisitIsFree(item, st.evidence[KeyOf(env, item).value], env.faults(n).evidenceReadable);
    }
  }

  datatype Report = Report(
    newIds: seq<Option<Key>>, merged: nat, candidates: nat, skipped: seq<SkippedInput>, warnings: seq<PullWarning>,
    storedBytes: nat, declaredBytes: nat, remainingCount: nat, remainingBytes: nat, budgetLimited: bool)

  class Puller {
    const env: Env
    const dry: bool
    var evidence: map<Key, Bytes>
    var remainingCount: nat
    var remainingBytes: nat
    var ids: seq<Option<Key>>
    var merged: nat
    var warnings: seq<PullWarning>
    var candidates: nat
    var skipped: seq<SkippedInput>
    const maxTotalBytes: nat
    /** The state at the start and the inputs processed since. */
    ghost const start: State
    ghost var items: seq<Item>
    ghost var trace: seq<Outcome>

    /** The lists and counts say what was decided. */
    ghost predicate Recorded()
      reads this
    {
      && candidates == |items| == |trace| && merged == Count(IsMerged, trace)
      && skipped == SkippedOf(items, trace) && ids == ImportedOf(env, items, trace)
      && InputWarnings(warnings) == WarnedOf(items, trace)
    }

    ghost predicate Valid()
      reads this
    {
      && Recorded() && start.remainingBytes == maxTotalBytes
      && Fold(env, dry, start, items) == Log(State(evidence, remainingCount, remainingBytes), trace)
    }

    constructor (env: Env, dry: bool, evidence: map<Key, Bytes>, maxNewMessages: nat, maxTotalBytes: nat)
      ensures Valid() && items == [] && warnings == [] && this.env == env && this.dry == dry
      ensures start == State(evidence, maxNewMessages, maxTotalBytes)
    {
      this.env, this.dry, this.evidence := env, dry, evidence;
      remainingCount, remainingBytes, this.maxTotalBytes := maxNewMessages, maxTotalBytes, maxTotalBytes;
      ids, merged, warnings, candidates, skipped, items, trace := [], 0, [], 0, [], [], [];
      start := State(evidence, maxNewMessages, maxTotalBytes);
    }

    /** Write a new message step by step; the budget is spent only once the evidence is
        published. */
    method ImportInput(item: Item, key: Key, n: nat) returns (outcome: Outcome)
      requires item.file.Some? && remainingCount > 0 && |item.file.value| <= remainingBytes
      modifies this`evidence, this`remainingCount, this`remainingBytes
      ensures PullDecisions.Step(State(evidence, remainingCount, remainingBytes), outcome)
              == Import(env, old(State(evidence, remainingCount, remainingBytes)), item, key, n)
    {
      var size, faults := |item.file.value|, env.faults(n);
      var raw := NewEvidence(env, item, n);
      if !faults.materialized { return Warned(NotMaterialized); }
      if !faults.metadataWritten { return Warned(MetadataFailed); }
      if faults.publish == FailedBeforeLink { return Warned(PublishFailed(false)); }
      evidence := evidence[key := raw];
      if faults.publish == FailedVisible { return Warned(PublishFailed(true)); }
      remainingCount := remainingCount - 1;
      remainingBytes := remainingBytes - size;
      if !faults.artifactsWritten { return Warned(ArtifactsFailed(size)); }
      return Imported(size);
    }

    /** The decision for one input. */
    method Decide(item: Item, n: nat) returns (outcome: Outcome)
      modifies this`evidence, this`remainingCount, this`remainingBytes
      ensures PullDecisions.Step(State(evidence, remainingCount, remainingBytes), outcome)
              == Visit(env, dry, old(State(evidence, remainingCount, remainingBytes)), item, n)
    {
      if item.file.None? || |item.file.value| > item.maxMessageBytes { return Warned(Unreadable); }
      var raw := item.file.value;
      var external := env.native(raw);
      if external.None? { return Warned(Invalid); }
      var key := Key(item.source, external.value);
      if key in evidence { return Revisit(item, evidence[key], env.faults(n).evidenceReadable); }
      if remainingCount == 0 { return Skipped(CountBudget, |raw|); }
      if |raw| > remainingBytes { return Skipped(BytesBudget, |raw|); }
      if dry {
        remainingCount := remainingCount - 1;
        remainingBytes := remainingBytes - |raw|;
        return DryAccepted(|raw|);
      }
      outcome := ImportInput(item, key, n);
    }

    method Record(item: Item, outcome: Outcome)
      requires Recorded()
      modifies this`candidates, this`merged, this`skipped, this`ids, this`warnings, this`items, this`trace
      ensures Recorded() && items == old(items) + [item] && trace == old(trace) + [outcome]
      ensures SourceWarnings(warnings) == old(SourceWarnings(warnings))
    {
      ListsExtend(env, items, trace, item, outcome);
      candidates := candidates + 1;
      items, trace := items + [item], trace + [outcome];
      match outcome {
        case Merged => merged := merged + 1;
        case Skipped(reason, size) => skipped := skipped + [SkippedInput(item.source, item.path, reason, size)];
        case DryAccepted(_) =>
        case Imported(_) => ids := ids + [KeyOf(env, item)];
        case Warned(warning) =>
          WarningsExtend(warnings, InputWarning(item.source, item.path, warning));
          warnings := warnings + [InputWarning(item.source, item.path, warning)];
      }
    }

    method VisitInput(item: Item)
      requires Valid()
      modifies this
      ensures Valid() && items == old(items) + [item] && SourceWarnings(warnings) == old(SourceWarnings(warnings))
    {
      OneMore(env, dry, start, items, item);
      var outcome := Decide(item, candidates);
      Record(item, outcome);
    }

    method WarnSource(s: Source, problem: SourceProblem)
      requires Valid()
      modifies this`warnings
      ensures Valid() && SourceWarnings(warnings) == old(SourceWarnings(warnings)) + [SourceWarning(s.id, problem)]
    {
      WarningsExtend(warnings, SourceWarning(s.id, problem));
      warnings := warnings + [SourceWarning(s.id, problem)];
    }

    /** A source's own problem is a warning and leaves the other sources alone. */
    method PullSource(s: Source)
      requires Valid()
      modifies this
      ensures Valid() && items == old(items) + ItemsOf(s)
      ensures SourceWarnings(warnings)
              == old(SourceWarnings(warnings)) + (if ProblemOf(s).Some? then [SourceWarning(s.id, ProblemOf(s).value)] else [])
    {
      if s.conflicted {
        WarnSource(s, ConfigInvalid);
        return;
      }
      var listed := ListInbox(s);
      if listed.Err? {
        WarnSource(s, listed.error);
        return;
      }
      VisitInputs(s, SortBy(BY_PATH, listed.value), ItemsOf(s));
    }

    method VisitInputs(s: Source, paths: seq<string>, ghost all: seq<Item>)
      requires Valid() && |all| == |paths| && forall i :: 0 <= i < |paths| ==> all[i] == ItemOf(s, paths[i])
      modifies this
      ensures Valid() && items == old(items) + all && SourceWarnings(warnings) == old(SourceWarnings(warnings))
    {
      for i := 0 to |paths|
        invariant Valid() && items == old(items) + all[..i] && SourceWarnings(warnings) == old(SourceWarnings(warnings))
      {
        TakeOneMore(old(items), all, i);
        VisitInput(ItemOf(s, paths[i]));
      }
      assert all[..|paths|] == all;
    }

    /** The report names every input once and the budgets are spent on the accepted ones. */
    ghost predicate Accounts(r: Report, sources: seq<Source>) {
      var inputs := AllItems(sources);
      var trace := Fold(env, dry, start, inputs).trace;
      && r.candidates == |inputs|
      && r.candidates == r.merged + |r.skipped| + |r.newIds| + |InputWarnings(r.warnings)|
                         + (if dry then start.remainingCount - r.remainingCount else 0)
      && r.skipped == SkippedOf(inputs, trace)
      && InputWarnings(r.warnings) == WarnedOf(inputs, trace) && SourceWarnings(r.warnings) == ProblemsOf(sources)
      && r.newIds == ImportedOf(env, inputs, trace) && r.merged == Count(IsMerged, trace)
      && r.remainingCount + Count(Consumes, trace) == start.remainingCount
      && r.remainingBytes + TotalSize(trace) == start.remainingBytes
      && r.storedBytes == (if dry then 0 else TotalSize(trace)) && r.declaredBytes == (if dry then TotalSize(trace) else 0)
      && (r.budgetLimited <==> r.skipped != [])
    }

    method Summarize(ghost sources: seq<Source>) returns (r: Report)
      requires Valid() && items == AllItems(sources) && SourceWarnings(warnings) == ProblemsOf(sources)
      ensures Accounts(r, sources)
    {
      EveryInputIsAccountedFor(env, items, trace);
      DryAcceptsOnly(env, dry, start, items);
      BudgetIsConserved(env, dry, start, items);
      var spent := maxTotalBytes - remainingBytes;
      return Report(ids, merged, candidates, skipped, warnings, if dry then 0 else spent, if dry then spent else 0,
                    remainingCount, remainingBytes, skipped != []);
    }

    /** The whole pull. A failed final refresh loses the report, not the effects. */
    method Pull(sources: seq<Source>, refreshes: bool) returns (r: Result<Report, ()>)
      requires Valid() && items == [] && warnings == []
      modifies this
      ensures Valid() && items == AllItems(sources)
      ensures r.Err? <==> !dry && !refreshes
      ensures r.Ok? ==> Accounts(r.value, sources)
    {
      for i := 0 to |sources|
        invariant Valid() && items == AllItems(sources[..i]) && SourceWarnings(warnings) == ProblemsOf(sources[..i])
      {
        assert sources[..i + 1][..i] == sources[..i];
        PullSource(sources[i]);
      }
      assert sources[..|sources|] == sources;
      if !dry && !refreshes { return Err(()); }
      var report := Summarize(sources);
      return Ok(report);
    }
  }
}
