/** A dry run against a real run from the same state without write failures: when they decide
    alike. */
module PullAgreement {
  import opened Wrappers
  import opened Evidence
  import opened PullDecisions

  /** The dry run's word for a real decision. */
  function AsDry(o: Outcome): Outcome {
    if o.Imported? then DryAccepted(o.size) else o
  }

  ghost predicate Quiet(env: Env) { forall n :: env.faults(n) == NO_FAULTS }

  function Decision(env: Env, dry: bool, start: State, items: seq<Item>, i: nat): Outcome
    requires i < |items|
  {
    Visit(env, dry, Reached(env, dry, start, items, i), items[i], i).outcome
  }

  ghost predicate AgreeOn(env: Env, start: State, items: seq<Item>, n: nat)
    requires n <= |items|
  {
    forall i :: 0 <= i < n ==>
      AsDry(Decision(env, false, start, items, i)) == Decision(env, true, start, items, i)
  }

  /** The identities a dry run accepts among its first `n` inputs. */
  ghost function AcceptedKeys(env: Env, start: State, items: seq<Item>, n: nat): set<Key>
    requires n <= |items|
  {
    if n == 0 then {} else
      AcceptedKeys(env, start, items, n - 1) +
      (if Decision(env, true, start, items, n - 1).DryAccepted? && KeyOf(env, items[n - 1]).Some?
       then {KeyOf(env, items[n - 1]).value} else {})
  }

  /** The dry run accepts input `i` under this identity. */
  ghost predicate AcceptsAs(env: Env, start: State, items: seq<Item>, i: nat, key: Key)
    requires i < |items|
  {
    Decision(env, true, start, items, i).DryAccepted? && KeyOf(env, items[i]) == Some(key)
  }

  lemma AcceptedStep(env: Env, start: State, items: seq<Item>, n: nat, key: Key)
    requires 0 < n <= |items|
    ensures key in AcceptedKeys(env, start, items, n)
            <==> key in AcceptedKeys(env, start, items, n - 1) || AcceptsAs(env, start, items, n - 1, key)
  {
  }

  lemma {:induction false} AcceptedKeysAre(env: Env, start: State, items: seq<Item>, n: nat, key: Key)
    requires n <= |items|
    ensures key in AcceptedKeys(env, start, items, n) <==> exists i :: 0 <= i < n && AcceptsAs(env, start, items, i, key)
  {
    if n > 0 {
      AcceptedStep(env, start, items, n, key);
      AcceptedKeysAre(env, start, items, n - 1, key);
    }
  }

  /** The real run is ahead by exactly the accepted identities. */
  ghost predicate Twin(actual: State, dry: State, accepted: set<Key>) {
    && actual.remainingCount == dry.remainingCount && actual.remainingBytes == dry.remainingBytes
    && actual.evidence.Keys == dry.evidence.Keys + accepted && accepted !! dry.evidence.Keys
    && Keeps(dry.evidence, actual.evidence)
  }

  lemma QuietImport(env: Env, st: State, item: Item, key: Key, n: nat)
    requires item.file.Some? && st.remainingCount > 0 && |item.file.value| <= st.remainingBytes
    requires env.faults(n) == NO_FAULTS
    ensures var size := |item.file.value|;
            Import(env, st, item, key, n)
            == Step(State(st.evidence[key := NewEvidence(env, item, n)], st.remainingCount - 1, st.remainingBytes - size), Imported(size))
  {
  }

  lemma RevisitIsNotFresh(item: Item, known: Bytes, readable: bool)
    requires item.file.Some?
    ensures Revisit(item, known, readable).Merged? || Revisit(item, known, readable).Warned?
  {
  }

  /** What a twin step must be: the same decision, and twins again. */
  ghost predicate TwinStep(r: PullDecisions.Step, d: PullDecisions.Step, accepted: set<Key>, key: Option<Key>) {
    && AsDry(r.outcome) == d.outcome
    && Twin(r.state, d.state, accepted + (if d.outcome.DryAccepted? && key.Some? then {key.value} else {}))
  }

  /** An identity the dry run accepted before is known to the real run only. */
  lemma TwinRepeat(env: Env, actual: State, dry: State, accepted: set<Key>, item: Item, key: Key, n: nat)
    requires Twin(actual, dry, accepted) && KeyOf(env, item) == Some(key) && key in accepted
    ensures AsDry(Visit(env, false, actual, item, n).outcome) != Visit(env, true, dry, item, n).outcome
  {
    RevisitIsNotFresh(item, actual.evidence[key], env.faults(n).evidenceReadable);
  }

  lemma TwinKnown(env: Env, actual: State, dry: State, accepted: set<Key>, item: Item, key: Key, n: nat)
    requires Twin(actual, dry, accepted) && KeyOf(env, item) == Some(key) && key in dry.evidence
    ensures TwinStep(Visit(env, false, actual, item, n), Visit(env, true, dry, item, n), accepted, Some(key))
  {
    RevisitIsNotFresh(item, actual.evidence[key], env.faults(n).evidenceReadable);
    assert accepted + {} == accepted;
  }

  lemma TwinNew(env: Env, actual: State, dry: State, accepted: set<Key>, item: Item, key: Key, n: nat)
    requires Twin(actual, dry, accepted) && env.faults(n) == NO_FAULTS
    requires KeyOf(env, item) == Some(key) && key !in actual.evidence
    ensures TwinStep(Visit(env, false, actual, item, n), Visit(env, true, dry, item, n), accepted, Some(key))
  {
    assert accepted + {} == accepted;
    if actual.remainingCount > 0 && |item.file.value| <= actual.remainingBytes {
      QuietImport(env, actual, item, key, n);
    }
  }

  lemma TwinVisit(env: Env, actual: State, dry: State, accepted: set<Key>, item: Item, n: nat)
    requires Twin(actual, dry, accepted) && env.faults(n) == NO_FAULTS
    ensures var key := KeyOf(env, item);
            var r, d := Visit(env, false, actual, item, n), Visit(env, true, dry, item, n);
            if key.Some? && key.value in accepted then AsDry(r.outcome) != d.outcome else TwinStep(r, d, accepted, key)
  {
    match KeyOf(env, item) {
      case None => assert accepted + {} == accepted;
      case Some(key) =>
        if key in accepted { TwinRepeat(env, actual, dry, accepted, item, key, n); }
        else if key in dry.evidence { TwinKnown(env, actual, dry, accepted, item, key, n); }
        else { TwinNew(env, actual, dry, accepted, item, key, n); }
    }
  }

  ghost predicate NoRepeat(env: Env, start: State, items: seq<Item>, n: nat)
    requires n <= |items|
  {
    forall j :: 0 <= j < n && KeyOf(env, items[j]).Some? ==> KeyOf(env, items[j]).value !in AcceptedKeys(env, start, items, j)
  }

  lemma AgreeStep(env: Env, start: State, items: seq<Item>, n: nat)
    requires 0 < n <= |items|
    ensures AgreeOn(env, start, items, n)
            <==> AgreeOn(env, start, items, n - 1)
                 && AsDry(Decision(env, false, start, items, n - 1)) == Decision(env, true, start, items, n - 1)
  {
  }

  lemma NoRepeatStep(env: Env, start: State, items: seq<Item>, n: nat)
    requires 0 < n <= |items|
    ensures var key := KeyOf(env, items[n - 1]);
            NoRepeat(env, start, items, n)
            <==> NoRepeat(env, start, items, n - 1)
                 && !(key.Some? && key.value in AcceptedKeys(env, start, items, n - 1))
  {
  }

  lemma {:induction false} Agreement(env: Env, start: State, items: seq<Item>, n: nat)
    requires Quiet(env) && n <= |items|
    ensures AgreeOn(env, start, items, n) <==> NoRepeat(env, start, items, n)
    ensures NoRepeat(env, start, items, n) ==>
              Twin(Reached(env, false, start, items, n), Reached(env, true, start, items, n), AcceptedKeys(env, start, items, n))
  {
    if n > 0 {
      var i := n - 1;
      Agreement(env, start, items, i);
      AgreeStep(env, start, items, n);
      NoRepeatStep(env, start, items, n);
      FoldStep(env, false, start, items, i);
      FoldStep(env, true, start, items, i);
      var actual, dry := Reached(env, false, start, items, i), Reached(env, true, start, items, i);
      if NoRepeat(env, start, items, i) {
        TwinVisit(env, actual, dry, AcceptedKeys(env, start, items, i), items[i], i);
      }
    }
  }

  lemma DecisionsAre(env: Env, start: State, items: seq<Item>, i: nat)
    requires i < |items|
    ensures Fold(env, false, start, items).trace[i] == Decision(env, false, start, items, i)
    ensures Fold(env, true, start, items).trace[i] == Decision(env, true, start, items, i)
    ensures Decision(env, true, start, items, i).DryAccepted? ==> KeyOf(env, items[i]).Some?
  {
    TraceAt(env, false, start, items, i);
    TraceAt(env, true, start, items, i);
  }

  /** No identity that the dry run accepts occurs again later. */
  ghost predicate NoneRecurs(env: Env, start: State, items: seq<Item>) {
    forall i, j :: 0 <= i < j < |items| && Fold(env, true, start, items).trace[i].DryAccepted? ==>
      KeyOf(env, items[j]) != KeyOf(env, items[i])
  }

  lemma NoRepeatIs(env: Env, start: State, items: seq<Item>)
    ensures NoRepeat(env, start, items, |items|) <==> NoneRecurs(env, start, items)
  {
    forall j | 0 <= j < |items| && KeyOf(env, items[j]).Some?
      ensures KeyOf(env, items[j]).value in AcceptedKeys(env, start, items, j)
              <==> exists i :: 0 <= i < j && Fold(env, true, start, items).trace[i].DryAccepted? && KeyOf(env, items[i]) == KeyOf(env, items[j])
    {
      var key := KeyOf(env, items[j]).value;
      AcceptedKeysAre(env, start, items, j, key);
      forall i | 0 <= i < j
        ensures AcceptsAs(env, start, items, i, key)
                <==> Fold(env, true, start, items).trace[i].DryAccepted? && KeyOf(env, items[i]) == KeyOf(env, items[j])
      {
        DecisionsAre(env, start, items, i);
      }
    }
    forall i | 0 <= i < |items|
      ensures Fold(env, true, start, items).trace[i].DryAccepted? ==> KeyOf(env, items[i]).Some?
    {
      DecisionsAre(env, start, items, i);
    }
  }

  lemma AgreeOnAll(env: Env, start: State, items: seq<Item>)
    ensures var actual, dry := Fold(env, false, start, items), Fold(env, true, start, items);
            AgreeOn(env, start, items, |items|) <==> forall i :: 0 <= i < |items| ==> AsDry(actual.trace[i]) == dry.trace[i]
  {
    var actual, dry := Fold(env, false, start, items), Fold(env, true, start, items);
    if AgreeOn(env, start, items, |items|) {
      forall i | 0 <= i < |items|
        ensures AsDry(actual.trace[i]) == dry.trace[i]
      {
        DecisionsAre(env, start, items, i);
        assert AsDry(Decision(env, false, start, items, i)) == Decision(env, true, start, items, i);
      }
    } else {
      var i :| 0 <= i < |items| && AsDry(Decision(env, false, start, items, i)) != Decision(env, true, start, items, i);
      DecisionsAre(env, start, items, i);
      assert AsDry(actual.trace[i]) != dry.trace[i];
    }
  }

  /** Without write failures a dry run and a real run decide every input alike exactly when
      no identity the dry run accepts occurs again later; then they leave the same budgets. */
  lemma DryRunAgrees(env: Env, start: State, items: seq<Item>)
    requires Quiet(env)
    ensures var actual, dry := Fold(env, false, start, items), Fold(env, true, start, items);
            (forall i :: 0 <= i < |items| ==> AsDry(actual.trace[i]) == dry.trace[i]) <==> NoneRecurs(env, start, items)
    ensures var actual, dry := Fold(env, false, start, items), Fold(env, true, start, items);
            (forall i :: 0 <= i < |items| ==> AsDry(actual.trace[i]) == dry.trace[i]) ==>
              actual.state.remainingCount == dry.state.remainingCount && actual.state.remainingBytes == dry.state.remainingBytes
  {
    AgreeOnAll(env, start, items);
    NoRepeatIs(env, start, items);
    Agreement(env, start, items, |items|);
    assert items[..|items|] == items;
  }

  /** In particular with pairwise different identities. */
  lemma DistinctInputsAgree(env: Env, start: State, items: seq<Item>, i: nat)
    requires Quiet(env) && i < |items|
    requires forall a, b :: 0 <= a < b < |items| && KeyOf(env, items[a]).Some? ==> KeyOf(env, items[a]) != KeyOf(env, items[b])
    ensures AsDry(Fold(env, false, start, items).trace[i]) == Fold(env, true, start, items).trace[i]
    ensures Fold(env, false, start, items).state.remainingCount == Fold(env, true, start, items).state.remainingCount
    ensures Fold(env, false, start, items).state.remainingBytes == Fold(env, true, start, items).state.remainingBytes
  {
    forall k | 0 <= k < |items| && Fold(env, true, start, items).trace[k].DryAccepted?
      ensures KeyOf(env, items[k]).Some?
    {
      TraceAt(env, true, start, items, k);
    }
    DryRunAgrees(env, start, items);
  }

  /** Two files with the same content: the dry run counts the second one again, the real run
      merges it, and they leave different budgets. */
  lemma RepeatedInputDisagrees()
    ensures var env := Env(raw => Some(raw), _ => [], _ => NO_FAULTS);
            var items := [Item([], 100, "a.json", Some([])), Item([], 100, "b.json", Some([]))];
            var actual, dry := Fold(env, false, State(map[], 10, 1000), items), Fold(env, true, State(map[], 10, 1000), items);
            && actual.trace == [Imported(0), Merged] && dry.trace == [DryAccepted(0), DryAccepted(0)]
            && actual.state.remainingCount == 9 && dry.state.remainingCount == 8
  {
    var env := Env(raw => Some(raw), _ => [], _ => NO_FAULTS);
    var start, a, b := State(map[], 10, 1000), Item([], 100, "a.json", Some([])), Item([], 100, "b.json", Some([]));
    FoldOfTwo(env, false, start, a, b);
    FoldOfTwo(env, true, start, a, b);
    RepeatedVisit(env, start, a, b);
  }

  lemma FoldOfTwo(env: Env, dry: bool, start: State, a: Item, b: Item)
    ensures var first := Visit(env, dry, start, a, 0); var second := Visit(env, dry, first.state, b, 1);
            Fold(env, dry, start, [a, b]) == Log(second.state, [first.outcome, second.outcome])
  {
    var items := [a, b];
    assert items[..0] == [] && items[..1] == [a] && items[..2] == items;
    FoldStep(env, dry, start, items, 0);
    FoldStep(env, dry, start, items, 1);
  }

  lemma RepeatedVisit(env: Env, start: State, a: Item, b: Item)
    requires env.faults(0) == env.faults(1) == NO_FAULTS && env.native([]) == Some([]) && env.timestamp(0) == []
    requires start == State(map[], 10, 1000) && a == Item([], 100, "a.json", Some([])) && b == Item([], 100, "b.json", Some([]))
    ensures var first := Visit(env, false, start, a, 0);
            && first.outcome == Imported(0) && first.state.remainingCount == 9
            && Visit(env, false, first.state, b, 1) == Step(first.state, Merged)
    ensures var first := Visit(env, true, start, a, 0);
            && first == Step(State(map[], 9, 1000), DryAccepted(0))
            && Visit(env, true, first.state, b, 1) == Step(State(map[], 8, 1000), DryAccepted(0))
  {
    var key := Key([], []);
    QuietImport(env, start, a, key, 0);
    var known := NewEvidence(env, a, 0);
    DecodeEncode(LAYOUT, Stored([], INBOUND, [], []));
    EvidenceFits(Stored([], INBOUND, [], []), 100);
    assert |INBOUND| == 7;
    RevisitIs(b, known);
  }
}
