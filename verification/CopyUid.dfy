/** The COPYUID receipt (section 3 of RFC 4315): which uid a copied or moved message got. */
module CopyUid {
  import opened Wrappers

  datatype UidSetMember = Uid(uid: nat) | UidRange(first: nat, last: nat)

  const MAX_EXPANDED_UIDS := 4096

  function Interval(first: nat, last: nat): (r: seq<nat>)
    requires first <= last + 1
    ensures |r| == last + 1 - first
  {
    seq(last + 1 - first, i requires 0 <= i => first + i)
  }

  function MemberMeaning(member: UidSetMember): seq<nat> {
    match member
    case Uid(uid) => [uid]
    case UidRange(a, b) => if a <= b then Interval(a, b) else Interval(b, a)
  }

  /** The uids a wire set names, in order, without any limit. */
  ghost function Meaning(members: seq<UidSetMember>): seq<nat> {
    if members == [] then [] else Meaning(members[..|members| - 1]) + MemberMeaning(members[|members| - 1])
  }

  ghost predicate Ascending(members: seq<UidSetMember>) {
    forall i :: 0 <= i < |members| && members[i].UidRange? ==> members[i].first <= members[i].last
  }

  lemma MeaningStep(members: seq<UidSetMember>, n: nat)
    requires n < |members|
    ensures Meaning(members[..n + 1]) == Meaning(members[..n]) + MemberMeaning(members[n])
  {
    assert members[..n + 1][..n] == members[..n];
  }

  lemma {:induction false} MeaningGrows(members: seq<UidSetMember>, n: nat)
    requires n <= |members|
    ensures |Meaning(members[..n])| <= |Meaning(members)|
    decreases |members| - n
  {
    if n == |members| {
      assert members[..n] == members;
    } else {
      MeaningStep(members, n);
      MeaningGrows(members, n + 1);
    }
  }

  lemma AscendingStep(members: seq<UidSetMember>, n: nat)
    requires n < |members| && Ascending(members[..n])
    ensures Ascending(members[..n + 1]) <==> !(members[n].UidRange? && members[n].first > members[n].last)
    ensures Ascending(members) ==> Ascending(members[..n + 1])
  {
    assert forall i :: 0 <= i < n ==> members[..n + 1][i] == members[..n][i];
  }

  /** Expansion gives the meaning of the set, and refuses exactly a reversed range or more
      than 4096 uids. */
  method ExpandUidSet(members: seq<UidSetMember>) returns (r: Option<seq<nat>>)
    ensures r == if Ascending(members) && |Meaning(members)| <= 4096 then Some(Meaning(members)) else None
  {
    var out: seq<nat> := [];
    for i := 0 to |members|
      invariant out == Meaning(members[..i]) && |out| <= MAX_EXPANDED_UIDS && Ascending(members[..i])
    {
      MeaningStep(members, i);
      MeaningGrows(members, i + 1);
      var member := members[i];
      AscendingStep(members, i);
      if member.UidRange? && (member.first > member.last || member.last - member.first >= MAX_EXPANDED_UIDS) {
        return None;
      }
      out := out + (if member.Uid? then [member.uid] else Interval(member.first, member.last));
      if |out| > MAX_EXPANDED_UIDS {
        return None;
      }
    }
    assert members[..|members|] == members;
    return Some(out);
  }

  datatype Receipt = Receipt(uidValidity: nat, sourceUids: seq<nat>, targetUids: seq<nat>) {
    /** The targets paired with `uid` from position `i` on. */
    function TargetsOf(uid: nat, i: nat): seq<nat>
      requires |sourceUids| == |targetUids| && i <= |sourceUids|
      decreases |sourceUids| - i
    {
      if i == |sourceUids| then []
      else (if sourceUids[i] == uid then [targetUids[i]] else []) + TargetsOf(uid, i + 1)
    }

    function TargetFor(uid: nat): Option<nat> {
      if |sourceUids| != |targetUids| then None else
        var targets := TargetsOf(uid, 0);
        if |targets| == 1 then Some(targets[0]) else None
    }

    ghost predicate MapsOnce(uid: nat, i: nat) {
      && |sourceUids| == |targetUids| && i < |sourceUids| && sourceUids[i] == uid
      && forall j :: 0 <= j < |sourceUids| && sourceUids[j] == uid ==> j == i
    }

    lemma {:induction false} TargetsOfNone(uid: nat, i: nat)
      requires |sourceUids| == |targetUids| && i <= |sourceUids|
      ensures TargetsOf(uid, i) == [] <==> forall j :: i <= j < |sourceUids| ==> sourceUids[j] != uid
      decreases |sourceUids| - i
    {
      if i < |sourceUids| { TargetsOfNone(uid, i + 1); }
    }

    lemma {:induction false} TargetsOfOne(uid: nat, i: nat) returns (k: nat)
      requires |sourceUids| == |targetUids| && i <= |sourceUids| && |TargetsOf(uid, i)| == 1
      ensures i <= k < |sourceUids| && sourceUids[k] == uid && TargetsOf(uid, i) == [targetUids[k]]
      ensures forall j :: i <= j < |sourceUids| && sourceUids[j] == uid ==> j == k
      decreases |sourceUids| - i
    {
      if sourceUids[i] == uid {
        TargetsOfNone(uid, i + 1);
        k := i;
      } else {
        k := TargetsOfOne(uid, i + 1);
      }
    }

    lemma {:induction false} TargetsOfUnique(uid: nat, k: nat, i: nat)
      requires MapsOnce(uid, k) && i <= |sourceUids|
      ensures TargetsOf(uid, i) == if i <= k then [targetUids[k]] else []
      decreases |sourceUids| - i
    {
      if i < |sourceUids| { TargetsOfUnique(uid, k, i + 1); }
    }

    /** A receipt answers for a uid exactly when its two sets have equal length and name the
        uid once; the answer is the uid at the same place in the other set. */
    lemma TargetForIs(uid: nat, target: nat)
      ensures TargetFor(uid) == Some(target) <==> exists i: nat :: MapsOnce(uid, i) && targetUids[i] == target
    {
      if TargetFor(uid) == Some(target) {
        var k := TargetsOfOne(uid, 0);
        assert MapsOnce(uid, k);
      }
      if exists i: nat :: MapsOnce(uid, i) && targetUids[i] == target {
        var i: nat :| MapsOnce(uid, i) && targetUids[i] == target;
        TargetsOfUnique(uid, i, 0);
      }
    }
  }

  lemma MemberIsLong(member: UidSetMember)
    ensures |MemberMeaning(member)| >= 1
    ensures member.UidRange? && member.first > member.last ==> |MemberMeaning(member)| > 1
  {
  }

  lemma {:induction false} MeaningIsLong(members: seq<UidSetMember>)
    ensures |Meaning(members)| >= |members|
    ensures !Ascending(members) ==> |Meaning(members)| > |members|
    decreases |members|
  {
    if members != [] {
      var n := |members| - 1;
      MeaningIsLong(members[..n]);
      MemberIsLong(members[n]);
      AscendingLast(members);
    }
  }

  lemma AscendingLast(members: seq<UidSetMember>)
    requires members != []
    ensures var n := |members| - 1;
            Ascending(members) <==> Ascending(members[..n]) && !(members[n].UidRange? && members[n].first > members[n].last)
  {
    var n := |members| - 1;
    assert forall i :: 0 <= i < n ==> members[..n][i] == members[i];
  }

  /** A set that means one uid is always expanded. */
  lemma OneUidExpands(members: seq<UidSetMember>, uid: nat)
    requires Meaning(members) == [uid]
    ensures Ascending(members) && |Meaning(members)| <= MAX_EXPANDED_UIDS
  {
    MeaningIsLong(members);
  }

  /** COPYUID as it is on the wire. */
  datatype CopyUidCode = CopyUidCode(uidValidity: nat, sources: seq<UidSetMember>, targets: seq<UidSetMember>)

  ghost function Expanded(code: CopyUidCode): Option<Receipt> {
    if Ascending(code.sources) && |Meaning(code.sources)| <= MAX_EXPANDED_UIDS
       && Ascending(code.targets) && |Meaning(code.targets)| <= MAX_EXPANDED_UIDS
    then Some(Receipt(code.uidValidity, Meaning(code.sources), Meaning(code.targets)))
    else None
  }

  method ExpandReceipt(code: CopyUidCode) returns (r: Option<Receipt>)
    ensures r == Expanded(code)
  {
    var sources := ExpandUidSet(code.sources);
    if sources.None? { return None; }
    var targets := ExpandUidSet(code.targets);
    if targets.None? { return None; }
    return Some(Receipt(code.uidValidity, sources.value, targets.value));
  }

  lemma MeaningOfOne(member: UidSetMember)
    ensures Meaning([member]) == MemberMeaning(member)
  {
    MeaningStep([member], 0);
    assert [member][..1] == [member] && [member][..0] == [];
  }

  lemma PairedIntervals(uidValidity: nat, a: nat, b: nat, c: nat, d: nat, k: nat)
    requires a <= b && c <= d && b - a == d - c && k <= b - a
    ensures Receipt(uidValidity, Interval(a, b), Interval(c, d)).TargetFor(a + k) == Some(c + k)
  {
    var r := Receipt(uidValidity, Interval(a, b), Interval(c, d));
    assert r.MapsOnce(a + k, k);
    r.TargetForIs(a + k, c + k);
  }

  /** A range a:b answered by a range c:d of the same length maps a+k to c+k. */
  lemma RangesMapPairwise(uidValidity: nat, a: nat, b: nat, c: nat, d: nat, k: nat)
    requires a <= b && c <= d && b - a == d - c < MAX_EXPANDED_UIDS && k <= b - a
    ensures var code := CopyUidCode(uidValidity, [UidRange(a, b)], [UidRange(c, d)]);
            Expanded(code).Some? && Expanded(code).value.TargetFor(a + k) == Some(c + k)
  {
    MeaningOfOne(UidRange(a, b));
    MeaningOfOne(UidRange(c, d));
    PairedIntervals(uidValidity, a, b, c, d, k);
  }

  lemma MeaningOfTwo(a: UidSetMember, b: UidSetMember)
    ensures Meaning([a, b]) == MemberMeaning(a) + MemberMeaning(b)
  {
    MeaningStep([a, b], 0);
    MeaningStep([a, b], 1);
    assert [a, b][..0] == [] && [a, b][..2] == [a, b];
  }

  /** A range answered uid by uid: its first uid got the first of them. */
  lemma RangeByUids(uidValidity: nat, a: nat, c: nat, d: nat)
    ensures var code := CopyUidCode(uidValidity, [UidRange(a, a + 1)], [Uid(c), Uid(d)]);
            && Expanded(code).Some?
            && Expanded(code).value.TargetFor(a) == Some(c) && Expanded(code).value.TargetFor(a + 1) == Some(d)
  {
    MeaningOfOne(UidRange(a, a + 1));
    MeaningOfTwo(Uid(c), Uid(d));
    var r := Receipt(uidValidity, [a, a + 1], [c, d]);
    assert Interval(a, a + 1) == [a, a + 1] && [c] + [d] == [c, d];
    assert Expanded(CopyUidCode(uidValidity, [UidRange(a, a + 1)], [Uid(c), Uid(d)])) == Some(r);
    assert r.targetUids[0] == c && r.targetUids[1] == d;
    assert r.MapsOnce(a, 0) && r.MapsOnce(a + 1, 1);
    r.TargetForIs(a, c);
    r.TargetForIs(a + 1, d);
  }

  // ----- finding the receipt in a response -----

  type Bytes = seq<bv8>

  /** One parsed response: what remains of the input, and the COPYUID code if it has one. */
  datatype Parsed = Parsed(remaining: Bytes, code: Option<CopyUidCode>)

  function ConcatFrom(lines: seq<Bytes>, i: nat): Bytes
    requires i <= |lines|
    decreases |lines| - i
  {
    if i == |lines| then [] else lines[i] + ConcatFrom(lines, i + 1)
  }

  /** `response` is these non-empty lines and the parser takes them one at a time. */
  ghost predicate ParsesAs(parse: Bytes -> Option<Parsed>, response: Bytes, lines: seq<Bytes>, codes: seq<Option<CopyUidCode>>) {
    && |lines| == |codes| && response == ConcatFrom(lines, 0)
    && forall i :: 0 <= i < |lines| ==>
         && lines[i] != []
         && parse(ConcatFrom(lines, i)) == Some(Parsed(ConcatFrom(lines, i + 1), codes[i]))
  }

  ghost predicate FirstCode(codes: seq<Option<CopyUidCode>>, i: nat) {
    i < |codes| && codes[i].Some? && forall j :: 0 <= j < i ==> codes[j].None?
  }

  /** What one pass over the response finds; it stops where the parser fails or takes nothing. */
  ghost function ReceiptFrom(parse: Bytes -> Option<Parsed>, rest: Bytes): Option<Receipt>
    decreases |rest|
  {
    if rest == [] then None
    else match parse(rest)
      case None => None
      case Some(parsed) =>
        if parsed.code.Some? then Expanded(parsed.code.value)
        else if |parsed.remaining| >= |rest| then None
        else ReceiptFrom(parse, parsed.remaining)
  }

  /** The first COPYUID code of a complete response decides, whether it comes on an untagged
      line or on the tagged completion. */
  method ParseCopyUidReceipt(parse: Bytes -> Option<Parsed>, response: Bytes) returns (r: Option<Receipt>)
    ensures forall lines: seq<Bytes>, codes: seq<Option<CopyUidCode>>, i: nat ::
              ParsesAs(parse, response, lines, codes) && FirstCode(codes, i) ==> r == Expanded(codes[i].value)
    ensures forall lines: seq<Bytes>, codes: seq<Option<CopyUidCode>> ::
              ParsesAs(parse, response, lines, codes) && (forall j :: 0 <= j < |codes| ==> codes[j].None?) ==> r == None
    ensures r == ReceiptFrom(parse, response)
  {
    var rest := response;
    ghost var n := 0;
    while rest != []
      invariant ReceiptFrom(parse, response) == ReceiptFrom(parse, rest)
      invariant forall lines: seq<Bytes>, codes: seq<Option<CopyUidCode>> :: ParsesAs(parse, response, lines, codes) ==>
                  n <= |lines| && rest == ConcatFrom(lines, n) && forall j :: 0 <= j < n ==> codes[j].None?
      decreases |rest|
    {
      var parsed := parse(rest);
      if parsed.None? { return None; }
      if parsed.value.code.Some? {
        r := ExpandReceipt(parsed.value.code.value);
        return;
      }
      if |parsed.value.remaining| >= |rest| { return None; }
      rest := parsed.value.remaining;
      n := n + 1;
    }
    return None;
  }
}
