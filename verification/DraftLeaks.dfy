/** Exactly when a marker line leaves the workspace: removal never keeps one, but the final
    trim may uncover one at either end. */
module DraftLeaks {
  import opened Text
  import opened DraftContent
  import opened DraftOutbound

  // ----- the line of a position -----

  function LineOf(s: string, i: nat): (r: nat)
    requires i < |s|
    ensures r <= i
  {
    if i == 0 || s[i - 1] == '\n' then i else LineOf(s, i - 1)
  }

  lemma {:induction false} LineOfIs(s: string, i: nat)
    requires i < |s|
    ensures var r := LineOf(s, i); r <= i && LineStart(s, r) && forall k :: r <= k < i ==> s[k] != '\n'
    decreases i
  {
    if i > 0 && s[i - 1] != '\n' { LineOfIs(s, i - 1); }
  }

  lemma LineOfUnique(s: string, r: nat, i: nat)
    requires LineStart(s, r) && r <= i < |s| && forall k :: r <= k < i ==> s[k] != '\n'
    ensures LineOf(s, i) == r
  {
    LineOfIs(s, i);
  }

  // ----- what a trim does to one line -----

  lemma LastOfBoth(a: string, y: string)
    requires y != ""
    ensures var all := a + y; all[..|all| - 1] == a + y[..|y| - 1] && all[|all| - 1] == y[|y| - 1]
  {
  }

  /** Breaks in front of text stay in front of its line. */
  lemma LineAfterBreaks(a: string, y: string)
    requires y != "" && !IsBreak(y[0])
    ensures Line(a + y) == a + Line(y) && Line(y) != "" && Line(y)[0] == y[0]
  {
    var u := if y[|y| - 1] == '\n' then y[..|y| - 1] else y;
    LastOfBoth(a, y);
    assert u != "" && u[0] == y[0];
    LastOfBoth(a, u);
  }

  lemma {:induction false} LineBeforeBreaks(x: string, b: string)
    requires x != "" && !IsBreak(x[|x| - 1]) && AllOf(IsBreak, b)
    ensures TrimEnd(IsBreak, Line(x + b)) == x
  {
    if b == "" {
      assert x + b == x;
    } else {
      var c := b[..|b| - 1];
      assert (x + b)[..|x + b| - 1] == x + c;
      TrimEndOf(IsBreak, x, b);
      TrimEndOf(IsBreak, x, c);
      if c != "" {
        assert (x + c)[..|x + c| - 1] == x + c[..|c| - 1];
        TrimEndOf(IsBreak, x, c[..|c| - 1]);
      }
    }
  }

  lemma TrimStartOfLine(a: string, y: string)
    requires AllOf(IsBreak, a) && y != "" && !IsBreak(y[0])
    ensures TrimStart(IsBreak, Line(a + y)) == Line(y)
  {
    LineAfterBreaks(a, y);
    TrimStartOf(IsBreak, a, Line(y));
  }

  lemma TrimOfLine(a: string, x: string, b: string)
    requires AllOf(IsBreak, a) && AllOf(IsBreak, b) && x != "" && Trimmed(IsBreak, x)
    ensures Trim(IsBreak, Line(a + (x + b))) == x
  {
    assert (x + b)[0] == x[0];
    TrimStartOfLine(a, x + b);
    LineBeforeBreaks(x, b);
  }

  // ----- the lines of a trimmed text -----

  /** The stretch from `p` to `q` is the text without the breaks around it. */
  ghost predicate Core(s: string, p: nat, q: nat) {
    && p < q <= |s| && !IsBreak(s[p]) && !IsBreak(s[q - 1])
    && (forall k :: 0 <= k < p ==> IsBreak(s[k])) && (forall k :: q <= k < |s| ==> IsBreak(s[k]))
  }

  /** The line of the core at `m` ends before the core does, or with it. */
  lemma CoreLineEnd(s: string, p: nat, q: nat, m: nat)
    requires Core(s, p, q) && m < q - p
    ensures var e := LineEnd(s, p + m);
            LineEnd(s[p..q], m) == (if e < q then e - p else q - p) && (e < q ==> s[e - 1] == '\n')
            && (e >= q ==> forall k :: p + m <= k < q ==> s[k] != '\n')
  {
    var t, e := s[p..q], LineEnd(s, p + m);
    LineEndIs(s, p + m, e);
    assert forall k :: 0 <= k < q - p ==> t[k] == s[p + k];
    LineEndIs(t, m, if e < q then e - p else q - p);
  }

  lemma CoreLine(s: string, p: nat, q: nat, m: nat)
    requires Core(s, p, q) && m < q - p
    ensures var e := LineEnd(s, p + m); LineAt(s[p..q], m) == Line(s[p + m..if e < q then e else q])
  {
    CoreLineEnd(s, p, q, m);
    SliceOfSlice(s, p, q, m, LineEnd(s[p..q], m));
  }

  /** A line inside the core, neither its first nor its last, is a line of the text. */
  lemma InnerLine(s: string, p: nat, q: nat, m: nat)
    requires Core(s, p, q) && 0 < m && LineStart(s[p..q], m) && LineEnd(s, p + m) < q
    ensures HasLine(s, LineAt(s[p..q], m))
  {
    CoreLine(s, p, q, m);
    assert s[p..q][m - 1] == s[p + m - 1];
    LineIsThere(s, p + m);
  }

  /** The line of a position, cut there. */
  lemma LineCut(s: string, p: nat)
    requires p < |s|
    ensures var i, e := LineOf(s, p), LineEnd(s, p);
            LineStart(s, i) && LineEnd(s, i) == e
  {
    LineOfIs(s, p);
    SameLineEnd(s, LineOf(s, p), p);
  }

  lemma SameLineEnd(s: string, i: nat, p: nat)
    requires i <= p < |s| && forall k :: i <= k < p ==> s[k] != '\n'
    ensures LineEnd(s, i) == LineEnd(s, p)
  {
    var e := LineEnd(s, p);
    LineEndIs(s, p, e);
    LineEndIs(s, i, e);
  }

  /** The first line of a core of several lines is the text's line without leading breaks. */
  lemma FirstLine(s: string, p: nat, q: nat)
    requires Core(s, p, q) && LineEnd(s, p) < q
    ensures LineAt(s[p..q], 0) == TrimStart(IsBreak, LineAt(s, LineOf(s, p)))
  {
    var i, e := LineOf(s, p), LineEnd(s, p);
    LineCut(s, p);
    CoreLine(s, p, q, 0);
    BreaksBefore(s, i, p);
    FirstIs(s, p, e);
    TrimStartOfCut(s, i, p, e);
    assert LineAt(s, i) == Line(s[i..e]);
  }

  lemma TrimStartOfCut(s: string, i: nat, p: nat, e: nat)
    requires i <= p < e <= |s| && AllOf(IsBreak, s[i..p]) && s[p..e] != "" && !IsBreak(s[p..e][0])
    ensures TrimStart(IsBreak, Line(s[i..e])) == Line(s[p..e])
  {
    Cut(s, i, p, e);
    TrimStartOfLine(s[i..p], s[p..e]);
  }

  lemma FirstIs(s: string, p: nat, e: nat)
    requires p < e <= |s|
    ensures s[p..e] != "" && s[p..e][0] == s[p] && s[p..e][|s[p..e]| - 1] == s[e - 1]
  {
  }

  lemma BreaksBefore(s: string, i: nat, p: nat)
    requires i <= p <= |s| && forall k :: 0 <= k < p ==> IsBreak(s[k])
    ensures AllOf(IsBreak, s[i..p])
  {
  }

  lemma BreaksAfter(s: string, q: nat, e: nat)
    requires q <= e <= |s| && forall k :: q <= k < |s| ==> IsBreak(s[k])
    ensures AllOf(IsBreak, s[q..e])
  {
  }

  /** The last line of a core of several lines is the text's line without trailing breaks. */
  lemma LastLine(s: string, p: nat, q: nat, m: nat)
    requires Core(s, p, q) && 0 < m < q - p && LineEnd(s, p + m) >= q
    ensures LineAt(s[p..q], m) == TrimEnd(IsBreak, LineAt(s, p + m))
  {
    CoreLine(s, p, q, m);
    LastLineText(s, p + m, q);
  }

  lemma LastLineText(s: string, j: nat, q: nat)
    requires j < q <= |s| && q <= LineEnd(s, j) && !IsBreak(s[q - 1]) && forall k :: q <= k < |s| ==> IsBreak(s[k])
    ensures Line(s[j..q]) == TrimEnd(IsBreak, LineAt(s, j))
  {
    LastText(s, j, q, LineEnd(s, j));
  }

  lemma StartInCore(s: string, p: nat, q: nat, m: nat)
    requires Core(s, p, q) && 0 < m < q - p
    ensures LineStart(s[p..q], m) <==> LineStart(s, p + m)
  {
    assert s[p..q][m - 1] == s[p + m - 1];
  }

  /** Text up to a last character that is no break, then breaks to the end of the line. */
  lemma LastText(s: string, j: nat, q: nat, e: nat)
    requires j < q <= e <= |s| && !IsBreak(s[q - 1]) && forall k :: q <= k < |s| ==> IsBreak(s[k])
    ensures Line(s[j..q]) == s[j..q] == TrimEnd(IsBreak, Line(s[j..e]))
  {
    FirstIs(s, j, q);
    BreaksAfter(s, q, e);
    Cut(s, j, q, e);
    LineBeforeBreaks(s[j..q], s[q..e]);
  }

  lemma Cut(s: string, i: nat, j: nat, e: nat)
    requires i <= j <= e <= |s|
    ensures s[i..e] == s[i..j] + s[j..e]
  {
  }

  /** A core within one line is that line without the breaks around it. */
  lemma OnlyLine(s: string, p: nat, q: nat)
    requires Core(s, p, q) && LineEnd(s, p) >= q
    ensures LineAt(s[p..q], 0) == s[p..q] == Trim(IsBreak, LineAt(s, LineOf(s, p)))
  {
    var i, e := LineOf(s, p), LineEnd(s, p);
    LineCut(s, p);
    CoreLine(s, p, q, 0);
    LastText(s, p, q, e);
    TrimOfCut(s, i, p, q, e);
  }

  lemma TrimOfCut(s: string, i: nat, p: nat, q: nat, e: nat)
    requires i <= p && Core(s, p, q) && q <= e <= |s|
    ensures Trim(IsBreak, Line(s[i..e])) == s[p..q]
  {
    FirstIs(s, p, q);
    BreaksBefore(s, i, p);
    BreaksAfter(s, q, e);
    Cut(s, p, q, e);
    Cut(s, i, p, e);
    TrimOfLine(s[i..p], s[p..q], s[q..e]);
  }

  /** The first or the last line of a text that is not blank turns into `marker` when the
      breaks around the text go. */
  ghost predicate Uncovers(s: string, p: nat, q: nat, marker: string)
    requires p < q <= |s|
  {
    var i, j := LineOf(s, p), LineOf(s, q - 1);
    if i == j then Trim(IsBreak, LineAt(s, i)) == marker
    else TrimStart(IsBreak, LineAt(s, i)) == marker || TrimEnd(IsBreak, LineAt(s, j)) == marker
  }

  /** The core lies in one line exactly when that line does not end before it. */
  lemma OneLineIff(s: string, p: nat, q: nat)
    requires Core(s, p, q)
    ensures LineOf(s, p) == LineOf(s, q - 1) <==> LineEnd(s, p) >= q
    ensures LineEnd(s, p) < q ==> p < LineOf(s, q - 1)
  {
    var i, j, e := LineOf(s, p), LineOf(s, q - 1), LineEnd(s, p);
    LineOfIs(s, p);
    LineOfIs(s, q - 1);
    CoreLineEnd(s, p, q, 0);
    if e >= q {
      LineOfUnique(s, i, q - 1);
    } else {
      assert s[e - 1] == '\n' && j >= e;
    }
  }

  lemma UncoveredFirst(s: string, p: nat, q: nat, marker: string)
    requires Core(s, p, q) && LineAt(s[p..q], 0) == marker
    ensures Uncovers(s, p, q, marker)
  {
    OneLineIff(s, p, q);
    if LineEnd(s, p) < q { FirstLine(s, p, q); } else { OnlyLine(s, p, q); }
  }

  lemma LastIsItself(s: string, p: nat, q: nat, m: nat)
    requires Core(s, p, q) && 0 < m < q - p && LineStart(s, p + m) && LineEnd(s, p + m) >= q
    ensures LineOf(s, q - 1) == p + m && LineOf(s, p) != p + m
  {
    CoreLineEnd(s, p, q, m);
    LineOfUnique(s, p + m, q - 1);
    LineOfIs(s, p);
  }

  lemma UncoveredLater(s: string, p: nat, q: nat, marker: string, m: nat)
    requires Core(s, p, q) && !HasLine(s, marker)
    requires 0 < m && LineStart(s[p..q], m) && LineAt(s[p..q], m) == marker
    ensures Uncovers(s, p, q, marker)
  {
    if LineEnd(s, p + m) < q {
      InnerLine(s, p, q, m);
    } else {
      StartInCore(s, p, q, m);
      LastLine(s, p, q, m);
      LastIsItself(s, p, q, m);
    }
  }

  /** The last line of a core of several lines starts inside it. */
  lemma LastStart(s: string, p: nat, q: nat) returns (m: nat)
    requires Core(s, p, q) && LineEnd(s, p) < q
    ensures 0 < m < q - p && p + m == LineOf(s, q - 1) && LineStart(s, p + m) && LineEnd(s, p + m) >= q
  {
    var j := LineOf(s, q - 1);
    OneLineIff(s, p, q);
    LineOfIs(s, q - 1);
    SameLineEnd(s, j, q - 1);
    m := j - p;
  }

  lemma CoreStart(s: string, p: nat, q: nat)
    requires Core(s, p, q)
    ensures HasLine(s[p..q], LineAt(s[p..q], 0))
  {
    LineIsThere(s[p..q], 0);
  }

  lemma CoreLast(s: string, p: nat, q: nat)
    requires Core(s, p, q) && LineEnd(s, p) < q
    ensures HasLine(s[p..q], TrimEnd(IsBreak, LineAt(s, LineOf(s, q - 1))))
  {
    var m := LastStart(s, p, q);
    StartInCore(s, p, q, m);
    LastLine(s, p, q, m);
    LineIsThere(s[p..q], m);
  }

  lemma CoverOff(s: string, p: nat, q: nat, marker: string)
    requires Core(s, p, q) && Uncovers(s, p, q, marker)
    ensures HasLine(s[p..q], marker)
  {
    OneLineIff(s, p, q);
    CoreStart(s, p, q);
    if LineEnd(s, p) >= q {
      OnlyLine(s, p, q);
    } else {
      FirstLine(s, p, q);
      CoreLast(s, p, q);
    }
  }

  /** What the final trim uncovers, in terms of the first and the last line that is not blank. */
  ghost predicate Exposes(s: string, marker: string) {
    var t, p := Trim(IsBreak, s), |s| - |TrimStart(IsBreak, s)|;
    t != "" && 0 <= p && p + |t| <= |s| && Uncovers(s, p, p + |t|, marker)
  }

  lemma CoreIs(s: string, p: nat, q: nat, t: string)
    requires p < q <= |s| && s[p..q] == t && Trimmed(IsBreak, t) && AllOf(IsBreak, s[..p]) && AllOf(IsBreak, s[q..])
    ensures Core(s, p, q)
  {
    assert t[0] == s[p] && t[q - p - 1] == s[q - 1];
    assert forall k :: 0 <= k < p ==> s[k] == s[..p][k];
    assert forall k :: q <= k < |s| ==> s[k] == s[q..][k - q];
  }

  lemma TrimIsCore(s: string)
    ensures var t, p := Trim(IsBreak, s), |s| - |TrimStart(IsBreak, s)|;
            0 <= p && p + |t| <= |s| && s[p..p + |t|] == t && (t != "" ==> Core(s, p, p + |t|))
  {
    var t, p := Trim(IsBreak, s), |s| - |TrimStart(IsBreak, s)|;
    TrimIs(IsBreak, s);
    if t != "" { CoreIs(s, p, p + |t|, t); }
  }

  lemma TrimmedExposes(s: string, marker: string)
    requires !HasLine(s, marker) && HasLine(Trim(IsBreak, s), marker)
    ensures Exposes(s, marker)
  {
    var t, p := Trim(IsBreak, s), |s| - |TrimStart(IsBreak, s)|;
    TrimIsCore(s);
    var m: nat :| LineStart(t, m) && LineAt(t, m) == marker;
    if m == 0 { UncoveredFirst(s, p, p + |t|, marker); } else { UncoveredLater(s, p, p + |t|, marker, m); }
  }

  lemma TrimmedLines(s: string, marker: string)
    requires !HasLine(s, marker)
    ensures HasLine(Trim(IsBreak, s), marker) <==> Exposes(s, marker)
  {
    if HasLine(Trim(IsBreak, s), marker) { TrimmedExposes(s, marker); }
    if Exposes(s, marker) { ExposedIsLine(s, marker); }
  }

  lemma ExposedIsLine(s: string, marker: string)
    requires Exposes(s, marker)
    ensures HasLine(Trim(IsBreak, s), marker)
  {
    TrimIsCore(s);
    var p := |s| - |TrimStart(IsBreak, s)|;
    CoverOff(s, p, p + |Trim(IsBreak, s)|, marker);
  }

  /** A marker line leaves the workspace exactly when the first or the last kept line that is
      not blank reads as the marker once the breaks around the kept text are gone. */
  lemma MarkerLeavesIff(k: Schema, d: Draft, marker: string)
    requires Parsed(k, d) && k.Names(marker)
    ensures Outbound(k, d.body).Ok?
    ensures HasLine(Outbound(k, d.body).value, marker) <==> Exposes(Kept(k, d), marker)
  {
    KeptHasNoMarker(k, d, marker);
    TrimmedLines(Kept(k, d), marker);
  }
}
