/** Lexical paths of file channels: normal forms, and which sources must not run. */
module ChannelPaths {
  import opened Wrappers

  /** A component of a Unix path. */
  datatype Component = RootDir | CurDir | ParentDir | Normal(name: string)

  type Path = seq<Component>

  // ----- normal forms -----

  function Push(out: Path, c: Component): Path {
    match c
    case CurDir => out
    case ParentDir =>
      if out != [] && out[|out| - 1].Normal? then out[..|out| - 1]
      else if out != [] && out[|out| - 1].RootDir? then out
      else out + [ParentDir]
    case RootDir => [RootDir]
    case Normal(_) => out + [c]
  }

  function Normalized(p: Path): Path {
    if p == [] then [] else Push(Normalized(p[..|p| - 1]), p[|p| - 1])
  }

  method Normalize(p: Path) returns (out: Path)
    ensures out == Normalized(p)
  {
    out := [];
    for i := 0 to |p|
      invariant out == Normalized(p[..i])
    {
      assert p[..i + 1][..i] == p[..i];
      match p[i] {
        case CurDir =>
        case ParentDir =>
          if out != [] && out[|out| - 1].Normal? {
            out := out[..|out| - 1];
          } else if !(out != [] && out[|out| - 1].RootDir?) {
            out := out + [ParentDir];
          }
        case RootDir => out := [RootDir];
        case Normal(_) => out := out + [p[i]];
      }
    }
    assert p[..|p|] == p;
  }

  /** The directory a path leads to from `base` in a tree without links; the parent of the
      root is the root. */
  function Walk(base: seq<string>, p: Path): seq<string> {
    if p == [] then base else
      var at := Walk(base, p[..|p| - 1]);
      match p[|p| - 1]
      case RootDir => []
      case CurDir => at
      case ParentDir => if at == [] then [] else at[..|at| - 1]
      case Normal(name) => at + [name]
  }

  /** A normal form: the root or some parents, then names. */
  datatype Form = Form(absolute: bool, ups: nat, names: seq<string>)

  function Ups(n: nat): Path { if n == 0 then [] else Ups(n - 1) + [ParentDir] }

  function Names(names: seq<string>): Path {
    if names == [] then [] else Names(names[..|names| - 1]) + [Normal(names[|names| - 1])]
  }

  function Head(f: Form): Path { if f.absolute then [RootDir] else Ups(f.ups) }

  function Build(f: Form): Path { Head(f) + Names(f.names) }

  lemma {:induction false} UpsAreParents(n: nat)
    ensures |Ups(n)| == n && forall i :: 0 <= i < n ==> Ups(n)[i] == ParentDir
  {
    if n > 0 { UpsAreParents(n - 1); }
  }

  lemma BuildLast(f: Form)
    requires f.names != []
    ensures var n := |f.names| - 1; Build(f) == Build(f.(names := f.names[..n])) + [Normal(f.names[n])]
  {
  }

  /** Pushing a component onto a normal form gives a normal form. */
  function PushForm(f: Form, c: Component): Form {
    match c
    case CurDir => f
    case RootDir => Form(true, 0, [])
    case Normal(name) => f.(names := f.names + [name])
    case ParentDir =>
      if f.names != [] then f.(names := f.names[..|f.names| - 1])
      else if f.absolute then f else f.(ups := f.ups + 1)
  }

  lemma PushFormIs(f: Form, c: Component)
    ensures Push(Build(f), c) == Build(PushForm(f, c))
  {
    if c.Normal? {
      BuildLast(PushForm(f, c));
      assert PushForm(f, c).names[..|f.names|] == f.names;
    } else if c.ParentDir? && f.names != [] {
      BuildLast(f);
    } else if c.ParentDir? && !f.absolute {
      UpsAreParents(f.ups);
      assert Build(f) == Ups(f.ups) && Build(PushForm(f, c)) == Ups(f.ups + 1);
    }
  }

  function FormOf(p: Path): Form {
    if p == [] then Form(false, 0, []) else PushForm(FormOf(p[..|p| - 1]), p[|p| - 1])
  }

  lemma {:induction false} NormalizedIsForm(p: Path)
    ensures Normalized(p) == Build(FormOf(p))
    decreases |p|
  {
    if p != [] {
      NormalizedIsForm(p[..|p| - 1]);
      PushFormIs(FormOf(p[..|p| - 1]), p[|p| - 1]);
    }
  }

  lemma FormOfMore(p: Path, c: Component)
    ensures FormOf(p + [c]) == PushForm(FormOf(p), c)
  {
    assert (p + [c])[..|p|] == p;
  }

  lemma {:induction false} FormOfHead(f: Form)
    requires f.names == [] && (f.absolute ==> f.ups == 0)
    ensures FormOf(Build(f)) == f
    decreases f.ups
  {
    if f.absolute {
      assert Build(f) == [RootDir] && [RootDir][..0] == [];
    } else if f.ups > 0 {
      var g := f.(ups := f.ups - 1);
      FormOfHead(g);
      assert Build(f) == Build(g) + [ParentDir];
      FormOfMore(Build(g), ParentDir);
    }
  }

  lemma {:induction false} FormOfBuild(f: Form)
    requires f.absolute ==> f.ups == 0
    ensures FormOf(Build(f)) == f
    decreases |f.names|
  {
    if f.names == [] {
      FormOfHead(f);
    } else {
      var g := f.(names := f.names[..|f.names| - 1]);
      BuildLast(f);
      FormOfBuild(g);
      FormOfMore(Build(g), Normal(f.names[|f.names| - 1]));
      assert f.names == g.names + [f.names[|f.names| - 1]];
    }
  }

  lemma {:induction false} FormShape(p: Path)
    ensures FormOf(p).absolute ==> FormOf(p).ups == 0
    decreases |p|
  {
    if p != [] { FormShape(p[..|p| - 1]); }
  }

  lemma NormalizeIsIdempotent(p: Path)
    ensures Normalized(Normalized(p)) == Normalized(p)
  {
    NormalizedIsForm(p);
    FormShape(p);
    FormOfBuild(FormOf(p));
    NormalizedIsForm(Normalized(p));
  }

  // ----- what a normal form means -----

  function Goes(base: seq<string>, f: Form): seq<string> {
    (if f.absolute || f.ups >= |base| then [] else base[..|base| - f.ups]) + f.names
  }

  lemma PushGoes(base: seq<string>, f: Form, c: Component)
    ensures var at := Goes(base, f);
            Goes(base, PushForm(f, c)) == match c
              case RootDir => []
              case CurDir => at
              case ParentDir => if at == [] then [] else at[..|at| - 1]
              case Normal(name) => at + [name]
  {
  }

  /** Normalizing does not change where a path leads, from any directory. */
  lemma {:induction false} WalkIsForm(base: seq<string>, p: Path)
    ensures Walk(base, p) == Goes(base, FormOf(p))
    decreases |p|
  {
    if p == [] {
      assert base[..|base|] == base;
    } else {
      WalkIsForm(base, p[..|p| - 1]);
      PushGoes(base, FormOf(p[..|p| - 1]), p[|p| - 1]);
    }
  }

  function Copies(s: string, n: nat): seq<string> { seq(n, _ => s) }

  /** Different forms lead to different places from some directory. */
  lemma FormsDiffer(f: Form, g: Form) returns (base: seq<string>)
    requires (f.absolute ==> f.ups == 0) && (g.absolute ==> g.ups == 0) && f != g
    ensures Goes(base, f) != Goes(base, g)
  {
    if f.absolute && g.absolute {
      base := [];
      assert Goes(base, f) == f.names && Goes(base, g) == g.names;
    } else if f.absolute {
      base := Copies("", g.ups + |f.names| + 1);
      assert |Goes(base, g)| > |f.names|;
    } else if g.absolute {
      base := Copies("", f.ups + |g.names| + 1);
      assert |Goes(base, f)| > |g.names|;
    } else if f.ups == g.ups {
      base := [];
      assert Goes(base, f) == f.names && Goes(base, g) == g.names;
    } else {
      var (less, more) := if f.ups < g.ups then (f, g) else (g, f);
      base := Copies(if more.names == [] then "" else more.names[0] + "x", more.ups);
      assert Goes(base, more) == more.names;
      assert Goes(base, less)[0] == base[0];
      if more.names != [] {
        assert |base[0]| == |more.names[0]| + 1;
        assert Goes(base, more)[0] == more.names[0];
      }
    }
  }

  /** A normal form determines the form, and so where the path leads. */
  lemma NormalizedDecides(p: Path, q: Path)
    ensures Normalized(p) == Normalized(q) <==> FormOf(p) == FormOf(q)
  {
    NormalizedIsForm(p);
    NormalizedIsForm(q);
    FormShape(p);
    FormShape(q);
    FormOfBuild(FormOf(p));
    FormOfBuild(FormOf(q));
  }

  lemma FormsPart(p: Path, q: Path) returns (base: seq<string>)
    requires FormOf(p) != FormOf(q)
    ensures Walk(base, p) != Walk(base, q)
  {
    FormShape(p);
    FormShape(q);
    base := FormsDiffer(FormOf(p), FormOf(q));
    WalkIsForm(base, p);
    WalkIsForm(base, q);
  }

  /** Two paths have one normal form exactly when they lead to the same place from every
      directory of a tree without links. */
  lemma SameFormSamePlace(p: Path, q: Path)
    ensures Normalized(p) == Normalized(q) <==> forall base :: Walk(base, p) == Walk(base, q)
  {
    NormalizedDecides(p, q);
    if FormOf(p) == FormOf(q) {
      forall base
        ensures Walk(base, p) == Walk(base, q)
      {
        WalkIsForm(base, p);
        WalkIsForm(base, q);
      }
    } else {
      var base := FormsPart(p, q);
    }
  }

  ghost predicate Absolute(p: Path) { p != [] && p[0] == RootDir }

  lemma {:induction false} AbsoluteForm(p: Path)
    requires Absolute(p)
    ensures FormOf(p).absolute
    decreases |p|
  {
    if |p| > 1 { AbsoluteForm(p[..|p| - 1]); } else { assert p[..0] == []; }
  }

  /** For absolute paths one directory decides. */
  lemma AbsoluteSamePlace(p: Path, q: Path)
    requires Absolute(p) && Absolute(q)
    ensures Normalized(p) == Normalized(q) <==> Walk([], p) == Walk([], q)
  {
    AbsoluteForm(p);
    AbsoluteForm(q);
    SameFormSamePlace(p, q);
    forall base
      ensures Walk(base, p) == Walk([], p) && Walk(base, q) == Walk([], q)
    {
      WalkIsForm(base, p);
      WalkIsForm(base, q);
      WalkIsForm([], p);
      WalkIsForm([], q);
    }
  }

  // ----- which sources must not run -----

  datatype Source = Source(id: string, inbox: Path, outbox: Path)

  /** Directories afmail writes or regenerates. */
  const MANAGED_DIRECTORIES: seq<string> := [
    ".afmail", "triage", "cases", "archived-cases", "notifications", "messages",
    "templates", "spam", "trash", "deleted", "contacts", "identities"]

  datatype Kind = Inbox | Outbox

  datatype Problem = Overlaps(kind: Kind) | SharesInbox(first: string, second: string) | WritesInbox(writer: string, reader: string)

  function Join(base: Path, p: Path): Path {
    if p != [] && p[0] == RootDir then p else base + p
  }

  /** Where a configured path is. An empty base stays lexical; otherwise `resolve` follows
      the links of the longest existing ancestor. */
  function Place(base: Path, resolve: Path -> Path, p: Path): Path {
    var joined := Normalized(Join(base, p));
    if base == [] then joined else resolve(joined)
  }

  function Root(base: Path, resolve: Path -> Path): Path {
    if base == [] then [] else Place(base, resolve, [])
  }

  /** The workspace root itself, or inside a managed directory. */
  predicate Forbidden(root: Path, managed: seq<string>, at: Path) {
    at == root || exists k :: 0 <= k < |managed| && root + [Normal(managed[k])] <= at
  }

  datatype Placed = Placed(id: string, inbox: Path, outbox: Path)

  function PlaceOf(base: Path, resolve: Path -> Path, s: Source): Placed {
    Placed(s.id, Place(base, resolve, s.inbox), Place(base, resolve, s.outbox))
  }

  ghost predicate DistinctIds(s: seq<Placed>) {
    forall i, j :: 0 <= i < j < |s| ==> s[i].id != s[j].id
  }

  /** Where no channel may be. */
  function Refused(root: Path): Path -> bool { at => Forbidden(root, MANAGED_DIRECTORIES, at) }

  // ----- the scan -----

  /** The problem reported for a source, if there is one. */
  ghost function Get(m: map<string, Problem>, id: string): Option<Problem> {
    if id in m then Some(m[id]) else None
  }

  ghost function Earlier(first: Option<Problem>, second: Option<Problem>): Option<Problem> {
    if first.Some? then first else second
  }

  /** What a source by itself is reported for: the inbox is looked at first. */
  ghost function OwnProblem(bad: Path -> bool, p: Placed, id: string): Option<Problem> {
    if id != p.id then None
    else if bad(p.inbox) then Some(Overlaps(Inbox)) else if bad(p.outbox) then Some(Overlaps(Outbox)) else None
  }

  /** What two sources are reported for, both of them: a shared inbox is looked at first. */
  ghost function PairProblem(p: Placed, q: Placed, id: string): Option<Problem> {
    if id != p.id && id != q.id then None
    else if p.id != q.id && p.inbox == q.inbox then Some(SharesInbox(p.id, q.id))
    else if p.outbox == q.inbox then Some(WritesInbox(p.id, q.id)) else None
  }

  /** The first problem that comparing source `a` with the first `b` sources gives for `id`. */
  ghost function RowProblem(bad: Path -> bool, s: seq<Placed>, a: nat, b: nat, id: string): Option<Problem>
    requires a < |s| && b <= |s|
  {
    if b == 0 then OwnProblem(bad, s[a], id) else Earlier(RowProblem(bad, s, a, b - 1, id), PairProblem(s[a], s[b - 1], id))
  }

  /** The first problem that comparing the first `n` sources with all gives for `id`. */
  ghost function FirstProblem(bad: Path -> bool, s: seq<Placed>, n: nat, id: string): Option<Problem>
    requires n <= |s|
  {
    if n == 0 then None else Earlier(FirstProblem(bad, s, n - 1, id), RowProblem(bad, s, n - 1, |s|, id))
  }

  /** Keep the first problem of a source. */
  function OrInsert(m: map<string, Problem>, id: string, problem: Problem): map<string, Problem> {
    if id in m then m else m[id := problem]
  }

  method OwnConflicts(bad: Path -> bool, p: Placed, before: map<string, Problem>) returns (conflicts: map<string, Problem>)
    ensures forall id :: Get(conflicts, id) == Earlier(Get(before, id), OwnProblem(bad, p, id))
  {
    conflicts := before;
    if bad(p.inbox) { conflicts := OrInsert(conflicts, p.id, Overlaps(Inbox)); }
    if bad(p.outbox) { conflicts := OrInsert(conflicts, p.id, Overlaps(Outbox)); }
  }

  method PairConflicts(p: Placed, q: Placed, before: map<string, Problem>) returns (conflicts: map<string, Problem>)
    ensures forall id :: Get(conflicts, id) == Earlier(Get(before, id), PairProblem(p, q, id))
  {
    conflicts := before;
    if p.id != q.id && p.inbox == q.inbox {
      conflicts := OrInsert(conflicts, p.id, SharesInbox(p.id, q.id));
      conflicts := OrInsert(conflicts, q.id, SharesInbox(p.id, q.id));
    }
    if p.outbox == q.inbox {
      conflicts := OrInsert(conflicts, p.id, WritesInbox(p.id, q.id));
      conflicts := OrInsert(conflicts, q.id, WritesInbox(p.id, q.id));
    }
  }

  /** Compare one source with all. */
  method RowConflicts(bad: Path -> bool, s: seq<Placed>, a: nat, before: map<string, Problem>) returns (conflicts: map<string, Problem>)
    requires a < |s|
    ensures forall id :: Get(conflicts, id) == Earlier(Get(before, id), RowProblem(bad, s, a, |s|, id))
  {
    conflicts := OwnConflicts(bad, s[a], before);
    for b := 0 to |s|
      invariant forall id :: Get(conflicts, id) == Earlier(Get(before, id), RowProblem(bad, s, a, b, id))
    {
      conflicts := PairConflicts(s[a], s[b], conflicts);
    }
  }

  /** Compare all sources. */
  method FindConflicts(bad: Path -> bool, s: seq<Placed>) returns (conflicts: map<string, Problem>)
    ensures forall id :: Get(conflicts, id) == FirstProblem(bad, s, |s|, id)
  {
    conflicts := map[];
    for a := 0 to |s|
      invariant forall id :: Get(conflicts, id) == FirstProblem(bad, s, a, id)
    {
      conflicts := RowConflicts(bad, s, a, conflicts);
    }
  }

  // ----- what the scan finds -----

  lemma {:induction false} RowProblemIs(bad: Path -> bool, s: seq<Placed>, a: nat, b: nat, id: string)
    requires a < |s| && b <= |s|
    ensures var r := RowProblem(bad, s, a, b, id);
            if r.None? then OwnProblem(bad, s[a], id).None? && forall j :: 0 <= j < b ==> PairProblem(s[a], s[j], id).None?
            else r == OwnProblem(bad, s[a], id) || exists j :: 0 <= j < b && r == PairProblem(s[a], s[j], id)
  {
    if b > 0 { RowProblemIs(bad, s, a, b - 1, id); }
  }

  lemma {:induction false} FirstProblemIs(bad: Path -> bool, s: seq<Placed>, n: nat, id: string)
    requires n <= |s|
    ensures var r := FirstProblem(bad, s, n, id);
            if r.None? then forall i :: 0 <= i < n ==> RowProblem(bad, s, i, |s|, id).None?
            else exists i :: 0 <= i < n && r == RowProblem(bad, s, i, |s|, id)
  {
    if n > 0 { FirstProblemIs(bad, s, n - 1, id); }
  }

  /** A problem names a real overlap of the source it is filed under. */
  ghost predicate Justified(bad: Path -> bool, s: seq<Placed>, id: string, problem: Problem) {
    match problem
    case Overlaps(Inbox) => exists i :: 0 <= i < |s| && s[i].id == id && bad(s[i].inbox)
    case Overlaps(Outbox) => exists i :: 0 <= i < |s| && s[i].id == id && bad(s[i].outbox)
    case SharesInbox(first, second) =>
      exists i, j :: 0 <= i < |s| && 0 <= j < |s| && first != second && s[i].id == first && s[j].id == second
                     && s[i].inbox == s[j].inbox && (id == first || id == second)
    case WritesInbox(writer, reader) =>
      exists i, j :: 0 <= i < |s| && 0 <= j < |s| && s[i].id == writer && s[j].id == reader
                     && s[i].outbox == s[j].inbox && (id == writer || id == reader)
  }

  /** What is reported is true. */
  lemma ProblemIsJustified(bad: Path -> bool, s: seq<Placed>, id: string)
    requires FirstProblem(bad, s, |s|, id).Some?
    ensures Justified(bad, s, id, FirstProblem(bad, s, |s|, id).value) && exists x :: 0 <= x < |s| && s[x].id == id
  {
    FirstProblemIs(bad, s, |s|, id);
    var r := FirstProblem(bad, s, |s|, id);
    var i :| 0 <= i < |s| && r == RowProblem(bad, s, i, |s|, id);
    RowProblemIs(bad, s, i, |s|, id);
    if r == OwnProblem(bad, s[i], id) {
      assert s[i].id == id;
    } else {
      var j :| 0 <= j < |s| && r == PairProblem(s[i], s[j], id);
      assert s[i].id == id || s[j].id == id;
    }
  }

  /** Why a source is reported: one of its places is forbidden, its inbox is another
      source's inbox, its outbox is an inbox, or its inbox is an outbox. */
  ghost predicate Conflicted(bad: Path -> bool, s: seq<Placed>, x: nat)
    requires x < |s|
  {
    || bad(s[x].inbox) || bad(s[x].outbox)
    || (exists y :: 0 <= y < |s| && y != x && s[x].inbox == s[y].inbox)
    || (exists y :: 0 <= y < |s| && s[x].outbox == s[y].inbox)
    || (exists y :: 0 <= y < |s| && s[x].inbox == s[y].outbox)
  }

  lemma ConflictIsFound(bad: Path -> bool, s: seq<Placed>, x: nat)
    requires DistinctIds(s) && x < |s| && Conflicted(bad, s, x)
    ensures FirstProblem(bad, s, |s|, s[x].id).Some?
  {
    FirstProblemIs(bad, s, |s|, s[x].id);
    RowProblemIs(bad, s, x, |s|, s[x].id);
    if y :| 0 <= y < |s| && s[x].inbox == s[y].outbox { RowProblemIs(bad, s, y, |s|, s[x].id); }
  }

  /** A true problem of a source means that it is conflicted. */
  lemma JustifiedIsConflicted(bad: Path -> bool, s: seq<Placed>, x: nat, problem: Problem)
    requires DistinctIds(s) && x < |s| && Justified(bad, s, s[x].id, problem)
    ensures Conflicted(bad, s, x)
  {
  }

  ghost function AllPlaced(base: Path, resolve: Path -> Path, sources: seq<Source>): seq<Placed> {
    seq(|sources|, i requires 0 <= i < |sources| => PlaceOf(base, resolve, sources[i]))
  }

  /** A source is reported exactly when it is conflicted, with the first problem the scan comes
      across for it, and that problem is true. */
  method PathConflicts(base: Path, resolve: Path -> Path, sources: seq<Source>) returns (conflicts: map<string, Problem>)
    requires forall i, j :: 0 <= i < j < |sources| ==> sources[i].id != sources[j].id
    ensures forall x :: 0 <= x < |sources| ==>
              (sources[x].id in conflicts
               <==> Conflicted(Refused(Root(base, resolve)), AllPlaced(base, resolve, sources), x))
    ensures forall id :: id in conflicts ==>
              && (exists x :: 0 <= x < |sources| && sources[x].id == id)
              && Justified(Refused(Root(base, resolve)), AllPlaced(base, resolve, sources), id, conflicts[id])
    ensures forall id ::
              Get(conflicts, id) == FirstProblem(Refused(Root(base, resolve)), AllPlaced(base, resolve, sources), |sources|, id)
  {
    var s := seq(|sources|, i requires 0 <= i < |sources| => PlaceOf(base, resolve, sources[i]));
    var bad := Refused(Root(base, resolve));
    conflicts := FindConflicts(bad, s);
    assert s == AllPlaced(base, resolve, sources);
    ReportIsExact(bad, s, conflicts);
  }

  lemma ReportIsExact(bad: Path -> bool, s: seq<Placed>, m: map<string, Problem>)
    requires DistinctIds(s) && forall id :: Get(m, id) == FirstProblem(bad, s, |s|, id)
    ensures forall x: nat :: x < |s| ==> (s[x].id in m <==> Conflicted(bad, s, x))
    ensures forall id :: id in m ==> (exists x :: 0 <= x < |s| && s[x].id == id) && Justified(bad, s, id, m[id])
  {
    forall id | id in m
      ensures (exists x :: 0 <= x < |s| && s[x].id == id) && Justified(bad, s, id, m[id])
    {
      assert Get(m, id) == FirstProblem(bad, s, |s|, id);
      ProblemIsJustified(bad, s, id);
    }
    forall x: nat | x < |s|
      ensures s[x].id in m <==> Conflicted(bad, s, x)
    {
      assert Get(m, s[x].id) == FirstProblem(bad, s, |s|, s[x].id);
      if s[x].id in m { JustifiedIsConflicted(bad, s, x, m[s[x].id]); }
      if Conflicted(bad, s, x) { ConflictIsFound(bad, s, x); }
    }
  }

  // ----- what acceptance means in a tree without links -----

  lemma {:induction false} NamesAre(names: seq<string>)
    ensures |Names(names)| == |names| && forall i :: 0 <= i < |names| ==> Names(names)[i] == Normal(names[i])
    decreases |names|
  {
    if names != [] { NamesAre(names[..|names| - 1]); }
  }

  /** The normal form of an absolute path spells out where the path leads. */
  lemma AbsoluteNormalForm(p: Path)
    requires Absolute(p)
    ensures Normalized(p) == [RootDir] + Names(Walk([], p))
  {
    AbsoluteForm(p);
    NormalizedIsForm(p);
    WalkIsForm([], p);
  }

  lemma NamesPrefix(a: seq<string>, b: seq<string>)
    ensures Names(a) <= Names(b) <==> a <= b
    ensures Names(a) == Names(b) <==> a == b
  {
    NamesAre(a);
    NamesAre(b);
    if Names(a) <= Names(b) {
      forall i | 0 <= i < |a|
        ensures a[i] == b[i]
      {
        assert Names(a)[i] == Names(b)[i];
      }
    }
    if a <= b {
      assert forall i :: 0 <= i < |a| ==> Names(a)[i] == Names(b)[i];
    }
  }

  /** A directory that is the workspace root, or a managed directory or below one. */
  ghost predicate Reserved(root: seq<string>, managed: seq<string>, at: seq<string>) {
    at == root || exists k :: 0 <= k < |managed| && root + [managed[k]] <= at
  }

  lemma BelowIs(root: seq<string>, name: string, at: seq<string>)
    ensures [RootDir] + Names(root) + [Normal(name)] <= [RootDir] + Names(at) <==> root + [name] <= at
  {
    assert (root + [name])[..|root|] == root;
    assert Names(root + [name]) == Names(root) + [Normal(name)];
    NamesPrefix(root + [name], at);
    var x, y := Names(root + [name]), Names(at);
    assert [RootDir] + Names(root) + [Normal(name)] == [RootDir] + x;
    assert ([RootDir] + x)[1..] == x && ([RootDir] + y)[1..] == y;
    if [RootDir] + x <= [RootDir] + y {
      assert forall i :: 0 <= i < |x| ==> x[i] == ([RootDir] + x)[i + 1] == ([RootDir] + y)[i + 1] == y[i];
    }
  }

  /** The test on normal forms is a test on directories. */
  lemma ForbiddenIsReserved(base: Path, managed: seq<string>, p: Path)
    requires Absolute(base) && Absolute(p)
    ensures Forbidden(Normalized(base), managed, Normalized(p)) <==> Reserved(Walk([], base), managed, Walk([], p))
  {
    var root, at := Walk([], base), Walk([], p);
    AbsoluteNormalForm(base);
    AbsoluteNormalForm(p);
    AbsoluteSamePlace(base, p);
    forall k | 0 <= k < |managed|
      ensures Normalized(base) + [Normal(managed[k])] <= Normalized(p) <==> root + [managed[k]] <= at
    {
      BelowIs(root, managed[k], at);
    }
  }

  /** What it means for a tree with links: `resolve` spells out where this path leads, once
      it is normalized. */
  ghost predicate SpellsOut(resolve: Path -> Path, locate: Path -> seq<string>, p: Path) {
    resolve(Normalized(p)) == [RootDir] + Names(locate(p))
  }

  ghost predicate AllSpelledOut(base: Path, resolve: Path -> Path, locate: Path -> seq<string>, sources: seq<Source>) {
    && SpellsOut(resolve, locate, base)
    && forall x :: 0 <= x < |sources| ==>
         SpellsOut(resolve, locate, Join(base, sources[x].inbox)) && SpellsOut(resolve, locate, Join(base, sources[x].outbox))
  }

  /** The directories of a source are where others have theirs, or where none may be. */
  ghost predicate Overlapping(base: Path, locate: Path -> seq<string>, sources: seq<Source>, x: nat)
    requires x < |sources|
  {
    var inbox, outbox := locate(Join(base, sources[x].inbox)), locate(Join(base, sources[x].outbox));
    || Reserved(locate(base), MANAGED_DIRECTORIES, inbox)
    || Reserved(locate(base), MANAGED_DIRECTORIES, outbox)
    || (exists y :: 0 <= y < |sources| && y != x && inbox == locate(Join(base, sources[y].inbox)))
    || (exists y :: 0 <= y < |sources| && outbox == locate(Join(base, sources[y].inbox)))
    || (exists y :: 0 <= y < |sources| && inbox == locate(Join(base, sources[y].outbox)))
  }

  lemma SameName(a: seq<string>, b: seq<string>)
    ensures [RootDir] + Names(a) == [RootDir] + Names(b) <==> a == b
  {
    NamesPrefix(a, b);
    assert ([RootDir] + Names(a))[1..] == Names(a) && ([RootDir] + Names(b))[1..] == Names(b);
  }

  lemma SpelledForbidden(managed: seq<string>, root: seq<string>, at: seq<string>)
    ensures Forbidden([RootDir] + Names(root), managed, [RootDir] + Names(at)) <==> Reserved(root, managed, at)
  {
    SameName(root, at);
    forall k | 0 <= k < |managed|
      ensures [RootDir] + Names(root) + [Normal(managed[k])] <= [RootDir] + Names(at) <==> root + [managed[k]] <= at
    {
      BelowIs(root, managed[k], at);
    }
  }

  lemma SpelledPlace(base: Path, resolve: Path -> Path, locate: Path -> seq<string>, p: Path)
    requires Absolute(base) && SpellsOut(resolve, locate, Join(base, p))
    ensures Place(base, resolve, p) == [RootDir] + Names(locate(Join(base, p)))
  {
  }

  lemma SpelledSource(base: Path, resolve: Path -> Path, locate: Path -> seq<string>, sources: seq<Source>, x: nat)
    requires Absolute(base) && x < |sources| && AllSpelledOut(base, resolve, locate, sources)
    ensures var s := AllPlaced(base, resolve, sources);
            && s[x].inbox == [RootDir] + Names(locate(Join(base, sources[x].inbox)))
            && s[x].outbox == [RootDir] + Names(locate(Join(base, sources[x].outbox)))
            && Root(base, resolve) == [RootDir] + Names(locate(base))
  {
    SpelledPlace(base, resolve, locate, sources[x].inbox);
    SpelledPlace(base, resolve, locate, sources[x].outbox);
    assert Join(base, []) == base;
    SpelledPlace(base, resolve, locate, []);
  }

  /** In any tree, the sources reported are exactly those whose directories overlap. */
  lemma ConflictIsOverlap(base: Path, resolve: Path -> Path, locate: Path -> seq<string>, sources: seq<Source>, x: nat)
    requires Absolute(base) && x < |sources| && AllSpelledOut(base, resolve, locate, sources)
    ensures Conflicted(Refused(Root(base, resolve)), AllPlaced(base, resolve, sources), x)
            <==> Overlapping(base, locate, sources, x)
  {
    var inbox, outbox := locate(Join(base, sources[x].inbox)), locate(Join(base, sources[x].outbox));
    SpelledSource(base, resolve, locate, sources, x);
    SpelledForbidden(MANAGED_DIRECTORIES, locate(base), inbox);
    SpelledForbidden(MANAGED_DIRECTORIES, locate(base), outbox);
    forall y | 0 <= y < |sources|
      ensures var s, other := AllPlaced(base, resolve, sources), locate(Join(base, sources[y].inbox));
              && (s[x].inbox == s[y].inbox <==> inbox == other)
              && (s[x].outbox == s[y].inbox <==> outbox == other)
              && (s[x].inbox == s[y].outbox <==> inbox == locate(Join(base, sources[y].outbox)))
    {
      SpelledSource(base, resolve, locate, sources, y);
      SameName(inbox, locate(Join(base, sources[y].inbox)));
      SameName(outbox, locate(Join(base, sources[y].inbox)));
      SameName(inbox, locate(Join(base, sources[y].outbox)));
    }
  }

  lemma JoinIsAbsolute(base: Path, p: Path)
    requires Absolute(base)
    ensures Absolute(Join(base, p))
  {
  }

  /** Without links, accepted channels really are separate: a source is accepted exactly when
      its directories are neither the workspace root nor inside a managed directory, and its
      inbox is no other source's inbox, no outbox, and its outbox no inbox. */
  lemma AcceptedChannelsAreSeparate(base: Path, sources: seq<Source>, x: nat)
    requires Absolute(base) && x < |sources|
    ensures !Conflicted(Refused(Root(base, p => p)), AllPlaced(base, p => p, sources), x)
            <==> !Overlapping(base, p => Walk([], p), sources, x)
  {
    var id, locate := (p: Path) => p, (p: Path) => Walk([], p);
    AbsoluteNormalForm(base);
    forall y | 0 <= y < |sources|
      ensures SpellsOut(id, locate, Join(base, sources[y].inbox)) && SpellsOut(id, locate, Join(base, sources[y].outbox))
    {
      JoinIsAbsolute(base, sources[y].inbox);
      JoinIsAbsolute(base, sources[y].outbox);
      AbsoluteNormalForm(Join(base, sources[y].inbox));
      AbsoluteNormalForm(Join(base, sources[y].outbox));
    }
    ConflictIsOverlap(base, id, locate, sources, x);
  }

  /** No channel may live in a directory that afmail writes or regenerates. */
  lemma ManagedIsForbidden(root: Path, name: string, below: Path)
    requires name in {".afmail", "triage", "cases", "archived-cases", "notifications", "messages",
                      "templates", "spam", "trash", "deleted", "contacts", "identities"}
    ensures Forbidden(root, MANAGED_DIRECTORIES, root + [Normal(name)] + below)
  {
    var m := MANAGED_DIRECTORIES;
    assert m[0] == ".afmail" && m[1] == "triage" && m[2] == "cases" && m[3] == "archived-cases" && m[4] == "notifications";
    assert m[5] == "messages" && m[6] == "templates" && m[7] == "spam" && m[8] == "trash" && m[9] == "deleted";
    assert m[10] == "contacts" && m[11] == "identities";
    var k :| 0 <= k < |MANAGED_DIRECTORIES| && MANAGED_DIRECTORIES[k] == name;
    assert root + [Normal(MANAGED_DIRECTORIES[k])] <= root + [Normal(name)] + below;
  }

  // ----- the lexical check of a configuration -----

  /** A path that leads to a reserved directory from every root. */
  ghost predicate AlwaysReserved(managed: seq<string>, p: Path) {
    forall root :: Reserved(root, managed, Walk(root, p))
  }

  lemma FormStarts(f: Form, name: string)
    ensures [Normal(name)] <= Build(f) <==> !f.absolute && f.ups == 0 && [name] <= f.names
    ensures Build(f) == [] <==> !f.absolute && f.ups == 0 && f.names == []
  {
    UpsAreParents(f.ups);
    NamesAre(f.names);
    if !f.absolute && f.ups == 0 {
      assert Build(f) == Names(f.names) && [Normal(name)] == Names([name]);
      NamesPrefix([name], f.names);
    } else {
      assert Build(f)[0] == Head(f)[0];
    }
  }

  lemma FormForbidden(managed: seq<string>, f: Form)
    ensures Forbidden([], managed, Build(f)) <==> !f.absolute && f.ups == 0 && Reserved([], managed, f.names)
  {
    FormStarts(f, "");
    forall k | 0 <= k < |managed|
      ensures [] + [Normal(managed[k])] <= Build(f) <==> !f.absolute && f.ups == 0 && [] + [managed[k]] <= f.names
    {
      FormStarts(f, managed[k]);
      assert [] + [Normal(managed[k])] == [Normal(managed[k])] && [] + [managed[k]] == [managed[k]];
    }
  }

  /** A root from which a form that climbs or starts at the root leads elsewhere. */
  lemma EscapesReserved(managed: seq<string>, f: Form) returns (root: seq<string>)
    requires f.absolute || f.ups > 0
    ensures !Reserved(root, managed, Goes(root, f))
  {
    if f.absolute {
      root := Copies("", |f.names| + 1);
    } else {
      root := Copies(if f.names == [] then "" else f.names[0] + "x", f.ups);
      assert Goes(root, f) == f.names;
      if f.names != [] {
        assert |root[0]| == |f.names[0]| + 1;
        assert forall k :: 0 <= k < |managed| ==> (root + [managed[k]])[0] == root[0];
      }
    }
  }

  lemma ReservedBelow(root: seq<string>, managed: seq<string>, names: seq<string>)
    ensures Reserved(root, managed, root + names) <==> Reserved([], managed, names)
  {
    forall k | 0 <= k < |managed|
      ensures root + [managed[k]] <= root + names <==> [] + [managed[k]] <= names
    {
      assert [] + [managed[k]] == [managed[k]];
      if names != [] {
        assert (root + [managed[k]])[|root|] == managed[k] && (root + names)[|root|] == names[0];
        assert (root + names)[..|root| + 1] == root + [names[0]];
      }
    }
  }

  /** A path is refused lexically exactly when it is reserved whatever the workspace is. */
  lemma LexicallyForbidden(managed: seq<string>, p: Path)
    ensures Forbidden([], managed, Normalized(p)) <==> AlwaysReserved(managed, p)
  {
    var f := FormOf(p);
    NormalizedIsForm(p);
    FormForbidden(managed, f);
    forall root
      ensures Walk(root, p) == Goes(root, f)
      ensures !f.absolute && f.ups == 0 ==> (Reserved(root, managed, Walk(root, p)) <==> Reserved([], managed, f.names))
    {
      WalkIsForm(root, p);
      if !f.absolute && f.ups == 0 {
        assert Goes(root, f) == root + f.names;
        ReservedBelow(root, managed, f.names);
      }
    }
    if f.absolute || f.ups > 0 {
      var root := EscapesReserved(managed, f);
      assert !Reserved(root, managed, Walk(root, p));
    } else {
      assert Reserved([], managed, Walk([], p)) <==> Reserved([], managed, f.names);
    }
  }

  /** The source's directories overlap with the same neighbour in every workspace. */
  ghost predicate AlwaysOverlapping(sources: seq<Source>, x: nat)
    requires x < |sources|
  {
    var inbox, outbox := sources[x].inbox, sources[x].outbox;
    || AlwaysReserved(MANAGED_DIRECTORIES, inbox)
    || AlwaysReserved(MANAGED_DIRECTORIES, outbox)
    || (exists y :: 0 <= y < |sources| && y != x && forall root :: Walk(root, inbox) == Walk(root, sources[y].inbox))
    || (exists y :: 0 <= y < |sources| && forall root :: Walk(root, outbox) == Walk(root, sources[y].inbox))
    || (exists y :: 0 <= y < |sources| && forall root :: Walk(root, inbox) == Walk(root, sources[y].outbox))
  }

  /** The check without a workspace refuses exactly what overlaps in every workspace without
      links. */
  lemma LexicalConflictIsEverywhere(resolve: Path -> Path, sources: seq<Source>, x: nat)
    requires x < |sources|
    ensures Conflicted(Refused(Root([], resolve)), AllPlaced([], resolve, sources), x)
            <==> AlwaysOverlapping(sources, x)
  {
    var s := AllPlaced([], resolve, sources);
    forall y | 0 <= y < |sources|
      ensures s[y].inbox == Normalized(sources[y].inbox) && s[y].outbox == Normalized(sources[y].outbox)
    {
      assert [] + sources[y].inbox == sources[y].inbox && [] + sources[y].outbox == sources[y].outbox;
    }
    LexicallyForbidden(MANAGED_DIRECTORIES, sources[x].inbox);
    LexicallyForbidden(MANAGED_DIRECTORIES, sources[x].outbox);
    forall y | 0 <= y < |sources|
      ensures s[x].inbox == s[y].inbox <==> forall root :: Walk(root, sources[x].inbox) == Walk(root, sources[y].inbox)
      ensures s[x].outbox == s[y].inbox <==> forall root :: Walk(root, sources[x].outbox) == Walk(root, sources[y].inbox)
      ensures s[x].inbox == s[y].outbox <==> forall root :: Walk(root, sources[x].inbox) == Walk(root, sources[y].outbox)
    {
      SameFormSamePlace(sources[x].inbox, sources[y].inbox);
      SameFormSamePlace(sources[x].outbox, sources[y].inbox);
      SameFormSamePlace(sources[x].inbox, sources[y].outbox);
    }
  }

  lemma {:induction false} JoinedWalk(base: Path, p: Path)
    ensures Walk([], base + p) == Walk(Walk([], base), p)
    ensures Absolute(p) ==> Walk([], p) == Walk(Walk([], base), p)
    decreases |p|
  {
    if p == [] {
      assert base + p == base;
    } else {
      var n := |p| - 1;
      assert (base + p)[..|base| + n] == base + p[..n];
      assert (base + p)[|base| + n] == p[n];
      JoinedWalk(base, p[..n]);
    }
  }

  /** What is refused lexically is refused in any workspace without links. */
  lemma LexicalConflictsAreReal(base: Path, resolve: Path -> Path, sources: seq<Source>, x: nat)
    requires Absolute(base) && x < |sources|
    requires Conflicted(Refused(Root([], resolve)), AllPlaced([], resolve, sources), x)
    ensures Conflicted(Refused(Root(base, p => p)), AllPlaced(base, p => p, sources), x)
  {
    LexicalConflictIsEverywhere(resolve, sources, x);
    forall y | 0 <= y < |sources|
      ensures Walk([], Join(base, sources[y].inbox)) == Walk(Walk([], base), sources[y].inbox)
      ensures Walk([], Join(base, sources[y].outbox)) == Walk(Walk([], base), sources[y].outbox)
    {
      JoinedWalk(base, sources[y].inbox);
      JoinedWalk(base, sources[y].outbox);
    }
    AcceptedChannelsAreSeparate(base, sources, x);
  }
}
