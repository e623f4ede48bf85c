/** The streaming observer of server replies: it keeps one rejection, whatever way the bytes
    were split into reads. */
module StatusReader {
  import opened Wrappers

  type Bytes = seq<bv8>

  const LINE_LIMIT := 16 * 1024
  const LF: bv8 := 10

  /** What the protocol parser makes of one complete line. */
  datatype Kind = TaggedRejection | UntaggedRejection | OtherLine

  /** A reply kept for diagnostics, and whether it is a tagged NO or BAD. */
  datatype Reply = Reply(text: string, tagged: bool)

  // ----- the whole-text specification -----

  /** The complete lines of a text and the unfinished last one. */
  datatype Split = Split(lines: seq<Bytes>, tail: Bytes)

  function SplitLines(b: Bytes): Split {
    if b == [] then Split([], []) else
      var before, last := SplitLines(b[..|b| - 1]), b[|b| - 1];
      if last == LF then Split(before.lines + [before.tail + [last]], [])
      else Split(before.lines, before.tail + [last])
  }

  function Concat(lines: seq<Bytes>): Bytes {
    if lines == [] then [] else Concat(lines[..|lines| - 1]) + lines[|lines| - 1]
  }

  /** A complete line: one line feed, at the end. */
  ghost predicate EndsOnce(line: Bytes) {
    line != [] && line[|line| - 1] == LF && LF !in line[..|line| - 1]
  }

  lemma ConcatOneMore(lines: seq<Bytes>, line: Bytes)
    ensures Concat(lines + [line]) == Concat(lines) + line
  {
    assert (lines + [line])[..|lines|] == lines;
  }

  lemma FedOnce(tail: Bytes)
    requires LF !in tail
    ensures EndsOnce(tail + [LF])
  {
    assert (tail + [LF])[..|tail|] == tail;
  }

  /** The split loses nothing, and breaks exactly at line feeds. */
  lemma {:induction false} SplitIs(b: Bytes)
    ensures var s := SplitLines(b);
            && Concat(s.lines) + s.tail == b && LF !in s.tail
            && forall i :: 0 <= i < |s.lines| ==> EndsOnce(s.lines[i])
  {
    if b != [] {
      var n := |b| - 1;
      var before := SplitLines(b[..n]);
      SplitIs(b[..n]);
      assert b == b[..n] + [b[n]];
      Join(Concat(before.lines), before.tail, [b[n]]);
      if b[n] == LF {
        ConcatOneMore(before.lines, before.tail + [LF]);
        FedOnce(before.tail);
      }
    }
  }

  ghost predicate Is(classify: Bytes -> Kind, line: Bytes, kind: Kind) {
    |line| <= LINE_LIMIT && classify(line) == kind
  }

  /** The reply to keep from these lines: the first tagged rejection if there is one, else
      the last untagged one. Lines over the limit do not count. */
  ghost predicate IsKept(classify: Bytes -> Kind, render: Bytes -> string, lines: seq<Bytes>, kept: Option<Reply>) {
    match kept
    case None => forall i :: 0 <= i < |lines| ==> !Is(classify, lines[i], TaggedRejection) && !Is(classify, lines[i], UntaggedRejection)
    case Some(Reply(text, true)) =>
      exists i :: 0 <= i < |lines| && Is(classify, lines[i], TaggedRejection) && text == render(lines[i])
                  && forall j :: 0 <= j < i ==> !Is(classify, lines[j], TaggedRejection)
    case Some(Reply(text, false)) =>
      && (forall i :: 0 <= i < |lines| ==> !Is(classify, lines[i], TaggedRejection))
      && exists i :: 0 <= i < |lines| && Is(classify, lines[i], UntaggedRejection) && text == render(lines[i])
                  && forall j :: i < j < |lines| ==> !Is(classify, lines[j], UntaggedRejection)
  }

  lemma KeptIsUnique(classify: Bytes -> Kind, render: Bytes -> string, lines: seq<Bytes>, a: Option<Reply>, b: Option<Reply>)
    requires IsKept(classify, render, lines, a) && IsKept(classify, render, lines, b)
    ensures a == b
  {
  }

  /** How one more line changes the reply to keep. */
  function Keep(kept: Option<Reply>, kind: Kind, text: string): Option<Reply> {
    if kind != OtherLine && (kept.None? || !kept.value.tagged) then Some(Reply(text, kind == TaggedRejection)) else kept
  }

  lemma KeepIs(classify: Bytes -> Kind, render: Bytes -> string, lines: seq<Bytes>, kept: Option<Reply>, line: Bytes)
    requires IsKept(classify, render, lines, kept)
    ensures IsKept(classify, render, lines + [line],
                   if |line| <= LINE_LIMIT then Keep(kept, classify(line), render(line)) else kept)
  {
    var all := lines + [line];
    assert all[|lines|] == line && forall i :: 0 <= i < |lines| ==> all[i] == lines[i];
    if kept.Some? {
      if kept.value.tagged {
        var i :| 0 <= i < |lines| && Is(classify, lines[i], TaggedRejection) && kept.value.text == render(lines[i])
                 && forall j :: 0 <= j < i ==> !Is(classify, lines[j], TaggedRejection);
        assert Is(classify, all[i], TaggedRejection);
      } else {
        var i :| 0 <= i < |lines| && Is(classify, lines[i], UntaggedRejection) && kept.value.text == render(lines[i])
                 && forall j :: i < j < |lines| ==> !Is(classify, lines[j], UntaggedRejection);
        assert Is(classify, all[i], UntaggedRejection);
      }
    }
  }

  /** The first tagged rejection counts exactly when it fits 16384 bytes. */
  lemma LimitDecides(classify: Bytes -> Kind, render: Bytes -> string, lines: seq<Bytes>, line: Bytes)
    requires classify(line) == TaggedRejection && IsKept(classify, render, lines, None)
    ensures IsKept(classify, render, lines + [line], if |line| <= 16384 then Some(Reply(render(line), true)) else None)
  {
    KeepIs(classify, render, lines, None, line);
  }

  datatype Details = Details(serverResponse: Option<string>, rejected: Option<bool>)

  datatype AppError = AppError(code: string, message: string, details: Option<Details>)

  // ----- the observer -----

  /** What an observer holds after these bytes, as the whole-text specification says. */
  ghost predicate Observed(classify: Bytes -> Kind, render: Bytes -> string, seen: Bytes,
                           line: Bytes, overLimit: bool, rejection: Option<Reply>)
  {
    var s := SplitLines(seen);
    && overLimit == (|s.tail| > LINE_LIMIT)
    && line == (if overLimit then s.tail[..LINE_LIMIT] else s.tail)
    && IsKept(classify, render, s.lines, rejection)
  }

  /** One byte goes to the line buffer while there is room. */
  function Buffered(line: Bytes, byte: bv8): Bytes { if |line| < LINE_LIMIT then line + [byte] else line }

  lemma SplitStep(seen: Bytes, byte: bv8)
    ensures var s, t := SplitLines(seen), SplitLines(seen + [byte]);
            t == if byte == LF then Split(s.lines + [s.tail + [byte]], []) else Split(s.lines, s.tail + [byte])
  {
    assert (seen + [byte])[..|seen|] == seen;
  }

  lemma BufferedIs(tail: Bytes, line: Bytes, overLimit: bool, byte: bv8)
    requires overLimit == (|tail| > LINE_LIMIT) && line == (if overLimit then tail[..LINE_LIMIT] else tail)
    ensures var over, t := overLimit || |line| >= LINE_LIMIT, tail + [byte];
            over == (|t| > LINE_LIMIT) && Buffered(line, byte) == (if over then t[..LINE_LIMIT] else t)
  {
  }

  lemma OneMoreByte(classify: Bytes -> Kind, render: Bytes -> string, seen: Bytes,
                    line: Bytes, overLimit: bool, rejection: Option<Reply>, byte: bv8)
    requires Observed(classify, render, seen, line, overLimit, rejection)
    ensures var l, over := Buffered(line, byte), overLimit || |line| >= LINE_LIMIT;
            && (byte != LF ==> Observed(classify, render, seen + [byte], l, over, rejection))
            && (byte == LF ==> Observed(classify, render, seen + [byte], [], false,
                                        if over then rejection else Keep(rejection, classify(l), render(l))))
  {
    var s := SplitLines(seen);
    SplitStep(seen, byte);
    BufferedIs(s.tail, line, overLimit, byte);
    KeepIs(classify, render, s.lines, rejection, s.tail + [byte]);
  }

  lemma Extend(seen: Bytes, bytes: Bytes)
    ensures forall i, j :: 0 <= i < j <= |bytes| && j == i + 1 ==> seen + bytes[..j] == seen + bytes[..i] + [bytes[i]]
    ensures seen + bytes[..0] == seen && seen + bytes[..|bytes|] == seen + bytes
  {
    forall i, j | 0 <= i < j <= |bytes| && j == i + 1
      ensures seen + bytes[..j] == seen + bytes[..i] + [bytes[i]]
    {
      assert bytes[..j] == bytes[..i] + [bytes[i]];
    }
    assert bytes[..|bytes|] == bytes;
  }

  lemma Join(a: Bytes, b: Bytes, c: Bytes)
    ensures a + (b + c) == a + b + c
  {
  }

  class AppendDiagnostics {
    const classify: Bytes -> Kind
    const render: Bytes -> string
    var active: bool
    var line: Bytes
    var overLimit: bool
    var rejection: Option<Reply>
    /** Every byte observed since the last clear. */
    ghost var seen: Bytes

    /** The state is what the whole-text specification says about the bytes seen. */
    ghost predicate Valid()
      reads this
    {
      Observed(classify, render, seen, line, overLimit, rejection)
    }

    constructor (classify: Bytes -> Kind, render: Bytes -> string)
      ensures Valid() && !active && seen == [] && this.classify == classify && this.render == render
    {
      this.classify, this.render := classify, render;
      active, line, overLimit, rejection, seen := false, [], false, None, [];
    }

    method Clear()
      modifies this
      ensures Valid() && active && seen == []
    {
      active, line, overLimit, rejection, seen := true, [], false, None, [];
    }

    method Stop()
      modifies this`active
      ensures !active && (old(Valid()) ==> Valid())
    {
      active := false;
    }

    /** One byte; at a line feed the finished line is judged. */
    method ObserveByte(byte: bv8)
      requires Valid()
      modifies this`line, this`overLimit, this`rejection, this`seen
      ensures Valid() && seen == old(seen) + [byte]
    {
      OneMoreByte(classify, render, seen, line, overLimit, rejection, byte);
      if |line| < LINE_LIMIT { line := line + [byte]; } else { overLimit := true; }
      if byte == LF {
        if !overLimit {
          rejection := Keep(rejection, classify(line), render(line));
        }
        line := [];
        overLimit := false;
      }
      seen := seen + [byte];
    }

    /** Look at the bytes of one read. */
    method Observe(bytes: Bytes)
      requires Valid()
      modifies this
      ensures Valid() && active == old(active)
      ensures |line| <= LINE_LIMIT
      ensures seen == if active then old(seen) + bytes else old(seen)
      ensures !active ==> line == old(line) && overLimit == old(overLimit) && rejection == old(rejection)
    {
      if !active { return; }
      ghost var before := seen;
      Extend(before, bytes);
      for i := 0 to |bytes|
        invariant active && Valid() && seen == before + bytes[..i]
      {
        ObserveByte(bytes[i]);
      }
    }

    method Enrich(error: AppError) returns (r: AppError)
      requires Valid()
      modifies this`active
      ensures Valid() && !active
      ensures IsKept(classify, render, SplitLines(seen).lines, None) ==> r == error
      ensures forall reply :: IsKept(classify, render, SplitLines(seen).lines, Some(reply)) ==>
                && r.code == error.code && r.message == reply.text
                && r.details == Some(Details(Some(reply.text),
                     Some(reply.tagged || (error.details.Some? && error.details.value.rejected == Some(true)))))
    {
      active := false;
      ghost var lines := SplitLines(seen).lines;
      forall kept | IsKept(classify, render, lines, kept)
        ensures kept == rejection
      {
        KeptIsUnique(classify, render, lines, kept, rejection);
      }
      r := error;
      if rejection.Some? {
        var already := error.details.Some? && error.details.value.rejected == Some(true);
        r := AppError(error.code, rejection.value.text,
                      Some(Details(Some(rejection.value.text), Some(rejection.value.tagged || already))));
      }
    }
  }

  /** Two observers that saw the same bytes are in the same state, however their reads were
      split. */
  lemma FragmentationIsInvisible(a: AppendDiagnostics, b: AppendDiagnostics)
    requires a.Valid() && b.Valid() && a.seen == b.seen
    requires a.classify == b.classify && a.render == b.render
    ensures a.line == b.line && a.overLimit == b.overLimit && a.rejection == b.rejection
  {
    KeptIsUnique(a.classify, a.render, SplitLines(a.seen).lines, a.rejection, b.rejection);
  }

  /** A connection whose reads hand out what the peer sent, in pieces of any size. */
  class ObservedStream {
    const diagnostics: AppendDiagnostics
    var pending: Bytes

    constructor (pending: Bytes, diagnostics: AppendDiagnostics)
      ensures this.pending == pending && this.diagnostics == diagnostics
    {
      this.pending, this.diagnostics := pending, diagnostics;
    }

    /** One read into a buffer of the given size; a failed read observes nothing. */
    method Read(size: nat, available: nat, fails: bool) returns (r: Result<Bytes, ()>)
      requires diagnostics.Valid()
      modifies this, diagnostics
      ensures diagnostics.Valid() && diagnostics.active == old(diagnostics.active)
      ensures fails ==> r.Err? && pending == old(pending) && diagnostics.seen == old(diagnostics.seen)
      ensures !fails ==> r.Ok? && r.value + pending == old(pending) && |r.value| <= size
      ensures r.Ok? && diagnostics.active ==> diagnostics.seen == old(diagnostics.seen) + r.value
      ensures !diagnostics.active ==> diagnostics.seen == old(diagnostics.seen) && diagnostics.rejection == old(diagnostics.rejection)
    {
      if fails { return Err(()); }
      var count := if size < available then size else available;
      if |pending| < count { count := |pending|; }
      assert pending == pending[..count] + pending[count..];
      r := Ok(pending[..count]);
      pending := pending[count..];
      diagnostics.Observe(r.value);
    }
  }

  /** From a clear on, any sequence of reads that drains the stream leaves exactly the reply
      the whole-text specification keeps. */
  method DrainObserved(stream: ObservedStream, sizes: seq<nat>) returns (rest: Bytes)
    requires stream.diagnostics.Valid()
    modifies stream, stream.diagnostics
    ensures stream.diagnostics.Valid() && rest == stream.pending
    ensures stream.diagnostics.seen + rest == old(stream.pending)
    ensures IsKept(stream.diagnostics.classify, stream.diagnostics.render,
                   SplitLines(stream.diagnostics.seen).lines, stream.diagnostics.rejection)
  {
    stream.diagnostics.Clear();
    for i := 0 to |sizes|
      invariant stream.diagnostics.Valid() && stream.diagnostics.active
      invariant stream.diagnostics.seen + stream.pending == old(stream.pending)
    {
      ghost var seen, pending := stream.diagnostics.seen, stream.pending;
      var chunk := stream.Read(sizes[i], sizes[i], false);
      Join(seen, chunk.value, stream.pending);
    }
    rest := stream.pending;
    stream.diagnostics.Stop();
  }
}
