/** What the segments of all Authentication-Results headers add up to. */
module AuthenticationResults {
  import opened Wrappers
  import opened Text
  import opened Authentication

  datatype Verdict = Pass | Fail | SoftFail | Neutral | NoneVerdict | TempError | PermError | Missing

  datatype Mechanism = Spf | Dkim | Dmarc

  /** What one segment reports: its mechanism and verdict, the policy of its comment (dmarc
      only) and the first domain among its properties. */
  datatype Finding = Finding(mechanism: Mechanism, verdict: Verdict, policy: Option<string>, domain: Option<string>)

  // ----- reading a segment -----

  function Tokens(s: string, current: string): seq<string> {
    if s == "" then if current == "" then [] else [current]
    else if IsWhitespace(s[0]) then (if current == "" then [] else [current]) + Tokens(s[1..], "")
    else Tokens(s[1..], current + [s[0]])
  }

  function IndexOf(s: string, c: char): (k: nat)
    ensures k <= |s| && (k < |s| ==> s[k] == c)
  {
    if s == "" || s[0] == c then 0 else 1 + IndexOf(s[1..], c)
  }

  datatype KeyValue = KeyValue(key: string, value: string)

  function SplitKv(token: string): Option<KeyValue> {
    var k := IndexOf(token, '=');
    if k == |token| then None else
      var key, value := Trim(IsWhitespace, token[..k]), Trim(IsWhitespace, token[k + 1..]);
      if key == "" || value == "" then None else Some(KeyValue(key, value))
  }

  function ParseVerdict(value: string): Verdict {
    var v := LowerAscii(Trim(IsWhitespace, value));
    if v == "pass" then Pass
    else if v == "fail" || v == "hardfail" then Fail
    else if v == "softfail" then SoftFail
    else if v == "none" then NoneVerdict
    else if v == "temperror" then TempError
    else if v == "permerror" then PermError
    else Neutral
  }

  function ParseMechanism(name: string): Option<Mechanism> {
    var m := LowerAscii(name);
    if m == "spf" then Some(Spf) else if m == "dkim" then Some(Dkim) else if m == "dmarc" then Some(Dmarc) else None
  }

  predicate IsAngle(c: char) { c == '<' || c == '>' }

  predicate IsDot(c: char) { c == '.' }

  function AfterLast(s: string, c: char): string {
    var k := IndexOf(s, c);
    if k == |s| then s else AfterLast(s[k + 1..], c)
  }

  function AddressDomain(value: string): Option<string> {
    var stripped := Trim(IsWhitespace, Trim(IsAngle, Trim(IsWhitespace, value)));
    var candidate := LowerAscii(TrimEnd(IsDot, Trim(IsWhitespace, AfterLast(stripped, '@'))));
    if candidate == "" || '.' !in candidate then None else Some(candidate)
  }

  predicate NamesDomain(m: Mechanism, key: string) {
    match m
    case Spf => key == "smtp.mailfrom" || key == "envelope-from"
    case Dkim => key == "header.i" || key == "header.d"
    case Dmarc => key == "header.from"
  }

  function TokenDomain(m: Mechanism, token: string): Option<string> {
    match SplitKv(token)
    case None => None
    case Some(kv) => if NamesDomain(m, LowerAscii(kv.key)) then AddressDomain(kv.value) else None
  }

  function FirstDomain(m: Mechanism, tokens: seq<string>): Option<string> {
    if tokens == [] then None
    else if TokenDomain(m, tokens[0]).Some? then TokenDomain(m, tokens[0]) else FirstDomain(m, tokens[1..])
  }

  function PolicyTokens(s: string, current: string): seq<string> {
    if s == "" then [current]
    else if IsWhitespace(s[0]) || s[0] == ';' then [current] + PolicyTokens(s[1..], "")
    else PolicyTokens(s[1..], current + [s[0]])
  }

  function FirstPolicy(tokens: seq<string>): Option<string> {
    if tokens == [] then None else
      var lower := LowerAscii(tokens[0]);
      if "p=" <= lower && Trim(IsWhitespace, lower[2..]) != "" then Some(Trim(IsWhitespace, lower[2..]))
      else FirstPolicy(tokens[1..])
  }

  function ExtractPolicy(comment: string): Option<string> { FirstPolicy(PolicyTokens(comment, "")) }

  /** The authserv-id and every segment that does not start with a known `method=result`
      report nothing. */
  function ReadSegment(segment: string): Option<Finding> {
    var tokens := Tokens(Bare(segment, 0), "");
    if tokens == [] then None
    else match SplitKv(tokens[0])
      case None => None
      case Some(kv) =>
        match ParseMechanism(kv.key)
        case None => None
        case Some(m) =>
          Some(Finding(m, ParseVerdict(kv.value), if m == Dmarc then ExtractPolicy(Comment(segment, 0)) else None,
                       FirstDomain(m, tokens[1..])))
  }

  // ----- the fold -----

  ghost predicate PassesAt(f: seq<Finding>, m: Mechanism, i: int) {
    0 <= i < |f| && f[i].mechanism == m && f[i].verdict == Pass
  }

  /** A mechanism's verdict: Pass if any segment passes, else the first one seen. */
  ghost predicate VerdictOf(f: seq<Finding>, m: Mechanism, v: Verdict) {
    if exists i :: PassesAt(f, m, i) then v == Pass
    else if exists i :: 0 <= i < |f| && f[i].mechanism == m then
      exists i :: 0 <= i < |f| && f[i].mechanism == m && v == f[i].verdict
                  && forall j :: 0 <= j < i ==> f[j].mechanism != m
    else v == Missing
  }

  /** A mechanism's domain: the first one that a passing segment names. */
  ghost predicate DomainOf(f: seq<Finding>, m: Mechanism, d: Option<string>) {
    if d.Some? then
      exists i :: PassesAt(f, m, i) && f[i].domain == d && forall j :: 0 <= j < i && PassesAt(f, m, j) ==> f[j].domain.None?
    else forall i :: PassesAt(f, m, i) ==> f[i].domain.None?
  }

  ghost predicate PolicyOf(f: seq<Finding>, p: Option<string>) {
    if p.Some? then exists i :: 0 <= i < |f| && f[i].policy == p && forall j :: 0 <= j < i ==> f[j].policy.None?
    else forall i :: 0 <= i < |f| ==> f[i].policy.None?
  }

  function SetVerdict(slot: Verdict, verdict: Verdict): Verdict {
    if slot == Missing || verdict == Pass then verdict else slot
  }

  function OrFirst<T>(slot: Option<T>, more: Option<T>): Option<T> { if slot.Some? then slot else more }

  lemma VerdictExtends(f: seq<Finding>, m: Mechanism, v: Verdict, x: Finding)
    requires VerdictOf(f, m, v) && x.verdict != Missing && forall i :: 0 <= i < |f| ==> f[i].verdict != Missing
    ensures VerdictOf(f + [x], m, if x.mechanism == m then SetVerdict(v, x.verdict) else v)
  {
    var g := f + [x];
    assert g[|f|] == x && forall i :: 0 <= i < |f| ==> g[i] == f[i];
    forall i | PassesAt(f, m, i)
      ensures PassesAt(g, m, i)
    {
    }
    forall i | PassesAt(g, m, i)
      ensures PassesAt(f, m, i) || (i == |f| && x.mechanism == m && x.verdict == Pass)
    {
    }
    if x.mechanism == m && x.verdict == Pass { assert PassesAt(g, m, |f|); }
  }

  lemma DomainExtends(f: seq<Finding>, m: Mechanism, d: Option<string>, x: Finding)
    requires DomainOf(f, m, d)
    ensures DomainOf(f + [x], m, if x.mechanism == m && x.verdict == Pass then OrFirst(d, x.domain) else d)
  {
    var g := f + [x];
    assert g[|f|] == x && forall i :: 0 <= i < |f| ==> g[i] == f[i];
    assert forall i :: i != |f| ==> (PassesAt(g, m, i) <==> PassesAt(f, m, i));
    if d.Some? {
      var i :| PassesAt(f, m, i) && f[i].domain == d && forall j :: 0 <= j < i && PassesAt(f, m, j) ==> f[j].domain.None?;
      assert PassesAt(g, m, i) && g[i].domain == d;
    } else if x.mechanism == m && x.verdict == Pass {
      assert PassesAt(g, m, |f|);
    }
  }

  lemma PolicyExtends(f: seq<Finding>, p: Option<string>, x: Finding)
    requires PolicyOf(f, p)
    ensures PolicyOf(f + [x], OrFirst(p, x.policy))
  {
    var g := f + [x];
    assert g[|f|] == x && forall i :: 0 <= i < |f| ==> g[i] == f[i];
  }

  function FindingsOf(segments: seq<string>): seq<Finding> {
    if segments == [] then [] else
      var n := |segments| - 1;
      FindingsOf(segments[..n]) + (if ReadSegment(segments[n]).Some? then [ReadSegment(segments[n]).value] else [])
  }

  function AllFindings(headers: seq<string>): seq<Finding> {
    if headers == [] then [] else
      AllFindings(headers[..|headers| - 1]) + FindingsOf(Segments(headers[|headers| - 1]))
  }

  lemma FindingsStep(now: seq<Finding>, before: seq<Finding>, segments: seq<string>, j: nat)
    requires j < |segments| && now == before + FindingsOf(segments[..j])
    ensures now + (if ReadSegment(segments[j]).Some? then [ReadSegment(segments[j]).value] else [])
            == before + FindingsOf(segments[..j + 1])
  {
    assert segments[..j + 1][..j] == segments[..j];
  }

  lemma AllFindingsStep(raw: seq<string>, i: nat)
    requires i < |raw|
    ensures AllFindings(raw[..i + 1]) == AllFindings(raw[..i]) + FindingsOf(Segments(raw[i]))
  {
    assert raw[..i + 1][..i] == raw[..i];
  }

  datatype Alignment = Aligned | Mismatch | Unknown

  datatype MessageAuthentication = MessageAuthentication(
    spf: Verdict, dkim: Verdict, dmarc: Verdict, dmarcPolicy: Option<string>,
    authenticatedDomain: Option<string>, fromDomain: Option<string>, alignment: Alignment, raw: seq<string>)

  class Accumulator {
    var spf: Verdict
    var dkim: Verdict
    var dmarc: Verdict
    var policy: Option<string>
    var spfDomain: Option<string>
    var dkimDomain: Option<string>
    var dmarcDomain: Option<string>
    ghost var seen: seq<Finding>

    ghost predicate Verdicts(f: seq<Finding>)
      reads this
    {
      && (forall i :: 0 <= i < |f| ==> f[i].verdict != Missing)
      && VerdictOf(f, Spf, spf) && VerdictOf(f, Dkim, dkim) && VerdictOf(f, Dmarc, dmarc)
    }

    ghost predicate Domains(f: seq<Finding>)
      reads this
    {
      DomainOf(f, Spf, spfDomain) && DomainOf(f, Dkim, dkimDomain) && DomainOf(f, Dmarc, dmarcDomain)
    }

    ghost predicate Valid()
      reads this
    {
      Verdicts(seen) && Domains(seen) && PolicyOf(seen, policy)
    }

    constructor ()
      ensures Valid() && seen == []
    {
      spf, dkim, dmarc, policy := Missing, Missing, Missing, None;
      spfDomain, dkimDomain, dmarcDomain, seen := None, None, None, [];
    }

    /** The first domain among the properties goes into an empty slot. */
    method ScanDomains(m: Mechanism, tokens: seq<string>, slot: Option<string>) returns (r: Option<string>)
      ensures r == OrFirst(slot, FirstDomain(m, tokens))
    {
      r := slot;
      assert tokens[0..] == tokens;
      for i := 0 to |tokens|
        invariant OrFirst(r, FirstDomain(m, tokens[i..])) == OrFirst(slot, FirstDomain(m, tokens))
      {
        assert tokens[i..][1..] == tokens[i + 1..] && tokens[i..][0] == tokens[i];
        r := OrFirst(r, TokenDomain(m, tokens[i]));
      }
      assert tokens[|tokens|..] == [];
    }

    method ApplySegment(segment: string)
      requires Valid()
      modifies this
      ensures Valid()
      ensures seen == old(seen) + (if ReadSegment(segment).Some? then [ReadSegment(segment).value] else [])
    {
      var bare, comment := StripComments(segment);
      var tokens := Tokens(bare, "");
      if tokens == [] { return; }
      var first := SplitKv(tokens[0]);
      if first.None? { return; }
      var mechanism := ParseMechanism(first.value.key);
      if mechanism.None? { return; }
      var m, verdict := mechanism.value, ParseVerdict(first.value.value);
      Record(m, verdict, if m == Dmarc then ExtractPolicy(comment) else None, tokens[1..]);
    }

    method EnterVerdict(m: Mechanism, verdict: Verdict, ghost x: Finding)
      requires Verdicts(seen) && verdict != Missing && x.mechanism == m && x.verdict == verdict
      modifies this`spf, this`dkim, this`dmarc
      ensures Verdicts(seen + [x])
    {
      VerdictExtends(seen, Spf, spf, x);
      VerdictExtends(seen, Dkim, dkim, x);
      VerdictExtends(seen, Dmarc, dmarc, x);
      match m {
        case Spf => spf := SetVerdict(spf, verdict);
        case Dkim => dkim := SetVerdict(dkim, verdict);
        case Dmarc => dmarc := SetVerdict(dmarc, verdict);
      }
    }

    /** Only a passing mechanism contributes a domain. */
    method EnterDomain(m: Mechanism, verdict: Verdict, properties: seq<string>, ghost x: Finding)
      requires Domains(seen) && x.mechanism == m && x.verdict == verdict && x.domain == FirstDomain(m, properties)
      modifies this`spfDomain, this`dkimDomain, this`dmarcDomain
      ensures Domains(seen + [x])
    {
      DomainExtends(seen, Spf, spfDomain, x);
      DomainExtends(seen, Dkim, dkimDomain, x);
      DomainExtends(seen, Dmarc, dmarcDomain, x);
      if verdict != Pass { return; }
      match m {
        case Spf => spfDomain := ScanDomains(m, properties, spfDomain);
        case Dkim => dkimDomain := ScanDomains(m, properties, dkimDomain);
        case Dmarc => dmarcDomain := ScanDomains(m, properties, dmarcDomain);
      }
    }

    /** Enter one finding: verdict and policy always, a domain only from a pass. */
    method Record(m: Mechanism, verdict: Verdict, found: Option<string>, properties: seq<string>)
      requires Valid() && verdict != Missing
      modifies this
      ensures Valid() && seen == old(seen) + [Finding(m, verdict, found, FirstDomain(m, properties))]
    {
      ghost var x := Finding(m, verdict, found, FirstDomain(m, properties));
      PolicyExtends(seen, policy, x);
      EnterVerdict(m, verdict, x);
      policy := OrFirst(policy, found);
      EnterDomain(m, verdict, properties, x);
      seen := seen + [x];
    }
  }

  method ApplyHeader(acc: Accumulator, header: string)
    requires acc.Valid()
    modifies acc
    ensures acc.Valid() && acc.seen == old(acc.seen) + FindingsOf(Segments(header))
  {
    var segments := SplitTopLevelSemicolons(header);
    for j := 0 to |segments|
      invariant acc.Valid() && acc.seen == old(acc.seen) + FindingsOf(segments[..j])
    {
      FindingsStep(acc.seen, old(acc.seen), segments, j);
      acc.ApplySegment(segments[j]);
    }
    assert segments[..|segments|] == segments;
  }

  // ----- alignment -----

  /** The non-empty labels of a domain, `current` already read of the first one. */
  function Labels(s: string, current: string): seq<string> {
    if s == "" then if current == "" then [] else [current]
    else if s[0] == '.' then (if current == "" then [] else [current]) + Labels(s[1..], "")
    else Labels(s[1..], current + [s[0]])
  }

  function RegistrableSuffix(domain: string): string {
    var labels := Labels(domain, "");
    var n := |labels|;
    if n >= 2 then labels[n - 2] + "." + labels[n - 1] else domain
  }

  lemma {:induction false} LabelsOfSubdomain(sub: string, domain: string, current: string)
    ensures Labels(sub + ("." + domain), current) == Labels(sub, current) + Labels(domain, "")
    decreases |sub|
  {
    var all := sub + ("." + domain);
    if sub == "" {
      assert all[1..] == domain;
    } else {
      assert all[1..] == sub[1..] + ("." + domain);
      LabelsOfSubdomain(sub[1..], domain, if sub[0] == '.' then "" else current + [sub[0]]);
    }
  }

  /** A domain of at least two labels is aligned with each of its subdomains, at any depth. */
  lemma SubdomainsAlign(sub: string, domain: string)
    requires |Labels(domain, "")| >= 2
    ensures RegistrableSuffix(sub + ("." + domain)) == RegistrableSuffix(domain)
  {
    LabelsOfSubdomain(sub, domain, "");
    SameEnd(sub + ("." + domain), Labels(sub, ""), domain, Labels(domain, ""));
  }

  lemma SameEnd(x: string, more: seq<string>, domain: string, labels: seq<string>)
    requires Labels(x, "") == more + labels && Labels(domain, "") == labels && |labels| >= 2
    ensures RegistrableSuffix(x) == RegistrableSuffix(domain)
  {
    SuffixOfMore(more, labels);
    SuffixIs(x, more + labels);
    SuffixIs(domain, labels);
  }

  lemma SuffixIs(domain: string, labels: seq<string>)
    requires labels == Labels(domain, "") && |labels| >= 2
    ensures RegistrableSuffix(domain) == labels[|labels| - 2] + "." + labels[|labels| - 1]
  {
  }

  lemma SuffixOfMore(a: seq<string>, b: seq<string>)
    requires |b| >= 2
    ensures var all := a + b; all[|all| - 2] == b[|b| - 2] && all[|all| - 1] == b[|b| - 1]
  {
  }

  lemma {:induction false} LabelsOfPlain(name: string, current: string)
    requires '.' !in name
    ensures Labels(name, current) == if current + name == "" then [] else [current + name]
    decreases |name|
  {
    if name != "" {
      LabelsOfPlain(name[1..], current + [name[0]]);
      assert current + [name[0]] + name[1..] == current + name;
    } else {
      assert current + name == current;
    }
  }

  /** Of a domain the last two labels count, whatever is in front of them. */
  lemma SuffixIsLastTwo(sub: string, a: string, b: string)
    requires a != "" && b != "" && '.' !in a && '.' !in b
    ensures RegistrableSuffix(a + ("." + b)) == a + "." + b
    ensures RegistrableSuffix(sub + ("." + (a + ("." + b)))) == a + "." + b
  {
    var domain := a + ("." + b);
    LabelsOfPlain(a, "");
    LabelsOfPlain(b, "");
    Assoc("", "", a);
    Assoc("", "", b);
    LabelsOfSubdomain(a, b, "");
    assert Labels(domain, "") == [a, b];
    SuffixIs(domain, [a, b]);
    SubdomainsAlign(sub, domain);
  }

  function AlignmentOf(authenticated: Option<string>, from: Option<string>): Alignment {
    if authenticated.None? || from.None? then Unknown
    else if RegistrableSuffix(authenticated.value) == RegistrableSuffix(from.value) then Aligned else Mismatch
  }

  /** The structured view over all headers. */
  method ParseAuthentication(raw: seq<string>, fromDomain: Option<string>) returns (r: MessageAuthentication)
    ensures r.raw == raw && r.fromDomain == fromDomain
    ensures var f := AllFindings(raw);
            && VerdictOf(f, Spf, r.spf) && VerdictOf(f, Dkim, r.dkim) && VerdictOf(f, Dmarc, r.dmarc)
            && PolicyOf(f, r.dmarcPolicy)
    ensures exists spf, dkim, dmarc ::
              && DomainOf(AllFindings(raw), Spf, spf) && DomainOf(AllFindings(raw), Dkim, dkim)
              && DomainOf(AllFindings(raw), Dmarc, dmarc)
              && r.authenticatedDomain == (if dmarc.Some? then dmarc else if dkim.Some? then dkim else spf)
    ensures r.alignment == Unknown <==> r.authenticatedDomain.None? || fromDomain.None?
    ensures r.alignment == Aligned <==>
              && r.authenticatedDomain.Some? && fromDomain.Some?
              && RegistrableSuffix(r.authenticatedDomain.value) == RegistrableSuffix(fromDomain.value)
  {
    var acc := new Accumulator();
    for i := 0 to |raw|
      invariant acc.Valid() && acc.seen == AllFindings(raw[..i])
    {
      AllFindingsStep(raw, i);
      ApplyHeader(acc, raw[i]);
    }
    assert raw[..|raw|] == raw;
    assert acc.Domains(AllFindings(raw)) && acc.Verdicts(AllFindings(raw));
    var authenticated := OrFirst(acc.dmarcDomain, OrFirst(acc.dkimDomain, acc.spfDomain));
    var alignment := AlignmentOf(authenticated, fromDomain);
    return MessageAuthentication(acc.spf, acc.dkim, acc.dmarc, acc.policy, authenticated, fromDomain, alignment, raw);
  }

  /** An authenticated domain always comes from a segment that passed. */
  lemma AuthenticatedDomainPassed(f: seq<Finding>, m: Mechanism, d: string)
    requires DomainOf(f, m, Some(d))
    ensures exists i :: PassesAt(f, m, i) && f[i].domain == Some(d)
    ensures forall v :: VerdictOf(f, m, v) ==> v == Pass
  {
  }
}
