/** What a segment reads as, in terms of its text: a mechanism's result, a comment with a
    policy, and an address property. */
module PrintedResults {
  import opened Wrappers
  import opened Text
  import opened Authentication
  import opened AuthenticationResults

  /** The names of section 2.7 of RFC 8601. */
  function MechanismName(m: Mechanism): string {
    match m case Spf => "spf" case Dkim => "dkim" case Dmarc => "dmarc"
  }

  function VerdictName(v: Verdict): string
    requires v != Missing
  {
    match v
    case Pass => "pass" case Fail => "fail" case SoftFail => "softfail" case Neutral => "neutral"
    case NoneVerdict => "none" case TempError => "temperror" case PermError => "permerror"
  }

  /** The properties that name a mechanism's domain. */
  function DomainKeys(m: Mechanism): seq<string> {
    match m
    case Spf => ["smtp.mailfrom", "envelope-from"]
    case Dkim => ["header.i", "header.d"]
    case Dmarc => ["header.from"]
  }

  /** Without parentheses. */
  predicate Plain(s: string) { '(' !in s && ')' !in s }

  predicate IsLower(s: string) { forall i :: 0 <= i < |s| ==> !('A' <= s[i] <= 'Z') }

  /** One word of a segment. */
  predicate Word(s: string) {
    s != "" && Plain(s) && forall i :: 0 <= i < |s| ==> !IsWhitespace(s[i])
  }

  // ----- words -----

  lemma LowerIs(s: string)
    requires IsLower(s)
    ensures LowerAscii(s) == s
  {
  }

  lemma TrimmedWord(s: string)
    requires forall i :: 0 <= i < |s| ==> !IsWhitespace(s[i])
    ensures Trim(IsWhitespace, s) == s
  {
    if s != "" { assert !IsWhitespace(s[|s| - 1]); }
  }

  lemma {:induction false} TokensOfWord(w: string, rest: string, current: string)
    requires forall i :: 0 <= i < |w| ==> !IsWhitespace(w[i])
    ensures Tokens(w + rest, current) == Tokens(rest, current + w)
    decreases |w|
  {
    if w == "" {
      Assoc(current, "", rest);
    } else {
      assert (w + rest)[1..] == w[1..] + rest && (w + rest)[0] == w[0];
      TokensOfWord(w[1..], rest, current + [w[0]]);
      assert current + [w[0]] + w[1..] == current + w;
    }
  }

  lemma TwoTokens(a: string, b: string)
    requires Word(a) && Word(b)
    ensures Tokens(a + "  " + b, "") == [a, b]
  {
    TokensOfWord(a, "  " + b, "");
    Assoc(a, "  ", b);
    Assoc("", "", a);
    assert ("  " + b)[1..] == " " + b && (" " + b)[1..] == b;
    assert Tokens("  " + b, a) == [a] + Tokens(" " + b, "");
    assert Tokens(" " + b, "") == [] + Tokens(b, "");
    TokensOfWord(b, "", "");
    Assoc(b, "", b);
  }

  lemma {:induction false} IndexOfFirst(key: string, c: char, value: string)
    requires c !in key
    ensures IndexOf(key + [c] + value, c) == |key|
    decreases |key|
  {
    var s := key + [c] + value;
    if key != "" {
      assert s[0] == key[0] && s[1..] == key[1..] + [c] + value;
      IndexOfFirst(key[1..], c, value);
    }
  }

  lemma KeyValueOf(key: string, value: string)
    requires Word(key) && Word(value) && '=' !in key
    ensures Word(key + "=" + value) && SplitKv(key + "=" + value) == Some(KeyValue(key, value))
  {
    var token := key + "=" + value;
    IndexOfFirst(key, '=', value);
    assert token[..|key|] == key && token[|key| + 1..] == value;
    TrimmedWord(key);
    TrimmedWord(value);
    assert forall i :: 0 <= i < |token| ==> token[i] == (if i < |key| then key[i] else if i == |key| then '=' else value[i - |key| - 1]);
  }

  lemma MechanismIs(name: string, m: Mechanism)
    ensures ParseMechanism(name) == Some(m) <==> LowerAscii(name) == MechanismName(m)
    ensures Word(MechanismName(m)) && IsLower(MechanismName(m)) && '=' !in MechanismName(m)
  {
  }

  lemma VerdictIs(value: string, v: Verdict)
    requires v != Missing && LowerAscii(Trim(IsWhitespace, value)) == VerdictName(v)
    ensures ParseVerdict(value) == v
  {
  }

  /** Nothing but the word itself reads as a pass. */
  lemma OnlyPassPasses(value: string)
    ensures ParseVerdict(value) == Pass <==> LowerAscii(Trim(IsWhitespace, value)) == "pass"
  {
  }

  lemma VerdictWord(v: Verdict)
    requires v != Missing
    ensures Word(VerdictName(v)) && IsLower(VerdictName(v))
  {
  }

  lemma VerdictNameIs(v: Verdict)
    requires v != Missing
    ensures Word(VerdictName(v)) && ParseVerdict(VerdictName(v)) == v
  {
    VerdictWord(v);
    TrimmedWord(VerdictName(v));
    LowerIs(VerdictName(v));
    VerdictIs(VerdictName(v), v);
  }

  /** Case does not matter, and an unknown word is neutral. */
  lemma AnyCaseReads()
    ensures ParseMechanism("Spf") == Some(Spf) && ParseMechanism("DKIM") == Some(Dkim) && ParseMechanism("DMARC") == Some(Dmarc)
    ensures ParseMechanism("arc") == None
    ensures ParseVerdict("PASS") == Pass && ParseVerdict("HardFail") == Fail && ParseVerdict("policy") == Neutral
  {
    assert LowerAscii("Spf") == "spf" && LowerAscii("DKIM") == "dkim" && LowerAscii("DMARC") == "dmarc";
    assert LowerAscii("arc") == "arc";
    TrimmedWord("PASS");
    TrimmedWord("HardFail");
    TrimmedWord("policy");
    assert LowerAscii("PASS") == "pass" && LowerAscii("HardFail") == "hardfail" && LowerAscii("policy") == "policy";
  }

  // ----- comments -----

  lemma {:induction false} PlainText(s: string, depth: nat)
    requires Plain(s)
    ensures Depth(s, depth) == depth
    ensures Bare(s, depth) == if depth == 0 then s else ""
    ensures Comment(s, depth) == if depth == 0 then "" else s
  {
    if s != "" {
      assert s == [s[0]] + s[1..];
      PlainText(s[1..], depth);
    }
  }

  lemma OneParenthesis(c: char, depth: nat)
    requires c == '(' || c == ')'
    ensures Depth([c], depth) == Deeper(c, depth) && Bare([c], depth) == "" && Comment([c], depth) == ""
  {
    assert [c][1..] == "";
  }

  /** A parenthesised comment, at any depth, is no part of the text around it. */
  lemma CommentIsTakenOut(c: string, depth: nat)
    requires Plain(c)
    ensures var s := "(" + (c + ")");
            Depth(s, depth) == depth && Bare(s, depth) == "" && Comment(s, depth) == c
  {
    OneParenthesis('(', depth);
    OneParenthesis(')', depth + 1);
    PlainText(c, depth + 1);
    ScanAppend("(", c + ")", depth);
    ScanAppend(c, ")", depth + 1);
    Assoc(c, "", c);
  }

  /** A closing parenthesis too many is dropped. */
  lemma StrayParenthesis(rest: string)
    ensures Bare(")" + rest, 0) == Bare(rest, 0) && Comment(")" + rest, 0) == Comment(rest, 0)
  {
    OneParenthesis(')', 0);
    ScanAppend(")", rest, 0);
    Assoc("", "", Bare(rest, 0));
    Assoc("", "", Comment(rest, 0));
  }

  lemma BareOfCommented(a: string, c: string, b: string)
    requires Plain(a) && Plain(b) && Plain(c)
    ensures var s := a + ("(" + (c + ")") + b); Bare(s, 0) == a + b && Comment(s, 0) == c
  {
    var comment := "(" + (c + ")");
    CommentIsTakenOut(c, 0);
    ScanAppend(a, comment + b, 0);
    ScanAppend(comment, b, 0);
    PlainText(a, 0);
    PlainText(b, 0);
    Assoc(c, "", c);
    Assoc("", "", b);
  }

  /** Nothing, or text behind a semicolon or white space. */
  ghost predicate Continues(more: string) { more == "" || more[0] == ';' || IsWhitespace(more[0]) }

  lemma {:induction false} PolicyWord(w: string, more: string, current: string)
    requires ';' !in w && (forall i :: 0 <= i < |w| ==> !IsWhitespace(w[i])) && Continues(more)
    ensures var tokens := PolicyTokens(w + more, current); tokens != [] && tokens[0] == current + w
    decreases |w|
  {
    if w == "" {
      Assoc(current, "", more);
    } else {
      assert (w + more)[1..] == w[1..] + more && (w + more)[0] == w[0];
      PolicyWord(w[1..], more, current + [w[0]]);
      assert current + [w[0]] + w[1..] == current + w;
    }
  }

  /** The policy of a comment is the word behind `p=`, up to a semicolon or white space. */
  lemma PolicyOfComment(policy: string, more: string)
    requires Word(policy) && IsLower(policy) && ';' !in policy && Continues(more)
    ensures ExtractPolicy("p=" + policy + more) == Some(policy)
  {
    var c := "p=" + policy;
    assert forall i :: 0 <= i < |c| ==> c[i] == (if i == 0 then 'p' else if i == 1 then '=' else policy[i - 2]);
    PolicyWord(c, more, "");
    Assoc("", "", c);
    LowerIs(c);
    assert c[2..] == policy && "p=" <= c;
    TrimmedWord(policy);
  }

  // ----- addresses -----

  lemma {:induction false} AfterLastAt(local: string, domain: string)
    requires '@' !in domain
    ensures AfterLast(local + "@" + domain, '@') == domain && AfterLast(domain, '@') == domain
    decreases |local|
  {
    NoIndex(domain, '@');
    var s := local + "@" + domain;
    if '@' in local {
      var k := IndexOf(local, '@');
      IndexIn(local, '@', "@" + domain);
      Assoc(local, "@", domain);
      assert s[k + 1..] == local[k + 1..] + "@" + domain;
      AfterLastAt(local[k + 1..], domain);
    } else {
      IndexOfFirst(local, '@', domain);
      assert s[|local| + 1..] == domain;
    }
  }

  lemma {:induction false} NoIndex(s: string, c: char)
    ensures IndexOf(s, c) == |s| <==> c !in s
  {
    if s != "" { NoIndex(s[1..], c); assert s == [s[0]] + s[1..]; }
  }

  lemma {:induction false} IndexIn(s: string, c: char, more: string)
    requires c in s
    ensures IndexOf(s, c) < |s| && IndexOf(s + more, c) == IndexOf(s, c)
  {
    if s[0] != c {
      assert s == [s[0]] + s[1..] && (s + more)[1..] == s[1..] + more;
      IndexIn(s[1..], c, more);
    }
  }

  ghost predicate DomainName(domain: string) {
    && Word(domain) && IsLower(domain) && '.' in domain && '@' !in domain
    && domain[|domain| - 1] != '.' && !IsAngle(domain[0]) && !IsAngle(domain[|domain| - 1])
  }

  lemma DottedName(domain: string, dot: string)
    requires DomainName(domain) && (dot == "" || dot == ".")
    ensures LowerAscii(TrimEnd(IsDot, Trim(IsWhitespace, domain + dot))) == domain
  {
    TrimmedWord(domain + dot);
    TrimEndOf(IsDot, domain, dot);
    LowerIs(domain);
  }

  lemma AtDomain(at: string, domain: string)
    requires at == "" || at[|at| - 1] == '@'
    requires '@' !in domain
    ensures AfterLast(at + domain, '@') == domain
  {
    if at == "" {
      AfterLastAt("", domain);
      Assoc("", "", domain);
    } else {
      AfterLastAt(at[..|at| - 1], domain);
      assert at == at[..|at| - 1] + "@";
    }
  }

  /** The domain of an address: what follows the last at sign, if there is one, bare or in
      angle brackets, with or without a dot at the end. */
  lemma DomainOfAddress(at: string, domain: string, dot: string, open: string, close: string)
    requires DomainName(domain) && (dot == "" || dot == ".")
    requires at == "" || (Word(at) && !IsAngle(at[0]) && at[|at| - 1] == '@')
    requires (open == "" && close == "") || (open == "<" && close == ">")
    ensures AddressDomain(open + (at + domain + dot) + close) == Some(domain)
  {
    var s := at + domain + dot;
    Stripped(open, s, close);
    Assoc(at, domain, dot);
    AtDomain(at, domain + dot);
    DottedName(domain, dot);
  }

  lemma Stripped(open: string, s: string, close: string)
    requires s != "" && !IsAngle(s[0]) && !IsAngle(s[|s| - 1]) && (forall i :: 0 <= i < |s| ==> !IsWhitespace(s[i]))
    requires (open == "" && close == "") || (open == "<" && close == ">")
    ensures Trim(IsWhitespace, Trim(IsAngle, Trim(IsWhitespace, open + s + close))) == s
  {
    TrimmedWord(open + s + close);
    TrimUnique(IsAngle, open, s, close);
    TrimmedWord(s);
  }

  // ----- a whole segment -----

  lemma KeyIs(m: Mechanism, key: string)
    ensures NamesDomain(m, key) <==> key in DomainKeys(m)
  {
  }

  function Printed(m: Mechanism, v: Verdict, policy: string, key: string, value: string): string
    requires v != Missing
  {
    MechanismName(m) + "=" + VerdictName(v) + " " + ("(" + ("p=" + policy + ")") + (" " + (key + "=" + value)))
  }

  lemma PrintedTokens(m: Mechanism, v: Verdict, policy: string, key: string, value: string)
    requires v != Missing && Word(policy) && Word(key) && Word(value) && '=' !in key
    ensures var s := Printed(m, v, policy, key, value);
            && Tokens(Bare(s, 0), "") == [MechanismName(m) + "=" + VerdictName(v), key + "=" + value]
            && Comment(s, 0) == "p=" + policy
  {
    MechanismIs("", m);
    VerdictNameIs(v);
    KeyValueOf(MechanismName(m), VerdictName(v));
    KeyValueOf(key, value);
    PlainPolicy(policy);
    CommentedTokens(MechanismName(m) + "=" + VerdictName(v), "p=" + policy, key + "=" + value);
  }

  lemma CommentedTokens(a: string, c: string, b: string)
    requires Word(a) && Word(b) && Plain(c)
    ensures var s := a + " " + ("(" + (c + ")") + (" " + b));
            Tokens(Bare(s, 0), "") == [a, b] && Comment(s, 0) == c
  {
    PlainEnds(a, b);
    BareOfCommented(a + " ", c, " " + b);
    assert a + " " + (" " + b) == a + "  " + b;
    TwoTokens(a, b);
  }

  lemma PlainPolicy(policy: string)
    requires Word(policy)
    ensures Plain("p=" + policy)
  {
    var c := "p=" + policy;
    assert forall i :: 0 <= i < |c| ==> c[i] == (if i == 0 then 'p' else if i == 1 then '=' else policy[i - 2]);
  }

  lemma PlainEnds(a: string, b: string)
    requires Word(a) && Word(b)
    ensures Plain(a + " ") && Plain(" " + b)
  {
    assert forall i :: 0 <= i < |a + " "| ==> (a + " ")[i] == (if i < |a| then a[i] else ' ');
    assert forall i :: 0 <= i < |" " + b| ==> (" " + b)[i] == (if i == 0 then ' ' else b[i - 1]);
  }

  /** A printed segment reads as what was printed: the mechanism, its verdict, the policy of
      the comment for dmarc only, and a domain only from a property that names one. */
  lemma ReadsWhatIsPrinted(m: Mechanism, v: Verdict, policy: string, key: string, value: string)
    requires v != Missing && Word(policy) && IsLower(policy) && ';' !in policy
    requires Word(key) && IsLower(key) && '=' !in key && Word(value)
    ensures ReadSegment(Printed(m, v, policy, key, value))
            == Some(Finding(m, v, if m == Dmarc then Some(policy) else None,
                            if key in DomainKeys(m) then AddressDomain(value) else None))
  {
    var tokens := [MechanismName(m) + "=" + VerdictName(v), key + "=" + value];
    PrintedTokens(m, v, policy, key, value);
    MechanismIs(MechanismName(m), m);
    VerdictNameIs(v);
    KeyValueOf(MechanismName(m), VerdictName(v));
    LowerIs(MechanismName(m));
    PolicyOfComment(policy, "");
    Assoc("p=" + policy, "", "");
    OneProperty(m, key, value);
    assert tokens[1..] == [key + "=" + value];
  }

  lemma OneProperty(m: Mechanism, key: string, value: string)
    requires Word(key) && IsLower(key) && '=' !in key && Word(value)
    ensures FirstDomain(m, [key + "=" + value]) == if key in DomainKeys(m) then AddressDomain(value) else None
  {
    var tokens := [key + "=" + value];
    KeyValueOf(key, value);
    LowerIs(key);
    KeyIs(m, key);
    assert tokens[1..] == [];
  }
}
