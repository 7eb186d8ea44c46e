/** Full topic names taken apart (src/util/util.go, src/policy/topic-stats.go). */
module TopicNames {
  import opened Text

  const PERSISTENT := "persistent://"
  const NON_PERSISTENT := "non-persistent://"
  const SCHEME_END := "://"
  const PARTITION_PREFIX := "partition-"
  const PARTITION_INFIX := "-partition-"

  type Parts = (string, string, string)

  // ---- Tenant, namespace and topic ----

  function ExtractPartsFromTopicFn(topicFn: string): Option<Parts> {
    if !(HasPrefix(topicFn, PERSISTENT) || HasPrefix(topicFn, NON_PERSISTENT)) then None
    else
      var topicFnParts := SplitString(topicFn, SCHEME_END);
      if |topicFnParts| != 2 then None
      else
        var parts := Split(topicFnParts[1], '/');
        if |parts| != 3 then None else Some((parts[0], parts[1], parts[2]))
  }

  predicate IsScheme(scheme: string) {
    scheme == "persistent://" || scheme == "non-persistent://"
  }

  function Path(p: Parts): string {
    p.0 + "/" + p.1 + "/" + p.2
  }

  predicate SlashFree(p: Parts) {
    '/' !in p.0 && '/' !in p.1 && '/' !in p.2
  }

  lemma SchemeEnds(scheme: string)
    requires IsScheme(scheme)
    ensures |scheme| >= 3 && scheme[|scheme| - 3..] == SCHEME_END
    ensures forall k :: 0 <= k < |scheme| - 3 ==> scheme[k] != ':'
  {
  }

  /** The scheme is the first part, whatever follows it. */
  lemma SchemeSplits(scheme: string, rest: string)
    requires IsScheme(scheme)
    ensures |scheme| >= 3
    ensures SplitString(scheme + rest, SCHEME_END) == [scheme[..|scheme| - 3]] + SplitString(rest, SCHEME_END)
  {
    SchemeEnds(scheme);
    var s := scheme + rest;
    var at := |scheme| - 3;
    FirstColon(s, scheme, at);
    assert s[..at] == scheme[..at] && s[at + 3..] == rest;
  }

  lemma FirstColon(s: string, scheme: string, at: nat)
    requires |scheme| == at + 3 && scheme <= s && scheme[at..] == SCHEME_END
    requires forall k :: 0 <= k < at ==> scheme[k] != ':'
    ensures IndexOfString(s, SCHEME_END) == at
  {
    assert s[at..at + 3] == scheme[at..];
    IndexOfStringFirst(s, SCHEME_END, at);
    var i := IndexOfString(s, SCHEME_END);
    assert s[i] == s[i..i + 3][0] == SCHEME_END[0];
  }

  lemma JoinThree(a: string, b: string, c: string)
    ensures Join([a, b, c], ['/']) == Path((a, b, c))
  {
    JoinCons(b, [c], ['/']);
    JoinCons(a, [b, c], ['/']);
    assert [a, b, c] == [a] + [b, c] && [b, c] == [b] + [c];
    assert a + ['/'] + (b + ['/'] + c) == Path((a, b, c));
  }

  lemma PathSplits(p: Parts)
    requires SlashFree(p)
    ensures Split(Path(p), '/') == [p.0, p.1, p.2]
  {
    JoinThree(p.0, p.1, p.2);
    SplitJoin([p.0, p.1, p.2], '/');
  }

  /** A path has its two slashes, and no other. */
  lemma SlashAt(p: Parts, j: nat)
    requires SlashFree(p) && j < |Path(p)|
    ensures Path(p)[j] == '/' <==> j == |p.0| || j == |p.0| + 1 + |p.1|
  {
    var first, middle, last := |p.0|, |p.0| + 1, |p.0| + |p.1| + 2;
    assert |Path(p)| == last + |p.2|;
    if j < first {
      assert Path(p)[j] == p.0[j];
    } else if middle <= j < last - 1 {
      assert Path(p)[j] == p.1[j - middle];
    } else if last <= j {
      assert Path(p)[j] == p.2[j - last];
    }
  }

  lemma SchemeEndThere(p: Parts)
    requires SlashFree(p) && p.1 == "" && p.0 != "" && p.0[|p.0| - 1] == ':'
    ensures IndexOfString(Path(p), SCHEME_END) >= 0
  {
    var at := |p.0| - 1;
    assert Path(p)[at..at + 3] == SCHEME_END;
    IndexOfStringFirst(Path(p), SCHEME_END, at);
  }

  lemma SchemeEndOnlyThere(p: Parts)
    requires SlashFree(p) && IndexOfString(Path(p), SCHEME_END) >= 0
    ensures p.1 == "" && p.0 != "" && p.0[|p.0| - 1] == ':'
  {
    var s := Path(p);
    var i := IndexOfString(s, SCHEME_END);
    assert s[i..i + 3] == SCHEME_END;
    assert s[i] == s[i..i + 3][0] && s[i + 1] == s[i..i + 3][1] && s[i + 2] == s[i..i + 3][2];
    SlashAt(p, i + 1);
    SlashAt(p, i + 2);
    assert s[i] == p.0[i];
  }

  /** A path holds "://" only where an empty namespace follows a tenant ending in a colon. */
  lemma PathSchemeEnd(p: Parts)
    requires SlashFree(p)
    ensures IndexOfString(Path(p), SCHEME_END) >= 0 <==> p.1 == "" && p.0 != "" && p.0[|p.0| - 1] == ':'
  {
    if IndexOfString(Path(p), SCHEME_END) >= 0 {
      SchemeEndOnlyThere(p);
    } else if p.1 == "" && p.0 != "" && p.0[|p.0| - 1] == ':' {
      SchemeEndThere(p);
    }
  }

  /** Printing then parsing: slash-free parts come back under either scheme, except when an empty
      namespace follows a tenant that ends in a colon. */
  lemma ExtractPrinted(scheme: string, p: Parts)
    requires IsScheme(scheme) && SlashFree(p)
    ensures ExtractPartsFromTopicFn(scheme + Path(p)) == Some(p) <==>
            !(p.1 == "" && p.0 != "" && p.0[|p.0| - 1] == ':')
    ensures p.1 != "" ==> ExtractPartsFromTopicFn(scheme + Path(p)) == Some(p)
  {
    SchemeSplits(scheme, Path(p));
    PathSplits(p);
    PathSchemeEnd(p);
  }

  /** The tenant "t:" with an empty namespace is not recovered. */
  lemma ColonTenantLost()
    ensures ExtractPartsFromTopicFn(PERSISTENT + Path(("t:", "", "x"))) != Some(("t:", "", "x"))
  {
    ExtractPrinted(PERSISTENT, ("t:", "", "x"));
  }

  /** Parsing then printing gives the name back. */
  lemma PrintExtracted(topicFn: string) returns (scheme: string)
    requires ExtractPartsFromTopicFn(topicFn).Some?
    ensures var p := ExtractPartsFromTopicFn(topicFn).value;
            IsScheme(scheme) && SlashFree(p) && topicFn == scheme + Path(p)
  {
    scheme := if HasPrefix(topicFn, PERSISTENT) then PERSISTENT else NON_PERSISTENT;
    var rest := topicFn[|scheme|..];
    assert topicFn == scheme + rest;
    SchemeSplits(scheme, rest);
    RestIsPath(rest);
  }

  lemma RestIsPath(rest: string)
    requires |Split(rest, '/')| == 3
    ensures var parts := Split(rest, '/');
            var p := (parts[0], parts[1], parts[2]);
            SlashFree(p) && rest == Path(p)
  {
    var parts := Split(rest, '/');
    SplitSepFree(rest, '/');
    JoinSplit(rest, '/');
    JoinThree(parts[0], parts[1], parts[2]);
    assert parts == [parts[0], parts[1], parts[2]];
  }

  // ---- Partition topics ----

  predicate IsDigit(c: char) {
    '0' <= c <= '9'
  }

  /** `base`, the infix and `digits`, as the pattern ^[a-z].*-partition-[0-9]{1,5}$ reads them. */
  ghost predicate PartitionName(name: string, base: string, digits: string) {
    && name == base + "-partition-" + digits
    && base != "" && 'a' <= base[0] <= 'z' && '\n' !in base
    && 1 <= |digits| <= 5 && forall i :: 0 <= i < |digits| ==> '0' <= digits[i] <= '9'
  }

  /** How many digits end the name. */
  function TrailingDigits(name: string): (k: nat)
    ensures k <= |name|
  {
    if name != "" && IsDigit(name[|name| - 1]) then 1 + TrailingDigits(name[..|name| - 1]) else 0
  }

  /** The pattern, matched from the end: the digits, as many as there are, then the infix, then a base
      of one line that starts with a small letter. */
  predicate MatchesPartitionPattern(name: string) {
    var k := TrailingDigits(name);
    var at := |name| - k - |PARTITION_INFIX|;
    && 1 <= k <= 5 && at >= 1
    && name[at..at + |PARTITION_INFIX|] == PARTITION_INFIX
    && 'a' <= name[0] <= 'z' && '\n' !in name[..at]
  }

  function IsPartitionTopic(name: string): Option<string> {
    if MatchesPartitionPattern(name) then
      var parts := Split(name, '-');
      if |parts| < 2 then None else Some(Join(parts[..|parts| - 2], "-"))
    else None
  }

  lemma InfixText(base: string, digits: string)
    ensures base + PARTITION_INFIX + digits == base + ['-'] + "partition" + ['-'] + digits
  {
  }

  lemma PartitionSplits(base: string, digits: string)
    requires '-' !in digits
    ensures Split(base + PARTITION_INFIX + digits, '-') == Split(base, '-') + ["partition"] + [digits]
  {
    var stem := base + ['-'] + "partition";
    SplitAppend(base, "partition", '-');
    SplitAppend(stem, digits, '-');
    InfixText(base, digits);
  }

  lemma PartitionParts(base: string, digits: string)
    requires '-' !in digits
    ensures var parts := Split(base + PARTITION_INFIX + digits, '-');
            |parts| >= 3 && Join(parts[..|parts| - 2], "-") == base
  {
    PartitionSplits(base, digits);
    var parts := Split(base, '-') + ["partition"] + [digits];
    assert parts[..|parts| - 2] == Split(base, '-');
    JoinSplit(base, '-');
  }

  lemma {:induction false} TrailingDigitsAre(name: string)
    ensures var k := TrailingDigits(name);
            && (forall i :: |name| - k <= i < |name| ==> IsDigit(name[i]))
            && (k < |name| ==> !IsDigit(name[|name| - k - 1]))
  {
    if name != "" && IsDigit(name[|name| - 1]) {
      TrailingDigitsAre(name[..|name| - 1]);
    }
  }

  lemma {:induction false} TrailingDigitsOf(stem: string, digits: string)
    requires stem != "" && !IsDigit(stem[|stem| - 1])
    requires forall i :: 0 <= i < |digits| ==> IsDigit(digits[i])
    ensures TrailingDigits(stem + digits) == |digits|
  {
    var name := stem + digits;
    if digits != "" {
      var front := digits[..|digits| - 1];
      TrailingDigitsOf(stem, front);
      assert name[..|name| - 1] == stem + front;
      assert name[|name| - 1] == digits[|digits| - 1];
    } else {
      assert name == stem;
    }
  }

  /** The match is the one reading of the pattern. */
  lemma PatternMatches(name: string, base: string, digits: string)
    requires PartitionName(name, base, digits)
    ensures MatchesPartitionPattern(name)
  {
    var stem := base + PARTITION_INFIX;
    assert stem[|stem| - 1] == PARTITION_INFIX[|PARTITION_INFIX| - 1] == '-';
    TrailingDigitsOf(stem, digits);
    var at := |base|;
    assert name[at..at + |PARTITION_INFIX|] == PARTITION_INFIX && name[..at] == base;
    assert name[0] == base[0];
  }

  lemma MatchIsPattern(name: string) returns (base: string, digits: string)
    requires MatchesPartitionPattern(name)
    ensures PartitionName(name, base, digits)
  {
    var k := TrailingDigits(name);
    var at := |name| - k - |PARTITION_INFIX|;
    TrailingDigitsAre(name);
    base, digits := name[..at], name[|name| - k..];
    assert name == name[..at] + name[at..at + |PARTITION_INFIX|] + name[|name| - k..];
  }

  /** A name of the pattern, cut as the code cuts it, gives the part before the infix. */
  lemma PartitionBase(name: string, base: string, digits: string)
    requires PartitionName(name, base, digits)
    ensures IsPartitionTopic(name) == Some(base)
  {
    PatternMatches(name, base, digits);
    assert '-' !in digits;
    PartitionParts(base, digits);
  }

  /** Accepts exactly the names of the pattern, and returns the part before the infix. */
  lemma PartitionTopicIff(name: string, base: string)
    ensures IsPartitionTopic(name) == Some(base) <==> exists digits :: PartitionName(name, base, digits)
  {
    if MatchesPartitionPattern(name) {
      var found, digits := MatchIsPattern(name);
      PartitionBase(name, found, digits);
    }
    forall digits | PartitionName(name, base, digits)
      ensures IsPartitionTopic(name) == Some(base)
    {
      PartitionBase(name, base, digits);
    }
  }

  /** strings.Replace of the first occurrence, which is the prefix. */
  function ParsePartitionTopicName(topic: string): (string, bool) {
    if HasPrefix(topic, PARTITION_PREFIX) then
      var at := IndexOfString(topic, PARTITION_PREFIX);
      if at < 0 then (topic, true) else (topic[..at] + topic[at + |PARTITION_PREFIX|..], true)
    else (topic, false)
  }

  /** The prefix is taken off once, and any other name is left alone; the answer says which. */
  lemma ParsePartitionIs(topic: string)
    ensures ParsePartitionTopicName(topic) ==
            if |topic| >= 10 && topic[..10] == "partition-" then (topic[10..], true) else (topic, false)
  {
    if HasPrefix(topic, PARTITION_PREFIX) {
      assert topic[0..0 + |PARTITION_PREFIX|] == PARTITION_PREFIX;
      IndexOfStringFirst(topic, PARTITION_PREFIX, 0);
      assert topic[..0] + topic[|PARTITION_PREFIX|..] == topic[10..];
    }
  }

  lemma ParsePartitionPrinted(name: string)
    ensures ParsePartitionTopicName("partition-" + name) == (name, true)
  {
    ParsePartitionIs("partition-" + name);
  }
}
