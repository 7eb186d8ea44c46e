/** Which token subjects may act for a tenant (src/route/handlers.go). */
module Subjects {
  import opened Text

  /** The tenant a subject may stand for, read two ways. */
  function ExtractTenant(tokenSub: string): (string, string) {
    var parts := Split(tokenSub, '-');
    if |parts| < 2 then (tokenSub, tokenSub)
    else
      var validLength := |parts| - 1;
      var case1 := Join(parts[..validLength], "-");
      if parts[validLength - 1] == "client" then (case1, Join(parts[..validLength - 1], "-"))
      else if parts[validLength - 1] == "admin" then (case1, Join(parts[..validLength - 1], "-"))
      else (case1, case1)
  }

  /** The loop over the subjects, which returns in its first pass. */
  function VerifyEach(required: string, subjects: seq<string>, superRoles: seq<string>): bool {
    if subjects == [] then false
    else if subjects[0] in superRoles then true
    else
      var (case1, case2) := ExtractTenant(subjects[0]);
      required == case1 || required == case2
  }

  function VerifySubject(required: string, tokenSubjects: string, superRoles: seq<string>): bool {
    VerifyEach(required, Split(tokenSubjects, ','), superRoles)
  }

  /** The forms of a tenant's own subjects, with a dash-free tail. */
  ghost predicate TenantSubject(tenant: string, s: string, tail: string) {
    && '-' !in tail
    && (s == tenant + "-" + tail || s == tenant + "-client-" + tail || s == tenant + "-admin-" + tail)
  }

  /** With no tenant name to match, the two role words may stand alone before the tail. */
  ghost predicate NamelessSubject(s: string, tail: string) {
    '-' !in tail && (s == "client-" + tail || s == "admin-" + tail)
  }

  ghost predicate Grammar(tenant: string, s: string) {
    || ('-' !in s && s == tenant)
    || (exists tail :: TenantSubject(tenant, s, tail))
    || (tenant == "" && exists tail :: NamelessSubject(s, tail))
  }

  predicate Accepts(tenant: string, s: string) {
    var (case1, case2) := ExtractTenant(s);
    tenant == case1 || tenant == case2
  }

  lemma NoDash(s: string)
    ensures |Split(s, '-')| < 2 <==> '-' !in s
  {
    IndexOfFirst(s, '-');
  }

  lemma LastCut(s: string)
    requires |Split(s, '-')| >= 2
    ensures var parts := Split(s, '-');
            var n := |parts| - 1;
            '-' !in parts[n] && s == Join(parts[..n], "-") + "-" + parts[n]
  {
    var parts := Split(s, '-');
    var n := |parts| - 1;
    SplitSepFree(s, '-');
    JoinSplit(s, '-');
    JoinAppend(parts[..n], parts[n], "-");
    assert parts == parts[..n] + [parts[n]];
  }

  lemma SecondCut(parts: seq<string>, word: string)
    requires |parts| >= 2 && parts[|parts| - 1] == word
    ensures Join(parts, "-") == Join(parts[..|parts| - 1], "-") + "-" + word
  {
    JoinAppend(parts[..|parts| - 1], word, "-");
    assert parts == parts[..|parts| - 1] + [word];
  }

  /** The tenant left when a role word before the tail is dropped too. */
  lemma SecondReading(s: string)
    requires |Split(s, '-')| >= 2
    ensures var parts := Split(s, '-');
            var n := |parts| - 1;
            var tenant, word, tail := Join(parts[..n - 1], "-"), parts[n - 1], parts[n];
            && '-' !in tail
            && (n >= 2 ==> s == tenant + "-" + word + "-" + tail)
            && (n == 1 ==> tenant == "" && s == word + "-" + tail)
  {
    var parts := Split(s, '-');
    var n := |parts| - 1;
    LastCut(s);
    if n >= 2 {
      SecondCut(parts[..n], parts[n - 1]);
      assert parts[..n][..n - 1] == parts[..n - 1];
    } else {
      assert parts[..1] == [parts[0]];
    }
  }

  lemma FirstReadingForm(s: string)
    requires |Split(s, '-')| >= 2
    ensures var parts := Split(s, '-');
            TenantSubject(Join(parts[..|parts| - 1], "-"), s, parts[|parts| - 1])
  {
    LastCut(s);
  }

  lemma WordText(tenant: string, tail: string)
    ensures tenant + "-" + "client" + "-" + tail == tenant + "-client-" + tail
    ensures tenant + "-" + "admin" + "-" + tail == tenant + "-admin-" + tail
    ensures "client" + "-" + tail == "client-" + tail && "admin" + "-" + tail == "admin-" + tail
  {
    assert "-" + "client" + "-" == "-client-" && "-" + "admin" + "-" == "-admin-";
    assert "client" + "-" == "client-" && "admin" + "-" == "admin-";
    assert tenant + "-" + "client" + "-" == tenant + ("-" + "client" + "-");
    assert tenant + "-" + "admin" + "-" == tenant + ("-" + "admin" + "-");
  }

  lemma SecondReadingForm(s: string)
    requires |Split(s, '-')| >= 2
    requires var parts := Split(s, '-'); parts[|parts| - 2] == "client" || parts[|parts| - 2] == "admin"
    ensures var parts := Split(s, '-');
            var n := |parts| - 1;
            if n >= 2 then TenantSubject(Join(parts[..n - 1], "-"), s, parts[n])
            else Join(parts[..n - 1], "-") == "" && NamelessSubject(s, parts[n])
  {
    var parts := Split(s, '-');
    var n := |parts| - 1;
    SecondReading(s);
    WordText(Join(parts[..n - 1], "-"), parts[n]);
  }

  lemma AcceptedHasForm(tenant: string, s: string)
    requires Accepts(tenant, s)
    ensures Grammar(tenant, s)
  {
    NoDash(s);
    var parts := Split(s, '-');
    if |parts| >= 2 {
      if tenant == Join(parts[..|parts| - 1], "-") {
        FirstReadingForm(s);
      } else {
        SecondReadingForm(s);
      }
    }
  }

  lemma PlainAccepted(tenant: string, tail: string)
    requires '-' !in tail
    ensures Accepts(tenant, tenant + "-" + tail)
  {
    SplitAppend(tenant, tail, '-');
    assert tenant + ['-'] + tail == tenant + "-" + tail;
    assert (Split(tenant, '-') + [tail])[..|Split(tenant, '-')|] == Split(tenant, '-');
    JoinSplit(tenant, '-');
  }

  lemma WordAccepted(tenant: string, word: string, tail: string)
    requires '-' !in tail && (word == "client" || word == "admin")
    ensures Accepts(tenant, tenant + "-" + word + "-" + tail)
  {
    var head := Split(tenant, '-');
    SplitAppend(tenant, word, '-');
    SplitAppend(tenant + ['-'] + word, tail, '-');
    var parts := head + [word] + [tail];
    assert Split(tenant + "-" + word + "-" + tail, '-') == parts;
    assert parts[..|parts| - 2] == head && parts[|parts| - 2] == word;
    JoinSplit(tenant, '-');
  }

  lemma NamelessAccepted(word: string, tail: string)
    requires '-' !in tail && (word == "client" || word == "admin")
    ensures Accepts("", word + "-" + tail)
  {
    SplitAppend(word, tail, '-');
    NoDash(word);
    assert word + ['-'] + tail == word + "-" + tail;
    assert Split(word + "-" + tail, '-') == [word, tail];
    assert [word, tail][..0] == [];
  }

  lemma TenantFormAccepted(tenant: string, s: string, tail: string)
    requires TenantSubject(tenant, s, tail)
    ensures Accepts(tenant, s)
  {
    WordText(tenant, tail);
    if s == tenant + "-" + tail {
      PlainAccepted(tenant, tail);
    } else if s == tenant + "-client-" + tail {
      WordAccepted(tenant, "client", tail);
    } else {
      WordAccepted(tenant, "admin", tail);
    }
  }

  lemma NamelessFormAccepted(s: string, tail: string)
    requires NamelessSubject(s, tail)
    ensures Accepts("", s)
  {
    WordText("", tail);
    if s == "client-" + tail {
      NamelessAccepted("client", tail);
    } else {
      NamelessAccepted("admin", tail);
    }
  }

  lemma FormIsAccepted(tenant: string, s: string)
    requires Grammar(tenant, s)
    ensures Accepts(tenant, s)
  {
    if '-' !in s && s == tenant {
      NoDash(s);
    } else if tail :| TenantSubject(tenant, s, tail) {
      TenantFormAccepted(tenant, s, tail);
    } else {
      var tail :| NamelessSubject(s, tail);
      NamelessFormAccepted(s, tail);
    }
  }

  /** Exactly which subjects are accepted: a super role, the tenant itself if its name has no dash,
      or the tenant's name with a dash-free tail, a role word between them or not. */
  lemma VerifySubjectIff(tenant: string, first: string, rest: string, superRoles: seq<string>)
    requires ',' !in first
    ensures VerifySubject(tenant, first, superRoles) <==> first in superRoles || Grammar(tenant, first)
    ensures VerifySubject(tenant, first + "," + rest, superRoles) == VerifySubject(tenant, first, superRoles)
  {
    IndexOfFirst(first, ',');
    SplitCons(first, ',', rest);
    assert first + [','] + rest == first + "," + rest;
    if Accepts(tenant, first) {
      AcceptedHasForm(tenant, first);
    }
    if Grammar(tenant, first) {
      FormIsAccepted(tenant, first);
    }
  }
}
