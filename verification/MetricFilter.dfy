/** The federated metrics a subject may see (src/metrics/federated-prometheus.go): the sample lines
    that match, each under its own TYPE header. */
module MetricFilter {
  import opened Text

  const TYPE_PREFIX := "# TYPE "

  /** Whether a line matches the subject's namespace pattern; SubjectPattern says which do for a subject
      free of regular-expression syntax. */
  type Pattern = string -> bool

  predicate IsType(line: string) {
    HasPrefix(line, TYPE_PREFIX)
  }

  predicate IsHit(line: string, hit: Pattern) {
    !IsType(line) && hit(line)
  }

  /** The header not yet written after one more line. */
  function NextHeader(line: string, hit: Pattern, typeDef: string): string {
    if IsType(line) then line else if hit(line) then "" else typeDef
  }

  /** The lines kept, from where `typeDef` is the header not yet written ("" for none). */
  function Filtered(lines: seq<string>, hit: Pattern, typeDef: string): seq<string> {
    if lines == [] then []
    else if IsType(lines[0]) then Filtered(lines[1..], hit, lines[0])
    else if hit(lines[0]) then
      (if typeDef == "" then [lines[0]] else [typeDef, lines[0]]) + Filtered(lines[1..], hit, "")
    else Filtered(lines[1..], hit, typeDef)
  }

  /** The header not yet written at the end. */
  function Pending(lines: seq<string>, hit: Pattern, typeDef: string): string {
    if lines == [] then typeDef
    else Pending(lines[1..], hit, NextHeader(lines[0], hit, typeDef))
  }

  // ---- Text and lines ----

  function Render(lines: seq<string>): string {
    if lines == [] then "" else lines[0] + "\n" + Render(lines[1..])
  }

  /** The lines a scanner yields: no line is empty only because the text ends. */
  function Lines(text: string): seq<string> {
    var parts := Split(text, '\n');
    if parts[|parts| - 1] == "" then parts[..|parts| - 1] else parts
  }

  /** What one line adds to the output. */
  function Written(line: string, hit: Pattern, typeDef: string): string {
    if !IsHit(line, hit) then ""
    else if typeDef == "" then line + "\n"
    else typeDef + "\n" + line + "\n"
  }

  lemma RenderStep(lines: seq<string>, hit: Pattern, typeDef: string)
    requires lines != []
    ensures Render(Filtered(lines, hit, typeDef)) ==
            Written(lines[0], hit, typeDef) + Render(Filtered(lines[1..], hit, NextHeader(lines[0], hit, typeDef)))
  {
  }

  lemma RenderStepAt(lines: seq<string>, hit: Pattern, typeDef: string, i: nat, sofar: string)
    requires i < |lines|
    ensures sofar + Render(Filtered(lines[i..], hit, typeDef)) ==
            sofar + Written(lines[i], hit, typeDef) + Render(Filtered(lines[i + 1..], hit, NextHeader(lines[i], hit, typeDef)))
  {
    RenderStep(lines[i..], hit, typeDef);
    assert lines[i..][1..] == lines[i + 1..];
    var piece := Written(lines[i], hit, typeDef);
    var rest := Render(Filtered(lines[i + 1..], hit, NextHeader(lines[i], hit, typeDef)));
    assert sofar + (piece + rest) == sofar + piece + rest;
  }

  method FilterFederatedMetrics(text: string, hit: Pattern) returns (str: string)
    ensures str == Render(Filtered(Lines(text), hit, ""))
  {
    var lines := Lines(text);
    str := "";
    var typeDef := "";
    ghost var all := Render(Filtered(lines, hit, ""));
    assert str + all == all && lines[0..] == lines;
    for i := 0 to |lines|
      invariant str + Render(Filtered(lines[i..], hit, typeDef)) == all
    {
      var line := lines[i];
      RenderStepAt(lines, hit, typeDef, i, str);
      if IsType(line) {
        assert str + "" == str;
        typeDef := line;
      } else if hit(line) {
        if typeDef == "" {
          str := str + (line + "\n");
        } else {
          str := str + (typeDef + "\n" + line + "\n");
          typeDef := "";
        }
      } else {
        assert str + "" == str;
      }
    }
    assert str + "" == str;
  }

  // ---- What the lines say ----

  /** A header is a line that starts with these seven characters. */
  predicate IsHeader(line: string) {
    |line| >= 7 && line[..7] == "# TYPE "
  }

  /** The matching samples, each with the TYPE line that governs it, if any does. */
  function Readings(lines: seq<string>, hit: Pattern, governing: Option<string>): seq<(Option<string>, string)> {
    if lines == [] then []
    else if IsHeader(lines[0]) then Readings(lines[1..], hit, Some(lines[0]))
    else if hit(lines[0]) then [(governing, lines[0])] + Readings(lines[1..], hit, governing)
    else Readings(lines[1..], hit, governing)
  }

  lemma {:induction false} ReadingsKept(lines: seq<string>, hit: Pattern, typeDef: string,
                                        governing: Option<string>, written: Option<string>)
    requires if typeDef == "" then written == governing else IsType(typeDef) && governing == Some(typeDef)
    ensures Readings(Filtered(lines, hit, typeDef), hit, written) == Readings(lines, hit, governing)
  {
    if lines != [] {
      var line, rest := lines[0], lines[1..];
      if IsType(line) {
        ReadingsKept(rest, hit, line, Some(line), written);
      } else if hit(line) {
        ReadingsKept(rest, hit, "", governing, governing);
        var tail := Filtered(rest, hit, "");
        assert ([line] + tail)[1..] == tail;
        assert ([typeDef, line] + tail)[1..] == [line] + tail;
      } else {
        ReadingsKept(rest, hit, typeDef, governing, written);
      }
    }
  }

  /** The filter preserves meaning: its output has the matching samples of the input, in order, each
      under the same TYPE line. */
  lemma FilterKeepsReadings(lines: seq<string>, hit: Pattern)
    ensures Readings(Filtered(lines, hit, ""), hit, None) == Readings(lines, hit, None)
  {
    ReadingsKept(lines, hit, "", None, None);
  }

  /** Nothing but matching samples, and TYPE lines each directly followed by one. */
  predicate Clean(lines: seq<string>, hit: Pattern) {
    lines == []
    || (!IsHeader(lines[0]) && hit(lines[0]) && Clean(lines[1..], hit))
    || (|lines| >= 2 && IsHeader(lines[0]) && !IsHeader(lines[1]) && hit(lines[1]) && Clean(lines[2..], hit))
  }

  lemma {:induction false} FilterIsClean(lines: seq<string>, hit: Pattern, typeDef: string)
    requires typeDef == "" || IsType(typeDef)
    ensures Clean(Filtered(lines, hit, typeDef), hit)
  {
    if lines != [] {
      var line, rest := lines[0], lines[1..];
      if IsType(line) {
        FilterIsClean(rest, hit, line);
      } else if hit(line) {
        FilterIsClean(rest, hit, "");
        var tail := Filtered(rest, hit, "");
        assert ([line] + tail)[1..] == tail;
        assert ([typeDef, line] + tail)[2..] == tail;
      } else {
        FilterIsClean(rest, hit, typeDef);
      }
    }
  }

  lemma {:induction false} CleanIsFixed(lines: seq<string>, hit: Pattern)
    requires Clean(lines, hit)
    ensures Filtered(lines, hit, "") == lines
  {
    if lines != [] {
      if IsHit(lines[0], hit) {
        CleanIsFixed(lines[1..], hit);
      } else {
        CleanIsFixed(lines[2..], hit);
        assert lines[1..][1..] == lines[2..];
        assert lines == [lines[0], lines[1]] + lines[2..];
      }
    }
  }

  lemma FilterIdempotent(lines: seq<string>, hit: Pattern)
    ensures Filtered(Filtered(lines, hit, ""), hit, "") == Filtered(lines, hit, "")
  {
    FilterIsClean(lines, hit, "");
    CleanIsFixed(Filtered(lines, hit, ""), hit);
  }

  // ---- Filtering in pieces ----

  lemma {:induction false} FilterAppend(a: seq<string>, b: seq<string>, hit: Pattern, typeDef: string)
    ensures Filtered(a + b, hit, typeDef) == Filtered(a, hit, typeDef) + Filtered(b, hit, Pending(a, hit, typeDef))
  {
    if a == [] {
      assert a + b == b;
    } else {
      assert (a + b)[1..] == a[1..] + b;
      FilterAppend(a[1..], b, hit, NextHeader(a[0], hit, typeDef));
    }
  }

  /** A matching sample comes before any TYPE line. */
  predicate NeedsHeader(lines: seq<string>, hit: Pattern) {
    lines != [] && !IsHeader(lines[0]) && (hit(lines[0]) || NeedsHeader(lines[1..], hit))
  }

  lemma {:induction false} PendingMatters(lines: seq<string>, hit: Pattern, typeDef: string)
    ensures Filtered(lines, hit, typeDef) ==
            (if typeDef != "" && NeedsHeader(lines, hit) then [typeDef] else []) + Filtered(lines, hit, "")
  {
    if lines != [] && !IsType(lines[0]) && !hit(lines[0]) {
      PendingMatters(lines[1..], hit, typeDef);
    }
  }

  /** Filtering distributes over a cut exactly when no header is left pending at the cut, or the
      second part brings a header before its first matching sample. */
  lemma FilterDistributesIff(a: seq<string>, b: seq<string>, hit: Pattern)
    ensures Filtered(a + b, hit, "") == Filtered(a, hit, "") + Filtered(b, hit, "") <==>
            Pending(a, hit, "") == "" || !NeedsHeader(b, hit)
    ensures b != [] && IsHeader(b[0]) ==> Filtered(a + b, hit, "") == Filtered(a, hit, "") + Filtered(b, hit, "")
  {
    var typeDef := Pending(a, hit, "");
    var first, second := Filtered(a, hit, ""), Filtered(b, hit, "");
    FilterAppend(a, b, hit, "");
    PendingMatters(b, hit, typeDef);
    if typeDef != "" && NeedsHeader(b, hit) {
      assert |first + ([typeDef] + second)| == |first + second| + 1;
    } else {
      assert first + ([] + second) == first + second;
    }
  }

  // ---- On texts ----

  ghost predicate OneLineEach(lines: seq<string>) {
    forall i :: 0 <= i < |lines| ==> '\n' !in lines[i]
  }

  lemma {:induction false} RenderJoin(lines: seq<string>)
    ensures Render(lines) == Join(lines + [""], ['\n'])
  {
    if lines != [] {
      RenderJoin(lines[1..]);
      JoinCons(lines[0], lines[1..] + [""], ['\n']);
      assert [lines[0]] + (lines[1..] + [""]) == lines + [""];
    }
  }

  lemma LinesOfRender(lines: seq<string>)
    requires OneLineEach(lines)
    ensures Lines(Render(lines)) == lines
  {
    RenderJoin(lines);
    SplitJoin(lines + [""], '\n');
    assert (lines + [""])[..|lines|] == lines;
  }

  lemma {:induction false} FilteredOneLineEach(lines: seq<string>, hit: Pattern, typeDef: string)
    requires OneLineEach(lines) && '\n' !in typeDef
    ensures OneLineEach(Filtered(lines, hit, typeDef))
  {
    if lines != [] {
      FilteredOneLineEach(lines[1..], hit, NextHeader(lines[0], hit, typeDef));
    }
  }

  lemma LinesAreParts(text: string) returns (front: seq<string>, last: string)
    ensures OneLineEach(front) && '\n' !in last && text == Join(front + [last], ['\n'])
    ensures Lines(text) == if last == "" then front else front + [last]
  {
    var parts := Split(text, '\n');
    SplitSepFree(text, '\n');
    JoinSplit(text, '\n');
    front, last := parts[..|parts| - 1], parts[|parts| - 1];
    assert parts == front + [last];
  }

  /** The lines of a text make up all of it, an unfinished last one included. */
  lemma LinesMakeText(text: string)
    ensures OneLineEach(Lines(text))
    ensures Render(Lines(text)) == if text == "" || text[|text| - 1] == '\n' then text else text + "\n"
  {
    var front, last := LinesAreParts(text);
    if last == "" {
      FinishedText(text, front);
    } else {
      UnfinishedText(text, front, last);
    }
  }

  lemma FinishedText(text: string, lines: seq<string>)
    requires text == Join(lines + [""], ['\n'])
    ensures Render(lines) == text && (text == "" || text[|text| - 1] == '\n')
  {
    RenderJoin(lines);
    LastPart(lines, "");
  }

  lemma UnfinishedText(text: string, front: seq<string>, last: string)
    requires last != "" && '\n' !in last && text == Join(front + [last], ['\n'])
    ensures Render(front + [last]) == text + "\n" && text != "" && text[|text| - 1] != '\n'
  {
    RenderJoin(front + [last]);
    LastPart(front + [last], "");
    LastPart(front, last);
    assert text[|text| - 1] == last[|last| - 1];
    assert last[|last| - 1] in last;
  }

  lemma LastPart(front: seq<string>, last: string)
    ensures front != [] ==> Join(front + [last], ['\n']) == Join(front, ['\n']) + ['\n'] + last
    ensures front == [] ==> Join(front + [last], ['\n']) == last
  {
    if front != [] {
      JoinAppend(front, last, ['\n']);
    }
  }

  /** Filtering a text twice is filtering it once, and the filtered text still says the same. */
  lemma TextFilterIdempotent(text: string, hit: Pattern)
    ensures var once := Render(Filtered(Lines(text), hit, ""));
            && Render(Filtered(Lines(once), hit, "")) == once
            && Readings(Lines(once), hit, None) == Readings(Lines(text), hit, None)
  {
    SplitSepFree(text, '\n');
    var kept := Filtered(Lines(text), hit, "");
    FilteredOneLineEach(Lines(text), hit, "");
    LinesOfRender(kept);
    FilterIdempotent(Lines(text), hit);
    FilterKeepsReadings(Lines(text), hit);
  }

  // ---- The subject's pattern ----

  const NAMESPACE_LABEL := ",namespace=\""
  const METACHARACTERS := "\\.+*?()|[]{}^$"

  predicate Plain(subject: string) {
    forall i :: 0 <= i < |subject| ==> subject[i] !in METACHARACTERS
  }

  /** As much of a regular expression as the pattern needs: a character, and `.*`. */
  datatype Item = Exactly(c: char) | Anything

  /** The expression matches some first characters of `s`. */
  predicate MatchesPrefix(items: seq<Item>, s: string)
    decreases |items|, |s|
  {
    if items == [] then true
    else
      match items[0]
      case Exactly(c) => s != "" && s[0] == c && MatchesPrefix(items[1..], s[1..])
      case Anything =>
        MatchesPrefix(items[1..], s) || (s != "" && s[0] != '\n' && MatchesPrefix(items, s[1..]))
  }

  /** regexp.MatchString: the expression matches somewhere in `s`. */
  predicate MatchString(items: seq<Item>, s: string) {
    MatchesPrefix(items, s) || (s != "" && MatchString(items, s[1..]))
  }

  function Literally(text: string): (items: seq<Item>)
    ensures |items| == |text|
  {
    seq(|text|, i requires 0 <= i < |text| => Exactly(text[i]))
  }

  /** The expression built for a subject. */
  function PatternOf(subject: string): seq<Item>
    requires Plain(subject)
  {
    [Anything] + (Literally(NAMESPACE_LABEL + subject) + [Anything])
  }

  function SubjectPattern(subject: string): Pattern
    requires Plain(subject)
  {
    line => MatchString(PatternOf(subject), line)
  }

  lemma {:induction false} LiteralMatches(text: string, s: string)
    ensures MatchesPrefix(Literally(text) + [Anything], s) <==> text <= s
    decreases |text|
  {
    var items := Literally(text) + [Anything];
    if text == "" {
      assert items == [Anything] && items[1..] == [];
    } else {
      assert items[1..] == Literally(text[1..]) + [Anything];
      if s != "" {
        LiteralMatches(text[1..], s[1..]);
        assert text <= s <==> text[0] == s[0] && text[1..] <= s[1..];
      }
    }
  }

  ghost predicate Occurs(s: string, text: string) {
    exists i :: 0 <= i && OccursAt(s, text, i)
  }

  lemma OccursLater(s: string, text: string)
    requires s != "" && Occurs(s[1..], text)
    ensures Occurs(s, text)
  {
    var i :| 0 <= i && OccursAt(s[1..], text, i);
    assert s[1..][i..i + |text|] == s[i + 1..i + 1 + |text|];
    assert OccursAt(s, text, i + 1);
  }

  lemma {:induction false} AnythingOccurs(text: string, s: string)
    requires MatchesPrefix([Anything] + (Literally(text) + [Anything]), s)
    ensures Occurs(s, text)
    decreases |s|
  {
    var tail := Literally(text) + [Anything];
    assert ([Anything] + tail)[1..] == tail;
    if MatchesPrefix(tail, s) {
      LiteralMatches(text, s);
      assert OccursAt(s, text, 0);
    } else {
      AnythingOccurs(text, s[1..]);
      OccursLater(s, text);
    }
  }

  lemma {:induction false} MatchOccurs(text: string, s: string)
    requires MatchString([Anything] + (Literally(text) + [Anything]), s)
    ensures Occurs(s, text)
    decreases |s|
  {
    if MatchesPrefix([Anything] + (Literally(text) + [Anything]), s) {
      AnythingOccurs(text, s);
    } else {
      MatchOccurs(text, s[1..]);
      OccursLater(s, text);
    }
  }

  lemma {:induction false} OccurrenceMatches(text: string, s: string, i: nat)
    requires OccursAt(s, text, i)
    ensures MatchString([Anything] + (Literally(text) + [Anything]), s)
    decreases i
  {
    if i == 0 {
      var tail := Literally(text) + [Anything];
      LiteralMatches(text, s);
      assert ([Anything] + tail)[1..] == tail;
    } else {
      assert s[1..][i - 1..i - 1 + |text|] == s[i..i + |text|];
      OccurrenceMatches(text, s[1..], i - 1);
    }
  }

  /** The pattern finds the label and the subject, one right after the other, wherever they stand. */
  lemma SubjectMatchIff(subject: string, line: string)
    requires Plain(subject)
    ensures SubjectPattern(subject)(line) <==> Occurs(line, ",namespace=\"" + subject)
  {
    var text := NAMESPACE_LABEL + subject;
    if Occurs(line, text) {
      var i :| 0 <= i && OccursAt(line, text, i);
      OccurrenceMatches(text, line, i);
    }
    if SubjectPattern(subject)(line) {
      MatchOccurs(text, line);
    }
  }

  /** A line with one namespace label after its first. */
  ghost predicate Labelled(line: string, before: string, namespace: string, rest: string) {
    && line == before + ",namespace=\"" + namespace + "\"" + rest && '"' !in namespace
    && forall i :: 0 <= i && OccursAt(line, ",namespace=\"", i) ==> i == |before|
  }

  lemma LabelledTail(line: string, before: string, namespace: string, rest: string)
    requires Labelled(line, before, namespace, rest)
    ensures line == before + (NAMESPACE_LABEL + (namespace + ("\"" + rest)))
  {
  }

  lemma PrefixOfQuoted(subject: string, namespace: string, rest: string)
    requires '"' !in subject
    ensures subject <= namespace + ("\"" + rest) <==> subject <= namespace
  {
    var quoted := namespace + ("\"" + rest);
    assert quoted[|namespace|] == '"' && quoted[..|namespace|] == namespace;
  }

  lemma OccursAtLabel(before: string, tail: string, subject: string)
    ensures OccursAt(before + (NAMESPACE_LABEL + tail), NAMESPACE_LABEL + subject, |before|) <==> subject <= tail
  {
    var line, text := before + (NAMESPACE_LABEL + tail), NAMESPACE_LABEL + subject;
    if |subject| <= |tail| {
      assert line[|before|..|before| + |text|] == NAMESPACE_LABEL + tail[..|subject|];
      assert text[|NAMESPACE_LABEL|..] == subject;
      assert (NAMESPACE_LABEL + tail[..|subject|])[|NAMESPACE_LABEL|..] == tail[..|subject|];
    }
  }

  /** A line is let through exactly when its namespace starts with the subject. */
  lemma SubjectSeesIff(subject: string, line: string, before: string, namespace: string, rest: string)
    requires Plain(subject) && '"' !in subject && Labelled(line, before, namespace, rest)
    ensures SubjectPattern(subject)(line) <==> subject <= namespace
  {
    var tail := namespace + ("\"" + rest);
    LabelledTail(line, before, namespace, rest);
    SubjectMatchIff(subject, line);
    PrefixOfQuoted(subject, namespace, rest);
    OccursAtLabel(before, tail, subject);
    if Occurs(line, NAMESPACE_LABEL + subject) {
      var i :| 0 <= i && OccursAt(line, NAMESPACE_LABEL + subject, i);
      assert line[i..i + |NAMESPACE_LABEL|] == line[i..i + |NAMESPACE_LABEL + subject|][..|NAMESPACE_LABEL|];
      assert OccursAt(line, NAMESPACE_LABEL, i);
    }
  }

  /** So a tenant is shown the samples of another whose name starts with its own. */
  lemma LongerNameSeen(rest: string)
    ensures Plain("acme")
    ensures var line := "m{cluster=\"c\"" + (NAMESPACE_LABEL + ("acme2/ns\"" + rest));
            Filtered([line], SubjectPattern("acme"), "") == [line]
  {
    var before, tail := "m{cluster=\"c\"", "acme2/ns\"" + rest;
    var line := before + (NAMESPACE_LABEL + tail);
    assert "acme" <= tail;
    OccursAtLabel(before, tail, "acme");
    SubjectMatchIff("acme", line);
    assert line[0] == 'm' && !IsType(line);
  }
}
