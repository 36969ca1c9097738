/** Printed phases read back as the same phases, and when a text gives a task graph. */
module BlueprintText {
  import opened Wrappers
  import opened Strings
  import opened Decimals
  import opened Lines
  import opened TaskGraph
  import opened Phases
  import opened Blueprint

  datatype Record = Record(number: nat, name: string, annotation: Option<Annotation>, body: string)

  /** The annotation as it is written. */
  function AnnotationText(annotation: Annotation): string {
    match annotation
    case Independent => "(independent)"
    case ParallelWith(n) => "(parallel with Phase " + Print(n) + ")"
  }

  /** The name, with a blank after it unless it is empty. */
  function Lead(name: string): string {
    if name == "" then "" else name + " "
  }

  function Title(name: string, annotation: Option<Annotation>): string {
    if annotation.None? then name else Lead(name) + AnnotationText(annotation.value)
  }

  /** What follows "### Phase ": the number, a colon and the title. */
  function AfterPhase(number: nat, title: string): string {
    Print(number) + ":" + (if title == "" then "" else " " + title)
  }

  function HeaderLine(r: Record): string {
    "### " + ("Phase " + AfterPhase(r.number, Title(r.name, r.annotation)))
  }

  function PrintedLines(records: seq<Record>): seq<string> {
    if records == [] then []
    else
      var last := records[|records| - 1];
      PrintedLines(records[..|records| - 1]) + ([HeaderLine(last)] + Split(last.body))
  }

  function PrintRecords(records: seq<Record>): string {
    Text(PrintedLines(records))
  }

  /** No annotation begins in the name, followed by a blank, in any case. */
  ghost predicate NoAnnotationText(name: string) {
    forall k: nat :: !StartsAt(Lower(name + " "), k, INDEPENDENT) && !StartsAt(Lower(name + " "), k, PARALLEL_WITH)
  }

  predicate IsAscii(s: string) {
    forall c :: c in s ==> c as int < 0x80
  }

  ghost predicate ReadableName(name: string) {
    Trimmed(name) && '\n' !in name && IsAscii(name) && NoAnnotationText(name)
  }

  ghost predicate ReadableBody(body: string) {
    Trimmed(body) && PlainLines(body) && forall i :: 0 <= i < |Split(body)| ==> ParsePhaseHeader(Split(body)[i]).None?
  }

  ghost predicate Readable(r: Record) {
    && r.number < U32_LIMIT && FitsU32(r.annotation)
    && ReadableName(r.name) && ReadableBody(r.body)
  }

  // ---------------------------------------------------------------------
  // The title
  // ---------------------------------------------------------------------

  /** A pattern that opens a parenthesis and nothing else does in it. */
  ghost predicate Parenthesized(pattern: string) {
    pattern != "" && pattern[0] == '(' && '(' !in pattern[1..]
  }

  ghost predicate NowhereIn(s: string, pattern: string) {
    forall k: nat :: !StartsAt(s, k, pattern)
  }

  lemma OpensOnce(pattern: string, j: nat)
    requires Parenthesized(pattern) && 0 < j < |pattern|
    ensures pattern[j] != '('
  {
    assert pattern[j] == pattern[1..][j - 1];
  }

  /** The pattern cannot begin in the lead and end in a tail that opens with a parenthesis. */
  lemma NotAcross(lead: string, tail: string, pattern: string, k: nat)
    requires Parenthesized(pattern) && NowhereIn(lead, pattern) && tail != "" && tail[0] == '(' && k < |lead|
    ensures !StartsAt(lead + tail, k, pattern)
  {
    if k + |pattern| <= |lead| {
      StartsAtInPrefix(lead, tail, k, pattern);
    } else {
      OpensOnce(pattern, |lead| - k);
      if StartsAt(lead + tail, k, pattern) {
        CharAt(lead + tail, k, pattern, |lead| - k);
      }
    }
  }

  lemma NotInTail(tail: string, pattern: string, j: nat)
    requires Parenthesized(pattern) && Parenthesized(tail) && !StartsAt(tail, 0, pattern)
    ensures !StartsAt(tail, j, pattern)
  {
    if 0 < j < |tail| {
      OpensOnce(tail, j);
      if StartsAt(tail, j, pattern) {
        CharAt(tail, j, pattern, 0);
      }
    }
  }

  lemma {:induction false} FoundAfterLead(lead: string, tail: string, pattern: string)
    requires Parenthesized(pattern) && NowhereIn(lead, pattern) && StartsAt(tail, 0, pattern)
    ensures Find(lead + tail, pattern, 0) == Some(|lead|)
  {
    CharAt(tail, 0, pattern, 0);
    StartsAtInSuffix(lead, tail, 0, pattern);
    forall k: nat | k < |lead| ensures !StartsAt(lead + tail, k, pattern) {
      NotAcross(lead, tail, pattern, k);
    }
    FindIs(lead + tail, pattern, 0, |lead|);
  }

  lemma {:induction false} NotFoundAfterLead(lead: string, tail: string, pattern: string)
    requires Parenthesized(pattern) && NowhereIn(lead, pattern) && Parenthesized(tail) && !StartsAt(tail, 0, pattern)
    ensures Find(lead + tail, pattern, 0) == None
  {
    forall k: nat ensures !StartsAt(lead + tail, k, pattern) {
      if k < |lead| {
        NotAcross(lead, tail, pattern, k);
      } else {
        var j := k - |lead|;
        NotInTail(tail, pattern, j);
        StartsAtInSuffix(lead, tail, j, pattern);
      }
    }
  }

  lemma PatternsAreParenthesized()
    ensures Parenthesized(INDEPENDENT) && Parenthesized(PARALLEL_WITH)
  {
  }

  lemma LowerConcat(a: string, b: string)
    ensures Lower(a + b) == Lower(a) + Lower(b)
  {
  }

  lemma {:induction false} LowerAnnotations(number: nat)
    ensures Lower(INDEPENDENT) == INDEPENDENT
    ensures Lower("(parallel with Phase " + Print(number) + ")") == PARALLEL_WITH + Print(number) + ")"
  {
    LowerConcat("(parallel with Phase " + Print(number), ")");
    LowerConcat("(parallel with Phase ", Print(number));
    assert Lower("(parallel with Phase ") == PARALLEL_WITH;
    assert Lower(Print(number)) == Print(number);
  }

  lemma LeadHasNone(name: string)
    requires NoAnnotationText(name)
    ensures NowhereIn(Lower(Lead(name)), INDEPENDENT) && NowhereIn(Lower(Lead(name)), PARALLEL_WITH)
    ensures NowhereIn(Lower(name), INDEPENDENT) && NowhereIn(Lower(name), PARALLEL_WITH)
  {
    LowerConcat(name, " ");
    forall k: nat ensures !StartsAt(Lower(name), k, INDEPENDENT) && !StartsAt(Lower(name), k, PARALLEL_WITH) {
      assert !StartsAt(Lower(name + " "), k, INDEPENDENT) && !StartsAt(Lower(name + " "), k, PARALLEL_WITH);
      if k + |INDEPENDENT| <= |Lower(name)| {
        StartsAtInPrefix(Lower(name), Lower(" "), k, INDEPENDENT);
      }
      if k + |PARALLEL_WITH| <= |Lower(name)| {
        StartsAtInPrefix(Lower(name), Lower(" "), k, PARALLEL_WITH);
      }
    }
  }

  lemma TrimLead(name: string)
    requires Trimmed(name)
    ensures Trim(Lead(name)) == name
  {
    if name != "" {
      var lead := name + " ";
      assert TrimStart(lead) == lead;
      assert lead[..|lead| - 1] == name && lead[|lead| - 1] == ' ';
      assert TrimEnd(name) == name;
    }
  }

  lemma {:induction false} TrimPrinted(number: nat)
    ensures Trim(Print(number)) == Print(number)
  {
    assert IsDigit(Print(number)[0]) && IsDigit(Print(number)[|Print(number)| - 1]);
  }

  /** The first sign that is no digit is found right after the digits. */
  lemma {:induction false} FindAfterDigits(digits: string, stop: string, rest: string)
    requires AllDigits(digits) && |stop| == 1 && !IsDigit(stop[0])
    ensures Find(digits + stop + rest, stop, 0) == Some(|digits|)
  {
    var s := digits + stop + rest;
    forall k: nat | k < |digits| ensures !StartsAt(s, k, stop) {
      assert IsDigit(digits[k]) && s[k..k + 1][0] == digits[k];
    }
    assert s[|digits|..|digits| + 1] == stop;
    FindIs(s, stop, 0, |digits|);
  }

  lemma {:induction false} NumberReadsBack(lower: string, start: nat, number: nat)
    requires start <= |lower| && lower[start..] == PARALLEL_WITH + Print(number) + ")"
    requires StartsAt(lower, start, PARALLEL_WITH) && number < U32_LIMIT
    ensures ParallelNumber(lower, start) == Some(number)
  {
    var after, digits := lower[start + |PARALLEL_WITH|..], Print(number);
    assert after == lower[start..][|PARALLEL_WITH|..] == digits + ")" + "";
    FindAfterDigits(digits, ")", "");
    assert after[..|digits|] == digits;
    TrimPrinted(number);
    PrintThenParse(number);
  }

  lemma ExtractNone(name: string)
    requires ReadableName(name)
    ensures ExtractAnnotation(name) == (name, None)
  {
    LeadHasNone(name);
  }

  lemma ExtractIndependent(name: string)
    requires ReadableName(name)
    ensures ExtractAnnotation(Lead(name) + INDEPENDENT) == (name, Some(Independent))
  {
    var text := Lead(name) + INDEPENDENT;
    LeadHasNone(name);
    LowerConcat(Lead(name), INDEPENDENT);
    LowerAnnotations(0);
    PatternsAreParenthesized();
    FoundAfterLead(Lower(Lead(name)), INDEPENDENT, INDEPENDENT);
    assert text[..|Lead(name)|] == Lead(name);
    TrimLead(name);
  }

  lemma ExtractParallel(name: string, number: nat)
    requires ReadableName(name) && number < U32_LIMIT
    ensures ExtractAnnotation(Lead(name) + AnnotationText(ParallelWith(number))) == (name, Some(ParallelWith(number)))
  {
    var annotation := AnnotationText(ParallelWith(number));
    var text, lead, tail := Lead(name) + annotation, Lower(Lead(name)), PARALLEL_WITH + Print(number) + ")";
    LeadHasNone(name);
    LowerConcat(Lead(name), annotation);
    LowerAnnotations(number);
    PatternsAreParenthesized();
    TailIsParenthesized(number);
    NotFoundAfterLead(lead, tail, INDEPENDENT);
    FoundAfterLead(lead, tail, PARALLEL_WITH);
    assert (lead + tail)[|lead|..] == tail;
    NumberReadsBack(lead + tail, |lead|, number);
    assert text[..|lead|] == Lead(name);
    TrimLead(name);
  }

  lemma {:induction false} TailIsParenthesized(number: nat)
    ensures var tail := PARALLEL_WITH + Print(number) + ")";
            Parenthesized(tail) && StartsAt(tail, 0, PARALLEL_WITH) && !StartsAt(tail, 0, INDEPENDENT)
  {
    var tail := PARALLEL_WITH + Print(number) + ")";
    assert tail[1..] == PARALLEL_WITH[1..] + Print(number) + ")";
    assert tail[..|PARALLEL_WITH|] == PARALLEL_WITH;
    if StartsAt(tail, 0, INDEPENDENT) {
      CharAt(tail, 0, INDEPENDENT, 1);
    }
  }

  predicate FitsU32(annotation: Option<Annotation>) {
    annotation.Some? && annotation.value.ParallelWith? ==> annotation.value.number < U32_LIMIT
  }

  lemma TitleReadsBack(name: string, annotation: Option<Annotation>)
    requires ReadableName(name) && FitsU32(annotation)
    ensures ExtractAnnotation(Title(name, annotation)) == (name, annotation)
  {
    match annotation
    case None => ExtractNone(name);
    case Some(Independent) => ExtractIndependent(name);
    case Some(ParallelWith(number)) => ExtractParallel(name, number);
  }

  /** On one line, with no whitespace at its ends. */
  predicate OneLine(s: string) {
    Trimmed(s) && '\n' !in s
  }

  lemma TitleIsOneLine(name: string, annotation: Option<Annotation>)
    requires OneLine(name)
    ensures OneLine(Title(name, annotation))
  {
    if annotation.Some? && annotation.value.ParallelWith? {
      assert AllDigits(Print(annotation.value.number));
    }
  }

  // ---------------------------------------------------------------------
  // The header line
  // ---------------------------------------------------------------------

  lemma AfterPhaseIsOneLine(number: nat, title: string)
    requires OneLine(title)
    ensures OneLine(AfterPhase(number, title)) && AfterPhase(number, title) != ""
  {
    var digits := Print(number);
    assert IsDigit(digits[0]) && AfterPhase(number, title)[0] == digits[0];
  }

  lemma TrimTitle(title: string)
    requires Trimmed(title)
    ensures Trim(if title == "" then "" else " " + title) == title
  {
    if title != "" {
      assert (" " + title)[1..] == title;
      TrimTrimmed(title);
    }
  }

  lemma {:induction false} PartsAreParsed(s: string, n: nat, number: nat, name: string, annotation: Option<Annotation>)
    requires n < |s| && Find(s, ":", 0) == Some(n)
    requires ParseU32(Trim(s[..n])) == Some(number) && ExtractAnnotation(Trim(s[n + 1..])) == (name, annotation)
    ensures ParseNumberAndName(s) == Some(Header(number, name, annotation))
  {
  }

  lemma TitleAfterNumber(title: string, name: string, annotation: Option<Annotation>)
    requires ReadableName(name) && FitsU32(annotation) && title == Title(name, annotation)
    ensures ExtractAnnotation(Trim(if title == "" then "" else " " + title)) == (name, annotation)
  {
    TitleIsOneLine(name, annotation);
    TrimTitle(title);
    TitleReadsBack(name, annotation);
  }

  /** A number, a colon and any text with a readable title. */
  lemma {:induction false} NumberThenTitle(number: nat, rest: string, name: string, annotation: Option<Annotation>)
    requires number < U32_LIMIT && ExtractAnnotation(Trim(rest)) == (name, annotation)
    ensures ParseNumberAndName(Print(number) + ":" + rest) == Some(Header(number, name, annotation))
  {
    var digits := Print(number);
    var s := digits + ":" + rest;
    FindAfterDigits(digits, ":", rest);
    assert s[..|digits|] == digits && s[|digits| + 1..] == rest;
    TrimPrinted(number);
    PrintThenParse(number);
    PartsAreParsed(s, |digits|, number, name, annotation);
  }

  lemma AfterPhaseReadsBack(number: nat, name: string, annotation: Option<Annotation>)
    requires number < U32_LIMIT && ReadableName(name) && FitsU32(annotation)
    ensures ParseNumberAndName(AfterPhase(number, Title(name, annotation))) == Some(Header(number, name, annotation))
  {
    var title := Title(name, annotation);
    TitleAfterNumber(title, name, annotation);
    NumberThenTitle(number, if title == "" then "" else " " + title, name, annotation);
  }

  lemma PrefixReadsBack(prefix: string, s: string)
    requires prefix != "" && !IsWhitespace(prefix[0]) && OneLine(s) && s != ""
    ensures AfterPrefix(prefix, prefix + s) == Some(s)
  {
    assert Trimmed(prefix + s);
    TrimTrimmed(prefix + s);
  }

  lemma PrefixIsOneLine(prefix: string, s: string)
    requires prefix != "" && !IsWhitespace(prefix[0]) && '\n' !in prefix && OneLine(s) && s != ""
    ensures OneLine(prefix + s)
  {
  }

  lemma PrefixesReadBack(after: string, header: Header)
    requires OneLine(after) && after != "" && ParseNumberAndName(after) == Some(header)
    ensures ParsePhaseHeader(HASHES + (PHASE + after)) == Some(header)
    ensures Clean(HASHES + (PHASE + after))
  {
    PrefixIsOneLine(PHASE, after);
    PrefixReadsBack(PHASE, after);
    PrefixIsOneLine(HASHES, PHASE + after);
    PrefixReadsBack(HASHES, PHASE + after);
    OneLineIsClean(HASHES + (PHASE + after));
  }

  lemma HeaderReadsBack(r: Record)
    requires Readable(r)
    ensures ParsePhaseHeader(HeaderLine(r)) == Some(Header(r.number, r.name, r.annotation))
    ensures Clean(HeaderLine(r))
  {
    var title := Title(r.name, r.annotation);
    TitleIsOneLine(r.name, r.annotation);
    AfterPhaseIsOneLine(r.number, title);
    AfterPhaseReadsBack(r.number, r.name, r.annotation);
    PrefixesReadBack(AfterPhase(r.number, title), Header(r.number, r.name, r.annotation));
  }

  /** The line says "### ", "Phase ", something that parses to the number, the first colon, and a title. */
  ghost predicate IsHeader(line: string, number: nat, title: string) {
    exists rest, digits :: Trim(line) == "### " + rest && IsNumbered(rest, digits, number, title)
  }

  ghost predicate IsNumbered(rest: string, digits: string, number: nat, title: string) {
    Trim(rest) == "Phase " + (digits + ":" + title) && ':' !in digits && ParseU32(Trim(digits)) == Some(number)
  }

  /** The first sign of one letter splits the text. */
  lemma {:induction false} SplitAtFirst(s: string, stop: char, n: nat)
    requires n < |s| && s[n] == stop && stop !in s[..n]
    ensures Find(s, [stop], 0) == Some(n)
  {
    forall k: nat | k < n ensures !StartsAt(s, k, [stop]) {
      assert s[k] == s[..n][k] && s[k..k + 1] == [s[k]];
    }
    assert s[n..n + 1] == [s[n]];
    FindIs(s, [stop], 0, n);
  }

  lemma {:induction false} FirstIsFound(s: string, stop: char, n: nat)
    requires Find(s, [stop], 0) == Some(n)
    ensures n < |s| && s[n] == stop && stop !in s[..n] && s == s[..n] + [stop] + s[n + 1..]
  {
    FindIsFirst(s, [stop], 0);
    assert s[n..n + 1] == [stop];
    forall k: nat | k < n ensures s[..n][k] != stop {
      assert !StartsAt(s, k, [stop]);
      assert s[k..k + 1] == [s[k]];
    }
  }

  lemma PrefixIsCut(prefix: string, text: string, rest: string)
    ensures Trim(text) == prefix + rest <==> AfterPrefix(prefix, text) == Some(rest)
  {
    assert (prefix + rest)[|prefix|..] == rest;
    if prefix <= Trim(text) {
      assert Trim(text) == prefix + Trim(text)[|prefix|..];
    }
  }

  lemma {:induction false} NumberIsRead(digits: string, number: nat, title: string)
    requires ':' !in digits && ParseU32(Trim(digits)) == Some(number)
    ensures ParseNumberAndName(digits + ":" + title) ==
            Some(Header(number, ExtractAnnotation(Trim(title)).0, ExtractAnnotation(Trim(title)).1))
  {
    var after := digits + ":" + title;
    assert after[..|digits|] == digits && after[|digits| + 1..] == title;
    SplitAtFirst(after, ':', |digits|);
  }

  lemma {:induction false} NumberWasRead(after: string) returns (digits: string, title: string)
    requires ParseNumberAndName(after).Some?
    ensures after == digits + ":" + title && ':' !in digits
    ensures ParseU32(Trim(digits)) == Some(ParseNumberAndName(after).value.number)
  {
    var colon := Find(after, ":", 0).value;
    digits, title := after[..colon], after[colon + 1..];
    FirstIsFound(after, ':', colon);
  }

  lemma PrefixesAreCut(line: string, rest: string, after: string)
    requires Trim(line) == HASHES + rest && Trim(rest) == PHASE + after
    ensures ParsePhaseHeader(line) == ParseNumberAndName(after)
  {
    PrefixIsCut(HASHES, line, rest);
    PrefixIsCut(PHASE, rest, after);
  }

  /** Any line that says so is read as a header, whatever blanks it has and whatever its title. */
  lemma HeaderIsRead(line: string, number: nat, title: string)
    requires IsHeader(line, number, title)
    ensures ParsePhaseHeader(line) ==
            Some(Header(number, ExtractAnnotation(Trim(title)).0, ExtractAnnotation(Trim(title)).1))
  {
    var rest, digits :| Trim(line) == "### " + rest && IsNumbered(rest, digits, number, title);
    PrefixesAreCut(line, rest, digits + ":" + title);
    NumberIsRead(digits, number, title);
  }

  /** No other line is read as one. */
  lemma HeadersAreNumbered(line: string) returns (title: string)
    requires ParsePhaseHeader(line).Some?
    ensures IsHeader(line, ParsePhaseHeader(line).value.number, title)
  {
    var rest := AfterPrefix(HASHES, line).value;
    PrefixIsCut(HASHES, line, rest);
    var after := AfterPrefix(PHASE, rest).value;
    PrefixIsCut(PHASE, rest, after);
    var digits;
    digits, title := NumberWasRead(after);
    assert IsNumbered(rest, digits, ParsePhaseHeader(line).value.number, title);
  }

  /** The first place where the pattern begins, in any case. */
  ghost predicate OpensAt(text: string, pattern: string, k: nat) {
    StartsAt(Lower(text), k, pattern) && forall j: nat :: j < k ==> !StartsAt(Lower(text), j, pattern)
  }

  /** Between "(parallel with phase " at `k` and the first closing parenthesis after it, at `end`, stands the number. */
  ghost predicate NumberAfter(text: string, k: nat, end: nat, number: nat) {
    var from := k + |"(parallel with phase "|;
    && from <= end < |text| && Lower(text)[end] == ')' && ')' !in Lower(text)[from..end]
    && ParseU32(Trim(Lower(text)[from..end])) == Some(number)
  }

  lemma StartOfRest(s: string, from: nat, n: nat)
    requires from + n <= |s|
    ensures s[from..][..n] == s[from..from + n]
    ensures from + n < |s| ==> s[from..][n] == s[from + n]
  {
  }

  lemma {:induction false} NumberIsAfter(text: string, k: nat, end: nat, number: nat)
    requires StartsAt(Lower(text), k, PARALLEL_WITH) && NumberAfter(text, k, end, number)
    ensures ParallelNumber(Lower(text), k) == Some(number)
  {
    var lower, from := Lower(text), k + |PARALLEL_WITH|;
    StartOfRest(lower, from, end - from);
    SplitAtFirst(lower[from..], ')', end - from);
  }

  lemma {:induction false} NumberWasAfter(text: string, k: nat) returns (end: nat)
    requires StartsAt(Lower(text), k, PARALLEL_WITH) && ParallelNumber(Lower(text), k).Some?
    ensures NumberAfter(text, k, end, ParallelNumber(Lower(text), k).value)
  {
    var from := k + |PARALLEL_WITH|;
    var after := Lower(text)[from..];
    var length := Find(after, ")", 0).value;
    FirstIsFound(after, ')', length);
    StartOfRest(Lower(text), from, length);
    end := from + length;
  }

  /** The title of any header: `(independent)` counts first, then a parallel phase with a number, in any case, and the
      name is what stands before it. */
  lemma AnnotationMeaning(text: string)
    ensures var (name, annotation) := ExtractAnnotation(text);
            match annotation
            case Some(Independent) => exists k: nat :: OpensAt(text, "(independent)", k) && name == Trim(text[..k])
            case Some(ParallelWith(n)) =>
              && NowhereIn(Lower(text), "(independent)")
              && exists k: nat, e: nat :: OpensAt(text, "(parallel with phase ", k) && NumberAfter(text, k, e, n)
                                          && name == Trim(text[..k])
            case None =>
              && name == text && NowhereIn(Lower(text), "(independent)")
              && forall k: nat, e: nat, n: nat :: !(OpensAt(text, "(parallel with phase ", k)
                                                    && NumberAfter(text, k, e, n))
  {
    var lower := Lower(text);
    FindIsFirst(lower, "(independent)", 0);
    FindIsFirst(lower, "(parallel with phase ", 0);
    if Find(lower, "(independent)", 0).Some? {
      assert OpensAt(text, "(independent)", Find(lower, "(independent)", 0).value);
    }
    if Find(lower, "(parallel with phase ", 0).Some? {
      var k := Find(lower, "(parallel with phase ", 0).value;
      assert OpensAt(text, "(parallel with phase ", k);
      forall end: nat, n: nat | NumberAfter(text, k, end, n) ensures ParallelNumber(lower, k) == Some(n) {
        NumberIsAfter(text, k, end, n);
      }
      if ParallelNumber(lower, k).Some? {
        var end := NumberWasAfter(text, k);
      }
    }
  }

  lemma OneLineIsClean(line: string)
    requires OneLine(line)
    ensures Clean(line)
  {
  }

  // ---------------------------------------------------------------------
  // The whole text
  // ---------------------------------------------------------------------

  function SectionOf(r: Record): Section {
    Section(Header(r.number, r.name, r.annotation), Split(r.body))
  }

  function SectionsOf(records: seq<Record>): (sections: seq<Section>) {
    seq(|records|, i requires 0 <= i < |records| => SectionOf(records[i]))
  }

  lemma {:induction false} LastLine(parse: HeaderParser, lines: seq<string>, line: string)
    ensures Sections(parse, lines + [line]) == WithLine(parse, Sections(parse, lines), line)
  {
    assert (lines + [line])[..|lines|] == lines;
  }

  lemma LastSection(records: seq<Record>)
    requires records != []
    ensures SectionsOf(records) == SectionsOf(records[..|records| - 1]) + [SectionOf(records[|records| - 1])]
  {
  }

  /** A line that is no header goes to the last section. */
  lemma BodyLine(parse: HeaderParser, sections: seq<Section>, header: Header, body: seq<string>, line: string)
    requires parse(line).None?
    ensures WithLine(parse, sections + [Section(header, body)], line) == sections + [Section(header, body + [line])]
  {
    var all := sections + [Section(header, body)];
    assert all[..|all| - 1] == sections;
  }

  /** Lines that are no headers all go to the section above them. */
  lemma {:induction false} BodyLinesJoin(parse: HeaderParser, lines: seq<string>, header: Header, body: seq<string>,
                                         above: seq<Section>)
    requires Sections(parse, lines) == above + [Section(header, [])]
    requires forall i :: 0 <= i < |body| ==> parse(body[i]).None?
    ensures Sections(parse, lines + body) == above + [Section(header, body)]
    decreases body
  {
    if body == [] {
      assert lines + body == lines;
    } else {
      var n := |body| - 1;
      BodyLinesJoin(parse, lines, header, body[..n], above);
      LastLine(parse, lines + body[..n], body[n]);
      BodyLine(parse, above, header, body[..n], body[n]);
      assert (lines + body[..n]) + [body[n]] == lines + body;
      assert body[..n] + [body[n]] == body;
    }
  }

  /** Lines above the first header belong to no section. */
  lemma {:induction false} NoHeaders(parse: HeaderParser, lines: seq<string>)
    requires forall i :: 0 <= i < |lines| ==> parse(lines[i]).None?
    ensures Sections(parse, lines) == []
  {
    if lines != [] {
      NoHeaders(parse, lines[..|lines| - 1]);
    }
  }

  /** After any lines, a header and the lines below it, up to the next header, are one more section. */
  lemma {:induction false} HeaderOpensSection(parse: HeaderParser, lines: seq<string>, headerLine: string,
                                              header: Header, body: seq<string>)
    requires parse(headerLine) == Some(header) && forall i :: 0 <= i < |body| ==> parse(body[i]).None?
    ensures Sections(parse, lines + ([headerLine] + body)) == Sections(parse, lines) + [Section(header, body)]
  {
    LastLine(parse, lines, headerLine);
    assert lines + ([headerLine] + body) == (lines + [headerLine]) + body;
    BodyLinesJoin(parse, lines + [headerLine], header, body, Sections(parse, lines));
  }

  ghost predicate ReadBy(parse: HeaderParser, r: Record) {
    && parse(HeaderLine(r)) == Some(SectionOf(r).header)
    && forall i :: 0 <= i < |Split(r.body)| ==> parse(Split(r.body)[i]).None?
  }

  lemma {:induction false} SectionsReadBack(parse: HeaderParser, records: seq<Record>)
    requires forall i :: 0 <= i < |records| ==> ReadBy(parse, records[i])
    ensures Sections(parse, PrintedLines(records)) == SectionsOf(records)
  {
    if records != [] {
      var before, last := records[..|records| - 1], records[|records| - 1];
      SectionsReadBack(parse, before);
      HeaderOpensSection(parse, PrintedLines(before), HeaderLine(last), SectionOf(last).header, Split(last.body));
      LastSection(records);
    }
  }

  lemma {:induction false} PrintedLinesAreClean(records: seq<Record>)
    requires forall i :: 0 <= i < |records| ==> Clean(HeaderLine(records[i])) && PlainLines(records[i].body)
    ensures forall i :: 0 <= i < |PrintedLines(records)| ==> Clean(PrintedLines(records)[i])
  {
    if records != [] {
      var before, last := records[..|records| - 1], records[|records| - 1];
      PrintedLinesAreClean(before);
      SplitIsClean(last.body);
    }
  }

  /** The record a section stands for. */
  function RecordOf(section: Section): Record {
    Record(section.header.number, section.header.name, section.header.annotation, Trim(Join(section.lines)))
  }

  lemma SectionKeepsRecord(r: Record)
    requires Readable(r)
    ensures RecordOf(SectionOf(r)) == r
  {
    JoinSplit(r.body);
    TrimTrimmed(r.body);
  }

  /** The goal is what follows the goal mark in the first line that starts with it. */
  lemma {:induction false} GoalIsFound(above: seq<string>, line: string, below: seq<string>, rest: string)
    requires forall i :: 0 <= i < |above| ==> !(GOAL <= Trim(above[i]))
    requires Trim(line) == GOAL + rest
    ensures GoalOf(above + [line] + below) == Trim(rest)
  {
    var lines := above + [line] + below;
    if above == [] {
      assert lines[0] == line && Trim(line)[|GOAL|..] == rest;
    } else {
      assert lines[1..] == above[1..] + [line] + below && lines[0] == above[0];
      GoalIsFound(above[1..], line, below, rest);
    }
  }

  lemma {:induction false} NoGoal(lines: seq<string>)
    requires forall i :: 0 <= i < |lines| ==> !(GOAL <= Trim(lines[i]))
    ensures GoalOf(lines) == ""
  {
    if lines != [] {
      NoGoal(lines[1..]);
    }
  }

  /** The goal of a phase: what follows the mark in the first line of its section that starts with it, or nothing. */
  lemma PhaseGoal(sections: seq<Section>, i: nat, k: nat)
    requires i < |sections| && k <= |sections[i].lines|
    requires forall l :: 0 <= l < k ==> !("**Goal**:" <= Trim(sections[i].lines[l]))
    requires k < |sections[i].lines| ==> "**Goal**:" <= Trim(sections[i].lines[k])
    ensures PhasesOf(sections)[i].goal ==
            if k < |sections[i].lines| then Trim(Trim(sections[i].lines[k])[9..]) else ""
  {
    var lines := sections[i].lines;
    if k < |lines| {
      assert lines == lines[..k] + [lines[k]] + lines[k + 1..];
      GoalIsFound(lines[..k], lines[k], lines[k + 1..], Trim(lines[k])[9..]);
    } else {
      NoGoal(lines);
    }
  }

  /** Printing records and parsing the text gives the records back, and phases with their numbers, names and
      bodies in the same order. */
  lemma RoundTrip(records: seq<Record>)
    requires forall i :: 0 <= i < |records| ==> Readable(records[i])
    ensures var sections := Sections(ParsePhaseHeader, LinesOf(PrintRecords(records)));
            && |sections| == |records|
            && (forall i :: 0 <= i < |records| ==> RecordOf(sections[i]) == records[i])
            && |PhasesOf(sections)| == |records|
            && forall i :: 0 <= i < |records| ==>
                 var phase := PhasesOf(sections)[i];
                 && phase.id == "phase-" + Print(records[i].number)
                 && phase.name == records[i].name && phase.body == records[i].body
  {
    forall i | 0 <= i < |records|
      ensures Clean(HeaderLine(records[i])) && ReadBy(ParsePhaseHeader, records[i])
      ensures RecordOf(SectionOf(records[i])) == records[i]
    {
      HeaderReadsBack(records[i]);
      SectionKeepsRecord(records[i]);
    }
    PrintedLinesAreClean(records);
    LinesOfText(PrintedLines(records));
    SectionsReadBack(ParsePhaseHeader, records);
  }

  // ---------------------------------------------------------------------
  // From any text to the task graph
  // ---------------------------------------------------------------------

  lemma {:induction false} NumbersAreU32(lines: seq<string>)
    ensures forall i :: 0 <= i < |Sections(ParsePhaseHeader, lines)| ==>
              Sections(ParsePhaseHeader, lines)[i].header.number < U32_LIMIT
  {
    if lines != [] {
      NumbersAreU32(lines[..|lines| - 1]);
      NumberIsU32(lines[|lines| - 1]);
    }
  }

  lemma NumberIsU32(line: string)
    ensures ParsePhaseHeader(line).Some? ==> ParsePhaseHeader(line).value.number < U32_LIMIT
  {
  }

  /** A text gives a task graph exactly when it has a phase header and no number occurs in two headers. */
  lemma {:induction false} TextGivesGraphIff(body: string)
    ensures var sections := Sections(ParsePhaseHeader, LinesOf(body));
            GraphOf(PhasesOf(sections)).Some? <==> sections != [] && DistinctNumbers(sections)
  {
    var sections := Sections(ParsePhaseHeader, LinesOf(body));
    NumbersAreU32(LinesOf(body));
    DistinctIdsIff(sections);
    GraphBuildsIff(Built(sections), Collected(AnnotationsOf(sections)));
  }

  ghost predicate DistinctNumbers(sections: seq<Section>) {
    && (forall i :: 0 <= i < |sections| ==> sections[i].header.number < U32_LIMIT)
    && (forall i, j :: 0 <= i < j < |sections| ==> sections[i].header.number != sections[j].header.number)
  }

  lemma DistinctIdsIff(sections: seq<Section>)
    requires forall i :: 0 <= i < |sections| ==> sections[i].header.number < U32_LIMIT
    ensures DistinctIds(Built(sections)) <==> DistinctNumbers(sections)
  {
    forall i | 0 <= i < |sections| ensures NumberOf(Built(sections)[i].id) == sections[i].header.number {
      NumberOfPhaseId(sections[i].header.number);
    }
    if DistinctIds(Built(sections)) {
      forall i, j | 0 <= i < j < |sections| ensures sections[i].header.number != sections[j].header.number {
        assert Built(sections)[i].id != Built(sections)[j].id;
      }
    }
  }

  lemma {:induction false} CollectedLast(sections: seq<Section>)
    requires sections != []
    ensures var header := sections[|sections| - 1].header;
            var before := Collected(AnnotationsOf(sections[..|sections| - 1]));
            Collected(AnnotationsOf(sections)) ==
              if header.annotation.Some? then before[header.number := header.annotation.value] else before
  {
    var before, header := AnnotationsOf(sections[..|sections| - 1]), sections[|sections| - 1].header;
    if header.annotation.Some? {
      LaterAnnotationWins(before, header.number, header.annotation.value);
    } else {
      assert before + [] == before;
    }
  }

  lemma {:induction false} NotCollected(sections: seq<Section>, number: nat)
    requires forall i :: 0 <= i < |sections| ==> sections[i].header.number != number
    ensures number !in Collected(AnnotationsOf(sections))
  {
    if sections != [] {
      NotCollected(sections[..|sections| - 1], number);
      CollectedLast(sections);
    }
  }

  /** With distinct numbers each section's own annotation is the one looked up for it. */
  lemma {:induction false} AnnotationByNumber(sections: seq<Section>, i: nat)
    requires DistinctNumbers(sections) && i < |sections|
    ensures var header := sections[i].header;
            var byNumber := Collected(AnnotationsOf(sections));
            if header.annotation.Some?
            then header.number in byNumber && byNumber[header.number] == header.annotation.value
            else header.number !in byNumber
  {
    var n := |sections| - 1;
    CollectedLast(sections);
    if i < n {
      AnnotationByNumber(sections[..n], i);
    } else {
      NotCollected(sections[..n], sections[n].header.number);
    }
  }

  /** What the phases of a text depend on: without an annotation on the phase above; with "(independent)" on
      nothing; with "(parallel with Phase n)" on whatever an earlier phase n depends on, and on nothing if no
      earlier phase has the number n. */
  lemma PhaseDependencies(sections: seq<Section>, i: nat)
    requires DistinctNumbers(sections) && i < |sections|
    ensures var phases := PhasesOf(sections);
            match sections[i].header.annotation
            case None => phases[i].dependsOn == if i == 0 then [] else [PhaseId(sections[i - 1].header.number)]
            case Some(Independent) => phases[i].dependsOn == []
            case Some(ParallelWith(n)) =>
              && (forall j :: 0 <= j < i && sections[j].header.number == n ==>
                    phases[i].dependsOn == phases[j].dependsOn)
              && ((forall j :: 0 <= j < i ==> sections[j].header.number != n) ==> phases[i].dependsOn == [])
  {
    AnnotationByNumber(sections, i);
    NumberOfPhaseId(sections[i].header.number);
    var annotation := sections[i].header.annotation;
    if annotation.Some? && annotation.value.ParallelWith? {
      ParallelDependencies(sections, i, annotation.value.number);
    }
  }

  lemma ParallelDependencies(sections: seq<Section>, i: nat, n: nat)
    requires DistinctNumbers(sections) && i < |sections| && sections[i].header.annotation == Some(ParallelWith(n))
    ensures var phases := PhasesOf(sections);
            && (forall j :: 0 <= j < i && sections[j].header.number == n ==> phases[i].dependsOn == phases[j].dependsOn)
            && ((forall j :: 0 <= j < i ==> sections[j].header.number != n) ==> phases[i].dependsOn == [])
  {
    var built := Built(sections);
    AnnotationByNumber(sections, i);
    NumberOfPhaseId(sections[i].header.number);
    DistinctIdsIff(sections);
    ParallelMeaning(built, Collected(AnnotationsOf(sections)), i, n);
    forall j | 0 <= j < i ensures built[j].id == PhaseId(n) <==> sections[j].header.number == n {
      if built[j].id == PhaseId(n) {
        PhaseIdIsInjective(sections[j].header.number, n);
      }
    }
  }

  lemma PhaseIdIsInjective(m: nat, n: nat)
    requires PhaseId(m) == PhaseId(n)
    ensures m == n
  {
    assert PhaseId(m)[|PREFIX|..] == Print(m) && PhaseId(n)[|PREFIX|..] == Print(n);
    PrintedValue(m);
    PrintedValue(n);
  }

  /** Work on the graph of a text never gets stuck: as long as nothing runs or has failed and some phase is pending,
      some phase is ready. */
  lemma {:induction false} TextGraphProgresses(body: string, status: map<string, Status>)
    requires var sections := Sections(ParsePhaseHeader, LinesOf(body));
             sections != [] && DistinctNumbers(sections)
    ensures var graph := GraphOf(PhasesOf(Sections(ParsePhaseHeader, LinesOf(body))));
            && graph.Some?
            && (Settled(graph.value.edges, status) && WorkLeft(graph.value.edges, status) ==>
                  SomeReady(graph.value.edges, status))
  {
    TextGivesGraphIff(body);
    var edges := GraphOf(PhasesOf(Sections(ParsePhaseHeader, LinesOf(body)))).value.edges;
    if Settled(edges, status) && WorkLeft(edges, status) {
      SomeTaskIsReady(edges, status);
    }
  }
}
