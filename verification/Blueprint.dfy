/** Parsing the Markdown body of a blueprint into phases, and printing phases so that they read back. */
module Blueprint {
  import opened Wrappers
  import opened Strings
  import opened Decimals
  import opened Lines
  import opened Phases

  datatype Header = Header(number: nat, name: string, annotation: Option<Annotation>)

  /** A header with the lines below it, up to the next header. */
  datatype Section = Section(header: Header, lines: seq<string>)

  function LowerChar(c: char): char {
    if 'A' <= c <= 'Z' then (c as int + 32) as char else c
  }

  function Lower(s: string): (lower: string)
    ensures |lower| == |s| && forall i :: 0 <= i < |s| ==> lower[i] == LowerChar(s[i])
  {
    seq(|s|, i requires 0 <= i < |s| => LowerChar(s[i]))
  }

  /** How a line is read as a header; `ParsePhaseHeader` below is the one the parser uses. */
  type HeaderParser = string -> Option<Header>

  const INDEPENDENT: string := "(independent)"
  const PARALLEL_WITH: string := "(parallel with phase "
  const HASHES: string := "### "
  const PHASE: string := "Phase "
  const GOAL: string := "**Goal**:"

  /** The number after "(parallel with phase " at `start`, if a closing parenthesis and a number follow. */
  function ParallelNumber(lower: string, start: nat): Option<nat>
    requires StartsAt(lower, start, PARALLEL_WITH)
  {
    var after := lower[start + |PARALLEL_WITH|..];
    var end := Find(after, ")", 0);
    if end.Some? then ParseU32(Trim(after[..end.value])) else None
  }

  function ExtractAnnotation(text: string): (string, Option<Annotation>) {
    var lower := Lower(text);
    var independent := Find(lower, INDEPENDENT, 0);
    if independent.Some? then (Trim(text[..independent.value]), Some(Independent))
    else
      var parallel := Find(lower, PARALLEL_WITH, 0);
      if parallel.Some? && ParallelNumber(lower, parallel.value).Some?
      then (Trim(text[..parallel.value]), Some(ParallelWith(ParallelNumber(lower, parallel.value).value)))
      else (text, None)
  }

  /** What follows "### Phase ": a number, a colon, the name and the annotation. */
  function ParseNumberAndName(afterPhase: string): Option<Header> {
    var colon := Find(afterPhase, ":", 0);
    if colon.None? then None
    else
      var number := ParseU32(Trim(afterPhase[..colon.value]));
      if number.None? then None
      else
        var (name, annotation) := ExtractAnnotation(Trim(afterPhase[colon.value + 1..]));
        Some(Header(number.value, name, annotation))
  }

  /** Trims, then strips the prefix. */
  function AfterPrefix(prefix: string, text: string): Option<string> {
    if prefix <= Trim(text) then Some(Trim(text)[|prefix|..]) else None
  }

  function ParsePhaseHeader(line: string): Option<Header> {
    var afterHashes := AfterPrefix(HASHES, line);
    if afterHashes.None? then None
    else
      var afterPhase := AfterPrefix(PHASE, afterHashes.value);
      if afterPhase.None? then None else ParseNumberAndName(afterPhase.value)
  }

  /** The rest of the first line that starts with the goal mark. */
  function GoalOf(lines: seq<string>): string {
    if lines == [] then ""
    else if GOAL <= Trim(lines[0]) then Trim(Trim(lines[0])[|GOAL|..])
    else GoalOf(lines[1..])
  }

  function BuildPhase(number: nat, name: string, lines: seq<string>): Phase {
    Phase(PhaseId(number), name, GoalOf(lines), Trim(Join(lines)), [])
  }

  /** A header line opens a section, any other line belongs to the open section, if there is one. */
  function WithLine(parse: HeaderParser, sections: seq<Section>, line: string): (more: seq<Section>) {
    if parse(line).Some? then sections + [Section(parse(line).value, [])]
    else if sections == [] then []
    else
      var last := sections[|sections| - 1];
      sections[..|sections| - 1] + [last.(lines := last.lines + [line])]
  }

  function Sections(parse: HeaderParser, lines: seq<string>): (sections: seq<Section>) {
    if lines == [] then [] else WithLine(parse, Sections(parse, lines[..|lines| - 1]), lines[|lines| - 1])
  }

  function Built(sections: seq<Section>): (phases: seq<Phase>) {
    seq(|sections|, i requires 0 <= i < |sections| =>
      BuildPhase(sections[i].header.number, sections[i].header.name, sections[i].lines))
  }

  function AnnotationsOf(sections: seq<Section>): seq<(nat, Annotation)> {
    if sections == [] then []
    else
      var header := sections[|sections| - 1].header;
      AnnotationsOf(sections[..|sections| - 1])
      + (if header.annotation.Some? then [(header.number, header.annotation.value)] else [])
  }

  function PhasesOf(sections: seq<Section>): (phases: seq<Phase>) {
    Linked(Built(sections), Collected(AnnotationsOf(sections)))
  }

  lemma {:induction false} OneMoreSection(done: seq<Section>, current: Section)
    ensures Built(done + [current]) ==
            Built(done) + [BuildPhase(current.header.number, current.header.name, current.lines)]
    ensures AnnotationsOf(done + [current]) ==
            AnnotationsOf(done)
            + (if current.header.annotation.Some?
               then [(current.header.number, current.header.annotation.value)] else [])
  {
    assert (done + [current])[..|done|] == done;
  }

  lemma NextLine(parse: HeaderParser, lines: seq<string>, i: nat)
    requires i < |lines|
    ensures Sections(parse, lines[..i + 1]) == WithLine(parse, Sections(parse, lines[..i]), lines[i])
  {
    assert lines[..i + 1][..i] == lines[..i];
  }

  /** The loop's variables: all sections but the last are phases already, the last one is still open. */
  ghost predicate ReadSoFar(sections: seq<Section>, phases: seq<Phase>, annotations: seq<(nat, Annotation)>,
                            number: Option<nat>, name: string, lines: seq<string>)
  {
    && annotations == AnnotationsOf(sections)
    && (number.None? <==> sections == [])
    && if sections == [] then phases == []
       else
         var last := sections[|sections| - 1];
         phases == Built(sections[..|sections| - 1])
         && number == Some(last.header.number) && name == last.header.name && lines == last.lines
  }

  lemma SectionsEndIn(sections: seq<Section>)
    requires sections != []
    ensures var last := sections[|sections| - 1];
            && sections == sections[..|sections| - 1] + [last]
            && Built(sections) ==
               Built(sections[..|sections| - 1]) + [BuildPhase(last.header.number, last.header.name, last.lines)]
  {
  }

  lemma ReadHeaderLine(sections: seq<Section>, phases: seq<Phase>, annotations: seq<(nat, Annotation)>,
                       number: Option<nat>, name: string, lines: seq<string>, header: Header)
    requires ReadSoFar(sections, phases, annotations, number, name, lines)
    ensures ReadSoFar(sections + [Section(header, [])],
                      phases + (if number.Some? then [BuildPhase(number.value, name, lines)] else []),
                      annotations
                      + (if header.annotation.Some? then [(header.number, header.annotation.value)] else []),
                      Some(header.number), header.name, [])
  {
    OneMoreSection(sections, Section(header, []));
    assert (sections + [Section(header, [])])[..|sections|] == sections;
    if sections != [] {
      SectionsEndIn(sections);
    }
  }

  lemma ReadBodyLine(sections: seq<Section>, phases: seq<Phase>, annotations: seq<(nat, Annotation)>,
                     number: nat, name: string, lines: seq<string>, line: string)
    requires ReadSoFar(sections, phases, annotations, Some(number), name, lines)
    ensures var last := sections[|sections| - 1];
            ReadSoFar(sections[..|sections| - 1] + [last.(lines := last.lines + [line])],
                      phases, annotations, Some(number), name, lines + [line])
  {
    var before, last := sections[..|sections| - 1], sections[|sections| - 1];
    OneMoreSection(before, last);
    OneMoreSection(before, last.(lines := last.lines + [line]));
    assert before + [last] == sections;
    assert (before + [last.(lines := last.lines + [line])])[..|before|] == before;
  }

  /** The line loop, one phase behind the headers it has seen. */
  method ReadSections(parse: HeaderParser, lines: seq<string>)
    returns (phases: seq<Phase>, annotations: seq<(nat, Annotation)>)
    ensures phases == Built(Sections(parse, lines))
    ensures annotations == AnnotationsOf(Sections(parse, lines))
  {
    phases, annotations := [], [];
    var currentNumber: Option<nat>, currentName, currentLines := None, "", [];
    ghost var sections := [];
    for i := 0 to |lines|
      invariant sections == Sections(parse, lines[..i])
      invariant ReadSoFar(sections, phases, annotations, currentNumber, currentName, currentLines)
    {
      NextLine(parse, lines, i);
      var parsed := parse(lines[i]);
      if parsed.Some? {
        var header := parsed.value;
        ReadHeaderLine(sections, phases, annotations, currentNumber, currentName, currentLines, header);
        if currentNumber.Some? {
          phases := phases + [BuildPhase(currentNumber.value, currentName, currentLines)];
        } else {
          assert phases + [] == phases;
        }
        currentNumber, currentName, currentLines := Some(header.number), header.name, [];
        if header.annotation.Some? {
          annotations := annotations + [(header.number, header.annotation.value)];
        } else {
          assert annotations + [] == annotations;
        }
      } else if currentNumber.Some? {
        ReadBodyLine(sections, phases, annotations, currentNumber.value, currentName, currentLines, lines[i]);
        currentLines := currentLines + [lines[i]];
      }
      sections := WithLine(parse, sections, lines[i]);
    }
    assert lines[..|lines|] == lines;
    if currentNumber.Some? {
      SectionsEndIn(sections);
      phases := phases + [BuildPhase(currentNumber.value, currentName, currentLines)];
    }
  }

  method ParseBlueprintPhases(body: string) returns (phases: seq<Phase>)
    ensures phases == PhasesOf(Sections(ParsePhaseHeader, LinesOf(body)))
  {
    var annotations;
    phases, annotations := ReadSections(ParsePhaseHeader, LinesOf(body));
    if phases == [] {
      return [];
    }
    var inPlace := new Phase[|phases|](i requires 0 <= i < |phases| => phases[i]);
    assert inPlace[..] == phases;
    ApplyDependencies(inPlace, annotations);
    phases := inPlace[..];
  }
}
