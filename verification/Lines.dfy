/** Splitting text into lines and joining it again. */
module Lines {

  /** The position of the first newline, or the end. */
  function LineEnd(s: string): (n: nat)
    ensures n <= |s|
    ensures n < |s| ==> s[n] == '\n'
    ensures '\n' !in s[..n]
  {
    if s == "" || s[0] == '\n' then 0
    else
      var n := 1 + LineEnd(s[1..]);
      assert s[..n] == [s[0]] + s[1..][..n - 1];
      n
  }

  function WithoutReturn(line: string): string {
    if line != "" && line[|line| - 1] == '\r' then line[..|line| - 1] else line
  }

  /** Rust's `lines`: the newline and a carriage return before it are not part of a line, and a final newline
      does not start another line. */
  function LinesOf(s: string): (lines: seq<string>) {
    if s == "" then []
    else if LineEnd(s) == |s| then [s]
    else [WithoutReturn(s[..LineEnd(s)])] + LinesOf(s[LineEnd(s) + 1..])
  }

  /** Splits at every newline. */
  function Split(s: string): (lines: seq<string>)
    ensures lines != []
  {
    if LineEnd(s) == |s| then [s] else [s[..LineEnd(s)]] + Split(s[LineEnd(s) + 1..])
  }

  function Join(lines: seq<string>): string {
    if lines == [] then ""
    else if |lines| == 1 then lines[0]
    else lines[0] + "\n" + Join(lines[1..])
  }

  lemma {:induction false} JoinCons(line: string, lines: seq<string>)
    requires lines != []
    ensures Join([line] + lines) == line + "\n" + Join(lines)
  {
    assert ([line] + lines)[1..] == lines;
  }

  lemma Parts(s: string, n: nat)
    requires n < |s| && s[n] == '\n'
    ensures s == s[..n] + "\n" + s[n + 1..]
  {
  }

  lemma {:induction false} JoinSplit(s: string)
    ensures Join(Split(s)) == s
  {
    var n := LineEnd(s);
    if n < |s| {
      JoinSplit(s[n + 1..]);
      JoinCons(s[..n], Split(s[n + 1..]));
      Parts(s, n);
    }
  }

  /** No line ends in a carriage return. */
  predicate PlainLines(s: string) {
    && (s != "" ==> s[|s| - 1] != '\r')
    && (forall i :: 0 < i < |s| && s[i] == '\n' ==> s[i - 1] != '\r')
  }

  lemma {:induction false} FirstLineEnd(line: string, rest: string)
    requires '\n' !in line
    ensures LineEnd(line + "\n" + rest) == |line|
  {
    if line != "" {
      FirstLineEnd(line[1..], rest);
      assert (line + "\n" + rest)[1..] == line[1..] + "\n" + rest;
    }
  }

  lemma {:induction false} FirstLine(line: string, rest: string)
    requires '\n' !in line && PlainLines(line)
    ensures LinesOf(line + "\n" + rest) == [line] + LinesOf(rest)
  {
    FirstLineEnd(line, rest);
    var s := line + "\n" + rest;
    assert s[..|line|] == line && s[|line| + 1..] == rest;
  }

  /** A line ends at a newline, with or without a carriage return before it, or at the end of the text, where nothing
      but a newline is no line. */
  lemma {:induction false} LinesMeaning(line: string, rest: string)
    requires '\n' !in line
    ensures LinesOf(line + "\r\n" + rest) == [line] + LinesOf(rest)
    ensures (line == "" || line[|line| - 1] != '\r') ==> LinesOf(line + "\n" + rest) == [line] + LinesOf(rest)
    ensures LinesOf(line) == if line == "" then [] else [line]
  {
    var returned := line + "\r";
    assert line + "\r\n" + rest == returned + "\n" + rest;
    FirstLineEnd(returned, rest);
    assert (returned + "\n" + rest)[..|returned|] == returned && (returned + "\n" + rest)[|returned| + 1..] == rest;
    assert returned[..|line|] == line;
    if line == "" || line[|line| - 1] != '\r' {
      FirstLine(line, rest);
    }
  }

  /** A line that survives printing and reading. */
  predicate Clean(line: string) {
    '\n' !in line && PlainLines(line)
  }

  /** The lines, each with a newline. */
  function Text(lines: seq<string>): string {
    if lines == [] then "" else lines[0] + "\n" + Text(lines[1..])
  }

  lemma {:induction false} LinesOfText(lines: seq<string>)
    requires forall i :: 0 <= i < |lines| ==> Clean(lines[i])
    ensures LinesOf(Text(lines)) == lines
  {
    if lines != [] {
      LinesOfText(lines[1..]);
      FirstLine(lines[0], Text(lines[1..]));
    }
  }

  lemma {:induction false} TextConcat(a: seq<string>, b: seq<string>)
    ensures Text(a + b) == Text(a) + Text(b)
  {
    if a == [] {
      assert a + b == b;
    } else {
      assert (a + b)[1..] == a[1..] + b;
      TextConcat(a[1..], b);
    }
  }

  lemma {:induction false} TextCons(line: string, lines: seq<string>)
    ensures Text([line] + lines) == line + "\n" + Text(lines)
  {
    assert ([line] + lines)[1..] == lines;
  }

  lemma {:induction false} TextSplit(s: string)
    ensures Text(Split(s)) == s + "\n"
  {
    var n := LineEnd(s);
    if n < |s| {
      TextSplit(s[n + 1..]);
      TextCons(s[..n], Split(s[n + 1..]));
      Parts(s, n);
    } else {
      TextCons(s, []);
    }
  }

  /** A text without carriage returns before its line ends splits into clean lines. */
  lemma {:induction false} SplitIsClean(s: string)
    requires PlainLines(s)
    ensures forall i :: 0 <= i < |Split(s)| ==> Clean(Split(s)[i])
  {
    var n := LineEnd(s);
    if n < |s| {
      PlainAbove(s, n);
      PlainBelow(s, n + 1);
      SplitIsClean(s[n + 1..]);
    } else {
      assert s[..n] == s;
    }
  }

  lemma PlainAbove(block: string, n: nat)
    requires PlainLines(block) && n < |block| && block[n] == '\n'
    ensures PlainLines(block[..n])
  {
  }

  lemma PlainBelow(block: string, n: nat)
    requires PlainLines(block) && n <= |block|
    ensures PlainLines(block[n..])
  {
    var below := block[n..];
    forall i | 0 < i < |below| && below[i] == '\n' ensures below[i - 1] != '\r' {
      assert below[i] == block[n + i] && below[i - 1] == block[n + i - 1];
    }
  }
}
