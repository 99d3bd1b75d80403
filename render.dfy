/**
 * `prettyPrint` of cmd/root.go and cmd/diff.go: split a diff text into lines
 * the way `bufio.ScanLines` does and tag each line as an addition, a removal
 * or a plain line. The colours themselves are left to the printer.
 */
module Render {

  /** One output line: green for `+`, red for `-`, unstyled otherwise. */
  datatype Line = Added(text: string) | Removed(text: string) | Plain(text: string)

  /** The tag of one line, from its first character. */
  function Classify(line: string): (r: Line)
    ensures r.text == line
    ensures r.Added? <==> |line| > 0 && line[0] == '+'
    ensures r.Removed? <==> |line| > 0 && line[0] == '-'
    ensures r.Plain? <==> |line| == 0 || (line[0] != '+' && line[0] != '-')
  {
    if |line| == 0 then Plain(line)
    else if line[0] == '+' then Added(line)
    else if line[0] == '-' then Removed(line)
    else Plain(line)
  }

  // ---------------------------------------------------------------------------
  // bufio.ScanLines

  /** The position of the first '\n' in `s`, or `|s|` when there is none. */
  function NewlineIndex(s: string): (i: nat)
    ensures i <= |s|
    ensures forall j :: 0 <= j < i ==> s[j] != '\n'
    ensures i < |s| ==> s[i] == '\n'
    decreases |s|
  {
    if s == [] then 0
    else if s[0] == '\n' then 0
    else 1 + NewlineIndex(s[1..])
  }

  /** One trailing carriage return is dropped from every line. */
  function DropCR(s: string): string
  {
    if |s| > 0 && s[|s| - 1] == '\r' then s[..|s| - 1] else s
  }

  /** The next token of a non-empty input and the input left after it. */
  function NextLine(s: string): (r: (string, string))
    requires s != []
    ensures |r.1| < |s|
  {
    var i := NewlineIndex(s);
    if i < |s| then (DropCR(s[..i]), s[i + 1..]) else (DropCR(s), [])
  }

  /** The lines a scanner with `bufio.ScanLines` yields. */
  function ScanLines(s: string): (lines: seq<string>)
    ensures |lines| <= |s|
    ensures lines == [] <==> s == []
    decreases |s|
  {
    if s == [] then [] else [NextLine(s).0] + ScanLines(NextLine(s).1)
  }

  /** No scanned line holds a '\n'. */
  lemma {:induction false} ScanLinesHaveNoNewline(s: string)
    ensures forall k :: 0 <= k < |ScanLines(s)| ==> '\n' !in ScanLines(s)[k]
    decreases |s|
  {
    if s != [] {
      var i := NewlineIndex(s);
      var line := NextLine(s).0;
      assert '\n' !in line by {
        var raw := if i < |s| then s[..i] else s;
        forall k | 0 <= k < |line| ensures line[k] != '\n' { assert line[k] == raw[k]; }
      }
      ScanLinesHaveNoNewline(NextLine(s).1);
    }
  }

  /** Each line followed by a newline. */
  function Unlines(lines: seq<string>): string
  {
    if lines == [] then [] else lines[0] + "\n" + Unlines(lines[1..])
  }

  /**
   * Scanning loses nothing but carriage returns and the final newline: on a
   * text without '\r', writing the lines back with a newline after each gives
   * the text itself, plus a newline when it did not end with one.
   */
  lemma {:induction false} UnlinesScanLines(s: string)
    requires '\r' !in s
    ensures Unlines(ScanLines(s)) == Terminated(s)
    decreases |s|, 1
  {
    if s != [] {
      if NewlineIndex(s) < |s| {
        UnlinesFirstLineAndRest(s);
      } else {
        UnlinesLastLine(s);
      }
    }
  }

  /** The inductive step: the first line, then (by induction) the rest of the text. */
  lemma {:induction false} UnlinesFirstLineAndRest(s: string)
    requires '\r' !in s && NewlineIndex(s) < |s|
    ensures Unlines(ScanLines(s)) == Terminated(s)
    decreases |s|, 0
  {
    var i := NewlineIndex(s);
    var line, rest := s[..i], s[i + 1..];
    NoCRInPart(s, 0, i);
    NoCRInPart(s, i + 1, |s|);
    UnlinesScanLines(rest);
    UnlinesFirstLine(s);
    Rejoin(s, i);
    calc {
      Unlines(ScanLines(s));
      line + "\n" + Unlines(ScanLines(rest));
      line + "\n" + Terminated(rest);
      Terminated(s);
    }
  }

  /** A text with no '\n' and no '\r' is one line, written back with a '\n' after it. */
  lemma UnlinesLastLine(s: string)
    requires s != [] && '\r' !in s && NewlineIndex(s) == |s|
    ensures Unlines(ScanLines(s)) == s + "\n"
  {
    NoCRInPart(s, 0, |s|);
    assert s[..|s|] == s;
    assert NextLine(s) == (s, []);
    UnlinesCons(s, []);
  }

  /** The text, with a '\n' added unless it is empty or already ends in one. */
  function Terminated(s: string): string
  {
    if s == [] || s[|s| - 1] == '\n' then s else s + "\n"
  }

  /** A slice of a text without '\r' has none either, so DropCR leaves it alone. */
  lemma NoCRInPart(s: string, lo: nat, hi: nat)
    requires '\r' !in s && lo <= hi <= |s|
    ensures '\r' !in s[lo..hi] && DropCR(s[lo..hi]) == s[lo..hi]
  {
    forall k | 0 <= k < hi - lo
      ensures s[lo..hi][k] != '\r'
    {
      assert s[lo..hi][k] == s[lo + k];
    }
  }

  /** On a text with a '\n' whose first line ends without '\r', that line is written back, then the rest. */
  lemma UnlinesFirstLine(s: string)
    requires NewlineIndex(s) < |s| && DropCR(s[..NewlineIndex(s)]) == s[..NewlineIndex(s)]
    ensures var i := NewlineIndex(s);
            Unlines(ScanLines(s)) == s[..i] + "\n" + Unlines(ScanLines(s[i + 1..]))
  {
    var i := NewlineIndex(s);
    NextLineAtNewline(s);
    ScanLinesUnfold(s);
    UnlinesCons(s[..i], ScanLines(s[i + 1..]));
  }

  /** At a '\n' whose line ends without '\r', the token is the line and the input left is what follows. */
  lemma NextLineAtNewline(s: string)
    requires NewlineIndex(s) < |s| && DropCR(s[..NewlineIndex(s)]) == s[..NewlineIndex(s)]
    ensures NextLine(s) == (s[..NewlineIndex(s)], s[NewlineIndex(s) + 1..])
  {
  }

  /** A non-empty text scans to its first token followed by the scan of what is left. */
  lemma ScanLinesUnfold(s: string)
    requires s != []
    ensures ScanLines(s) == [NextLine(s).0] + ScanLines(NextLine(s).1)
  {
  }

  /** Re-joining at the first '\n' gives back the terminated text. */
  lemma Rejoin(s: string, i: nat)
    requires i < |s| && s[i] == '\n'
    ensures s[..i] + "\n" + Terminated(s[i + 1..]) == Terminated(s)
  {
    var rest := s[i + 1..];
    assert s[..i] + "\n" + rest == s;
    if rest != [] {
      assert rest[|rest| - 1] == s[|s| - 1];
      if rest[|rest| - 1] != '\n' {
        assert s[..i] + "\n" + (rest + "\n") == (s[..i] + "\n" + rest) + "\n";
      }
    }
  }

  lemma UnlinesCons(line: string, lines: seq<string>)
    ensures Unlines([line] + lines) == line + "\n" + Unlines(lines)
  {
    assert ([line] + lines)[1..] == lines;
  }

  /** One step of the scanner loop: the next token is the next scanned line. */
  lemma ScanStep(s: string, rest: string, n: nat)
    requires rest != [] && n <= |ScanLines(s)| && ScanLines(rest) == ScanLines(s)[n..]
    ensures n < |ScanLines(s)|
    ensures ScanLines(s)[n] == NextLine(rest).0
    ensures ScanLines(NextLine(rest).1) == ScanLines(s)[n + 1..]
  {
    var lines := ScanLines(s);
    var next := NextLine(rest);
    ScanLinesUnfold(rest);
    assert lines[n..][0] == next.0 && lines[n..][1..] == ScanLines(next.1);
    assert lines[n..][1..] == lines[n + 1..];
  }

  // ---------------------------------------------------------------------------
  // prettyPrint

  function Texts(out: seq<Line>): seq<string>
  {
    seq(|out|, k requires 0 <= k < |out| => out[k].text)
  }

  /** Classifying keeps each line's text, so the texts of the classified lines are the lines. */
  lemma TextsOfClassified(out: seq<Line>, lines: seq<string>)
    requires |out| == |lines|
    requires forall k :: 0 <= k < |out| ==> out[k] == Classify(lines[k])
    ensures Texts(out) == lines
  {
  }

  /**
   * The scanner loop: one tagged line per scanned line, in order, each
   * carrying the scanned text unchanged.
   */
  method PrettyPrint(s: string) returns (out: seq<Line>)
    ensures |out| == |ScanLines(s)|
    ensures Texts(out) == ScanLines(s)
    ensures forall k :: 0 <= k < |out| ==> out[k] == Classify(ScanLines(s)[k])
  {
    out := [];
    var rest := s;
    while rest != []
      invariant |out| <= |ScanLines(s)|
      invariant ScanLines(rest) == ScanLines(s)[|out|..]
      invariant forall k :: 0 <= k < |out| ==> out[k] == Classify(ScanLines(s)[k])
      decreases |rest|
    {
      ScanStep(s, rest, |out|);
      var (line, next) := NextLine(rest);
      out := out + [Classify(line)];
      rest := next;
    }
    assert ScanLines(s)[|out|..] == [];
    TextsOfClassified(out, ScanLines(s));
  }
}
