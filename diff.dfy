/**
 * `runRoot` of cmd/root.go and its copy `runDiff` in cmd/diff.go: parse two
 * files one after the other, compare the two decoded values with an external
 * tree diff, and print the diff text line by line when it is not empty.
 */
module Diff {

  import opened Wrappers
  import opened Values
  import opened Formats
  import opened Loader
  import opened Render

  /** "failed to parse <path>", wrapping the parse error. */
  datatype DiffError = FailedToParse(path: string, cause: ParseError)

  /** The external tree diff: the text of the differences, "" when there are none. */
  type Compare = (Value, Value) -> string

  /**
   * The first file is parsed first; if that fails the error names the first
   * file and the second file is never read. Otherwise the second is parsed,
   * and a failure names it. When both parse, no error is returned, whether
   * or not the files differ, and the lines printed are the tagged lines of
   * the diff text.
   */
  method RunDiff(file1: string, file2: string, lang1: Language, lang2: Language,
                 fs: FileSystem, decode: Decoder<Language>, compare: Compare)
    returns (err: Option<DiffError>, trace: seq<Event>, printed: seq<Line>)
    ensures var p1 := ParseSpec(lang1, file1, fs, decode);
            var p2 := ParseSpec(lang2, file2, fs, decode);
            && (p1.Failure? ==>
                  err == Some(FailedToParse(file1, p1.error))
                  && trace == ParseTrace(lang1, file1, fs, decode)
                  && (file1 != file2 ==> ReadFile(file2) !in trace)
                  && printed == [])
            && (p1.Success? && p2.Failure? ==>
                  err == Some(FailedToParse(file2, p2.error))
                  && trace == ParseTrace(lang1, file1, fs, decode) + ParseTrace(lang2, file2, fs, decode)
                  && printed == [])
            && (p1.Success? && p2.Success? ==>
                  err == None
                  && trace == ParseTrace(lang1, file1, fs, decode) + ParseTrace(lang2, file2, fs, decode)
                  && Texts(printed) == ScanLines(compare(p1.value.value, p2.value.value))
                  && forall k :: 0 <= k < |printed| ==> printed[k] == Classify(printed[k].text))
  {
    var contents1, trace1 := Parse(lang1, file1, fs, decode);
    trace := trace1;
    printed := [];
    if contents1.Failure? {
      return Some(FailedToParse(file1, contents1.error)), trace, printed;
    }

    var contents2, trace2 := Parse(lang2, file2, fs, decode);
    trace := trace + trace2;
    if contents2.Failure? {
      return Some(FailedToParse(file2, contents2.error)), trace, printed;
    }

    var output := compare(contents1.value.value, contents2.value.value);
    if output != "" {
      printed := PrettyPrint(output);
    }
    err := None;
  }
}
