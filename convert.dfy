/**
 * The `parse` command of cmd/parse.go: decode a file, then re-encode it with
 * the registry entry of the output language (by default the language the
 * input was decoded as), each entry cleaning the value before marshalling it.
 */
module Convert {

  import opened Wrappers
  import opened Values
  import opened Formats
  import opened Loader
  import opened Cleaners

  /** The cleaners a registry entry can name. */
  datatype Cleaner = Noop | StringMapKey

  function ApplyCleaner(c: Cleaner, v: Value): Value
  {
    match c
    case Noop => NoopCleaner(v)
    case StringMapKey => StringMapKeyCleaner(v)
  }

  /**
   * A marshaller of the registry: Go's `json.Marshal` (the compact JSON
   * encoder), or one of the registry's own marshallers, known by name.
   */
  datatype Marshaller = CompactJSON | Registered(name: string)

  /** What running a marshaller on a value gives: bytes, or an error text. */
  type Encoder = (Marshaller, Value) -> Result<Bytes, string>

  /** One entry of the `parsers` registry; `PreRun` updates `marshal` in place. */
  class Parser {
    const lang: Language
    const cleanInput: Cleaner
    var marshal: Marshaller

    constructor (lang: Language, cleanInput: Cleaner, marshal: Marshaller)
      ensures this.lang == lang && this.cleanInput == cleanInput && this.marshal == marshal
    {
      this.lang := lang;
      this.cleanInput := cleanInput;
      this.marshal := marshal;
    }
  }

  /** A registry entry's contents at one moment. */
  datatype Entry = Entry(lang: Language, cleanInput: Cleaner, marshal: Marshaller)

  function Entries(parsers: seq<Parser>): seq<Entry>
    reads set p | p in parsers
  {
    seq(|parsers|, k requires 0 <= k < |parsers| reads parsers =>
      Entry(parsers[k].lang, parsers[k].cleanInput, parsers[k].marshal))
  }

  /** The snapshot has one entry per parser, in registry order. */
  lemma EntriesElements(parsers: seq<Parser>)
    ensures |Entries(parsers)| == |parsers|
    ensures forall k :: 0 <= k < |parsers| ==>
              Entries(parsers)[k] == Entry(parsers[k].lang, parsers[k].cleanInput, parsers[k].marshal)
  {
  }

  // ---------------------------------------------------------------------------
  // PreRun

  /** The compact flag's loop: every JSON entry now marshals with `json.Marshal`; the others keep theirs. */
  method UseCompactJSON(parsers: seq<Parser>)
    modifies set p | p in parsers
    ensures forall p :: p in parsers ==>
              p.marshal == if p.lang == JSON then CompactJSON else old(p.marshal)
  {
    for i := 0 to |parsers|
      invariant forall p :: p in parsers[..i] ==>
                  p.marshal == if p.lang == JSON then CompactJSON else old(p.marshal)
      invariant forall p :: p in parsers && p !in parsers[..i] ==> p.marshal == old(p.marshal)
    {
      if parsers[i].lang == JSON {
        parsers[i].marshal := CompactJSON;
      }
      assert parsers[..i + 1] == parsers[..i] + [parsers[i]];
    }
  }

  /**
   * `PreRun`: both language arguments are parsed first and an invalid one
   * stops the command before the registry is touched; then, in compact mode,
   * the JSON entries switch to the compact marshaller.
   */
  method PreRun(inputArg: string, outputArg: string, compact: bool, parsers: seq<Parser>)
    returns (r: Result<(Language, Language), ArgError>)
    modifies set p | p in parsers
    ensures ParseLanguageArg(inputArg).1.Some? ==>
              r == Failure(ParseLanguageArg(inputArg).1.value) && Entries(parsers) == old(Entries(parsers))
    ensures ParseLanguageArg(inputArg).1.None? && ParseLanguageArg(outputArg).1.Some? ==>
              r == Failure(ParseLanguageArg(outputArg).1.value) && Entries(parsers) == old(Entries(parsers))
    ensures r.Success? <==> ParseLanguageArg(inputArg).1.None? && ParseLanguageArg(outputArg).1.None?
    ensures r.Success? ==> r.value == (ParseLanguageArg(inputArg).0, ParseLanguageArg(outputArg).0)
    ensures r.Success? ==> forall p :: p in parsers ==>
              p.marshal == if compact && p.lang == JSON then CompactJSON else old(p.marshal)
  {
    var (inputLang, inErr) := ParseLanguageArg(inputArg);
    if inErr.Some? {
      return Failure(inErr.value);
    }
    var (outputLang, outErr) := ParseLanguageArg(outputArg);
    if outErr.Some? {
      return Failure(outErr.value);
    }
    if compact {
      UseCompactJSON(parsers);
    }
    r := Success((inputLang, outputLang));
  }

  // ---------------------------------------------------------------------------
  // The conversion loop of runParse

  /**
   * The registry loop from a given entry on, with `result` the bytes held so
   * far: entries of another language are skipped, each matching entry cleans
   * the value with its own cleaner and marshals it, replacing `result`, and
   * the first marshal error ends the loop.
   */
  function Conversion(entries: seq<Entry>, out: Language, v: Value, encode: Encoder, result: Bytes): Result<Bytes, string>
    decreases |entries|
  {
    if entries == [] then Success(result)
    else if entries[0].lang != out then Conversion(entries[1..], out, v, encode, result)
    else
      match Marshalled(entries[0], v, encode)
      case Failure(e) => Failure(e)
      case Success(b) => Conversion(entries[1..], out, v, encode, b)
  }

  /** What one entry's cleaner and marshaller make of the value. */
  function Marshalled(e: Entry, v: Value, encode: Encoder): Result<Bytes, string>
  {
    encode(e.marshal, ApplyCleaner(e.cleanInput, v))
  }

  /** With no entry for the output language the result stays as it was (empty in runParse). */
  lemma {:induction false} NoMatchKeepsResult(entries: seq<Entry>, out: Language, v: Value, encode: Encoder, result: Bytes)
    requires forall k :: 0 <= k < |entries| ==> entries[k].lang != out
    ensures Conversion(entries, out, v, encode, result) == Success(result)
    decreases |entries|
  {
    if entries != [] {
      NoMatchKeepsResult(entries[1..], out, v, encode, result);
    }
  }

  /** Only the entries of the output language matter. */
  function Matching(entries: seq<Entry>, out: Language): (m: seq<Entry>)
    ensures forall k :: 0 <= k < |m| ==> m[k].lang == out && m[k] in entries
    ensures forall k :: 0 <= k < |entries| && entries[k].lang == out ==> entries[k] in m
    decreases |entries|
  {
    if entries == [] then []
    else if entries[0].lang == out then [entries[0]] + Matching(entries[1..], out)
    else Matching(entries[1..], out)
  }

  /** Filtering keeps order and number: it distributes over concatenation. */
  lemma {:induction false} MatchingAppend(a: seq<Entry>, b: seq<Entry>, out: Language)
    ensures Matching(a + b, out) == Matching(a, out) + Matching(b, out)
    decreases |a|
  {
    if a == [] {
      assert a + b == b;
    } else {
      assert (a + b)[1..] == a[1..] + b;
      MatchingAppend(a[1..], b, out);
    }
  }

  /** One entry is kept exactly when it is of the output language. */
  lemma MatchingSingleton(e: Entry, out: Language)
    ensures Matching([e], out) == if e.lang == out then [e] else []
  {
  }

  lemma {:induction false} OnlyMatchingEntriesUsed(entries: seq<Entry>, out: Language, v: Value, encode: Encoder, result: Bytes)
    ensures Conversion(entries, out, v, encode, result) == Conversion(Matching(entries, out), out, v, encode, result)
    decreases |entries|
  {
    if entries != [] {
      if entries[0].lang == out {
        var m := Matching(entries, out);
        assert m[1..] == Matching(entries[1..], out);
        match Marshalled(entries[0], v, encode)
        case Failure(_) =>
        case Success(b) => OnlyMatchingEntriesUsed(entries[1..], out, v, encode, b);
      } else {
        OnlyMatchingEntriesUsed(entries[1..], out, v, encode, result);
      }
    }
  }

  /**
   * The loop fails exactly when some matching entry's marshal fails, with the
   * error of the first such entry; otherwise its result is the output of the
   * last matching entry.
   */
  lemma {:induction false} ConversionOutcome(entries: seq<Entry>, out: Language, v: Value, encode: Encoder, result: Bytes)
    ensures var m := Matching(entries, out);
            var r := Conversion(entries, out, v, encode, result);
            && (r.Failure? <==> exists k :: 0 <= k < |m| && Marshalled(m[k], v, encode).Failure?)
            && (r.Failure? ==> exists k :: 0 <= k < |m| && Marshalled(m[k], v, encode) == r
                                 && forall j :: 0 <= j < k ==> Marshalled(m[j], v, encode).Success?)
            && (r.Success? ==> r.value == if m == [] then result else Marshalled(m[|m| - 1], v, encode).value)
  {
    OnlyMatchingEntriesUsed(entries, out, v, encode, result);
    MatchingOutcome(Matching(entries, out), out, v, encode, result);
  }

  lemma {:induction false} MatchingOutcome(m: seq<Entry>, out: Language, v: Value, encode: Encoder, result: Bytes)
    requires forall k :: 0 <= k < |m| ==> m[k].lang == out
    ensures var r := Conversion(m, out, v, encode, result);
            && (r.Failure? <==> exists k :: 0 <= k < |m| && Marshalled(m[k], v, encode).Failure?)
            && (r.Failure? ==> exists k :: 0 <= k < |m| && Marshalled(m[k], v, encode) == r
                                 && forall j :: 0 <= j < k ==> Marshalled(m[j], v, encode).Success?)
            && (r.Success? ==> r.value == if m == [] then result else Marshalled(m[|m| - 1], v, encode).value)
    decreases |m|
  {
    if m != [] {
      match Marshalled(m[0], v, encode)
      case Failure(_) =>
      case Success(b) =>
        MatchingOutcome(m[1..], out, v, encode, b);
        var r := Conversion(m, out, v, encode, result);
        if r.Failure? {
          var k :| 0 <= k < |m[1..]| && Marshalled(m[1..][k], v, encode) == r
                   && forall j :: 0 <= j < k ==> Marshalled(m[1..][j], v, encode).Success?;
          assert Marshalled(m[k + 1], v, encode) == r;
        }
        if exists k :: 0 <= k < |m| && Marshalled(m[k], v, encode).Failure? {
          var k :| 0 <= k < |m| && Marshalled(m[k], v, encode).Failure?;
          assert k > 0 && Marshalled(m[1..][k - 1], v, encode).Failure?;
        }
    }
  }

  // ---------------------------------------------------------------------------
  // runParse

  datatype ConvertError =
    | ParseFailed(cause: ParseError)   // "failed to parse file"
    | MarshalFailed(reason: string)    // "failed to marshal"

  /** What `runParse` returns and what it prints (the bytes and a newline), if anything. */
  datatype ConvertOutcome = ConvertOutcome(err: Option<ConvertError>, printed: Option<Bytes>)

  /** The output language: the one asked for, or the input's detected language when none was. */
  function OutputLanguage(asked: Language, detected: Language): (l: Language)
    ensures asked != Any ==> l == asked
    ensures asked == Any ==> l == detected
  {
    if asked == Any then detected else asked
  }

  /**
   * What `runParse` returns and prints: an error and nothing printed, or no
   * error and, unless quiet, the marshalled bytes followed by a newline.
   */
  function RunParseSpec(file: string, inputLang: Language, outputLang: Language, entries: seq<Entry>,
                        quiet: bool, fs: FileSystem, decode: Decoder<Language>, encode: Encoder): (r: ConvertOutcome)
    ensures fs(file).Failure? ==> r.err == Some(ParseFailed(ReadFailed(fs(file).error)))
    ensures r.err.Some? ==> r.printed == None
    ensures r.err.None? ==> (r.printed.Some? <==> !quiet)
    ensures r.printed.Some? ==> |r.printed.value| > 0 && r.printed.value[|r.printed.value| - 1] == 10
  {
    match ParseSpec(inputLang, file, fs, decode)
    case Failure(e) => ConvertOutcome(Some(ParseFailed(e)), None)
    case Success(parsed) =>
      match Conversion(entries, OutputLanguage(outputLang, parsed.lang), parsed.value, encode, [])
      case Failure(e) => ConvertOutcome(Some(MarshalFailed(e)), None)
      case Success(result) => ConvertOutcome(None, if quiet then None else Some(result + [10]))
  }

  /**
   * Once the file has parsed, the run fails exactly when a matching entry's
   * marshal fails, with the first such error; otherwise, unless quiet, it
   * prints the last matching entry's output (nothing when none matches)
   * followed by a newline.
   */
  lemma RunParseOutcome(file: string, inputLang: Language, outputLang: Language, entries: seq<Entry>,
                        quiet: bool, fs: FileSystem, decode: Decoder<Language>, encode: Encoder)
    requires ParseSpec(inputLang, file, fs, decode).Success?
    ensures var p := ParseSpec(inputLang, file, fs, decode).value;
            var m := Matching(entries, OutputLanguage(outputLang, p.lang));
            var r := RunParseSpec(file, inputLang, outputLang, entries, quiet, fs, decode, encode);
            && (r.err.Some? <==> exists k :: 0 <= k < |m| && Marshalled(m[k], p.value, encode).Failure?)
            && (r.err.Some? ==> exists k :: 0 <= k < |m| && Marshalled(m[k], p.value, encode).Failure?
                                  && r.err == Some(MarshalFailed(Marshalled(m[k], p.value, encode).error))
                                  && forall j :: 0 <= j < k ==> Marshalled(m[j], p.value, encode).Success?)
            && (r.err.None? && !quiet ==>
                  r.printed == Some((if m == [] then [] else Marshalled(m[|m| - 1], p.value, encode).value) + [10]))
  {
    var p := ParseSpec(inputLang, file, fs, decode).value;
    ConversionOutcome(entries, OutputLanguage(outputLang, p.lang), p.value, encode, []);
  }

  /** The Go loop: `result` and `err` reassigned per matching entry, with an early return on error. */
  method RunParse(file: string, inputLang: Language, outputLang: Language, parsers: seq<Parser>,
                  quiet: bool, fs: FileSystem, decode: Decoder<Language>, encode: Encoder)
    returns (err: Option<ConvertError>, printed: Option<Bytes>)
    ensures ConvertOutcome(err, printed) == RunParseSpec(file, inputLang, outputLang, Entries(parsers), quiet, fs, decode, encode)
  {
    var contents, _ := Parse(inputLang, file, fs, decode);
    if contents.Failure? {
      return Some(ParseFailed(contents.error)), None;
    }

    var outLang := outputLang;
    if outLang == Any {
      outLang := contents.value.lang;
    }

    ghost var entries := Entries(parsers);
    EntriesElements(parsers);
    var result: Bytes := [];
    for i := 0 to |parsers|
      invariant Conversion(entries[i..], outLang, contents.value.value, encode, result)
                == Conversion(entries, outLang, contents.value.value, encode, [])
    {
      assert entries[i..][1..] == entries[i + 1..];
      if parsers[i].lang != outLang {
        continue;
      }
      var marshalled := encode(parsers[i].marshal, ApplyCleaner(parsers[i].cleanInput, contents.value.value));
      if marshalled.Failure? {
        return Some(MarshalFailed(marshalled.error)), None;
      }
      result := marshalled.value;
    }

    if !quiet {
      printed := Some(result + [10]);
    } else {
      printed := None;
    }
    err := None;
  }

  // ---------------------------------------------------------------------------
  // Properties of runParse

  /** A parse failure is returned wrapped, and nothing is marshalled or printed. */
  lemma ParseFailureStopsConversion(file: string, inputLang: Language, outputLang: Language, entries: seq<Entry>,
                                    quiet: bool, fs: FileSystem, decode: Decoder<Language>, encode: Encoder)
    requires ParseSpec(inputLang, file, fs, decode).Failure?
    ensures RunParseSpec(file, inputLang, outputLang, entries, quiet, fs, decode, encode)
            == ConvertOutcome(Some(ParseFailed(ParseSpec(inputLang, file, fs, decode).error)), None)
  {
  }

  /**
   * With no output language asked for, the entries used are those of the
   * language the input was decoded as, a concrete language.
   */
  lemma OutputDefaultsToInput(file: string, inputLang: Language, entries: seq<Entry>,
                              quiet: bool, fs: FileSystem, decode: Decoder<Language>, encode: Encoder)
    requires ParseSpec(inputLang, file, fs, decode).Success?
    ensures var parsed := ParseSpec(inputLang, file, fs, decode).value;
            && parsed.lang != Any
            && RunParseSpec(file, inputLang, Any, entries, quiet, fs, decode, encode)
               == RunParseSpec(file, inputLang, parsed.lang, entries, quiet, fs, decode, encode)
  {
  }

  /** Quiet mode only suppresses printing: the returned error is the same. */
  lemma QuietOnlySuppressesPrinting(file: string, inputLang: Language, outputLang: Language, entries: seq<Entry>,
                                    fs: FileSystem, decode: Decoder<Language>, encode: Encoder)
    ensures var loud := RunParseSpec(file, inputLang, outputLang, entries, false, fs, decode, encode);
            var quiet := RunParseSpec(file, inputLang, outputLang, entries, true, fs, decode, encode);
            && quiet.err == loud.err
            && quiet.printed == None
            && (loud.err.None? <==> loud.printed.Some?)
  {
  }

  /**
   * A successful run with a registry holding no entry for the output
   * language returns no error and prints just the newline.
   */
  lemma NoEntryPrintsEmpty(file: string, inputLang: Language, outputLang: Language, entries: seq<Entry>,
                           fs: FileSystem, decode: Decoder<Language>, encode: Encoder)
    requires ParseSpec(inputLang, file, fs, decode).Success?
    requires forall k :: 0 <= k < |entries| ==>
               entries[k].lang != OutputLanguage(outputLang, ParseSpec(inputLang, file, fs, decode).value.lang)
    ensures RunParseSpec(file, inputLang, outputLang, entries, false, fs, decode, encode) == ConvertOutcome(None, Some([10]))
  {
    var parsed := ParseSpec(inputLang, file, fs, decode).value;
    NoMatchKeepsResult(entries, OutputLanguage(outputLang, parsed.lang), parsed.value, encode, []);
    assert [] + [10 as bv8] == [10];
  }
}
