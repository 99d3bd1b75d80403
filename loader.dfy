/**
 * `parse` of cmd/root.go (and its textual copy in cmd/diff.go): read a file,
 * then choose the decoder(s) from the explicit language, else from the file
 * extension, else by trying JSON, TOML and YAML in that order.
 */
module Loader {

  import opened Wrappers
  import opened Values
  import opened Formats
  import opened Trial

  datatype ParseError =
    | ReadFailed(cause: string)      // "failed to read file"
    | DecodeFailed(lang: Language)   // the one chosen decoder's own error
    | UnableToParse                  // "unable to parse file"

  /** A decoded document and the language whose decoder produced it. */
  datatype Parsed = Parsed(value: Value, lang: Language)

  /** The observable steps of a parse, in the order they happen. */
  datatype Event = ReadFile(path: string) | Decode(lang: Language)

  /** How the decoders are chosen: one trusted decoder, or an ordered trial. */
  datatype Plan = Only(lang: Language) | TryInOrder(order: seq<Language>)

  /** JSON has the strictest grammar and YAML the loosest, so this is the trial order. */
  const TrialOrder: seq<Language> := [JSON, TOML, YAML]

  /** An explicit language wins; else a recognised extension; else the trial. */
  function ChoosePlan(lang: Language, path: string): Plan
  {
    if lang != Any then Only(lang)
    else
      var ext := GetFileExtLang(path);
      if ext != Any then Only(ext) else TryInOrder(TrialOrder)
  }

  /** The decoders a plan calls on `contents`, in order. */
  function PlanCalls(plan: Plan, contents: Bytes, decode: Decoder<Language>): seq<Language>
  {
    match plan
    case Only(l) => [l]
    case TryInOrder(order) => TrialCalls(order, contents, decode)
  }

  function DecodeEvents(calls: seq<Language>): seq<Event>
  {
    seq(|calls|, k requires 0 <= k < |calls| => Decode(calls[k]))
  }

  lemma DecodeEventsElements(calls: seq<Language>)
    ensures |DecodeEvents(calls)| == |calls|
    ensures forall k :: 0 <= k < |calls| ==> DecodeEvents(calls)[k] == Decode(calls[k])
  {
  }

  /**
   * What `parse` returns. A successful result carries the value a decoder of
   * the plan produced and that decoder's language, which is never `Any`.
   */
  function ParseSpec(lang: Language, path: string, fs: FileSystem, decode: Decoder<Language>): (r: Result<Parsed, ParseError>)
    ensures fs(path).Failure? ==> r == Failure(ReadFailed(fs(path).error))
    ensures r.Success? ==> fs(path).Success?
                           && r.value.lang != Any
                           && decode(r.value.lang, fs(path).value) == Some(r.value.value)
  {
    match fs(path)
    case Failure(e) => Failure(ReadFailed(e))
    case Success(contents) =>
      match ChoosePlan(lang, path)
      case Only(l) =>
        (match decode(l, contents)
         case Some(v) => Success(Parsed(v, l))
         case None => Failure(DecodeFailed(l)))
      case TryInOrder(order) =>
        (match TrialResult(order, contents, decode)
         case Some((v, l)) => Success(Parsed(v, l))
         case None => Failure(UnableToParse))
  }

  /** The steps `parse` takes: the read, then every decoder call in order. */
  function ParseTrace(lang: Language, path: string, fs: FileSystem, decode: Decoder<Language>): seq<Event>
  {
    match fs(path)
    case Failure(_) => [ReadFile(path)]
    case Success(contents) => [ReadFile(path)] + DecodeEvents(PlanCalls(ChoosePlan(lang, path), contents, decode))
  }

  /**
   * The Go function as written: one shared `value` variable, a switch whose
   * extension cases fall through to the explicit-language cases, and an
   * early-return chain for the trial.
   */
  method Parse(lang: Language, path: string, fs: FileSystem, decode: Decoder<Language>)
    returns (result: Result<Parsed, ParseError>, trace: seq<Event>)
    ensures result == ParseSpec(lang, path, fs, decode)
    ensures trace == ParseTrace(lang, path, fs, decode)
  {
    trace := [ReadFile(path)];
    var contents := fs(path);
    if contents.Failure? {
      return Failure(ReadFailed(contents.error)), trace;
    }
    var extensionLang := GetFileExtLang(path);

    var value: Option<Value>;
    if (lang == Any && extensionLang == JSON) || lang == JSON {
      OnlyPlanOutcome(lang, path, fs, decode, JSON);
      EventsAppend(path, JSON, JSON, JSON);
      value := decode(JSON, contents.value);
      trace := trace + [Decode(JSON)];
      result := if value.Some? then Success(Parsed(value.value, JSON)) else Failure(DecodeFailed(JSON));
    } else if (lang == Any && extensionLang == YAML) || lang == YAML {
      OnlyPlanOutcome(lang, path, fs, decode, YAML);
      EventsAppend(path, YAML, YAML, YAML);
      value := decode(YAML, contents.value);
      trace := trace + [Decode(YAML)];
      result := if value.Some? then Success(Parsed(value.value, YAML)) else Failure(DecodeFailed(YAML));
    } else if (lang == Any && extensionLang == TOML) || lang == TOML {
      OnlyPlanOutcome(lang, path, fs, decode, TOML);
      EventsAppend(path, TOML, TOML, TOML);
      value := decode(TOML, contents.value);
      trace := trace + [Decode(TOML)];
      result := if value.Some? then Success(Parsed(value.value, TOML)) else Failure(DecodeFailed(TOML));
    } else {
      TrialOrderFirstSuccess(path, fs, decode);
      EventsAppend(path, JSON, TOML, YAML);
      value := decode(JSON, contents.value);
      trace := trace + [Decode(JSON)];
      if value.Some? {
        return Success(Parsed(value.value, JSON)), trace;
      }
      value := decode(TOML, contents.value);
      trace := trace + [Decode(TOML)];
      if value.Some? {
        return Success(Parsed(value.value, TOML)), trace;
      }
      value := decode(YAML, contents.value);
      trace := trace + [Decode(YAML)];
      if value.Some? {
        return Success(Parsed(value.value, YAML)), trace;
      }
      result := Failure(UnableToParse);
    }
  }

  // ---------------------------------------------------------------------------
  // Properties of the dispatch

  /** Appending decoder calls one at a time to the read builds the trace in order. */
  lemma EventsAppend(path: string, a: Language, b: Language, c: Language)
    ensures [ReadFile(path)] + [Decode(a)] == [ReadFile(path), Decode(a)]
    ensures [ReadFile(path), Decode(a)] + [Decode(b)] == [ReadFile(path), Decode(a), Decode(b)]
    ensures [ReadFile(path), Decode(a), Decode(b)] + [Decode(c)] == [ReadFile(path), Decode(a), Decode(b), Decode(c)]
  {
  }

  /** A plan of one decoder: the read, that one call, and that decoder's outcome. */
  lemma OnlyPlanOutcome(lang: Language, path: string, fs: FileSystem, decode: Decoder<Language>, l: Language)
    requires fs(path).Success? && ChoosePlan(lang, path) == Only(l)
    ensures ParseTrace(lang, path, fs, decode) == [ReadFile(path), Decode(l)]
    ensures ParseSpec(lang, path, fs, decode) ==
            if decode(l, fs(path).value).Some? then Success(Parsed(decode(l, fs(path).value).value, l))
            else Failure(DecodeFailed(l))
  {
    DecodeEventsElements([l]);
  }

  /** A failed read is reported as such and no decoder is called. */
  lemma ReadFailureStopsParse(lang: Language, path: string, fs: FileSystem, decode: Decoder<Language>)
    requires fs(path).Failure?
    ensures ParseSpec(lang, path, fs, decode) == Failure(ReadFailed(fs(path).error))
    ensures ParseTrace(lang, path, fs, decode) == [ReadFile(path)]
  {
  }

  /**
   * An explicit language calls exactly its own decoder, once, whatever the
   * path; its failure is returned as is, with no retry.
   */
  lemma ExplicitLanguageWins(lang: Language, path: string, other: string, fs: FileSystem, decode: Decoder<Language>)
    requires lang != Any && fs(path).Success?
    ensures ParseTrace(lang, path, fs, decode) == [ReadFile(path), Decode(lang)]
    ensures var r := ParseSpec(lang, path, fs, decode);
            match decode(lang, fs(path).value)
            case Some(v) => r == Success(Parsed(v, lang))
            case None => r == Failure(DecodeFailed(lang))
    ensures fs(other) == fs(path) ==> ParseSpec(lang, other, fs, decode) == ParseSpec(lang, path, fs, decode)
  {
    OnlyPlanOutcome(lang, path, fs, decode, lang);
  }

  /**
   * With no explicit language, a recognised extension calls only its own
   * decoder, and that decoder's failure is final even when another decoder
   * would have accepted the bytes.
   */
  lemma ExtensionIsTrusted(path: string, fs: FileSystem, decode: Decoder<Language>)
    requires GetFileExtLang(path) != Any && fs(path).Success?
    ensures var ext := GetFileExtLang(path);
            && ParseTrace(Any, path, fs, decode) == [ReadFile(path), Decode(ext)]
            && (decode(ext, fs(path).value).None? ==>
                  ParseSpec(Any, path, fs, decode) == Failure(DecodeFailed(ext)))
            && (decode(ext, fs(path).value).Some? ==>
                  ParseSpec(Any, path, fs, decode) == Success(Parsed(decode(ext, fs(path).value).value, ext)))
  {
    OnlyPlanOutcome(Any, path, fs, decode, GetFileExtLang(path));
  }

  /**
   * With neither a language nor a recognised extension, JSON, TOML and YAML
   * are called in that order until one succeeds; that first success is the
   * result, and later decoders are not called.
   */
  lemma TrialOrderFirstSuccess(path: string, fs: FileSystem, decode: Decoder<Language>)
    requires GetFileExtLang(path) == Any && fs(path).Success?
    ensures var c := fs(path).value;
            var r := ParseSpec(Any, path, fs, decode);
            var t := ParseTrace(Any, path, fs, decode);
            && (decode(JSON, c).Some? ==>
                  r == Success(Parsed(decode(JSON, c).value, JSON)) && t == [ReadFile(path), Decode(JSON)])
            && (decode(JSON, c).None? && decode(TOML, c).Some? ==>
                  r == Success(Parsed(decode(TOML, c).value, TOML))
                  && t == [ReadFile(path), Decode(JSON), Decode(TOML)])
            && (decode(JSON, c).None? && decode(TOML, c).None? ==>
                  t == [ReadFile(path), Decode(JSON), Decode(TOML), Decode(YAML)]
                  && r == (if decode(YAML, c).Some? then Success(Parsed(decode(YAML, c).value, YAML))
                           else Failure(UnableToParse)))
  {
    TrialPlanOutcome(Any, path, fs, decode);
    TrialStops(fs(path).value, decode);
    TrialTrace(path, fs(path).value, decode);
  }

  /** A trial plan: the read, the trial's calls, and the trial's result. */
  lemma TrialPlanOutcome(lang: Language, path: string, fs: FileSystem, decode: Decoder<Language>)
    requires fs(path).Success? && ChoosePlan(lang, path) == TryInOrder(TrialOrder)
    ensures var c := fs(path).value;
            var calls := TrialCalls(TrialOrder, c, decode);
            && ParseTrace(lang, path, fs, decode) == [ReadFile(path)] + DecodeEvents(calls)
            && ParseSpec(lang, path, fs, decode) ==
                 match TrialResult(TrialOrder, c, decode)
                 case Some((v, l)) => Success(Parsed(v, l))
                 case None => Failure(UnableToParse)
  {
  }

  /** The events of a read followed by the JSON, TOML, YAML trial, by which decoders accept the bytes. */
  lemma TrialTrace(path: string, c: Bytes, decode: Decoder<Language>)
    ensures [ReadFile(path)] + DecodeEvents(TrialCalls(TrialOrder, c, decode)) ==
            if decode(JSON, c).Some? then [ReadFile(path), Decode(JSON)]
            else if decode(TOML, c).Some? then [ReadFile(path), Decode(JSON), Decode(TOML)]
            else [ReadFile(path), Decode(JSON), Decode(TOML), Decode(YAML)]
  {
    TrialStops(c, decode);
  }

  /** The calls and the result of the JSON, TOML, YAML trial, by which decoders accept the bytes. */
  lemma TrialStops(c: Bytes, decode: Decoder<Language>)
    ensures TrialCalls(TrialOrder, c, decode) ==
            if decode(JSON, c).Some? then [JSON]
            else if decode(TOML, c).Some? then [JSON, TOML]
            else [JSON, TOML, YAML]
    ensures TrialResult(TrialOrder, c, decode) ==
            if decode(JSON, c).Some? then Some((decode(JSON, c).value, JSON))
            else if decode(TOML, c).Some? then Some((decode(TOML, c).value, TOML))
            else if decode(YAML, c).Some? then Some((decode(YAML, c).value, YAML))
            else None
    ensures DecodeEvents([JSON]) == [Decode(JSON)]
    ensures DecodeEvents([JSON, TOML]) == [Decode(JSON), Decode(TOML)]
    ensures DecodeEvents([JSON, TOML, YAML]) == [Decode(JSON), Decode(TOML), Decode(YAML)]
  {
    TrialIndex(c, decode);
    assert TrialOrder[..1] == [JSON] && TrialOrder[..2] == [JSON, TOML] && TrialOrder[..3] == TrialOrder;
    DecodeEventsElements([JSON]);
    DecodeEventsElements([JSON, TOML]);
    DecodeEventsElements([JSON, TOML, YAML]);
  }

  /** Where the trial of JSON, TOML and YAML stops, by which decoders accept the bytes. */
  lemma TrialIndex(c: Bytes, decode: Decoder<Language>)
    ensures FirstSuccess(TrialOrder, c, decode) ==
            if decode(JSON, c).Some? then 0
            else if decode(TOML, c).Some? then 1
            else if decode(YAML, c).Some? then 2
            else 3
  {
    assert TrialOrder[1..] == [TOML, YAML] && TrialOrder[1..][1..] == [YAML];
    if decode(JSON, c).None? && decode(TOML, c).None? {
      assert FirstSuccess(TrialOrder[1..][1..], c, decode) == if decode(YAML, c).Some? then 0 else 1;
    }
  }

  /** "unable to parse file" is reported exactly when the trial ran and all three decoders failed. */
  lemma UnableToParseOnlyAfterAllFail(lang: Language, path: string, fs: FileSystem, decode: Decoder<Language>)
    ensures ParseSpec(lang, path, fs, decode) == Failure(UnableToParse) <==>
            && lang == Any && GetFileExtLang(path) == Any && fs(path).Success?
            && decode(JSON, fs(path).value).None?
            && decode(TOML, fs(path).value).None?
            && decode(YAML, fs(path).value).None?
  {
    if lang == Any && GetFileExtLang(path) == Any && fs(path).Success? {
      TrialOrderFirstSuccess(path, fs, decode);
    }
  }
}
