/**
 * pkg/pkg.go: the older two-language loader. An explicit language or a
 * matching extension picks one decoder; otherwise JSON is tried, then YAML.
 */
module Pkg {

  import opened Wrappers
  import opened Values
  import Formats
  import Trial

  /** `ANY`, `JSON`, `YAML`. */
  datatype Language = ANY | JSON | YAML

  /** The names `stringer` generates for the constants. */
  function Name(l: Language): string
  {
    match l
    case ANY => "ANY"
    case JSON => "JSON"
    case YAML => "YAML"
  }

  /** `strings.EqualFold` on ASCII text: equal once both are lower-cased. */
  predicate EqualFold(a: string, b: string)
  {
    Formats.ToLower(a) == Formats.ToLower(b)
  }

  /**
   * `hasExt` as written: the language's name (or "yml") against
   * `filepath.Ext`, whose result keeps its leading dot. It can hold only of an
   * extension that does not start with '.'.
   */
  predicate HasExtAsWritten(lang: Language, file: string)
    ensures HasExtAsWritten(lang, file) ==>
              lang != ANY && Formats.Ext(file) != [] && Formats.Ext(file)[0] != '.'
  {
    var fileExt := Formats.Ext(file);
    LowerDot(Name(YAML)); LowerDot("yml"); LowerDot(Name(JSON));
    match lang
    case YAML => EqualFold(Name(YAML), fileExt) || EqualFold("yml", fileExt)
    case ANY => false
    case JSON => EqualFold(Name(lang), fileExt)
  }

  lemma LowerDot(s: string)
    requires s != [] && s[0] != '.'
    ensures Formats.ToLower(s)[0] != '.'
  {
  }

  /** As written, `hasExt` holds for no language and no file. */
  lemma HasExtAsWrittenNeverMatches(lang: Language, file: string)
    ensures !HasExtAsWritten(lang, file)
  {
    var fileExt := Formats.Ext(file);
    if fileExt != [] {
      assert Formats.ToLower(fileExt)[0] == '.';
      LowerDot("YAML");
      LowerDot("yml");
      LowerDot("JSON");
    }
  }

  /** `hasExt` as evidently intended: the dotted extension of the language, without regard to case. */
  predicate HasExt(lang: Language, file: string)
  {
    var fileExt := Formats.Ext(file);
    match lang
    case YAML => EqualFold(".yaml", fileExt) || EqualFold(".yml", fileExt)
    case ANY => false
    case JSON => EqualFold(".json", fileExt)
  }

  /** The corrected `hasExt` recognises exactly the extensions cmd/root.go recognises for the same language. */
  lemma HasExtMatchesExtension(lang: Language, file: string)
    ensures HasExt(lang, file) <==> match lang
                                    case ANY => false
                                    case JSON => Formats.GetFileExtLang(file) == Formats.JSON
                                    case YAML => Formats.GetFileExtLang(file) == Formats.YAML
  {
    Formats.LowerLiterals();
    Formats.GetFileExtLangMatchesTable(file, Formats.JSON);
    Formats.GetFileExtLangMatchesTable(file, Formats.YAML);
    var e := Formats.ToLower(Formats.Ext(file));
    var g := Formats.GetFileExtLang(file);
    assert g == Formats.JSON <==> e == ".json";
    assert g == Formats.YAML <==> e == ".yaml" || e == ".yml";
    match lang
    case ANY =>
    case JSON =>
      assert HasExt(JSON, file) <==> e == ".json";
    case YAML =>
      assert HasExt(YAML, file) <==> e == ".yaml" || e == ".yml";
  }

  // ---------------------------------------------------------------------------
  // Parse

  datatype PkgError =
    | ReadFailed(cause: string)      // "failed to read file"
    | DecodeFailed(lang: Language)   // the chosen decoder's own error
    | NoParserSucceeded              // "no known parser succeeded"

  const TrialOrder: seq<Language> := [JSON, YAML]

  function DecodeAs(l: Language, contents: Bytes, decode: Decoder<Language>): Result<Value, PkgError>
  {
    match decode(l, contents)
    case Some(v) => Success(v)
    case None => Failure(DecodeFailed(l))
  }

  /** `Parse` over a given extension test. */
  function ParseWith(hasExt: (Language, string) -> bool, lang: Language, path: string,
                     fs: FileSystem, decode: Decoder<Language>): Result<Value, PkgError>
  {
    match fs(path)
    case Failure(e) => Failure(ReadFailed(e))
    case Success(contents) =>
      if lang == JSON || (lang == ANY && hasExt(JSON, path)) then DecodeAs(JSON, contents, decode)
      else if lang == YAML || (lang == ANY && hasExt(YAML, path)) then DecodeAs(YAML, contents, decode)
      else
        match Trial.TrialResult(TrialOrder, contents, decode)
        case Some((v, _)) => Success(v)
        case None => Failure(NoParserSucceeded)
  }

  /**
   * `Parse` with the corrected extension test: an explicit language, else a
   * matching extension, picks one decoder; otherwise JSON, then YAML.
   */
  function ParseCorrected(lang: Language, path: string, fs: FileSystem, decode: Decoder<Language>): (r: Result<Value, PkgError>)
    ensures fs(path).Failure? ==> r == Failure(ReadFailed(fs(path).error))
    ensures r.Success? ==> fs(path).Success?
                           && exists l :: l != ANY && decode(l, fs(path).value) == Some(r.value)
  {
    ParseWith(HasExt, lang, path, fs, decode)
  }

  /** `Parse` with `hasExt` as written. */
  function ParseAsWritten(lang: Language, path: string, fs: FileSystem, decode: Decoder<Language>): (r: Result<Value, PkgError>)
    ensures fs(path).Failure? ==> r == Failure(ReadFailed(fs(path).error))
    ensures r.Success? ==> fs(path).Success?
                           && exists l :: l != ANY && decode(l, fs(path).value) == Some(r.value)
  {
    ParseWith(HasExtAsWritten, lang, path, fs, decode)
  }

  /**
   * As written, a file with language ANY always goes through the JSON-then-YAML
   * trial, whatever its name: JSON's value if JSON accepts the bytes, else
   * YAML's, else "no known parser succeeded".
   */
  lemma AsWrittenAlwaysTrials(path: string, fs: FileSystem, decode: Decoder<Language>)
    requires fs(path).Success?
    ensures var c := fs(path).value;
            var r := ParseAsWritten(ANY, path, fs, decode);
            && (decode(JSON, c).Some? ==> r == Success(decode(JSON, c).value))
            && (decode(JSON, c).None? && decode(YAML, c).Some? ==> r == Success(decode(YAML, c).value))
            && (decode(JSON, c).None? && decode(YAML, c).None? ==> r == Failure(NoParserSucceeded))
  {
    HasExtAsWrittenNeverMatches(JSON, path);
    HasExtAsWrittenNeverMatches(YAML, path);
    TrialBranch(HasExtAsWritten, path, fs, decode);
  }

  /**
   * Corrected, with language ANY a `.json` file is decoded as JSON alone, and
   * a `.yaml` or `.yml` file as YAML alone; that decoder's failure is final.
   */
  lemma CorrectedTrustsExtension(path: string, fs: FileSystem, decode: Decoder<Language>)
    requires fs(path).Success?
    ensures HasExt(JSON, path) ==> ParseCorrected(ANY, path, fs, decode) == DecodeAs(JSON, fs(path).value, decode)
    ensures HasExt(YAML, path) ==> ParseCorrected(ANY, path, fs, decode) == DecodeAs(YAML, fs(path).value, decode)
  {
    if HasExt(JSON, path) && HasExt(YAML, path) {
      Formats.LowerLiterals();
      assert false;
    }
  }

  /**
   * An explicit JSON or YAML uses that decoder alone: the result does not
   * depend on any other decoder, and its failure is returned.
   */
  lemma ExplicitLanguageUsesOnlyItsDecoder(lang: Language, path: string, fs: FileSystem,
                                           decode: Decoder<Language>, decode': Decoder<Language>)
    requires lang != ANY && fs(path).Success?
    requires decode(lang, fs(path).value) == decode'(lang, fs(path).value)
    ensures ParseCorrected(lang, path, fs, decode) == ParseCorrected(lang, path, fs, decode') == DecodeAs(lang, fs(path).value, decode)
    ensures ParseAsWritten(lang, path, fs, decode) == ParseCorrected(lang, path, fs, decode)
  {
  }

  /**
   * With no explicit language and no matching extension, JSON is tried
   * before YAML: JSON's success wins, YAML is consulted only after JSON
   * fails, and the result is an error only when both fail.
   */
  lemma TrialJsonThenYaml(path: string, fs: FileSystem, decode: Decoder<Language>)
    requires fs(path).Success? && !HasExt(JSON, path) && !HasExt(YAML, path)
    ensures var c := fs(path).value;
            var r := ParseCorrected(ANY, path, fs, decode);
            && (decode(JSON, c).Some? ==> r == Success(decode(JSON, c).value))
            && (decode(JSON, c).None? && decode(YAML, c).Some? ==> r == Success(decode(YAML, c).value))
            && (r == Failure(NoParserSucceeded) <==> decode(JSON, c).None? && decode(YAML, c).None?)
  {
    TrialBranch(HasExt, path, fs, decode);
  }

  /** With language ANY and no extension match, `Parse` returns what the JSON-then-YAML trial gives. */
  lemma TrialBranch(hasExt: (Language, string) -> bool, path: string, fs: FileSystem, decode: Decoder<Language>)
    requires fs(path).Success? && !hasExt(JSON, path) && !hasExt(YAML, path)
    ensures var c := fs(path).value;
            ParseWith(hasExt, ANY, path, fs, decode) ==
              if decode(JSON, c).Some? then Success(decode(JSON, c).value)
              else if decode(YAML, c).Some? then Success(decode(YAML, c).value)
              else Failure(NoParserSucceeded)
  {
    TrialJsonThenYamlResult(fs(path).value, decode);
  }

  /** Where the JSON-then-YAML trial stops, by which of the two decoders accept the bytes. */
  lemma TrialJsonThenYamlResult(c: Bytes, decode: Decoder<Language>)
    ensures Trial.TrialResult(TrialOrder, c, decode) ==
            if decode(JSON, c).Some? then Some((decode(JSON, c).value, JSON))
            else if decode(YAML, c).Some? then Some((decode(YAML, c).value, YAML))
            else None
  {
    assert TrialOrder[1..] == [YAML] && TrialOrder[1..][1..] == [];
  }

  /**
   * As written, `Parse(ANY, "data.json")` ignores the extension: when the
   * bytes are not JSON but are YAML it returns YAML's value, where the
   * corrected version reports the JSON decoder's error.
   */
  lemma AsWrittenIgnoresExtension()
    ensures var fs: FileSystem := _ => Success([]);
            var decode: Decoder<Language> := (l, _) => if l == YAML then Some(Null) else None;
            && ParseAsWritten(ANY, "data.json", fs, decode) == Success(Null)
            && ParseCorrected(ANY, "data.json", fs, decode) == Failure(DecodeFailed(JSON))
  {
    var fs: FileSystem := _ => Success([]);
    var decode: Decoder<Language> := (l, _) => if l == YAML then Some(Null) else None;
    AsWrittenTriesYaml(fs, decode);
    CorrectedTrustsJson(fs, decode);
  }

  lemma AsWrittenTriesYaml(fs: FileSystem, decode: Decoder<Language>)
    requires fs("data.json") == Success([])
    requires decode(JSON, []) == None && decode(YAML, []) == Some(Null)
    ensures ParseAsWritten(ANY, "data.json", fs, decode) == Success(Null)
  {
    HasExtAsWrittenNeverMatches(JSON, "data.json");
    HasExtAsWrittenNeverMatches(YAML, "data.json");
    assert TrialOrder[1..] == [YAML];
    assert Trial.FirstSuccess(TrialOrder[1..], [], decode) == 0;
    assert Trial.TrialResult(TrialOrder, [], decode) == Some((Null, YAML));
  }

  lemma CorrectedTrustsJson(fs: FileSystem, decode: Decoder<Language>)
    requires fs("data.json") == Success([])
    requires decode(JSON, []) == None
    ensures ParseCorrected(ANY, "data.json", fs, decode) == Failure(DecodeFailed(JSON))
  {
    DataJsonExt();
    Formats.LowerLiterals();
    assert HasExt(JSON, "data.json");
  }

  lemma DataJsonExt()
    ensures Formats.Ext("data.json") == ".json"
  {
    Formats.ExtOfDotted("data", "json");
    assert "data" + "." + "json" == "data.json";
  }
}
