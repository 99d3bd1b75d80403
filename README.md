# dsdiff in Dafny

dsdiff (`ds`) reads files written in JSON, YAML or TOML and does two things with them:

- It prints a semantic diff of two files, as coloured `+`/`-` lines.
- It re-encodes one file in another format (the `parse` command).

This project models, and proves properties of, the logic that decides what happens:

- **Format resolution** (`formats.dfy`, `loader.dfy`, `trial.dfy`).
  - A `--file1type`-style argument is lower-cased and mapped to a language.
  - A file's extension is mapped to a language without regard to case.
  - `parse` reads the file and then picks its decoder(s):
    - an explicit language wins;
    - otherwise a recognised extension selects exactly one decoder;
    - otherwise JSON, TOML and YAML are tried in that order, and the first success is returned.
  - `Loader.Parse` follows the Go code step by step: the shared `value` variable, the fall-through switch and the early-return trial chain. It is proved equal to a specification function. It also returns the trace of file reads and decoder calls, in order.
  - `parse` in cmd/root.go and `parse` in cmd/diff.go are the same code (cmd/diff.go adds only a comment), so one model serves both.
- **The older loader of pkg/pkg.go** (`pkg.dfy`). It has two languages and its own `hasExt`. `hasExt` as written cannot match a real extension; see "## Findings".
- **Value normalisation** (`cleaners.dfy`). `noopCleaner` and `stringMapKeyCleaner` act on a value tree (`values.dfy`). In that tree, go-yaml's interface-keyed maps are sequences of entries and string-keyed maps are Dafny maps.
- **Diff-line tagging** (`render.dfy`).
  - `prettyPrint` splits the diff text the way `bufio.ScanLines` does.
  - It tags each line as Added (`+`), Removed (`-`) or Plain.
- **Two-file sequencing** (`diff.dfy`). `runRoot` in cmd/root.go and `runDiff` in cmd/diff.go are identical, and one method models both.
- **Conversion** (`convert.dfy`).
  - The registry of `parsers` is a sequence of `Parser` objects. `PreRun` updates their `marshal` field in place when compact output is asked for.
  - `runParse` picks the output language and runs each matching entry's cleaner and marshaller.
  - It returns the first marshal error, or prints the last result followed by a newline.

Some things are not in the model and appear only as function-typed parameters:

- the file system (`FileSystem`);
- the decoders (`Decoder`);
- the marshallers (`Encoder`);
- the external tree diff (`Compare`).

Every property is therefore proved for all file systems, decoders, marshallers and diff functions.

## Model

| member | source | states |
|---|---|---|
| `Formats.ParseLanguageArg` | cmd/root.go:74-87 | After lower-casing, "yaml"/"yml" give YAML, "json" JSON, "toml" TOML and "" Any, each with no error. The error is returned exactly when no language spells the argument, and it comes with `Any` and carries the argument as given. |
| `Formats.SpellingsDisjoint` | cmd/root.go:75-83 | No accepted spelling names two languages, so the switch's cases never overlap. |
| `Formats.ParseLanguageArgCaseInsensitive` | cmd/root.go:75 | Two arguments that agree once lower-cased parse to the same language and agree on whether there is an error. |
| `Formats.Ext` | cmd/root.go:190 | `filepath.Ext` returns a suffix of the path, and a non-empty result starts with '.'. |
| `Formats.ExtIsLastDotSuffix` | cmd/root.go:190 | The extension starts at the last '.' of the last path element: after the dot it has no '.' or '/', and it is empty only when every '.' comes before a '/'. |
| `Formats.ExtOfDotted` | cmd/root.go:190 | A path ending in '.' followed by a name with no '.' or '/' has extension '.' followed by that name. |
| `Formats.ExtAppendPlain` | cmd/root.go:190 | Appending characters other than '.' and '/' to a path that has an extension extends that extension by the same characters. |
| `Formats.ExtToLower` | cmd/root.go:190 | Lower-casing a path and taking its extension commute. |
| `Formats.GetFileExtLangMatchesTable` | cmd/root.go:189-200 | A path names language l (other than Any) exactly when its lower-cased extension is one of l's extensions: `.json`, `.yaml`/`.yml` or `.toml`. Any other extension gives Any. |
| `Formats.ExtensionsDisjoint` | cmd/root.go:191-196 | No extension names two languages. |
| `Formats.GetFileExtLangCaseInsensitive` | cmd/root.go:190 | Two paths that agree once lower-cased name the same language, e.g. `A.JSON` and `a.json`. |
| `Trial.FirstSuccess` | cmd/root.go:161-185 | The trial stops at the first decoder that succeeds. Every earlier decoder failed, and it runs to the end only when all fail. |
| `Trial.TrialFirstSuccessWins` | pkg/pkg.go:34-41 | A trial succeeds exactly when some decoder succeeds. It returns the value of the earliest such decoder, calls a prefix of the order, and reports failure only after calling every decoder. |
| `Loader.ParseSpec` | cmd/diff.go:102-164 | A failed read gives "failed to read file". Success means the read succeeded and a concrete (not Any) decoder produced exactly the returned value. |
| `Loader.Parse` | cmd/root.go:127-187 | The switch with fall-through and the early-return chain over one shared `value` return exactly `ParseSpec`. Their calls are exactly `ParseTrace`. |
| `Loader.ReadFailureStopsParse` | cmd/root.go:130-133 | A read failure is returned as such, and no decoder is called. |
| `Loader.ExplicitLanguageWins` | cmd/diff.go:114-134 | With an explicit language, exactly that decoder is called, once. Its failure is returned without retry, and the extension is never consulted: another path with the same contents gives the same result. |
| `Loader.ExtensionIsTrusted` | cmd/root.go:140-159 | With language Any and a recognised extension, only that extension's decoder is called, and its failure is final. |
| `Loader.TrialOrderFirstSuccess` | cmd/diff.go:136-160 | With neither a language nor a recognised extension, JSON, TOML and YAML are called in that order up to the first success. That success is returned, and no later decoder is called. |
| `Loader.TrialIndex` | cmd/root.go:164-183 | The three-decoder trial stops at JSON, TOML or YAML according to which decoders accept the bytes, or runs past all three. |
| `Loader.UnableToParseOnlyAfterAllFail` | cmd/diff.go:162 | "unable to parse file" is returned exactly when the trial ran and all three decoders failed. |
| `Cleaners.NoopCleaner` | cmd/cleaners.go:5-7 | Returns its argument unchanged. |
| `Cleaners.StringMapKeyCleaner` | cmd/cleaners.go:9-38 | The cleaner is total. A map with a non-string key is returned untouched. An all-string-keyed map becomes a string-keyed map over the same key set. A sequence keeps its length. Everything else is returned unchanged. |
| `Cleaners.CleanSequenceElementwise` | cmd/cleaners.go:28-34 | Element i of a cleaned sequence is the cleaned element i. |
| `Cleaners.CleanConvertedMapValue` | cmd/cleaners.go:21-27 | In a converted map, each key maps to its original value, cleaned. |
| `Cleaners.SettledIffFixedPoint` | cmd/cleaners.go:9-37 | The cleaner leaves a value unchanged exactly when every interface-keyed map reachable through sequences has a non-string key. |
| `Cleaners.CleanedIsSettled` | cmd/cleaners.go:14-34 | The cleaner's output is always such a fixed point. |
| `Cleaners.Idempotent` | cmd/cleaners.go:9-37 | Cleaning twice equals cleaning once. |
| `Cleaners.CleanedConvertedMapsSettled` | cmd/cleaners.go:14-27 | Take any interface-keyed map reachable in the output through sequences and converted maps. It has a non-string key, provided the input held no string-keyed map. |
| `Render.Classify` | cmd/diff.go:90-98 | A line is Added exactly when its first character is '+', and Removed exactly when it is '-'. It is Plain exactly when it is empty or starts with anything else. Its text is unchanged. |
| `Render.ScanLines` | cmd/root.go:113-114 | `bufio.ScanLines` yields no line for an empty text and at least one for any other text, and never more lines than the text has characters. |
| `Render.ScanLinesHaveNoNewline` | cmd/root.go:113-114 | No line the scanner yields contains '\n'. |
| `Render.UnlinesScanLines` | cmd/root.go:113-114 | Scanning loses only carriage returns and the final newline. On a text without '\r', the lines each followed by '\n' give back the text, plus a '\n' when it did not end with one. |
| `Render.PrettyPrint` | cmd/root.go:112-125 | One tagged line per scanned line, in order, each carrying the scanned text, and each tag is `Classify` of that line. |
| `Diff.RunDiff` | cmd/diff.go:64-85 | The first file is parsed first, and its failure returns an error naming it, with no further read: a second file with another name is never read. A failure on the second file returns an error naming the second file. When both parse, the error is nil whether or not they differ, and the printed lines are the tagged lines of the diff text. |
| `Convert.UseCompactJSON` | cmd/parse.go:42-48 | Every JSON entry of the registry now marshals with `json.Marshal`, and every other entry keeps its marshaller. |
| `Convert.PreRun` | cmd/parse.go:30-49 | An invalid input argument, checked first, or an invalid output argument stops the command with that error and leaves the registry untouched. Otherwise the two languages are returned, and with compact set only JSON entries switch marshaller. |
| `Convert.Matching` | cmd/parse.go:71-74 | The entries the loop does not skip are exactly the entries of the output language. |
| `Convert.MatchingAppend` | cmd/parse.go:71-74 | Skipping entries keeps order and number: the kept entries of a concatenation are the kept entries of each part, in turn. |
| `Convert.MatchingSingleton` | cmd/parse.go:72-74 | A single entry is kept exactly when it is of the output language. |
| `Convert.OnlyMatchingEntriesUsed` | cmd/parse.go:71-76 | Entries of other languages do not affect the outcome. |
| `Convert.ConversionOutcome` | cmd/parse.go:70-80 | The loop fails exactly when some matching entry's cleaner-then-marshaller fails, and it then returns the first such error. Otherwise the result is the last matching entry's output, or the initial empty result when none matches. |
| `Convert.RunParseOutcome` | cmd/parse.go:70-86 | Once the file has parsed, the run fails exactly when some matching entry's marshal fails, with "failed to marshal" and the first such error. Otherwise, unless quiet, it prints the last matching entry's output (empty when none matches) followed by a newline. |
| `Convert.NoMatchKeepsResult` | cmd/parse.go:70-80 | With no matching entry the loop returns the result it started with. |
| `Convert.OutputLanguage` | cmd/parse.go:61-63 | An explicit output language is kept. Any becomes the detected input language. |
| `Convert.RunParseSpec` | cmd/parse.go:55-87 | A read failure is returned as a parse failure. An error prints nothing. With no error, something is printed exactly when not quiet, and what is printed ends with a newline. |
| `Convert.RunParse` | cmd/parse.go:55-87 | The loop that reassigns `result` and `err` gives exactly `RunParseSpec` over the registry's current entries. |
| `Convert.ParseFailureStopsConversion` | cmd/parse.go:56-59 | A parse failure is returned wrapped, and nothing is marshalled or printed. |
| `Convert.OutputDefaultsToInput` | cmd/parse.go:56-63 | Without an output language the run is the one asked for with the detected language, which is concrete. |
| `Convert.QuietOnlySuppressesPrinting` | cmd/parse.go:82-86 | Quiet mode returns the same error and prints nothing. Otherwise something is printed exactly when no error is returned. |
| `Convert.NoEntryPrintsEmpty` | cmd/parse.go:70-86 | With no registry entry for the output language, the run returns nil and prints only the newline. |
| `Pkg.HasExtAsWritten` | pkg/pkg.go:45-56 | `hasExt` as written can hold only for JSON or YAML, and only of a file whose extension is non-empty and does not start with '.'. |
| `Pkg.HasExtAsWrittenNeverMatches` | pkg/pkg.go:45-56 | `hasExt` as written holds for no language and no file, ANY included. |
| `Pkg.HasExtMatchesExtension` | pkg/pkg.go:45-56 | The corrected `hasExt` is false for ANY. For JSON and YAML it holds exactly when cmd/root.go's extension lookup gives that language. |
| `Pkg.ParseAsWritten` | pkg/pkg.go:22-43 | `Parse` as written, with its own `hasExt` (for the order in which `value` is read, see "## Left out"). A read failure gives "failed to read file". A success is a value that some concrete decoder produced from the bytes read. |
| `Pkg.AsWrittenAlwaysTrials` | pkg/pkg.go:28-41 | As written, with language ANY every path goes to the JSON-then-YAML trial, `.json` and `.yaml` files included: JSON's value, else YAML's, else "no known parser succeeded". |
| `Pkg.ParseCorrected` | pkg/pkg.go:22-43 | `Parse` with the corrected `hasExt` (see "## Findings"); the rest is as written. A read failure gives "failed to read file". A success is a value that some concrete decoder produced from the bytes read. |
| `Pkg.CorrectedTrustsExtension` | pkg/pkg.go:30-33 | Corrected, with language ANY a `.json` file is decoded by JSON alone and a `.yaml`/`.yml` file by YAML alone, and that decoder's failure is returned. |
| `Pkg.ExplicitLanguageUsesOnlyItsDecoder` | pkg/pkg.go:30-33 | An explicit JSON or YAML calls only that decoder and returns its outcome, whatever the other decoder does. As written and corrected agree here. |
| `Pkg.TrialJsonThenYaml` | pkg/pkg.go:34-41 | Corrected, with no language and no matching extension, JSON is tried first and wins when it succeeds. YAML is used only after JSON fails, and the error comes exactly when both fail. |
| `Pkg.AsWrittenIgnoresExtension` | pkg/pkg.go:30-41 | As written, `Parse(ANY, "data.json")` on bytes that are YAML but not JSON returns YAML's value. The corrected version returns the JSON decoder's error. |

## Left out

- Reading files, the JSON/YAML/TOML decoders and marshallers, and `pretty.Compare` are foreign code. They are parameters. Decoder and marshaller errors are an empty `Option` or an error text.
- Error message texts and their wrapping (`errors.Wrapf`) are abstracted to constructors, such as `ReadFailed`, `UnableToParse` and `FailedToParse(path, …)`.
- Numbers are kept abstract as their literal text. Floating point is not modelled.
- Colouring (`aurora`), `fmt.Println`, logrus logging and verbosity, and the cobra command and flag wiring are left out. So are `handleErr`, main.go and toml/toml_test.go. The printer's output is the sequence of tagged lines, or the printed bytes of `runParse`.
- The exit value `errOsExit1` and the one-argument `runParse` in cmd/diff_test.go and cmd/parse_test.go belong to another revision of the program. The `runDiff` of cmd/diff.go returns nil when the files differ, and that is what the model states.
- `PersistentPreRun` in cmd/root.go parses the two file-type arguments with `parseLanguageArg`. The model covers it through `Formats.ParseLanguageArg` and `Convert.PreRun`; a fatal log ends the process on an invalid argument.
- `Formats.ParseLanguageArg`, `Formats.GetFileExtLang`, `Pkg.EqualFold`: case folding covers ASCII letters only. `strings.ToLower` and `strings.EqualFold` also fold non-ASCII letters.
- `Render.PrettyPrint`: `bufio.Scanner`'s 64 KiB token limit is not modelled. A longer line stops the Go scanner early.
- `Loader.Parse`, `Pkg.ParseAsWritten` and `Pkg.ParseCorrected`: Go does not fix whether `value` in `return value, json.Unmarshal(contents, &value)` (cmd/root.go and cmd/diff.go, and pkg/pkg.go:31,33 with `json` or `yaml`) is read before or after the call. The model returns the decoded value on success. On failure the error is returned and the value is not.
- The `parsers` registry, `cleanInput`, `quiet` and the three-result `parse` that cmd/parse.go uses are defined outside the files modelled here. The registry is a sequence of `Parser` objects. Each has a language, a cleaner chosen among the two of cmd/cleaners.go, and a mutable marshaller. `parse` is `Loader.ParseSpec`, which also returns the language that decoded the file.
- `Convert.UseCompactJSON`: the compact swap is modelled as an update through shared objects. If the Go registry held values rather than pointers, the loop would change copies only; whether the registry holds pointers is not visible in cmd/parse.go.
- `Cleaners.StringMapKeyCleaner`: an interface-keyed map is a sequence of entries. A Go map never holds one key twice, so the lemma about converted values requires unique keys. For duplicated keys the model lets the last entry win.
- `Cleaners.CleanedConvertedMapsSettled`: this is stated for inputs that hold no string-keyed map, which is the shape of go-yaml's output. The cleaner does not descend into a string-keyed map that is already in its input, so interface-keyed maps inside such a map stay as they were.
- `runDiff` and `runRoot` compare the decoded values without cleaning them, as the code does. The cleaners are used only by `runParse`.

## Findings

| source | as written | input that shows it | evidently intended | confidence | as-written member | corrected member |
|---|---|---|---|---|---|---|
| pkg/pkg.go:45-55 | `hasExt` compares "JSON", "YAML" or "yml" with `filepath.Ext(file)`. That result keeps its leading dot, so it never matches a real file, and every file with language ANY goes through the JSON-then-YAML trial. | `Parse(ANY, "data.json")` where the bytes are not JSON but are YAML returns YAML's value instead of the JSON error. | Compare with ".json", ".yaml" or ".yml", without regard to case, as `getFileExtLang` in cmd/root.go does. | not executed | `Pkg.AsWrittenIgnoresExtension` | `Pkg.HasExtMatchesExtension` |
