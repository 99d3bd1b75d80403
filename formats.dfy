/**
 * The language tag of cmd/root.go, the `--file1type`-style argument parser
 * `parseLanguageArg`, Go's `filepath.Ext`, and the extension lookup
 * `getFileExtLang`.
 */
module Formats {

  import opened Wrappers

  /** `langAny`, `langJson`, `langYaml`, `langToml` (`Any`, `JSON`, `YAML`, `TOML` in cmd/parse.go). */
  datatype Language = Any | JSON | YAML | TOML

  datatype ArgError = UnsupportedLanguage(arg: string)

  // ---------------------------------------------------------------------------
  // Case folding (strings.ToLower, restricted to ASCII letters)

  function LowerChar(c: char): char
  {
    if 'A' <= c <= 'Z' then (c as int + 32) as char else c
  }

  function ToLower(s: string): string
  {
    seq(|s|, i requires 0 <= i < |s| => LowerChar(s[i]))
  }

  lemma ToLowerIdempotent(s: string)
    ensures ToLower(ToLower(s)) == ToLower(s)
  {
  }

  lemma ToLowerSnoc(s: string, c: char)
    ensures ToLower(s + [c]) == ToLower(s) + [LowerChar(c)]
  {
  }

  /** The extensions and names the program compares against are already lower-case. */
  lemma LowerLiterals()
    ensures ToLower(".json") == ".json" && ToLower(".yaml") == ".yaml"
    ensures ToLower(".yml") == ".yml" && ToLower(".toml") == ".toml"
  {
    assert ToLower(".json") == ".json" by { assert forall i :: 0 <= i < 5 ==> ToLower(".json")[i] == ".json"[i]; }
    assert ToLower(".yaml") == ".yaml" by { assert forall i :: 0 <= i < 5 ==> ToLower(".yaml")[i] == ".yaml"[i]; }
    assert ToLower(".toml") == ".toml" by { assert forall i :: 0 <= i < 5 ==> ToLower(".toml")[i] == ".toml"[i]; }
    assert ToLower(".yml") == ".yml" by { assert forall i :: 0 <= i < 4 ==> ToLower(".yml")[i] == ".yml"[i]; }
  }

  // ---------------------------------------------------------------------------
  // parseLanguageArg

  /** The lower-case spellings the argument parser accepts for each language. */
  function Spellings(l: Language): set<string>
  {
    match l
    case Any => {""}
    case JSON => {"json"}
    case YAML => {"yaml", "yml"}
    case TOML => {"toml"}
  }

  /**
   * Lower-case the argument, then map it to a language. An argument no
   * language spells is rejected with an error, and the language returned
   * beside that error is `Any`.
   */
  function ParseLanguageArg(s: string): (r: (Language, Option<ArgError>))
    ensures forall l :: ToLower(s) in Spellings(l) ==> r == (l, None)
    ensures r.1.None? ==> ToLower(s) in Spellings(r.0)
    ensures r.1.Some? <==> forall l :: ToLower(s) !in Spellings(l)
    ensures r.1.Some? ==> r == (Any, Some(UnsupportedLanguage(s)))
  {
    var lower := ToLower(s);
    if lower == "yaml" || lower == "yml" then (YAML, None)
    else if lower == "json" then (JSON, None)
    else if lower == "toml" then (TOML, None)
    else if lower == "" then (Any, None)
    else (Any, Some(UnsupportedLanguage(s)))
  }

  /** No spelling names two languages. */
  lemma SpellingsDisjoint(l1: Language, l2: Language)
    requires l1 != l2
    ensures Spellings(l1) !! Spellings(l2)
  {
  }

  /** Two arguments that differ only in letter case parse alike (and the error keeps the argument as given). */
  lemma ParseLanguageArgCaseInsensitive(s: string, t: string)
    requires ToLower(s) == ToLower(t)
    ensures ParseLanguageArg(s).0 == ParseLanguageArg(t).0
    ensures ParseLanguageArg(s).1.None? <==> ParseLanguageArg(t).1.None?
  {
  }

  // ---------------------------------------------------------------------------
  // filepath.Ext

  /**
   * The extension of a path: the suffix that starts at the last '.' of the
   * last path element, or "" when that element has no '.'.
   */
  function Ext(path: string): (r: string)
    ensures |r| <= |path| && r == path[|path| - |r|..]
    ensures r != [] ==> r[0] == '.'
    decreases |path|
  {
    if path == [] then []
    else
      var c := path[|path| - 1];
      if c == '/' then []
      else if c == '.' then [c]
      else
        var e := Ext(path[..|path| - 1]);
        if e == [] then [] else e + [c]
  }

  /**
   * The extension is the suffix from the last '.' of the last path element:
   * after its leading dot it holds neither '.' nor '/', and it is empty only
   * when every '.' of the path lies before some '/'.
   */
  lemma {:induction false} ExtIsLastDotSuffix(path: string)
    ensures var r := Ext(path);
            && (forall i :: 0 < i < |r| ==> r[i] != '.' && r[i] != '/')
            && (r == [] ==> forall j :: 0 <= j < |path| && path[j] == '.' ==>
                              exists k :: j < k < |path| && path[k] == '/')
    decreases |path|
  {
    if path != [] {
      var init := path[..|path| - 1];
      ExtIsLastDotSuffix(init);
      var c := path[|path| - 1];
      var r := Ext(path);
      if c != '/' && c != '.' && Ext(init) == [] {
        forall j | 0 <= j < |path| && path[j] == '.'
          ensures exists k :: j < k < |path| && path[k] == '/'
        {
          assert init[j] == '.';
          var k :| j < k < |init| && init[k] == '/';
          assert path[k] == '/';
        }
      }
    }
  }

  /** Appending a character other than '.' or '/' extends an existing extension. */
  lemma ExtSnoc(p: string, c: char)
    requires c != '.' && c != '/'
    ensures Ext(p + [c]) == if Ext(p) == [] then [] else Ext(p) + [c]
  {
    assert (p + [c])[..|p|] == p;
  }

  /** A path ending in '.' has the extension ".". */
  lemma ExtDot(p: string)
    ensures Ext(p + ".") == "."
  {
  }

  /** A path that ends in '.' and then a name without '.' or '/' has that dotted name as its extension. */
  lemma ExtOfDotted(stem: string, name: string)
    requires forall k :: 0 <= k < |name| ==> name[k] != '.' && name[k] != '/'
    ensures Ext(stem + "." + name) == "." + name
  {
    ExtDot(stem);
    ExtAppendPlain(stem + ".", name);
  }

  /** Characters other than '.' and '/' appended to a path with an extension extend that extension. */
  lemma {:induction false} ExtAppendPlain(p: string, name: string)
    requires Ext(p) != []
    requires forall k :: 0 <= k < |name| ==> name[k] != '.' && name[k] != '/'
    ensures Ext(p + name) == Ext(p) + name
    decreases |name|
  {
    if name == [] {
      assert p + name == p && Ext(p) + name == Ext(p);
    } else {
      var c := name[0];
      var q := p + [c];
      var e := Ext(p);
      assert name == [c] + name[1..];
      assert p + name == q + name[1..];
      assert e + name == (e + [c]) + name[1..];
      ExtSnoc(p, c);
      ExtAppendPlain(q, name[1..]);
    }
  }

  /** Lower-casing a path and taking its extension commute. */
  lemma {:induction false} ExtToLower(path: string)
    ensures Ext(ToLower(path)) == ToLower(Ext(path))
    decreases |path|
  {
    if path != [] {
      var init := path[..|path| - 1];
      var c := path[|path| - 1];
      var lower := ToLower(path);
      assert path == init + [c];
      ToLowerSnoc(init, c);
      assert lower[..|lower| - 1] == ToLower(init);
      assert lower[|lower| - 1] == LowerChar(c);
      ExtToLower(init);
      if c == '/' {
        assert Ext(lower) == [];
      } else if c == '.' {
        assert Ext(lower) == ['.'];
        assert ToLower(['.']) == ['.'];
      } else {
        assert LowerChar(c) != '/' && LowerChar(c) != '.';
        var e := Ext(init);
        if e != [] {
          ToLowerSnoc(e, c);
        }
      }
    }
  }

  // ---------------------------------------------------------------------------
  // getFileExtLang

  /** The extensions, lower-case and with their dot, that name each language; `Any` has none. */
  function Extensions(l: Language): set<string>
  {
    match l
    case Any => {}
    case JSON => {".json"}
    case YAML => {".yaml", ".yml"}
    case TOML => {".toml"}
  }

  /** The language a path's extension names, compared without regard to case; `Any` when none does. */
  function GetFileExtLang(path: string): Language
  {
    var e := ToLower(Ext(path));
    if e == ".yaml" || e == ".yml" then YAML
    else if e == ".json" then JSON
    else if e == ".toml" then TOML
    else Any
  }

  /** The four extensions of the table are pairwise different strings. */
  lemma ExtLiteralsDistinct()
    ensures ".json" != ".yaml" && ".json" != ".yml" && ".json" != ".toml"
    ensures ".yaml" != ".yml" && ".yaml" != ".toml" && ".yml" != ".toml"
  {
    assert ".yaml"[1] != ".json"[1] && ".yaml"[1] != ".toml"[1] && ".json"[1] != ".toml"[1];
    assert ".yml"[1] != ".json"[1] && ".yml"[1] != ".toml"[1];
    assert |".yml"| != |".yaml"|;
  }

  /** A path names a language exactly when its lower-cased extension is one of that language's extensions. */
  lemma GetFileExtLangMatchesTable(path: string, l: Language)
    ensures ToLower(Ext(path)) in Extensions(l) <==> l == GetFileExtLang(path) && l != Any
  {
    ExtLiteralsDistinct();
    var e := ToLower(Ext(path));
    ExtensionsMembers(e, l);
    if e == ".yaml" || e == ".yml" {
      assert GetFileExtLang(path) == YAML;
    } else if e == ".json" {
      assert GetFileExtLang(path) == JSON;
    } else if e == ".toml" {
      assert GetFileExtLang(path) == TOML;
    } else {
      assert GetFileExtLang(path) == Any;
    }
  }

  /** Membership in a language's extensions, spelled out. */
  lemma ExtensionsMembers(e: string, l: Language)
    ensures e in Extensions(l) <==>
              || (l == YAML && (e == ".yaml" || e == ".yml"))
              || (l == JSON && e == ".json")
              || (l == TOML && e == ".toml")
  {
  }

  /** Exactly one extension set per concrete language: the sets are pairwise disjoint. */
  lemma ExtensionsDisjoint(l1: Language, l2: Language)
    requires l1 != l2
    ensures Extensions(l1) !! Extensions(l2)
  {
  }

  /** Two paths that differ only in letter case name the same language. */
  lemma GetFileExtLangCaseInsensitive(p: string, q: string)
    requires ToLower(p) == ToLower(q)
    ensures GetFileExtLang(p) == GetFileExtLang(q)
  {
    ExtToLower(p);
    ExtToLower(q);
    ToLowerIdempotent(Ext(p));
    ToLowerIdempotent(Ext(q));
  }
}
