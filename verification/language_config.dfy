/** The interface language: a process-wide setting, English by default,
    and the command-line flags that choose it. */
module LanguageConfig {

  datatype Language = Ja | En

  /** The module state `currentLanguage`. */
  class Config {
    var currentLanguage: Language

    /** The module is loaded with English selected. */
    constructor ()
      ensures currentLanguage == En
    {
      currentLanguage := En;
    }

    /** `setLanguage(lang)` */
    method SetLanguage(lang: Language)
      modifies this
      ensures currentLanguage == lang
    {
      currentLanguage := lang;
    }

    /** `getLanguage()`: the language most recently set. */
    method GetLanguage() returns (lang: Language)
      ensures lang == currentLanguage
    {
      lang := currentLanguage;
    }
  }

  /** Setting a language and reading it back gives that language, and a
      fresh configuration reads English. */
  method SetThenGet(lang: Language) returns (before: Language, after: Language)
    ensures before == En && after == lang
  {
    var config := new Config();
    before := config.GetLanguage();
    config.SetLanguage(lang);
    after := config.GetLanguage();
  }

  /** `process.argv.slice(2)`: the user's arguments. */
  function UserArgs(argv: seq<string>): (args: seq<string>)
    ensures |argv| >= 2 ==> args == argv[2..]
    ensures |argv| < 2 ==> args == []
  {
    if |argv| < 2 then [] else argv[2..]
  }

  /** `parseLanguageFromArgs()`: `--en` anywhere among the user's
      arguments wins; otherwise `--ja` selects Japanese; otherwise
      English. */
  function ParseLanguageFromArgs(argv: seq<string>): (lang: Language)
    ensures lang == Ja <==>
      (exists i :: 2 <= i < |argv| && argv[i] == "--ja") && (forall i :: 2 <= i < |argv| ==> argv[i] != "--en")
  {
    var args := UserArgs(argv);
    assert forall i :: 2 <= i < |argv| ==> argv[i] == args[i - 2];
    if "--en" in args then En
    else if "--ja" in args then Ja
    else En
  }

  /** The first two entries (the runtime and the script) are never read
      as flags. */
  lemma OnlyUserArgsCount(runtime: string, script: string, args: seq<string>)
    ensures ParseLanguageFromArgs([runtime, script] + args) == ParseLanguageFromArgs(["node", "main.js"] + args)
  {
    assert UserArgs([runtime, script] + args) == args;
    assert UserArgs(["node", "main.js"] + args) == args;
  }

  /** `--en` wins even after `--ja`; no flag means English. */
  lemma FlagPrecedence(argv: seq<string>)
    ensures "--en" in UserArgs(argv) ==> ParseLanguageFromArgs(argv) == En
    ensures "--en" !in UserArgs(argv) && "--ja" !in UserArgs(argv) ==> ParseLanguageFromArgs(argv) == En
    ensures ParseLanguageFromArgs(["node", "main.js", "--ja", "--en"]) == En
    ensures ParseLanguageFromArgs(["node", "main.js", "--ja"]) == Ja
  {
    assert ["node", "main.js", "--ja", "--en"][2..] == ["--ja", "--en"];
    assert ["node", "main.js", "--ja"][2..] == ["--ja"];
  }
}
