/** Localised texts: two tables with the same keys, a process-wide
    language, and `t`, a lookup followed by the replacement of the first
    `{0}`, then the first `{1}`, and so on, each in the text produced so
    far. */
module I18n {
  import opened Text
  import opened LanguageConfig

  /** The keys of `TextDefinitions`, section by section. */
  datatype MainMenuKey = MainTitle | MainSubtitle | MainMenuQuestion | MainMenuFreeSearch | MainMenuBaselineTarget | MainMenuExit | MainMenuNavigation | MainMenuDirectSelect

  datatype SearchKey = SearchTitle | SearchKeyword | SearchResults | SearchNoResults | SearchPageInfo | SearchInstructions | SearchInstructionsSearch | SearchInstructionsNoPage | SearchTryOtherKeywords | SearchClearHint

  datatype BaselineKey = BaselineTitle | BaselineNoFeatures | BaselineReturnToMenu | BaselineYearSelection | BaselineFeatureList | BaselineYearNavigationInstructions | BaselineFeatureNavigationInstructions

  datatype DetailKey = DetailTitle | DetailReturnPrompt

  datatype CommonKey = Exit | Cancel | Loading | Error | ReturnToMenu | PressEnterToContinue

  datatype ErrorKey = ErrorApp | ErrorInvalidChoice | ErrorNoSearchKeyword | ErrorInkNotAvailable | ErrorSwitchingToNormal

  datatype OtherKey = Year | ResultsCount | Page | Displaying | Jump | Search | Select | Decision | Navigation | DirectJump

  /** A key of `TextDefinitions`: a section and a key in it. */
  datatype TextKey =
    | MainMenuText(mainMenu: MainMenuKey)
    | SearchText(search: SearchKey)
    | BaselineText(baseline: BaselineKey)
    | DetailText(detail: DetailKey)
    | CommonText(common: CommonKey)
    | ErrorText(error: ErrorKey)
    | OtherText(other: OtherKey)

  /** The property names of the main menu. */
  function MainMenuName(k: MainMenuKey): string
  {
    match k
    case MainTitle => "mainTitle"
    case MainSubtitle => "mainSubtitle"
    case MainMenuQuestion => "mainMenuQuestion"
    case MainMenuFreeSearch => "mainMenuFreeSearch"
    case MainMenuBaselineTarget => "mainMenuBaselineTarget"
    case MainMenuExit => "mainMenuExit"
    case MainMenuNavigation => "mainMenuNavigation"
    case MainMenuDirectSelect => "mainMenuDirectSelect"
  }

  /** The property names of the search screen. */
  function SearchName(k: SearchKey): string
  {
    match k
    case SearchTitle => "searchTitle"
    case SearchKeyword => "searchKeyword"
    case SearchResults => "searchResults"
    case SearchNoResults => "searchNoResults"
    case SearchPageInfo => "searchPageInfo"
    case SearchInstructions => "searchInstructions"
    case SearchInstructionsSearch => "searchInstructionsSearch"
    case SearchInstructionsNoPage => "searchInstructionsNoPage"
    case SearchTryOtherKeywords => "searchTryOtherKeywords"
    case SearchClearHint => "searchClearHint"
  }

  /** The property names of the Baseline Target screens. */
  function BaselineName(k: BaselineKey): string
  {
    match k
    case BaselineTitle => "baselineTitle"
    case BaselineNoFeatures => "baselineNoFeatures"
    case BaselineReturnToMenu => "baselineReturnToMenu"
    case BaselineYearSelection => "baselineYearSelection"
    case BaselineFeatureList => "baselineFeatureList"
    case BaselineYearNavigationInstructions => "baselineYearNavigationInstructions"
    case BaselineFeatureNavigationInstructions => "baselineFeatureNavigationInstructions"
  }

  /** The property names of the detail screen. */
  function DetailName(k: DetailKey): string
  {
    match k
    case DetailTitle => "detailTitle"
    case DetailReturnPrompt => "detailReturnPrompt"
  }

  /** The property names of shared texts. */
  function CommonName(k: CommonKey): string
  {
    match k
    case Exit => "exit"
    case Cancel => "cancel"
    case Loading => "loading"
    case Error => "error"
    case ReturnToMenu => "returnToMenu"
    case PressEnterToContinue => "pressEnterToContinue"
  }

  /** The property names of error messages. */
  function ErrorName(k: ErrorKey): string
  {
    match k
    case ErrorApp => "errorApp"
    case ErrorInvalidChoice => "errorInvalidChoice"
    case ErrorNoSearchKeyword => "errorNoSearchKeyword"
    case ErrorInkNotAvailable => "errorInkNotAvailable"
    case ErrorSwitchingToNormal => "errorSwitchingToNormal"
  }

  /** The property names of other words. */
  function OtherName(k: OtherKey): string
  {
    match k
    case Year => "year"
    case ResultsCount => "resultsCount"
    case Page => "page"
    case Displaying => "displaying"
    case Jump => "jump"
    case Search => "search"
    case Select => "select"
    case Decision => "decision"
    case Navigation => "navigation"
    case DirectJump => "directJump"
  }

  /** The property name of each key. */
  function KeyName(k: TextKey): string
  {
    match k
    case MainMenuText(m) => MainMenuName(m)
    case SearchText(m) => SearchName(m)
    case BaselineText(m) => BaselineName(m)
    case DetailText(m) => DetailName(m)
    case CommonText(m) => CommonName(m)
    case ErrorText(m) => ErrorName(m)
    case OtherText(m) => OtherName(m)
  }

  /** The keys of the main menu. */
  const MainMenuKeys: seq<TextKey> := [MainMenuText(MainTitle), MainMenuText(MainSubtitle), MainMenuText(MainMenuQuestion), MainMenuText(MainMenuFreeSearch), MainMenuText(MainMenuBaselineTarget), MainMenuText(MainMenuExit), MainMenuText(MainMenuNavigation), MainMenuText(MainMenuDirectSelect)]

  /** The keys of the search screen. */
  const SearchKeys: seq<TextKey> := [SearchText(SearchTitle), SearchText(SearchKeyword), SearchText(SearchResults), SearchText(SearchNoResults), SearchText(SearchPageInfo), SearchText(SearchInstructions), SearchText(SearchInstructionsSearch), SearchText(SearchInstructionsNoPage), SearchText(SearchTryOtherKeywords), SearchText(SearchClearHint)]

  /** The keys of the Baseline Target screens. */
  const BaselineKeys: seq<TextKey> := [BaselineText(BaselineTitle), BaselineText(BaselineNoFeatures), BaselineText(BaselineReturnToMenu), BaselineText(BaselineYearSelection), BaselineText(BaselineFeatureList), BaselineText(BaselineYearNavigationInstructions), BaselineText(BaselineFeatureNavigationInstructions)]

  /** The keys of the detail screen. */
  const DetailKeys: seq<TextKey> := [DetailText(DetailTitle), DetailText(DetailReturnPrompt)]

  /** The keys of shared texts. */
  const CommonKeys: seq<TextKey> := [CommonText(Exit), CommonText(Cancel), CommonText(Loading), CommonText(Error), CommonText(ReturnToMenu), CommonText(PressEnterToContinue)]

  /** The keys of error messages. */
  const ErrorKeys: seq<TextKey> := [ErrorText(ErrorApp), ErrorText(ErrorInvalidChoice), ErrorText(ErrorNoSearchKeyword), ErrorText(ErrorInkNotAvailable), ErrorText(ErrorSwitchingToNormal)]

  /** The keys of other words. */
  const OtherKeys: seq<TextKey> := [OtherText(Year), OtherText(ResultsCount), OtherText(Page), OtherText(Displaying), OtherText(Jump), OtherText(Search), OtherText(Select), OtherText(Decision), OtherText(Navigation), OtherText(DirectJump)]
  /** Every key, in declaration order. */
  const AllKeys: seq<TextKey> :=
    MainMenuKeys + SearchKeys + BaselineKeys + DetailKeys + CommonKeys + ErrorKeys + OtherKeys

  lemma AllKeysComplete(k: TextKey)
    ensures k in AllKeys
  {
    match k
    case MainMenuText(m) => ListedMainMenu(m);
    case SearchText(m) => ListedSearch(m);
    case BaselineText(m) => ListedBaseline(m);
    case DetailText(m) => ListedDetail(m);
    case CommonText(m) => ListedCommon(m);
    case ErrorText(m) => ListedError(m);
    case OtherText(m) => ListedOther(m);
  }

  lemma ListedMainMenu(k: MainMenuKey)
    ensures MainMenuText(k) in MainMenuKeys
  {
    match k
    case MainTitle =>
    case MainSubtitle =>
    case MainMenuQuestion =>
    case MainMenuFreeSearch =>
    case MainMenuBaselineTarget =>
    case MainMenuExit =>
    case MainMenuNavigation =>
    case MainMenuDirectSelect =>
  }

  lemma ListedSearch(k: SearchKey)
    ensures SearchText(k) in SearchKeys
  {
    match k
    case SearchTitle =>
    case SearchKeyword =>
    case SearchResults =>
    case SearchNoResults =>
    case SearchPageInfo =>
    case SearchInstructions =>
    case SearchInstructionsSearch =>
    case SearchInstructionsNoPage =>
    case SearchTryOtherKeywords =>
    case SearchClearHint =>
  }

  lemma ListedBaseline(k: BaselineKey)
    ensures BaselineText(k) in BaselineKeys
  {
    match k
    case BaselineTitle =>
    case BaselineNoFeatures =>
    case BaselineReturnToMenu =>
    case BaselineYearSelection =>
    case BaselineFeatureList =>
    case BaselineYearNavigationInstructions =>
    case BaselineFeatureNavigationInstructions =>
  }

  lemma ListedDetail(k: DetailKey)
    ensures DetailText(k) in DetailKeys
  {
    match k
    case DetailTitle =>
    case DetailReturnPrompt =>
  }

  lemma ListedCommon(k: CommonKey)
    ensures CommonText(k) in CommonKeys
  {
    match k
    case Exit =>
    case Cancel =>
    case Loading =>
    case Error =>
    case ReturnToMenu =>
    case PressEnterToContinue =>
  }

  lemma ListedError(k: ErrorKey)
    ensures ErrorText(k) in ErrorKeys
  {
    match k
    case ErrorApp =>
    case ErrorInvalidChoice =>
    case ErrorNoSearchKeyword =>
    case ErrorInkNotAvailable =>
    case ErrorSwitchingToNormal =>
  }

  lemma ListedOther(k: OtherKey)
    ensures OtherText(k) in OtherKeys
  {
    match k
    case Year =>
    case ResultsCount =>
    case Page =>
    case Displaying =>
    case Jump =>
    case Search =>
    case Select =>
    case Decision =>
    case Navigation =>
    case DirectJump =>
  }

  /** The first key among `keys` named `name`, if any. */
  function FindKey(keys: seq<TextKey>, name: string): (r: Option<TextKey>)
    ensures r.Some? ==> r.value in keys && KeyName(r.value) == name
    ensures r.None? ==> forall i :: 0 <= i < |keys| ==> KeyName(keys[i]) != name
  {
    if keys == [] then None
    else if KeyName(keys[0]) == name then Some(keys[0])
    else FindKey(keys[1..], name)
  }

  /** The key a property name denotes, if any: `texts[lang][name]` is
      `undefined` exactly when this is `None`. */
  function KeyOf(name: string): (r: Option<TextKey>)
    ensures r.Some? ==> KeyName(r.value) == name
    ensures r.None? <==> forall k :: KeyName(k) != name
  {
    var r := FindKey(AllKeys, name);
    if r.None? then
      assert forall k :: KeyName(k) != name by {
        forall k ensures KeyName(k) != name {
          AllKeysComplete(k);
        }
      }
      r
    else r
  }

  /** `texts.ja` */
  function JaText(k: TextKey): string
  {
    match k
    case MainMenuText(m) =>
      (match m
      case MainTitle => "=== WEB FEATURES DOCS CLI ==="
      case MainSubtitle => "Web機能データの詳細検索・閲覧ツール"
      case MainMenuQuestion => "どの機能を利用しますか?"
      case MainMenuFreeSearch => "フリーワード検索（ページネーション+フリーワード）"
      case MainMenuBaselineTarget => "Baseline Target（年別一覧）"
      case MainMenuExit => "Exit (終了)"
      case MainMenuNavigation => "↑↓: 選択移動 | Enter: 決定 | 1-3: 直接選択 | ESC/q: 終了"
      case MainMenuDirectSelect => "数字キー (1-{0}) でページジャンプ")
    case SearchText(m) =>
      (match m
      case SearchTitle => "=== フリーワード検索+ページネーション (ink利用) ==="
      case SearchKeyword => "検索キーワード: "
      case SearchResults => "{0}件の機能が見つかりました"
      case SearchNoResults => "機能が見つかりませんでした"
      case SearchPageInfo => "ページ: {0}/{1} | 表示中: {2}-{3}"
      case SearchInstructions => "↑↓: 選択 | ←→: ページ | /またはs: 検索 | Enter: 決定 | ESC/q: 終了"
      case SearchInstructionsSearch => "検索中: ↑↓で選択 | ←→でページ | Enter: 決定 | ESC: 検索終了"
      case SearchInstructionsNoPage => "数字キー (1-{0}) でページジャンプ"
      case SearchTryOtherKeywords => "別のキーワードを試すか、Ctrl+Cで検索をクリアしてください"
      case SearchClearHint => " (Ctrl+C: クリア)")
    case BaselineText(m) =>
      (match m
      case BaselineTitle => "=== Baseline Target (年別一覧) ==="
      case BaselineNoFeatures => "この年にはBaseline Target機能がありません"
      case BaselineReturnToMenu => "メニューに戻ります。"
      case BaselineYearSelection => "=== Baseline Target 年選択 ==="
      case BaselineFeatureList => "=== {0}年 Baseline Target 機能一覧 ==="
      case BaselineYearNavigationInstructions => "↑↓: 選択 | Enter: 決定 | ESC: 戻る"
      case BaselineFeatureNavigationInstructions => "↑↓: 選択 | Enter: 詳細表示 | ESC: 年選択に戻る")
    case DetailText(m) =>
      (match m
      case DetailTitle => "=== {0} 詳細情報 ==="
      case DetailReturnPrompt => "Enterでメニューに戻る: ")
    case CommonText(m) =>
      (match m
      case Exit => "終了します。"
      case Cancel => "キャンセル"
      case Loading => "読み込み中..."
      case Error => "エラー"
      case ReturnToMenu => "メニューに戻る"
      case PressEnterToContinue => "Enterキーで続行...")
    case ErrorText(m) =>
      (match m
      case ErrorApp => "アプリケーションでエラーが発生しました:"
      case ErrorInvalidChoice => "無効な選択です。1-3を選んでください。"
      case ErrorNoSearchKeyword => "検索キーワードが入力されていません。"
      case ErrorInkNotAvailable => "この環境ではink検索+ページネーション機能をご利用いただけません。"
      case ErrorSwitchingToNormal => "通常の検索機能に切り替えます...")
    case OtherText(m) =>
      (match m
      case Year => "年"
      case ResultsCount => "件"
      case Page => "ページ"
      case Displaying => "表示中"
      case Jump => "ジャンプ"
      case Search => "検索"
      case Select => "選択"
      case Decision => "決定"
      case Navigation => "移動"
      case DirectJump => "直接選択")
  }

  /** `texts.en` */
  function EnText(k: TextKey): string
  {
    match k
    case MainMenuText(m) =>
      (match m
      case MainTitle => "=== WEB FEATURES DOCS CLI ==="
      case MainSubtitle => "Web Features Data Search & Browse Tool"
      case MainMenuQuestion => "Which feature would you like to use?"
      case MainMenuFreeSearch => "Free Text Search (Pagination + Free Word)"
      case MainMenuBaselineTarget => "Baseline Target (By Year)"
      case MainMenuExit => "Exit"
      case MainMenuNavigation => "↑↓: Navigate | Enter: Select | 1-3: Direct | ESC/q: Exit"
      case MainMenuDirectSelect => "Number keys (1-{0}) for page jump")
    case SearchText(m) =>
      (match m
      case SearchTitle => "=== Free Text Search + Pagination (using ink) ==="
      case SearchKeyword => "Search keyword: "
      case SearchResults => "{0} features found"
      case SearchNoResults => "No features found"
      case SearchPageInfo => "Page: {0}/{1} | Showing: {2}-{3}"
      case SearchInstructions => "↑↓: Select | ←→: Page | / or s: Search | Enter: Confirm | ESC/q: Exit"
      case SearchInstructionsSearch => "Searching: ↑↓ to select | ←→ for page | Enter: confirm | ESC: end search"
      case SearchInstructionsNoPage => "Number keys (1-{0}) for page jump"
      case SearchTryOtherKeywords => "Try other keywords or Ctrl+C to clear search"
      case SearchClearHint => " (Ctrl+C: Clear)")
    case BaselineText(m) =>
      (match m
      case BaselineTitle => "=== Baseline Target (By Year) ==="
      case BaselineNoFeatures => "No Baseline Target features in this year"
      case BaselineReturnToMenu => "Returning to menu."
      case BaselineYearSelection => "=== Baseline Target Year Selection ==="
      case BaselineFeatureList => "=== {0} Baseline Target Features ==="
      case BaselineYearNavigationInstructions => "↑↓: Navigate | Enter: Select | ESC: Back"
      case BaselineFeatureNavigationInstructions => "↑↓: Navigate | Enter: Details | ESC: Back to year selection")
    case DetailText(m) =>
      (match m
      case DetailTitle => "=== {0} Details ==="
      case DetailReturnPrompt => "Press Enter to return to menu: ")
    case CommonText(m) =>
      (match m
      case Exit => "Exiting."
      case Cancel => "Cancel"
      case Loading => "Loading..."
      case Error => "Error"
      case ReturnToMenu => "Return to menu"
      case PressEnterToContinue => "Press Enter to continue...")
    case ErrorText(m) =>
      (match m
      case ErrorApp => "Application error occurred:"
      case ErrorInvalidChoice => "Invalid choice. Please select 1-3."
      case ErrorNoSearchKeyword => "No search keyword entered."
      case ErrorInkNotAvailable => "Ink search+pagination feature is not available in this environment."
      case ErrorSwitchingToNormal => "Switching to normal search function...")
    case OtherText(m) =>
      (match m
      case Year => "year"
      case ResultsCount => "results"
      case Page => "page"
      case Displaying => "showing"
      case Jump => "jump"
      case Search => "search"
      case Select => "select"
      case Decision => "confirm"
      case Navigation => "navigate"
      case DirectJump => "direct")
  }

  /** `texts[lang][k]`: both tables give a text for every key. */
  function Template(lang: Language, k: TextKey): string
  {
    match lang
    case Ja => JaText(k)
    case En => EnText(k)
  }

  /** `texts[lang][name]`, for any property name. */
  function Lookup(lang: Language, name: string): (r: Option<string>)
    ensures r.Some? <==> KeyOf(name).Some?
    ensures r.Some? ==> r.value == Template(lang, KeyOf(name).value)
  {
    match KeyOf(name)
    case Some(k) => Some(Template(lang, k))
    case None => None
  }

  /** The property names the screens look up that `TextDefinitions` does
      not declare. */
  const MissingKeys: seq<string> := [
    "baselineAvailableYears",
    "baselineYearCount",
    "baselineScrollInstructions",
    "baselineFeatureCount",
    "recentBaselineTitle",
    "recentBaselineNavigationInstructions",
    "recentWidelyAvailable",
    "recentNewlyAvailable",
    "recentBaselineNoResults"
  ]

  /** A name's length and ninth character: enough to tell each missing
      name from every declared one. */
  function Tag(s: string): (nat, char)
  {
    (|s|, if |s| > 8 then s[8] else ' ')
  }

  const MissingTags: set<(nat, char)> := {(17, 'Y'), (19, 's'), (20, 'F'), (20, 'w'), (21, 'd'), (22, 'A'), (23, 's'), (26, 'S'), (36, 's')}

  lemma MissingKeysTagged(i: nat)
    requires i < |MissingKeys|
    ensures Tag(MissingKeys[i]) in MissingTags
  {
  }

  /** No declared key has a missing name's tag. */
  lemma NotAKeyName(k: TextKey)
    ensures Tag(KeyName(k)) !in MissingTags
  {
    match k
    case MainMenuText(m) => UntaggedMainMenu(m);
    case SearchText(m) => UntaggedSearch(m);
    case BaselineText(m) => UntaggedBaseline(m);
    case DetailText(m) => UntaggedDetail(m);
    case CommonText(m) => UntaggedCommon(m);
    case ErrorText(m) => UntaggedError(m);
    case OtherText(m) => UntaggedOther(m);
  }

  lemma UntaggedMainMenu(k: MainMenuKey)
    ensures Tag(MainMenuName(k)) !in MissingTags
  {
  }

  lemma UntaggedSearch(k: SearchKey)
    ensures Tag(SearchName(k)) !in MissingTags
  {
  }

  lemma UntaggedBaseline(k: BaselineKey)
    ensures Tag(BaselineName(k)) !in MissingTags
  {
  }

  lemma UntaggedDetail(k: DetailKey)
    ensures Tag(DetailName(k)) !in MissingTags
  {
  }

  lemma UntaggedCommon(k: CommonKey)
    ensures Tag(CommonName(k)) !in MissingTags
  {
  }

  lemma UntaggedError(k: ErrorKey)
    ensures Tag(ErrorName(k)) !in MissingTags
  {
  }

  lemma UntaggedOther(k: OtherKey)
    ensures Tag(OtherName(k)) !in MissingTags
  {
  }

  /** The missing names denote no key. */
  lemma MissingNamesUnknown(name: string)
    requires name in MissingKeys
    ensures KeyOf(name).None?
  {
    var i :| 0 <= i < |MissingKeys| && MissingKeys[i] == name;
    MissingKeysTagged(i);
    forall k ensures KeyName(k) != name {
      NotAKeyName(k);
    }
  }

  /** An argument of `t`: a string or an integer. */
  datatype Arg = Str(s: string) | Num(n: int)

  /** `String(arg)` */
  function ArgText(a: Arg): string
  {
    match a
    case Str(s) => s
    case Num(n) => IntToString(n)
  }

  /** The placeholder `{i}` of argument `i`. */
  function Placeholder(i: nat): (p: string)
    ensures |p| >= 3 && p[0] == '{' && p[|p| - 1] == '}'
    ensures forall k :: 1 <= k < |p| - 1 ==> IsDigit(p[k])
    ensures DigitsValue(p[1..|p| - 1]) == i
  {
    var digits := NatToString(i);
    DigitsValueOfNatToString(i);
    assert ("{" + digits + "}")[1..|digits| + 1] == digits;
    "{" + digits + "}"
  }

  /** The text after the `forEach` over `args`: argument `i` replaces the
      first `{i}` of the text left by arguments `0 .. i - 1`. */
  function Substitute(template: string, args: seq<Arg>): string
  {
    if args == [] then template
    else
      var i := |args| - 1;
      ReplaceFirst(Substitute(template, args[..i]), Placeholder(i), ArgText(args[i]))
  }

  /** The result of `t`: a text, `undefined` (an unknown name and no
      arguments), or a `TypeError` (an unknown name with arguments, from
      `undefined.replace`). */
  datatype Translation = Found(text: string) | Undefined | TypeError

  /** `t(name, ...args)` in language `lang`. */
  function Translate(lang: Language, name: string, args: seq<Arg>): (r: Translation)
    ensures r.Found? <==> KeyOf(name).Some?
    ensures r == Undefined <==> KeyOf(name).None? && args == []
    ensures r == TypeError <==> KeyOf(name).None? && args != []
  {
    match Lookup(lang, name)
    case None => if args == [] then Undefined else TypeError
    case Some(template) => Found(Substitute(template, args))
  }

  /** `t(name, ...args)`: the current language's template, then the
      replacement loop. */
  method T(config: Config, name: string, args: seq<Arg>) returns (r: Translation)
    ensures r == Translate(config.currentLanguage, name, args)
  {
    var lang := config.GetLanguage();
    var template := Lookup(lang, name);
    if template.None? {
      if |args| == 0 {
        return Undefined;
      }
      return TypeError;
    }
    var text := template.value;
    var i := 0;
    while i < |args|
      invariant 0 <= i <= |args|
      invariant text == Substitute(template.value, args[..i])
    {
      assert args[..i + 1][..i] == args[..i];
      text := ReplaceFirst(text, Placeholder(i), ArgText(args[i]));
      i := i + 1;
    }
    assert args[..i] == args;
    r := Found(text);
  }

  /** `getCurrentTexts()`: the table of the current language. */
  method GetCurrentTexts(config: Config) returns (texts: TextKey -> string)
    ensures forall k :: texts(k) == Template(config.currentLanguage, k)
  {
    var lang := config.GetLanguage();
    texts := k => Template(lang, k);
  }

  /** Looking up a missing name gives `undefined`, which is shown as
      nothing, or, with arguments, throws from `undefined.replace`, in
      either language. */
  lemma MissingKeysFail(lang: Language, i: nat, args: seq<Arg>)
    requires i < |MissingKeys|
    ensures args == [] ==> Translate(lang, MissingKeys[i], args) == Undefined
    ensures args != [] ==> Translate(lang, MissingKeys[i], args) == TypeError
  {
    MissingNamesUnknown(MissingKeys[i]);
  }

  /** With no arguments `t` returns the template unchanged. */
  lemma NoArgsIsTemplate(lang: Language, name: string)
    requires KeyOf(name).Some?
    ensures Translate(lang, name, []) == Found(Template(lang, KeyOf(name).value))
  {
  }

  /** Every declared key is found under its own name. */
  lemma EveryKeyNamed(k: TextKey)
    ensures KeyOf(KeyName(k)).Some?
  {
  }

  /** The English result count: `{0} features found` with the count in
      front. */
  lemma SearchResultsInEnglish(n: int)
    ensures Substitute(EnText(SearchText(SearchResults)), [Num(n)]) == IntToString(n) + " features found"
  {
    EnglishResultsTemplate();
    FirstArgumentAtStart(" features found", Num(n));
  }

  lemma EnglishResultsTemplate()
    ensures EnText(SearchText(SearchResults)) == Placeholder(0) + " features found"
  {
    PlaceholderDigit(0);
  }

  /** A text that starts with the pattern has that first occurrence
      replaced. */
  lemma ReplaceLeading(pat: string, rest: string, rep: string)
    ensures ReplaceFirst(pat + rest, pat, rep) == rep + rest
  {
    assert OccursAt(pat + rest, pat, 0);
    assert (pat + rest)[|pat|..] == rest;
  }

  /** Only the first `{i}` is replaced: a later `{i}` that does not
      overlap it stays in the text, shifted by the change in length. */
  lemma OnlyFirstOccurrenceReplaced(text: string, i: nat, a: Arg, j: nat)
    requires Contains(text, Placeholder(i))
    requires IndexOf(text, Placeholder(i)).value + |Placeholder(i)| <= j
    requires OccursAt(text, Placeholder(i), j)
    ensures OccursAt(ReplaceFirst(text, Placeholder(i), ArgText(a)), Placeholder(i), j - |Placeholder(i)| + |ArgText(a)|)
  {
    ReplaceFirstKeepsLater(text, Placeholder(i), ArgText(a), j);
  }

  /** An argument whose placeholder is not in the text left so far
      changes nothing. */
  lemma AbsentPlaceholderNoEffect(template: string, args: seq<Arg>, a: Arg)
    requires !Contains(Substitute(template, args), Placeholder(|args|))
    ensures Substitute(template, args + [a]) == Substitute(template, args)
  {
    assert (args + [a])[..|args|] == args;
  }

  /** A template without braces is returned as it is, whatever the
      arguments. */
  lemma {:induction false} NoPlaceholdersNoChange(template: string, args: seq<Arg>)
    requires '{' !in template
    ensures Substitute(template, args) == template
    decreases |args|
  {
    if args != [] {
      var i := |args| - 1;
      NoPlaceholdersNoChange(template, args[..i]);
    }
  }

  /** Substitution runs on the text built so far: a `{1}` inserted for
      `{0}` is the first `{1}` when argument 1 is substituted, so it is
      the one replaced, and a `{1}` of the template stays. */
  lemma SequentialSubstitution(rest: string, a: Arg)
    ensures Substitute(Placeholder(0) + rest, [Str(Placeholder(1)), a]) == ArgText(a) + rest
  {
    FirstArgumentAtStart(rest, Str(Placeholder(1)));
    SecondArgumentAtStart(Placeholder(0) + rest, Str(Placeholder(1)), a, rest);
  }

  /** When the first argument leaves `{1}` at the start, the second
      argument takes its place. */
  lemma SecondArgumentAtStart(template: string, first: Arg, a: Arg, rest: string)
    requires Substitute(template, [first]) == Placeholder(1) + rest
    ensures Substitute(template, [first, a]) == ArgText(a) + rest
  {
    var args := [first, a];
    assert args[..1] == [first];
    calc {
      Substitute(template, args);
      ReplaceFirst(Substitute(template, [first]), Placeholder(1), ArgText(a));
      { ReplaceLeading(Placeholder(1), rest, ArgText(a)); }
      ArgText(a) + rest;
    }
  }

  /** A placeholder without an argument stays as it is: with one
      argument, every `{1}` after a leading `{0}` is still there. */
  lemma UnmatchedPlaceholderKept(rest: string, a: Arg, j: nat)
    requires OccursAt(rest, Placeholder(1), j)
    ensures OccursAt(Substitute(Placeholder(0) + rest, [a]), Placeholder(1), |ArgText(a)| + j)
  {
    FirstArgumentAtStart(rest, a);
    var t, p := ArgText(a), Placeholder(1);
    assert j + |p| <= |rest| && rest[j..j + |p|] == p;
    var s := t + rest;
    assert s[|t|..] == rest;
    assert s[|t| + j..|t| + j + |p|] == rest[j..j + |p|];
  }

  /** A single argument replaces a leading `{0}`. */
  lemma FirstArgumentAtStart(rest: string, a: Arg)
    ensures Substitute(Placeholder(0) + rest, [a]) == ArgText(a) + rest
  {
    SubstituteLeading(Placeholder(0) + rest, [], a, rest);
    assert [] + [a] == [a];
  }

  /** When the text built so far starts with the next placeholder, the
      next argument takes its place. */
  lemma SubstituteLeading(template: string, args: seq<Arg>, a: Arg, rest: string)
    requires Substitute(template, args) == Placeholder(|args|) + rest
    ensures Substitute(template, args + [a]) == ArgText(a) + rest
  {
    SubstituteLast(template, args, a);
    ReplaceLeading(Placeholder(|args|), rest, ArgText(a));
  }

  /** One more argument replaces its placeholder in the text left by the
      others. */
  lemma SubstituteLast(template: string, args: seq<Arg>, a: Arg)
    ensures Substitute(template, args + [a]) == ReplaceFirst(Substitute(template, args), Placeholder(|args|), ArgText(a))
  {
    assert (args + [a])[..|args|] == args;
  }

  lemma PlaceholderDigit(i: nat)
    requires i < 10
    ensures Placeholder(i) == ['{', DigitChar(i), '}']
  {
  }
}
