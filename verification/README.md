# baseline-search core, modelled in Dafny

baseline-search is a terminal browser for the `web-features` dataset. Its
core consists of these parts:

- an Ink (React for the terminal) free-word search screen with pages of ten
  entries;
- the "Baseline Target" screens: a list of years, then the features that
  became newly available in a chosen year;
- a screen of the features whose Baseline status changed in the last 28 days;
- a readline search flow with numbered choices;
- the Ink main menu;
- a process-wide interface language, with the `t()` translation function
  that looks up a text and fills in its `{0}`, `{1}`, … placeholders.

Each screen's `useInput` handler is a pure transition function. It takes the
screen state and a key event. It returns the new state and whether the
screen exits with a selection (`Outcome`). The React effects that run after
a state change are also modelled:

- a new search term resets the page and the selection;
- a new page resets the selection;
- moving the selection moves the scroll window.

The components are classes whose fields are the `useState` variables. Each
class's `HandleKey` method updates those fields. Its `ensures` clause ties
the new fields to the transition function. Lemmas about that function prove
the following:

- the invariant the screen keeps (the selection stays on a visible row of a
  page that exists);
- the behaviour of each key.

The loading effects are methods with loops, proved against `Filter` and a
stable `Sort`:

- LoadYears collects the distinct years of the dated features;
- LoadFeaturesForYear collects the features of one year;
- LoadRecent collects the two groups of recent changes.

The modules are:

- `Text`: the JavaScript string operations used (`trim`, `toLowerCase`,
  `includes`, first-occurrence `replace`, `split`, `parseInt`, `String`).
- `Features`: the dataset record, `filter` and a stable `sort`.
- `Keys`: Ink's key event.
- `Paging`: the ten-entry pages.
- `ScrollList`: the scrolling picker that the three list screens share.
- `SearchPagination`, `BaselineTarget`, `RecentBaseline`, `ReadlineSearch`,
  `MainMenu`, `LanguageConfig`, `I18n`: one module per source file.

In `I18n` a key of `TextDefinitions` is a section of the interface (main
menu, search screen, Baseline Target screens, detail screen, shared texts,
error messages, other words) together with a key of that section.

## Model

| member | source | states |
|---|---|---|
| Text.TrimStart | features/search-features.ts:13 | the result is a suffix that starts with no white space, and what was removed is all white space |
| Text.TrimEnd | features/search-features.ts:13 | the result is a prefix that ends with no white space, and what was removed is all white space |
| Text.Trim | features/search-features.ts:13 | `trim()` returns the infix of its input left after removing white space around it, and a non-empty result neither starts nor ends with white space |
| Text.TrimEmptyIffBlank | features/ink-search-pagination.tsx:31 | `keyword.trim()` is empty exactly when the keyword is all white space |
| Text.Lower | features/ink-search-pagination.tsx:33 | `toLowerCase` keeps the length and lowers each character |
| Text.IndexOf | features/search-features.ts:69 | the index found is the first occurrence of the pattern; `None` means there is none |
| Text.Contains | features/search-features.ts:69 | `includes` as a first-occurrence search that finds something (characterised by ContainsIffOccurs) |
| Text.ContainsIffOccurs | features/search-features.ts:69 | `includes` holds exactly when the pattern occurs at some index |
| Text.ReplaceFirst | features/i18n.ts:203 | `replace` with a string pattern changes only the first occurrence; with no occurrence the text is unchanged |
| Text.ReplaceFirstKeepsLater | features/i18n.ts:203 | a later occurrence that does not overlap the first survives the replacement, shifted by the length change |
| Text.StripLeading | features/ink-baseline-target.tsx:42-44 | `startsWith("≤")` then `substring(1)` removes exactly one leading `≤` and nothing otherwise |
| Text.BeforeFirst | features/ink-baseline-target.tsx:39 | `split("-")[0]` is the longest prefix without `-`, followed in the input by `-` when it is shorter |
| Text.LeadingDigits | features/search-features.ts:136 | the digit run `parseInt` reads is a maximal prefix of digits |
| Text.NatToString | features/i18n.ts:203 | `String(n)` of a natural number is a non-empty run of digits with no leading zero |
| Text.IntToString | features/i18n.ts:203 | `String(n)` is non-empty, starts with `-` exactly when n is negative, and is digits after that sign |
| Text.DigitsValueOfNatToString | features/i18n.ts:203 | reading the decimal digits of `String(n)` gives `n` back |
| Text.ParseInt | features/search-features.ts:136 | `parseInt(s)`: optional leading white space, an optional sign, then the longest run of decimal digits; `None` (NaN) when that run is empty |
| Text.ParseIntOfIntToString | features/search-features.ts:136 | `parseInt(String(n)) == n` for every integer |
| Features.Filter | features/ink-baseline-target.tsx:104-120 | `filter` keeps, in order, exactly the elements satisfying the predicate |
| Features.FilterCounts | features/ink-search-pagination.tsx:35-44 | each element occurs in `filter`'s result as often as in the input when it matches, and never otherwise |
| Features.FilterAppend | features/ink-baseline-target.tsx:199-216 | filtering a list with one more element adds that element exactly when it satisfies the predicate |
| Features.FilterPrefixStep | features/ink-baseline-target.tsx:212-214 | one `push` step of a loop is the filter of a prefix one element longer |
| Features.FilterMonotone | features/search-features.ts:67-84 | a filter with a weaker predicate keeps everything a stronger one keeps, in the same order |
| Features.Insert | features/ink-baseline-target.tsx:219-223 | inserting adds exactly one element (as a multiset) |
| Features.InsertSorted | features/ink-baseline-target.tsx:219-223 | inserting into a sorted list under a total preorder keeps it sorted |
| Features.Sort | features/ink-baseline-target.tsx:219-223 | `sort` returns a sorted permutation of its input and is stable: the elements of each class of equal keys keep their input order |
| Features.FilterInsert | features/ink-baseline-target.tsx:219-223 | inserting x before its equals leaves every filter that only takes elements equal to x as if x had been put first |
| Features.InsertKeepsOrder | features/ink-baseline-target.tsx:219-223 | one insertion step keeps the input order of every class of equal elements |
| Features.KeyTies | features/ink-baseline-target.tsx:222 | two elements tie under an ascending or descending key comparator exactly when their keys are equal |
| Features.SameElements | features/ink-baseline-target.tsx:219-223 | a permutation has exactly the same elements |
| Features.LexLeTotal | features/ink-baseline-target.tsx:222 | the string order `localeCompare` induces on ISO dates is total |
| Features.LexLeTransitive | features/ink-baseline-target.tsx:222 | … and transitive |
| Features.LexLeAntisymmetric | features/ink-baseline-target.tsx:222 | … and antisymmetric: two strings tie only when they are equal |
| Features.CollationRank | features/ink-baseline-target.tsx:222 | the collation weight of a character: its code, except that `≤` sorts after `-` and before every digit |
| Features.LessEqualSignFirst | features/ink-baseline-target.tsx:219-223 | a date written with a leading `≤` sorts before any string that starts with a digit |
| Features.AscendingIsPreorder | features/ink-baseline-target.tsx:219-223 | the comparator `dateA.localeCompare(dateB)` is a total preorder |
| Features.DescendingIsPreorder | features/ink-recent-baseline.tsx:68-78 | the comparator `dateB.localeCompare(dateA)` is a total preorder |
| Paging.TotalPages | features/ink-search-pagination.tsx:49 | `Math.ceil(n / 10)`: the fewest pages of ten that hold n entries, zero exactly when n is zero |
| Paging.PageEnd | features/search-features.ts:101 | `Math.min(start + 10, n)` |
| Paging.Slice | features/ink-search-pagination.tsx:52 | `slice(start, end)` holds the entries `start .. end - 1`, in order |
| Paging.Page | features/ink-search-pagination.tsx:50-52 | page p holds at most ten entries, entry k being entry `10p + k` of the list; it is non-empty exactly when p < totalPages, and full when it is not the last page |
| Paging.PageOfIndex | features/ink-search-pagination.tsx:50-52 | every entry of the list appears on page `i / 10` at row `i % 10` |
| SearchPagination.Handle | features/ink-search-pagination.tsx:80-167 | the `useInput` handler as a transition: the state after the setters it calls and the exit (its cases are the lemmas below) |
| SearchPagination.Step | features/ink-search-pagination.tsx:47-63 | the handler followed by the reset effects |
| SearchPagination.Next | features/ink-search-pagination.tsx:47-167 | one key press on the list the current term shows |
| SearchPagination.NextIsHandleThenEffects | features/ink-search-pagination.tsx:47-167 | a key press is the handler's result with the effects applied, and keeps the screen invariant |
| SearchPagination.SearchFeatures | features/ink-search-pagination.tsx:30-45 | a blank keyword gives every entry; otherwise exactly the entries whose key, or (for kind `feature`) name, contains the lowered keyword, in dataset order, each as often as in the dataset |
| SearchPagination.SearchBlankIsAll | features/ink-search-pagination.tsx:31 | a keyword of white space only shows the whole dataset |
| SearchPagination.DropLast | features/ink-search-pagination.tsx:149 | `slice(0, -1)` drops exactly the last character, and keeps the empty term empty |
| SearchPagination.ApplyEffects | features/ink-search-pagination.tsx:55-63 | a changed search term resets page and selection, a changed page resets the selection, and nothing else changes |
| SearchPagination.InitialConsistent | features/ink-search-pagination.tsx:14-18 | the mounted screen (empty term, page 0, row 0) satisfies the screen invariant |
| SearchPagination.StepConsistent | features/ink-search-pagination.tsx:80-167 | a key press that keeps the term keeps the invariant on the same list; one that changes it lands on row 0 of page 0 |
| SearchPagination.NextConsistent | features/ink-search-pagination.tsx:80-167 | every key press keeps the invariant: the page exists (or is 0) and the selection is a row of a non-empty page, or 0 or -1 on an empty one |
| SearchPagination.ArrowsClamp | features/ink-search-pagination.tsx:121-131 | up and down move the selection by one and keep it on a row of a non-empty page; down on an empty page gives -1 |
| SearchPagination.PageArrows | features/ink-search-pagination.tsx:133-143 | left and right move one page only within `[0, totalPages - 1]`, selecting the first row |
| SearchPagination.DigitJumps | features/ink-search-pagination.tsx:153-166 | a digit 1-9 jumps to page d-1 when it exists, in search mode too, and is never typed into the term |
| SearchPagination.EscapeAndQuit | features/ink-search-pagination.tsx:81-97 | Escape leaves search mode; outside it Escape or `q` exits cancelled with no feature; in search mode `q` is typed |
| SearchPagination.EnterSelects | features/ink-search-pagination.tsx:99-105 | Enter exits with the selected row of the page, an entry of the result list, exactly when the page is non-empty |
| SearchPagination.EditSearchTerm | features/ink-search-pagination.tsx:113-156 | in search mode, Backspace and Delete drop the last character, any other character that is not a digit 1-9 (`q`, `/` and `s` included) is appended and shows page 0 row 0, Ctrl+C clears the term and leaves search mode |
| SearchPagination.SearchScreen.constructor | features/ink-search-pagination.tsx:14-27 | the screen starts with an empty term on page 0, row 0, not in search mode |
| SearchPagination.SearchScreen.OnInput | features/ink-search-pagination.tsx:80-167 | the fields after the handler are the ones the transition function gives |
| SearchPagination.SearchScreen.HandleKey | features/ink-search-pagination.tsx:47-63 | handler then effects: the new fields and the exit are those of `Next`, and the invariant holds again |
| ScrollList.Handle | features/ink-baseline-target.tsx:245-274 | the list screens' `useInput` handler as a transition (its cases are the lemmas below) |
| ScrollList.Next | features/ink-recent-baseline.tsx:88-128 | the handler followed by the scroll effect |
| ScrollList.ScrollWindow | features/ink-baseline-target.tsx:59-72 | the window start is clamped to `[0, max(0, n - 10)]` and the selected row always lies within the ten visible rows |
| ScrollList.ShownRangeCoversSelection | features/ink-baseline-target.tsx:334-341 | the "showing first-last" hint includes the selected row and never exceeds the list |
| ScrollList.ApplyScroll | features/ink-baseline-target.tsx:229-241 | the scroll effect runs only when the selection changes on a non-empty list, and then sets the window that follows it |
| ScrollList.InitialConsistent | features/ink-baseline-target.tsx:189-191 | the mounted picker (row 0, window 0) satisfies the picker invariant |
| ScrollList.NextConsistent | features/ink-baseline-target.tsx:245-274 | every key keeps the selection on a row inside the visible window (0 or -1 on an empty list) |
| ScrollList.EscapeCancels | features/ink-baseline-target.tsx:246-249 | Escape exits cancelled with nothing selected |
| ScrollList.EnterSelects | features/ink-baseline-target.tsx:251-262 | Enter exits with the selected item on a non-empty list and does nothing on an empty one |
| ScrollList.ArrowsClamp | features/ink-baseline-target.tsx:264-274 | up and down move by one within the list; on an empty list down gives -1 and up gives 0 |
| ScrollList.Picker.constructor | features/ink-recent-baseline.tsx:23-24 | a picker starts at row 0 with the window at 0 |
| ScrollList.Picker.Visible | features/ink-baseline-target.tsx:305-308 | the rendered rows are the ten (or fewer) items from the window start, and include the selected item |
| ScrollList.Picker.HandleKey | features/ink-recent-baseline.tsx:88-128 | the new selection, window and exit are those of `Next`, and the picker invariant holds again |
| BaselineTarget.YearOf | features/ink-baseline-target.tsx:39-44 | the year of a date: the text before the first `-`, without a leading `≤` (see YearOfDate) |
| BaselineTarget.YearBefore | features/ink-baseline-target.tsx:50-53 | the comparator `parseInt(b) - parseInt(a) <= 0`: newer numeric years first (see YearBeforeIsPreorder) |
| BaselineTarget.FeatureCountForYear | features/ink-baseline-target.tsx:103-120 | `getFeatureCountForYear` is at most the dataset size, and zero exactly when no entry lies in the year |
| BaselineTarget.BeforeFirstOfJoin | features/ink-baseline-target.tsx:39 | `split("-")[0]` of `y-rest` is `y` when `y` has no `-` |
| BaselineTarget.YearOfDate | features/ink-baseline-target.tsx:39-44 | the year of `YYYY-…` and of `≤YYYY-…` is `YYYY` |
| BaselineTarget.YearBeforeIsPreorder | features/ink-baseline-target.tsx:50-53 | the comparator `parseInt(b) - parseInt(a)` orders years newest first as a total preorder |
| BaselineTarget.LoadYears | features/ink-baseline-target.tsx:30-56 | the year list holds each year of a dated `feature` entry exactly once, and no other string, sorted newest first |
| BaselineTarget.CollectYear | features/ink-baseline-target.tsx:196-216 | the pushing loop collects exactly the dated `feature` entries of the year, in dataset order |
| BaselineTarget.LoadFeaturesForYear | features/ink-baseline-target.tsx:196-226 | the list is a permutation of those entries, as long as `getFeatureCountForYear(year)`, sorted by low date ascending, entries with the same low date in dataset order |
| BaselineTarget.OpenYearSelection | features/ink-baseline-target.tsx:20-56 | the mounted year screen lists those years and starts at the first row |
| BaselineTarget.OpenFeatureSelection | features/ink-baseline-target.tsx:185-226 | the mounted feature screen lists a permutation of the year's features, as many as the year screen counted, sorted stably by low date, starting at the first row |
| RecentBaseline.DaysFromCivilNextDay | features/ink-recent-baseline.tsx:45 | consecutive days of a month get consecutive day numbers |
| RecentBaseline.EpochIsDayZero | features/ink-recent-baseline.tsx:45 | 1970-01-01 is day 0 of the epoch |
| RecentBaseline.ParseIsoDate | features/ink-recent-baseline.tsx:45 | a string parses exactly when it is four digits, `-`, two digits, `-`, two digits with month 1-12 and day 1-31, and then to the day number of that year, month and day |
| RecentBaseline.DaysInMonth | features/ink-recent-baseline.tsx:45 | months have 28 to 31 days, and February has 29 exactly in a Gregorian leap year |
| RecentBaseline.DaysFromCivilNextMonth | features/ink-recent-baseline.tsx:45 | the day after the last day of a month is the 1st of the next month, with February's length by the leap rule |
| RecentBaseline.DaysFromCivilNewYear | features/ink-recent-baseline.tsx:45 | the day after December 31st is January 1st of the next year |
| RecentBaseline.MarchYearLength | features/ink-recent-baseline.tsx:45 | a year counted from March 1st has 366 days exactly when the next calendar year is a leap year |
| RecentBaseline.DigitsAtValues | features/ink-recent-baseline.tsx:45 | the year, month and day fields are digit runs exactly when every field character is a digit, and have the positional values |
| RecentBaseline.IsRecent | features/ink-recent-baseline.tsx:37-63 | a date, `≤` removed, that parses and lies in `[now - 28 days, now]` (in whole days: RecentDays) |
| RecentBaseline.ParseExampleDate | features/ink-recent-baseline.tsx:45 | `new Date("2024-03-01")` is the day 2024-03-01 |
| RecentBaseline.RecentDays | features/ink-recent-baseline.tsx:29-30 | the 28-day window `[now - 28 days, now]` holds, in whole days, `today-28 .. today` at midnight and `today-27 .. today` otherwise |
| RecentBaseline.CollectRecent | features/ink-recent-baseline.tsx:32-65 | the loop pushes exactly the entries with a recent high date, and exactly those with a recent low date, in dataset order |
| RecentBaseline.LoadRecent | features/ink-recent-baseline.tsx:28-82 | each group is a permutation of its recent entries, sorted by its date (with `≤` removed), newest first, entries with the same date in dataset order |
| RecentBaseline.SectionSplit | features/ink-recent-baseline.tsx:130-135 | row i of the combined list is row i of the widely available group when i is below its length, else row `i - len` of the newly available group, and it shows that group's date |
| RecentBaseline.OneFeatureInBothGroups | features/ink-recent-baseline.tsx:35-63 | a feature whose two dates are both recent appears twice in the combined list |
| RecentBaseline.OpenRecent | features/ink-recent-baseline.tsx:14-84 | the mounted screen lists the widely available group then the newly available one, each a stably sorted permutation of its recent entries, starting at the first row |
| ReadlineSearch.SearchFeatures | features/search-features.ts:64-85 | the results are exactly the entries whose key, or (for kind `feature`) name or description, contains the lowered keyword, in dataset order, each as often as in the dataset |
| ReadlineSearch.InkResultsWithinReadlineResults | features/search-features.ts:64-85 | for a non-blank keyword, the Ink screen's results are an ordered sub-list of the readline results |
| ReadlineSearch.Step | features/search-features.ts:12-158 | one answered prompt of the flow: keyword, no-results menu, results page or detail view |
| ReadlineSearch.NoResultsChoice | features/search-features.ts:44-57 | the no-results menu's `switch (choice.trim())` |
| ReadlineSearch.View | features/search-features.ts:100-124 | the page shown from `start` (see ViewIsPage) |
| ReadlineSearch.ResultsChoice | features/search-features.ts:126-158 | the results page's answer, trimmed, then dispatched by AnswerChoice: Enter, a number, or anything else |
| ReadlineSearch.NumberChoice | features/search-features.ts:136-158 | the dispatch on the number read |
| ReadlineSearch.Perform | features/search-features.ts:26-62 | the no-results menu is shown exactly when nothing matches, otherwise the first page |
| ReadlineSearch.ReadKeyword | features/search-features.ts:12-23 | a blank line asks again; otherwise the trimmed keyword is searched |
| ReadlineSearch.NoResultsChoices | features/search-features.ts:44-57 | `1` searches again, `2` goes back, any other line repeats the same search |
| ReadlineSearch.ViewIsPage | features/search-features.ts:100-124 | page `floor(start/10)+1` of `ceil(n/10)` shows the entries from `start`, the same as the Ink screen's page; Enter is offered exactly before the last page |
| ReadlineSearch.ResultsChoiceReachable | features/search-features.ts:126-158 | a choice leads to a page at a multiple of ten within the results, a detail view of a result that returns here, the prompt, or back |
| ReadlineSearch.NumberChoiceReachable | features/search-features.ts:136-158 | the numbered choices keep the keyword and only open entries of the results |
| ReadlineSearch.StepKeepsReachable | features/search-features.ts:12-158 | every answered prompt leads to a screen that again satisfies the flow invariant |
| ReadlineSearch.NumberedChoices | features/search-features.ts:136-158 | with surrounding white space, `k` opens the k-th entry, `len+1` searches again, `len+2` goes back, any other number shows the page again |
| ReadlineSearch.ChoiceIsNumber | features/search-features.ts:136 | a non-empty line that reads as a number is dispatched on that number |
| ReadlineSearch.EmptyChoice | features/search-features.ts:130-134 | an empty line turns the page when there is a next one, and otherwise shows the same page |
| ReadlineSearch.TrimPadded | features/search-features.ts:127 | `trim` removes exactly the white space around a word |
| MainMenu.Handle | features/ink-main-menu.tsx:19-50 | the menu's `useInput` handler as a transition (its cases are the lemmas below) |
| MainMenu.MenuKeysArePositions | features/ink-main-menu.tsx:13-17 | the three items are numbered 1, 2, 3 in order |
| MainMenu.HandleKeepsSelection | features/ink-main-menu.tsx:19-50 | the selection always stays on one of the three items |
| MainMenu.EscapeOrQCancels | features/ink-main-menu.tsx:20-24 | Escape or `q` exits cancelled with no choice |
| MainMenu.ArrowsClamp | features/ink-main-menu.tsx:26-34 | up and down move by one, stopping at the first and last item |
| MainMenu.EnterChoosesSelected | features/ink-main-menu.tsx:36-41 | Enter chooses the selected item's number, `selectedIndex + 1` |
| MainMenu.DigitChooses | features/ink-main-menu.tsx:43-49 | typing 1, 2 or 3 chooses that item whatever is selected |
| MainMenu.OtherInputIgnored | features/ink-main-menu.tsx:19-50 | any other input changes nothing and does not exit |
| MainMenu.Menu.constructor | features/ink-main-menu.tsx:10 | the menu starts on the first item |
| MainMenu.Menu.HandleKey | features/ink-main-menu.tsx:19-50 | the new selection and the exit are those of the transition function, and the selection stays on an item |
| LanguageConfig.Config.constructor | features/language-config.ts:3 | the language is English until set |
| LanguageConfig.Config.SetLanguage | features/language-config.ts:5-7 | the language becomes the one given |
| LanguageConfig.Config.GetLanguage | features/language-config.ts:9-11 | returns the current language |
| LanguageConfig.SetThenGet | features/language-config.ts:3-11 | a fresh setting reads English, and after setting a language reads it back |
| LanguageConfig.ParseLanguageFromArgs | features/language-config.ts:13-25 | Japanese exactly when `--ja` is among the user's arguments and `--en` is not |
| LanguageConfig.OnlyUserArgsCount | features/language-config.ts:14 | the runtime and script paths are never read as flags |
| LanguageConfig.FlagPrecedence | features/language-config.ts:16-24 | `--en` wins over `--ja`, and no flag means English |
| I18n.AllKeysComplete | features/i18n.ts:3-65 | the key list holds every declared key |
| I18n.FindKey | features/i18n.ts:199 | the key found has the name looked up; `None` means no key in the list has it |
| I18n.KeyOf | features/i18n.ts:199 | a name denotes a key exactly when some declared key has that name |
| I18n.EveryKeyNamed | features/i18n.ts:3-65 | every declared key is found under its own name |
| I18n.Lookup | features/i18n.ts:67-199 | `texts[lang][name]` is defined exactly for declared names, and is that language's text |
| I18n.NotAKeyName | features/i18n.ts:3-65 | no declared key's name has the length and ninth character of any name the baseline and recent screens look up but the tables lack |
| I18n.MissingNamesUnknown | features/ink-recent-baseline.tsx:160-204 | those names denote no key |
| I18n.MissingKeysFail | features/ink-baseline-target.tsx:139-174 | `t` of such a name is `undefined` without arguments and throws with arguments, in both languages |
| I18n.Placeholder | features/i18n.ts:203 | the placeholder of argument i is `{`, a run of digits whose decimal value is i, then `}` |
| I18n.Translate | features/i18n.ts:197-207 | a text for a declared name; for an unknown name `undefined` without arguments and a `TypeError` with them |
| I18n.T | features/i18n.ts:197-207 | the replacement loop over the arguments computes `Translate` in the current language |
| I18n.GetCurrentTexts | features/i18n.ts:209-211 | the table returned is the current language's, key by key |
| I18n.NoArgsIsTemplate | features/i18n.ts:199-206 | without arguments `t` returns the text as it is in the table |
| I18n.SearchResultsInEnglish | features/i18n.ts:146 | in English the result count reads `n features found` |
| I18n.ReplaceLeading | features/i18n.ts:203 | a text that starts with the pattern has that occurrence replaced |
| I18n.OnlyFirstOccurrenceReplaced | features/i18n.ts:202-204 | only the first `{i}` is replaced; a later one stays |
| I18n.AbsentPlaceholderNoEffect | features/i18n.ts:202-204 | an argument whose placeholder is not in the text changes nothing |
| I18n.NoPlaceholdersNoChange | features/i18n.ts:202-204 | a text without `{` is returned as it is, whatever the arguments |
| I18n.Substitute | features/i18n.ts:202-204 | the `forEach` replacement loop: argument i replaces the first `{i}` of the text left by arguments 0 .. i-1 (its properties are the lemmas below) |
| I18n.FirstArgumentAtStart | features/i18n.ts:202-204 | one argument replaces a leading `{0}` |
| I18n.SequentialSubstitution | features/i18n.ts:202-204 | a `{1}` inserted by argument 0 is the one argument 1 replaces |
| I18n.UnmatchedPlaceholderKept | features/i18n.ts:202-204 | a placeholder without an argument stays in the text |
| I18n.PlaceholderDigit | features/i18n.ts:203 | for i < 10 the placeholder is the three characters `{`, the digit, `}` |

## Left out

- Rendering is not modelled: the Ink `Box`/`Text` trees, colours, and the
  blinking search cursor (features/ink-search-pagination.tsx:65-77, a 500 ms
  timer).
- The dataset is an input: `web-features` is a list of `Feature` values
  given to each operation.
- The system clock is an input: `new Date()` in the recent screen is the
  parameter `nowMs`.
- `render`, `useApp().exit()` and the `start…` entry points are left out;
  each component's exit is the `Outcome` its handler returns.
- The detail screens (ink-feature-detail.tsx, show-feature-detail.ts), the
  wrappers and main.ts are not part of this model. In the readline flow a
  detail view is a screen whose next answer returns to the page it was
  opened from.
- The readline flow's callbacks and `console` output are left out; the flow
  is a state machine over answered prompts.
- RecentBaseline.ParseIsoDate: only the `YYYY-MM-DD` form is modelled, with
  month 1-12 and day 1-31; a day past the end of its month counts on into
  the next month. The other forms `new Date` accepts are not modelled.
- SearchPagination.DropLast, and the model's strings in general: a string
  is a sequence of Unicode scalar values, not of UTF-16 code units. For a
  term ending in a character outside the Basic Multilingual Plane (an
  emoji, say), `slice(0, -1)` removes half of its surrogate pair while the
  model removes the whole character; `.length`, `includes` and
  `toLowerCase` likewise count and compare code units in JavaScript.
- Text.Lower lowers only ASCII letters. JavaScript's `toLowerCase` also
  covers the rest of Unicode.
- Features.LexLe stands in for `localeCompare`. It compares character by
  character by CollationRank: character code, except that `≤` sorts before
  the digits as in the ICU root collation. Full ICU collation (multi-level
  weights, ignorable characters) is not modelled; the keys compared are ISO
  dates, possibly with a leading `≤`.
- Text.ParseInt reads optional leading white space, a sign and decimal
  digits. Hexadecimal prefixes and other radixes are not modelled.
- Text.ReplaceFirst treats the replacement literally. The `$` patterns of
  `String.prototype.replace` are not modelled; `String(arg)` of an integer
  contains no `$`.
- I18n.Arg takes strings and integers only; `String()` of other numbers is
  not modelled.
- BaselineTarget.YearBefore: when `parseInt` gives `NaN`, the comparator
  returns `NaN` and the engine's order is implementation-defined. The model
  places such years after every numeric year.
- The Ink runtime may handle Ctrl+C itself before the handler sees it; the
  model passes every key to the handler.
- The `keyof TextDefinitions` type of `t` is not enforced at run time. The
  model lets any string be looked up and states what happens for undeclared
  ones. Only the tables' own keys are modelled: a name inherited from
  `Object.prototype` (`toString`, `constructor`, `__proto__`) would find an
  inherited value in JavaScript but counts as undeclared here. The screens
  never pass such a name.
