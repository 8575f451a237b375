# mock4idea in Dafny

This project models the editing logic of mock4idea. mock4idea is an IntelliJ
plugin that rewrites Java test code around Mockito. The model covers:

- **The chain-stub intention.** It applies to `T x = a.b().c();`. The
  declaration is replaced by one mock per intermediate call result; each mock
  is stubbed to return the next one, and a final stub returns `x`.
- **The single-declaration stub intention.** `T x = <init>;` becomes a mock
  declaration of `x` plus `when(<init>).thenReturn(x);`.
- **The verify intention.** `receiver.method(args);` becomes
  `verify(receiver).method(args);`.
- **The create-test intention.** It creates `<Name>Test.java` in the matching
  package directory of a test root. The file holds one `@Mock` field per
  constructor dependency and an `@InjectMocks` field for the class under test.
- **The settings store.** It holds the type-to-mock-expression rules and
  back-fills the nine defaults.
- **The settings page.** It edits those rules as table rows, then validates
  and saves them.

Editor and PSI objects are records (`Psi`): calls, expressions, local
variables, statements and imports. Each call records only what the plugin
reads from it: its text, its method name, its argument text, its type,
whether it resolves to a static method, and its qualifier. Text the plugin
generates is a string or a sequence of strings.

Each intention's structure follows its own source file:

- Pure decisions are functions. Examples: the transform data, the generated
  names, the import decisions, the context class.
- Code that changes things step by step is an imperative method. This covers
  the rule store (a class whose `rules` field is reassigned), the settings
  table (a class with a `rows` field), the chain transform's naming loop, and
  the package-directory walk over a mutable directory tree.

Modules:

- `Wrappers`, `Strings`, `Sequences`: shared helpers.
- `Psi`: the PSI records.
- `Intentions`: logic the three editing intentions each carry a copy of.
- `Settings`, `Configurable`, `MockChain`, `MockStatement`, `VerifyMethod`:
  one module per source file.
- `CamelCase`: the word splitter behind the test subject's name.
- `CreateTest`: the create-test intention.

## Model

| member | source | states |
|---|---|---|
| Strings.TrimEmptyIffBlank | src/main/kotlin/io/github/sibmaks/mock4idea/MockingConfigurable.kt:99-101 | a cell trims to empty exactly when it is blank |
| Strings.TrimIdempotent | src/main/kotlin/io/github/sibmaks/mock4idea/MockingConfigurable.kt:99-100 | trimming twice is trimming once; a trimmed non-empty cell starts and ends with a non-whitespace character |
| Strings.TrimOfTrimmed | src/main/kotlin/io/github/sibmaks/mock4idea/MockingConfigurable.kt:99-100 | a cell with no whitespace at either end is left as it is |
| Strings.TrimStartFacts | src/main/kotlin/io/github/sibmaks/mock4idea/MockingConfigurable.kt:99-100 | dropping leading whitespace yields a suffix that is empty or starts with a non-whitespace character, and everything dropped was whitespace |
| Strings.TrimEndFacts | src/main/kotlin/io/github/sibmaks/mock4idea/MockingConfigurable.kt:99-100 | dropping trailing whitespace yields a prefix that is empty or ends with a non-whitespace character, and everything dropped was whitespace |
| Strings.UpperFirst | src/main/kotlin/io/github/sibmaks/mock4idea/MockChainIntention.kt:208-211 | only the first character changes, to its upper case |
| Strings.LowerFirst | src/main/kotlin/io/github/sibmaks/mock4idea/CreateMockitoTestIntention.kt:169 | only the first character changes, to its lower case |
| Strings.NatToString | src/main/kotlin/io/github/sibmaks/mock4idea/MockChainIntention.kt:197 | the decimal suffix is non-empty and made of digits |
| Strings.NatToStringInjective | src/main/kotlin/io/github/sibmaks/mock4idea/MockChainIntention.kt:195-199 | different counters give different suffixes |
| Strings.Split | src/main/kotlin/io/github/sibmaks/mock4idea/CreateMockitoTestIntention.kt:218 | a package name splits into at least one segment, and no segment contains a dot |
| Strings.SplitJoin | src/main/kotlin/io/github/sibmaks/mock4idea/CreateMockitoTestIntention.kt:218 | joining the segments with dots gives the package name back |
| Sequences.Reverse | src/main/kotlin/io/github/sibmaks/mock4idea/MockChainIntention.kt:148 | the reversed list holds element `k` at position `n-1-k` |
| Sequences.InsertDescending | src/main/kotlin/io/github/sibmaks/mock4idea/MockingConfigurable.kt:47 | inserting into a descending list keeps it descending and adds exactly that element |
| Sequences.SortDescending | src/main/kotlin/io/github/sibmaks/mock4idea/MockingConfigurable.kt:47 | `sortedDescending` returns a descending permutation of its input |
| Psi.Locals | src/main/kotlin/io/github/sibmaks/mock4idea/MockStatementIntention.kt:92 | the locals among a declaration's declared elements: a local is kept exactly when it was declared, and nothing is added |
| Settings.MockingSettingsService.constructor | src/main/kotlin/io/github/sibmaks/mock4idea/MockingSettingsService.kt:21-25 | a new store holds the default rules |
| Settings.PrimitiveTypes | src/main/kotlin/io/github/sibmaks/mock4idea/MockingSettingsService.kt:61-63 | the eight Java primitive type names a rule type may be instead of a qualified name |
| Settings.DefaultRules | src/main/kotlin/io/github/sibmaks/mock4idea/MockingSettingsService.kt:65-77 | the nine built-in rules, `java.lang.String` first and then the primitives, in back-fill order |
| Settings.MockingSettingsService.LoadState | src/main/kotlin/io/github/sibmaks/mock4idea/MockingSettingsService.kt:29-32 | a loaded state is kept and then back-filled with the missing defaults |
| Settings.MockingSettingsService.GetRules | src/main/kotlin/io/github/sibmaks/mock4idea/MockingSettingsService.kt:34-37 | the rules are back-filled and returned; every default type is present afterwards; a list that already has them all is left unchanged |
| Settings.MockingSettingsService.SetRules | src/main/kotlin/io/github/sibmaks/mock4idea/MockingSettingsService.kt:39-41 | the list is stored as given, with no back-fill |
| Settings.MockingSettingsService.ResolveMockExpression | src/main/kotlin/io/github/sibmaks/mock4idea/MockingSettingsService.kt:43-48 | the rules are back-filled, then the answer is the first rule for the type, and only if its expression is not blank |
| Settings.MockingSettingsService.EnsureDefaults | src/main/kotlin/io/github/sibmaks/mock4idea/MockingSettingsService.kt:50-58 | the new list is the old one plus its missing defaults; it then has every default type; a complete list is untouched |
| Settings.MockingSettingsService.AppendMissing | src/main/kotlin/io/github/sibmaks/mock4idea/MockingSettingsService.kt:51-57 | the loop appends, in order, each default whose type is not yet present, counting types added earlier in the same loop |
| Settings.SetThenGet | src/main/kotlin/io/github/sibmaks/mock4idea/MockingSettingsService.kt:34-41 | reading after `setRules(rs)` gives `rs` followed by the defaults whose types `rs` lacks |
| Settings.DefaultTypesDistinct | src/main/kotlin/io/github/sibmaks/mock4idea/MockingSettingsService.kt:65-77 | there are nine defaults, all for different types |
| Settings.DefaultsWellFormed | src/main/kotlin/io/github/sibmaks/mock4idea/MockingSettingsService.kt:61-77 | every default type is primitive or qualified, and no default expression is blank |
| Settings.MissingDefaultsIgnores | src/main/kotlin/io/github/sibmaks/mock4idea/MockingSettingsService.kt:51-57 | marking a type as seen changes nothing when no default has that type |
| Settings.BackfillIsMissingDefaults | src/main/kotlin/io/github/sibmaks/mock4idea/MockingSettingsService.kt:50-58 | the loop, which updates the seen set as it goes, adds the same rules as one filter over the defaults |
| Settings.BackfillAddsOnlyMissing | src/main/kotlin/io/github/sibmaks/mock4idea/MockingSettingsService.kt:50-58 | only defaults whose types were absent are added, and never two for one type |
| Settings.BackfillCovers | src/main/kotlin/io/github/sibmaks/mock4idea/MockingSettingsService.kt:50-58 | after the back-fill, every default type is present |
| Settings.BackfillNothingMissing | src/main/kotlin/io/github/sibmaks/mock4idea/MockingSettingsService.kt:50-58 | when every default type is already present, nothing is added |
| Settings.BackfillStep | src/main/kotlin/io/github/sibmaks/mock4idea/MockingSettingsService.kt:52-57 | one iteration adds the current default exactly when its type is unseen |
| Settings.TypeSetAppend | src/main/kotlin/io/github/sibmaks/mock4idea/MockingSettingsService.kt:54-55 | appending a rule adds its type to the set of types present |
| Settings.WithDefaultsShape | src/main/kotlin/io/github/sibmaks/mock4idea/MockingSettingsService.kt:50-58 | user rules keep their order at the front, the missing defaults follow, and every default type is present |
| Settings.WithDefaultsKeepsDistinct | src/main/kotlin/io/github/sibmaks/mock4idea/MockingSettingsService.kt:50-58 | the back-fill creates no duplicate type |
| Settings.WithDefaultsIdempotent | src/main/kotlin/io/github/sibmaks/mock4idea/MockingSettingsService.kt:50-58 | back-filling twice is back-filling once |
| Settings.HasDefaultsStable | src/main/kotlin/io/github/sibmaks/mock4idea/MockingSettingsService.kt:50-58 | a list with every default type is unchanged by the back-fill |
| Settings.FirstMatch | src/main/kotlin/io/github/sibmaks/mock4idea/MockingSettingsService.kt:45 | the result is the first index whose type matches; there is none exactly when the type is absent |
| Settings.ResolveExpression | src/main/kotlin/io/github/sibmaks/mock4idea/MockingSettingsService.kt:43-48 | the first rule for the type decides: its expression if not blank, otherwise nothing |
| Settings.FirstMatchInPrefix | src/main/kotlin/io/github/sibmaks/mock4idea/MockingSettingsService.kt:43-58 | appended rules cannot shadow a type already present earlier |
| Settings.UserRuleOverridesDefault | src/main/kotlin/io/github/sibmaks/mock4idea/MockingSettingsService.kt:43-58 | for a type the user configured, back-filling does not change the resolved expression |
| Settings.UnknownTypeResolvesToNothing | src/main/kotlin/io/github/sibmaks/mock4idea/MockingSettingsService.kt:43-58 | a type neither configured nor defaulted resolves to nothing |
| Settings.MatchAmongDefaults | src/main/kotlin/io/github/sibmaks/mock4idea/MockingSettingsService.kt:43-58 | a default type the user did not configure is first matched by its default rule |
| Settings.DefaultResolves | src/main/kotlin/io/github/sibmaks/mock4idea/MockingSettingsService.kt:43-77 | a default type the user did not configure resolves to its default expression |
| Configurable.RuleRows | src/main/kotlin/io/github/sibmaks/mock4idea/MockingConfigurable.kt:83 | one row per rule, in order, holding its type and expression |
| Configurable.RowRule | src/main/kotlin/io/github/sibmaks/mock4idea/MockingConfigurable.kt:99-105 | a table row read as a rule holds its two cells trimmed |
| Configurable.ResetRows | src/main/kotlin/io/github/sibmaks/mock4idea/MockingConfigurable.kt:79-87 | the table shows the saved rules, or one blank row when there are none |
| Configurable.RulesFromRowsAppend | src/main/kotlin/io/github/sibmaks/mock4idea/MockingConfigurable.kt:95-107 | reading the rows is row by row: reading two blocks reads each in turn |
| Configurable.RulesFromOneRow | src/main/kotlin/io/github/sibmaks/mock4idea/MockingConfigurable.kt:99-104 | a row whose cells both trim to empty is skipped; any other row gives its trimmed rule |
| Configurable.RulesFromRowsClean | src/main/kotlin/io/github/sibmaks/mock4idea/MockingConfigurable.kt:95-107 | there are no more rules than rows, and each rule is trimmed and not wholly empty |
| Configurable.RuleRowsRoundTrip | src/main/kotlin/io/github/sibmaks/mock4idea/MockingConfigurable.kt:79-107 | showing trimmed, non-empty rules and reading them back gives the same rules |
| Configurable.DefaultsClean | src/main/kotlin/io/github/sibmaks/mock4idea/MockingSettingsService.kt:65-77 | the defaults survive a show-then-read round trip |
| Configurable.CheckRule | src/main/kotlin/io/github/sibmaks/mock4idea/MockingConfigurable.kt:111-123 | a rule passes exactly when its type is not blank, is qualified or primitive, has a non-blank expression, and has not been seen; a failing rule gets the first error in the order blank type, not qualified, blank expression, duplicate |
| Configurable.Message | src/main/kotlin/io/github/sibmaks/mock4idea/MockingConfigurable.kt:112-123 | the four exception messages, each naming the offending type except the blank-type one |
| Configurable.CheckRules | src/main/kotlin/io/github/sibmaks/mock4idea/MockingConfigurable.kt:109-125 | rules are checked in order with the types seen so far; the first failing rule stops the check with its error |
| Configurable.AllValidSplits | src/main/kotlin/io/github/sibmaks/mock4idea/MockingConfigurable.kt:109-125 | in a valid list, the head passes and the rest is valid once the head's type counts as seen |
| Configurable.AllValidJoins | src/main/kotlin/io/github/sibmaks/mock4idea/MockingConfigurable.kt:109-125 | a passing head followed by a rest that is valid with the head's type seen makes a valid list |
| Configurable.CheckRulesPassIff | src/main/kotlin/io/github/sibmaks/mock4idea/MockingConfigurable.kt:109-125 | validation passes exactly when every rule is well formed, none repeats a type, and none uses a type already seen |
| Configurable.FirstViolation | src/main/kotlin/io/github/sibmaks/mock4idea/MockingConfigurable.kt:109-125 | a failing validation reports the error of the first rule that fails, given the types before it |
| Configurable.QualifiedRulesPass | src/main/kotlin/io/github/sibmaks/mock4idea/MockingConfigurable.kt:109-125 | well-formed rules with distinct types pass |
| Configurable.DefaultsPassValidation | src/main/kotlin/io/github/sibmaks/mock4idea/MockingConfigurable.kt:109-125 | the default rules pass validation |
| Configurable.BlankTypeRejected | src/main/kotlin/io/github/sibmaks/mock4idea/MockingConfigurable.kt:112-114 | any list starting with a blank-typed rule is rejected with the blank-type error |
| Configurable.DuplicateTypeRejected | src/main/kotlin/io/github/sibmaks/mock4idea/MockingConfigurable.kt:121-123 | a well-formed rule following a well-formed rule of the same, unseen type is rejected as a duplicate of that type |
| Configurable.ValidateRules | src/main/kotlin/io/github/sibmaks/mock4idea/MockingConfigurable.kt:109-125 | the loop's outcome is the validation outcome of the whole list |
| Configurable.UnselectedPrefix | src/main/kotlin/io/github/sibmaks/mock4idea/MockingConfigurable.kt:45-47 | rows before the first selected index survive unchanged |
| Configurable.UnselectedIgnores | src/main/kotlin/io/github/sibmaks/mock4idea/MockingConfigurable.kt:45-47 | selecting an index before the remaining rows does not affect them |
| Configurable.RemoveBelowRemoved | src/main/kotlin/io/github/sibmaks/mock4idea/MockingConfigurable.kt:47 | after the higher rows are removed, removing row `x` by index removes the right row |
| Configurable.MockingConfigurable.constructor | src/main/kotlin/io/github/sibmaks/mock4idea/MockingConfigurable.kt:31-64 | the new page shows the back-filled saved rules, as `reset` fills it |
| Configurable.MockingConfigurable.ReadRulesFromTable | src/main/kotlin/io/github/sibmaks/mock4idea/MockingConfigurable.kt:95-107 | the rules read are the trimmed, non-empty rows in order |
| Configurable.MockingConfigurable.AddRow | src/main/kotlin/io/github/sibmaks/mock4idea/MockingConfigurable.kt:44 | a blank row is appended |
| Configurable.MockingConfigurable.RemoveSelected | src/main/kotlin/io/github/sibmaks/mock4idea/MockingConfigurable.kt:45-51 | exactly the selected rows are removed; an empty table gets one blank row |
| Configurable.MockingConfigurable.RemoveInOrder | src/main/kotlin/io/github/sibmaks/mock4idea/MockingConfigurable.kt:47 | removing indices from the highest down removes exactly those rows |
| Configurable.DescendingOrder | src/main/kotlin/io/github/sibmaks/mock4idea/MockingConfigurable.kt:46-47 | sorting distinct selected indices descending gives a strictly decreasing order |
| Configurable.SameIndices | src/main/kotlin/io/github/sibmaks/mock4idea/MockingConfigurable.kt:46-47 | the sorted order holds the same indices as the selection, all in range |
| Configurable.MockingConfigurable.IsModified | src/main/kotlin/io/github/sibmaks/mock4idea/MockingConfigurable.kt:66-70 | the page is modified exactly when the table's rules differ from the back-filled saved rules |
| Configurable.MockingConfigurable.Apply | src/main/kotlin/io/github/sibmaks/mock4idea/MockingConfigurable.kt:72-77 | the table's rules are saved exactly when they pass validation; otherwise the error is reported and nothing is saved |
| Configurable.MockingConfigurable.Reset | src/main/kotlin/io/github/sibmaks/mock4idea/MockingConfigurable.kt:79-87 | the table is refilled from the back-filled saved rules |
| Configurable.MockingConfigurable.FillRows | src/main/kotlin/io/github/sibmaks/mock4idea/MockingConfigurable.kt:82-86 | the loop shows one row per saved rule, or a blank row when there are none |
| Configurable.ApplyThenResetUnmodified | src/main/kotlin/io/github/sibmaks/mock4idea/MockingConfigurable.kt:66-87 | after a successful apply, a reset shows rows that read back as the saved rules |
| Configurable.ApplyWithoutDefaultStaysModified | src/main/kotlin/io/github/sibmaks/mock4idea/MockingConfigurable.kt:66-77 | saving a list that lacks a default type leaves the page modified, because reading the store back-fills that type |
| Intentions.AddStaticImports | src/main/kotlin/io/github/sibmaks/mock4idea/MockChainIntention.kt:262-268 | each member gets one static import, and the existing imports are kept |
| Intentions.IsMockitoMockExpression | src/main/kotlin/io/github/sibmaks/mock4idea/MockStatementIntention.kt:106-118 | a `mock` call that resolves into `org.mockito.Mockito`, or, unresolved, has no qualifier or the qualifier `Mockito` or `org.mockito.Mockito` |
| Intentions.HasStaticOnDemandImport | src/main/kotlin/io/github/sibmaks/mock4idea/MockStatementIntention.kt:166-174 | a static on-demand import of exactly the class is present; no import list means none |
| Intentions.HasOnDemandImport | src/main/kotlin/io/github/sibmaks/mock4idea/MockStatementIntention.kt:176-184 | a non-static on-demand import whose name is exactly the given name is present |
| Intentions.HasStaticMemberImport | src/main/kotlin/io/github/sibmaks/mock4idea/MockStatementIntention.kt:186-195 | a single-member static import of `<class>.<member>` is present |
| Intentions.MockitoImportsToAdd | src/main/kotlin/io/github/sibmaks/mock4idea/MockChainIntention.kt:253-269 | `mock` and then `when` are added exactly when the import list exists, Mockito is found, and the member is not already imported on demand or by name; with no import list, or without Mockito, nothing is added |
| Intentions.MockitoImportsComplete | src/main/kotlin/io/github/sibmaks/mock4idea/MockChainIntention.kt:253-269 | afterwards both members are imported, and a second run adds nothing |
| Intentions.StatementsWithin | src/main/kotlin/io/github/sibmaks/mock4idea/MockChainIntention.kt:60-63 | a statement is kept exactly when it lies inside the selection |
| Intentions.FindTargetStatements | src/main/kotlin/io/github/sibmaks/mock4idea/MockChainIntention.kt:53-71 | the caret gives at most one statement; a selection gives only statements inside it |
| Intentions.ProcessingOrder | src/main/kotlin/io/github/sibmaks/mock4idea/MockChainIntention.kt:44-45 | the targets are permuted so that they run from the last start offset to the first |
| MockChain.Unroll | src/main/kotlin/io/github/sibmaks/mock4idea/MockChainIntention.kt:142-148 | the calls from the innermost qualifier out to the initialiser call; each qualifies the next |
| MockChain.IsStaticMethodCall | src/main/kotlin/io/github/sibmaks/mock4idea/MockChainIntention.kt:156-159 | a call is static only when it resolves to a method with the `static` modifier |
| MockChain.StripStaticPrefix | src/main/kotlin/io/github/sibmaks/mock4idea/MockChainIntention.kt:149-153 | leading static calls are dropped, but never the last link |
| MockChain.CallChain | src/main/kotlin/io/github/sibmaks/mock4idea/MockChainIntention.kt:141-154 | the chain ends with the initialiser call, and each link qualifies the next |
| MockChain.CollectCallChain | src/main/kotlin/io/github/sibmaks/mock4idea/MockChainIntention.kt:141-154 | the two loops compute the unrolled chain minus its static prefix |
| MockChain.ChainLengthIff | src/main/kotlin/io/github/sibmaks/mock4idea/MockChainIntention.kt:149-153 | the chain has two links or more exactly when some call before the last is not static |
| MockChain.ResolveTransformData | src/main/kotlin/io/github/sibmaks/mock4idea/MockChainIntention.kt:73-87 | transform data is the one local of the declaration, with a named variable, a chain of two links or more ending in the initialiser, and every link but the last typed |
| MockChain.ResolveTransformDataReady | src/main/kotlin/io/github/sibmaks/mock4idea/MockChainIntention.kt:73-87 | resolution succeeds exactly on a declaration of one local that passes each test |
| MockChain.IsAvailable | src/main/kotlin/io/github/sibmaks/mock4idea/MockChainIntention.kt:29-33 | offered when there are targets and every one of them resolves to transform data |
| MockChain.ChainReadyIff | src/main/kotlin/io/github/sibmaks/mock4idea/MockChainIntention.kt:80-86 | the tests amount to: named, initialised by a non-`mock` call with a non-static call before the last, and the earlier links typed |
| MockChain.TransformDataIff | src/main/kotlin/io/github/sibmaks/mock4idea/MockChainIntention.kt:29-33 | the intention is offered on a statement exactly when it declares one such local |
| MockChain.Capitalize | src/main/kotlin/io/github/sibmaks/mock4idea/MockChainIntention.kt:208-211 | the first character is upper-cased, and the rest is kept |
| MockChain.BaseName | src/main/kotlin/io/github/sibmaks/mock4idea/MockChainIntention.kt:174-192 | the base of a generated name, chosen by the branches of the `when`; each branch's value is stated by BaseNameRules |
| MockChain.DecapitalizeType | src/main/kotlin/io/github/sibmaks/mock4idea/MockChainIntention.kt:203-206 | an empty name gives `mockedValue`; otherwise the first character is lower-cased |
| MockChain.BaseNameRules | src/main/kotlin/io/github/sibmaks/mock4idea/MockChainIntention.kt:177-192 | an `Optional` first link gives `<target>Optional`; a first link with a named qualifier and a method name gives `<qualifier><Method>`; any other first link gives its decapitalised simple type, or `mockedValue`; a later link gives the previous mock name (or `mockedValue`), followed by its capitalised method name when it has one |
| MockChain.CandidateInjective | src/main/kotlin/io/github/sibmaks/mock4idea/MockChainIntention.kt:197 | different counters give different candidate names |
| MockChain.CandidateSet | src/main/kotlin/io/github/sibmaks/mock4idea/MockChainIntention.kt:195-199 | the set of the first `i` candidates is exactly those names |
| MockChain.CandidateSetSize | src/main/kotlin/io/github/sibmaks/mock4idea/MockChainIntention.kt:195-199 | the first `i` candidates are `i` different names |
| MockChain.CandidatesFillTaken | src/main/kotlin/io/github/sibmaks/mock4idea/MockChainIntention.kt:195-199 | if the first `i` candidates are all taken, then `i` names are taken, so the search ends |
| MockChain.FirstFreeSuffix | src/main/kotlin/io/github/sibmaks/mock4idea/MockChainIntention.kt:195-199 | the counter found is the least one whose candidate is free |
| MockChain.FreeName | src/main/kotlin/io/github/sibmaks/mock4idea/MockChainIntention.kt:194-200 | the name is free; it is the base when the base is free, otherwise the base with the least free counter |
| MockChain.FreeNameUnique | src/main/kotlin/io/github/sibmaks/mock4idea/MockChainIntention.kt:194-200 | any candidate that is free while all smaller ones are taken is the one chosen |
| MockChain.SuggestChainVariableName | src/main/kotlin/io/github/sibmaks/mock4idea/MockChainIntention.kt:166-201 | the `while (true)` search returns the free name for the link's base name |
| MockChain.ChainNamerFree | src/main/kotlin/io/github/sibmaks/mock4idea/MockChainIntention.kt:166-201 | the namer never returns a used name or the target name |
| MockChain.MockNames | src/main/kotlin/io/github/sibmaks/mock4idea/MockChainIntention.kt:102-125 | one name per intermediate link |
| MockChain.MockNamesPrefix | src/main/kotlin/io/github/sibmaks/mock4idea/MockChainIntention.kt:102-125 | naming more links does not change earlier names |
| MockChain.MockNamesFresh | src/main/kotlin/io/github/sibmaks/mock4idea/MockChainIntention.kt:96-114 | generated names avoid every name in scope and the target, and are pairwise different |
| MockChain.MockNamesAt | src/main/kotlin/io/github/sibmaks/mock4idea/MockChainIntention.kt:106-114 | each name is the namer's answer given the previous name and every name used so far |
| MockChain.BuildCallText | src/main/kotlin/io/github/sibmaks/mock4idea/MockChainIntention.kt:161-164 | a call with a method name is re-rooted as `<replacement>.<method><args>`; one without keeps its text |
| MockChain.MockExpression | src/main/kotlin/io/github/sibmaks/mock4idea/MockChainIntention.kt:234-237 | the configured expression, else `mock()`; never blank |
| MockChain.ResolveMockStatement | src/main/kotlin/io/github/sibmaks/mock4idea/MockChainIntention.kt:234-237 | the rule store is back-filled, and the answer is the mock expression under the back-filled rules |
| MockChain.RenderAll | src/main/kotlin/io/github/sibmaks/mock4idea/MockChainIntention.kt:120-129 | one text per generated statement |
| MockChain.RenderAllAt | src/main/kotlin/io/github/sibmaks/mock4idea/MockChainIntention.kt:120-129 | the text at each position renders the statement at that position |
| MockChain.LinkNames | src/main/kotlin/io/github/sibmaks/mock4idea/MockChainIntention.kt:102-114 | one mock name per link before the last |
| MockChain.InnerLinkStatements | src/main/kotlin/io/github/sibmaks/mock4idea/MockChainIntention.kt:116-121 | an inner link gives a mock declaration of its type, then a stub of its call |
| MockChain.LastLinkStatements | src/main/kotlin/io/github/sibmaks/mock4idea/MockChainIntention.kt:127-129 | the last link declares the target with the target's type, and stubs the initialiser re-rooted on the last mock |
| MockChain.StatementsUpToLength | src/main/kotlin/io/github/sibmaks/mock4idea/MockChainIntention.kt:102-125 | each iteration adds two statements |
| MockChain.StatementsUpToAt | src/main/kotlin/io/github/sibmaks/mock4idea/MockChainIntention.kt:102-125 | positions `2k` and `2k+1` hold link `k`'s declaration and stub |
| MockChain.ScaffoldShape | src/main/kotlin/io/github/sibmaks/mock4idea/MockChainIntention.kt:99-129 | two statements per link: a mock declaration with the configured expression for its type, then its stub |
| MockChain.ScaffoldVariablesDistinct | src/main/kotlin/io/github/sibmaks/mock4idea/MockChainIntention.kt:96-114 | the declared mocks are all different from each other, from the names in scope, and from the target |
| MockChain.StubsFollowChain | src/main/kotlin/io/github/sibmaks/mock4idea/MockChainIntention.kt:116-120 | the first stub replays the first call; each later stub calls its method on the previous mock |
| MockChain.LinkNamesStep | src/main/kotlin/io/github/sibmaks/mock4idea/MockChainIntention.kt:106-114 | the name the loop suggests at `index` is the specification's name for that link |
| MockChain.TransformLink | src/main/kotlin/io/github/sibmaks/mock4idea/MockChainIntention.kt:103-124 | one iteration produces that link's declaration and stub, and adds its name to the used names |
| MockChain.ScaffoldStep | src/main/kotlin/io/github/sibmaks/mock4idea/MockChainIntention.kt:121-124 | appending an iteration's pair extends the prefix by one link |
| MockChain.ScaffoldLastPair | src/main/kotlin/io/github/sibmaks/mock4idea/MockChainIntention.kt:127-129 | the final pair completes the scaffold |
| MockChain.TransformLastLink | src/main/kotlin/io/github/sibmaks/mock4idea/MockChainIntention.kt:127-129 | the final declaration and stub complete the scaffold |
| MockChain.TransformLinks | src/main/kotlin/io/github/sibmaks/mock4idea/MockChainIntention.kt:99-125 | the loop produces every inner link's pair; the last mock name is that of the last inner link |
| MockChain.BuildScaffold | src/main/kotlin/io/github/sibmaks/mock4idea/MockChainIntention.kt:99-129 | all inserted statements are the scaffold under the back-filled rules |
| MockChain.TransformStatement | src/main/kotlin/io/github/sibmaks/mock4idea/MockChainIntention.kt:89-139 | nothing happens when the statement does not resolve (the rule store is untouched); otherwise the rendered scaffold replaces it and the store is back-filled |
| MockChain.ReplacementsSnoc | src/main/kotlin/io/github/sibmaks/mock4idea/MockChainIntention.kt:44-45 | transforming one more target appends its replacement |
| MockChain.TransformTargets | src/main/kotlin/io/github/sibmaks/mock4idea/MockChainIntention.kt:44-45 | each target is transformed in order, and every one sees the back-filled rules |
| MockChain.Invoke | src/main/kotlin/io/github/sibmaks/mock4idea/MockChainIntention.kt:35-47 | nothing without targets; otherwise the Mockito imports, then every target transformed from the last to the first |
| MockStatement.SingleLocal | src/main/kotlin/io/github/sibmaks/mock4idea/MockStatementIntention.kt:91-94 | present exactly for a declaration of one local, and it is that local |
| MockStatement.CanTransform | src/main/kotlin/io/github/sibmaks/mock4idea/MockStatementIntention.kt:90-104 | a declaration of one named local with a non-blank initialiser that is not a Mockito `mock` call |
| MockStatement.IsAvailable | src/main/kotlin/io/github/sibmaks/mock4idea/MockStatementIntention.kt:23-33 | offered when there are targets and every one can be transformed |
| MockStatement.ResolveMockStatement | src/main/kotlin/io/github/sibmaks/mock4idea/MockStatementIntention.kt:148-156 | a `String` variable gets a random UUID string; any other type gets `mock()` |
| MockStatement.ResolveTypeCanonicalText | src/main/kotlin/io/github/sibmaks/mock4idea/MockStatementIntention.kt:158-164 | the initialiser's type when it is known, else the declared type |
| MockStatement.TransformStatement | src/main/kotlin/io/github/sibmaks/mock4idea/MockStatementIntention.kt:120-146 | without an initialiser, nothing; otherwise `<T> <v> = <mock or UUID>;` and `when(<init>)` + newline + `.thenReturn(<v>);` + newline |
| MockStatement.ReplacementTexts | src/main/kotlin/io/github/sibmaks/mock4idea/MockStatementIntention.kt:129-133 | the two texts are the mock declaration and the stub, laid out as above |
| MockStatement.AvailableTargetsTransform | src/main/kotlin/io/github/sibmaks/mock4idea/MockStatementIntention.kt:23-33 | when the intention is offered, every target passes the casts and yields two replacement statements |
| MockStatement.UuidImportToAddAsWritten | src/main/kotlin/io/github/sibmaks/mock4idea/MockStatementIntention.kt:226-244 | as written, the import is added unless there is no import list, `import java.util.UUID.*;` is present, or the class is not found |
| MockStatement.UuidImportRepeats | src/main/kotlin/io/github/sibmaks/mock4idea/MockStatementIntention.kt:176-184 | as written, adding `import java.util.UUID;` does not stop a second invocation from adding it again |
| MockStatement.UuidImportToAdd | src/main/kotlin/io/github/sibmaks/mock4idea/MockStatementIntention.kt:226-244 | corrected: add the import only when `UUID` is not imported by name or by `java.util.*` |
| MockStatement.UuidImportIdempotent | src/main/kotlin/io/github/sibmaks/mock4idea/MockStatementIntention.kt:226-244 | corrected: afterwards `UUID` is imported; an imported `UUID` adds nothing; a second run adds nothing |
| MockStatement.TransformAll | src/main/kotlin/io/github/sibmaks/mock4idea/MockStatementIntention.kt:54-55 | one result per target, each the target's transform |
| MockStatement.CastsSucceedReordered | src/main/kotlin/io/github/sibmaks/mock4idea/MockStatementIntention.kt:54-55 | sorting the targets keeps the same statements |
| MockStatement.Invoke | src/main/kotlin/io/github/sibmaks/mock4idea/MockStatementIntention.kt:35-58 | nothing without targets; otherwise the `UUID` import decided by the as-written test of `ensureImport`, the Mockito imports, and each target transformed from the last to the first |
| MockStatement.InvokeIntended | src/main/kotlin/io/github/sibmaks/mock4idea/MockStatementIntention.kt:226-244 | the same imports of Mockito members and replacements, with `import java.util.UUID;` added only when `UUID` is not yet imported |
| VerifyMethod.ResolveTargetCall | src/main/kotlin/io/github/sibmaks/mock4idea/VerifyMethodIntention.kt:57-68 | the target is the enclosing call exactly when it has a qualifier that is not itself a `verify(...)` call |
| VerifyMethod.IsAvailable | src/main/kotlin/io/github/sibmaks/mock4idea/VerifyMethodIntention.kt:29-32 | offered exactly when there is a target call |
| VerifyMethod.VerifyText | src/main/kotlin/io/github/sibmaks/mock4idea/VerifyMethodIntention.kt:47 | a replacement exists exactly when the call has a qualifier and a method name |
| VerifyMethod.VerifyTextReroots | src/main/kotlin/io/github/sibmaks/mock4idea/VerifyMethodIntention.kt:47 | the replacement is the same call re-rooted on `verify(<qualifier>)` and a newline |
| VerifyMethod.VerifiedCall | src/main/kotlin/io/github/sibmaks/mock4idea/VerifyMethodIntention.kt:45-49 | the wrapped call keeps its method and arguments, and its qualifier is a `verify` call |
| VerifyMethod.NotOfferedAgain | src/main/kotlin/io/github/sibmaks/mock4idea/VerifyMethodIntention.kt:57-68 | once a call is wrapped, the intention is not offered on it again |
| VerifyMethod.VerifyImportToAdd | src/main/kotlin/io/github/sibmaks/mock4idea/VerifyMethodIntention.kt:91-106 | `verify` is imported exactly when the list exists, Mockito is found, and `verify` is not imported on demand or by name |
| VerifyMethod.VerifyImportIdempotent | src/main/kotlin/io/github/sibmaks/mock4idea/VerifyMethodIntention.kt:91-106 | afterwards `verify` is imported, and a second run adds nothing |
| VerifyMethod.AddVerifyImport | src/main/kotlin/io/github/sibmaks/mock4idea/VerifyMethodIntention.kt:101-105 | the import list after `ensureVerifyMethodImport`: one static `verify` import appended exactly when the decision says so |
| VerifyMethod.Invoke | src/main/kotlin/io/github/sibmaks/mock4idea/VerifyMethodIntention.kt:34-51 | nothing without a target; otherwise the import decision and the replacement text built for the target call, present when the call has a method name |
| CamelCase.RunLength | src/main/kotlin/io/github/sibmaks/mock4idea/CreateMockitoTestIntention.kt:163 | a run of characters of one class stays within the string and stops at the first character outside it |
| CamelCase.MatchAt | src/main/kotlin/io/github/sibmaks/mock4idea/CreateMockitoTestIntention.kt:163 | a match stays within the string |
| CamelCase.MatchIsWord | src/main/kotlin/io/github/sibmaks/mock4idea/CreateMockitoTestIntention.kt:163 | every match is an upper-case run or an optionally capitalised lower-case or digit run; a lower-case letter or digit starts a match, and so does a capital followed by one |
| CamelCase.LastMatch | src/main/kotlin/io/github/sibmaks/mock4idea/CreateMockitoTestIntention.kt:163-166 | the scan finds no match exactly when none starts; otherwise its last match is a real match, and none starts after it |
| CamelCase.LastSpan | src/main/kotlin/io/github/sibmaks/mock4idea/CreateMockitoTestIntention.kt:163-168 | none exactly when no match starts; otherwise a match, no match starts after it, and no match starting before it reaches into it, which fixes the span |
| CamelCase.MatchNested | src/main/kotlin/io/github/sibmaks/mock4idea/CreateMockitoTestIntention.kt:163 | a match starting inside another match of the pattern ends where that one ends |
| CamelCase.LastMatchAfterEarlier | src/main/kotlin/io/github/sibmaks/mock4idea/CreateMockitoTestIntention.kt:163-167 | for such a pattern, the left-to-right scan leaves every earlier match ending before the last one starts |
| CamelCase.FinalMatchUnique | src/main/kotlin/io/github/sibmaks/mock4idea/CreateMockitoTestIntention.kt:163-167 | a scan over non-overlapping matches has at most one match that is both last and untouched by earlier ones |
| CamelCase.LastSpanUnique | src/main/kotlin/io/github/sibmaks/mock4idea/CreateMockitoTestIntention.kt:163-167 | any match after which no match starts and into which no earlier match reaches is the last word, so `OrderDAO` yields `DAO` and nothing shorter |
| CamelCase.LastWord | src/main/kotlin/io/github/sibmaks/mock4idea/CreateMockitoTestIntention.kt:163-168 | `lastOrNull` is the text of the last span, and that text is a word |
| CamelCase.RunLengthToEnd | src/main/kotlin/io/github/sibmaks/mock4idea/CreateMockitoTestIntention.kt:163 | a run over a suffix of matching characters reaches the end |
| CamelCase.LastMatchReaches | src/main/kotlin/io/github/sibmaks/mock4idea/CreateMockitoTestIntention.kt:163-166 | when a match runs to the end and nothing before it overlaps, the scan ends with that match |
| CamelCase.RunStopsAt | src/main/kotlin/io/github/sibmaks/mock4idea/CreateMockitoTestIntention.kt:163 | a run ends before the first character that fails the test |
| CamelCase.MatchStopsAtWord | src/main/kotlin/io/github/sibmaks/mock4idea/CreateMockitoTestIntention.kt:163 | no match starting before a capitalised word reaches into it |
| CamelCase.MatchCapitalisedTail | src/main/kotlin/io/github/sibmaks/mock4idea/CreateMockitoTestIntention.kt:163 | a capital followed by lower-case letters or digits to the end is matched whole |
| CamelCase.LastWordOfCapitalisedSuffix | src/main/kotlin/io/github/sibmaks/mock4idea/CreateMockitoTestIntention.kt:163-168 | a name ending in a capitalised word has that word as its last word |
| CreateTest.FindConstructor | src/main/kotlin/io/github/sibmaks/mock4idea/CreateMockitoTestIntention.kt:112-115 | only a constructor is returned |
| CreateTest.HasSingleConstructor | src/main/kotlin/io/github/sibmaks/mock4idea/CreateMockitoTestIntention.kt:117-120 | the class declares exactly one constructor |
| CreateTest.HasRequiredArgsConstructor | src/main/kotlin/io/github/sibmaks/mock4idea/CreateMockitoTestIntention.kt:122-127 | an annotation named `lombok.RequiredArgsConstructor` or `RequiredArgsConstructor` is on the class; no modifier list means none |
| CreateTest.ResolveContextClass | src/main/kotlin/io/github/sibmaks/mock4idea/CreateMockitoTestIntention.kt:99-110 | inside a constructor, its class if it has one constructor; elsewhere, the enclosing top-level class if it has one constructor or `@RequiredArgsConstructor`; nothing without an element |
| CreateTest.RequiredParameters | src/main/kotlin/io/github/sibmaks/mock4idea/CreateMockitoTestIntention.kt:141-155 | no more parameters than fields |
| CreateTest.RequiredParametersMembers | src/main/kotlin/io/github/sibmaks/mock4idea/CreateMockitoTestIntention.kt:143-154 | the parameters are exactly those of uninitialised fields that are `final` or `@NonNull` |
| CreateTest.RequiredParametersAppend | src/main/kotlin/io/github/sibmaks/mock4idea/CreateMockitoTestIntention.kt:141-155 | the filter works field by field and keeps declaration order |
| CreateTest.ResolveDependencies | src/main/kotlin/io/github/sibmaks/mock4idea/CreateMockitoTestIntention.kt:129-156 | with one constructor, its parameters; otherwise the required fields when Lombok generates the constructor, else nothing |
| CreateTest.IsAvailable | src/main/kotlin/io/github/sibmaks/mock4idea/CreateMockitoTestIntention.kt:30-33 | offered exactly when a context class resolves |
| CreateTest.AvailableHasDependencies | src/main/kotlin/io/github/sibmaks/mock4idea/CreateMockitoTestIntention.kt:30-38 | whenever the intention is offered, the dependencies resolve |
| CreateTest.TestClassName | src/main/kotlin/io/github/sibmaks/mock4idea/CreateMockitoTestIntention.kt:42 | `<Name>Test`; an unnamed class gives `nullTest` |
| CreateTest.ResolveSubjectVariableName | src/main/kotlin/io/github/sibmaks/mock4idea/CreateMockitoTestIntention.kt:162-170 | the last camel-case word, or the whole name when there is none, with its first character lower-cased |
| CreateTest.SubjectType | src/main/kotlin/io/github/sibmaks/mock4idea/CreateMockitoTestIntention.kt:45 | the qualified class name, else the simple name, else `Object` |
| CreateTest.SubjectName | src/main/kotlin/io/github/sibmaks/mock4idea/CreateMockitoTestIntention.kt:44 | the subject name derived from the class name, or from `subject` for a class without a name |
| CreateTest.SubjectOfCapitalisedSuffix | src/main/kotlin/io/github/sibmaks/mock4idea/CreateMockitoTestIntention.kt:162-170 | a name ending in a capitalised word is named after that word (`OrderService` gives `service`) |
| CreateTest.BuildFields | src/main/kotlin/io/github/sibmaks/mock4idea/CreateMockitoTestIntention.kt:70-84 | one `@Mock` field per dependency, in order, then the `@InjectMocks` field |
| CreateTest.MockField | src/main/kotlin/io/github/sibmaks/mock4idea/CreateMockitoTestIntention.kt:69-75 | `@org.mockito.Mock private <type> <name>;`, named `dependency` when the parameter has no name |
| CreateTest.InjectField | src/main/kotlin/io/github/sibmaks/mock4idea/CreateMockitoTestIntention.kt:78-81 | `@org.mockito.InjectMocks private <class type> <subject name>;` |
| CreateTest.DirectoryTree.constructor | src/main/kotlin/io/github/sibmaks/mock4idea/CreateMockitoTestIntention.kt:215-222 | an empty tree |
| CreateTest.DirectoryTree.FindSubdirectory | src/main/kotlin/io/github/sibmaks/mock4idea/CreateMockitoTestIntention.kt:219 | the subdirectory exists exactly when the tree records it |
| CreateTest.DirectoryTree.CreateSubdirectory | src/main/kotlin/io/github/sibmaks/mock4idea/CreateMockitoTestIntention.kt:219 | a fresh directory is recorded under that name, and nothing else changes |
| CreateTest.DirectoryTree.EnsurePackageDirectory | src/main/kotlin/io/github/sibmaks/mock4idea/CreateMockitoTestIntention.kt:215-222 | the result is the package's directory under the root; a blank package gives the root; existing directories are kept, and an existing path is not changed; every link it adds is a new directory, numbered from the old counter on, for a missing segment under the directory the earlier segments lead to |
| CreateTest.DirectoryTree.WalkOrCreate | src/main/kotlin/io/github/sibmaks/mock4idea/CreateMockitoTestIntention.kt:217-221 | the loop ends at the directory the segments lead to; every link it adds is a new directory for a missing segment, under the directory the earlier segments lead to |
| CreateTest.DirectoryTree.SubdirectoryOrCreate | src/main/kotlin/io/github/sibmaks/mock4idea/CreateMockitoTestIntention.kt:219 | an existing subdirectory is returned and nothing changes; a missing one is created as the next fresh directory and linked under that name |
| CreateTest.CreatedAlongLonger | src/main/kotlin/io/github/sibmaks/mock4idea/CreateMockitoTestIntention.kt:217-221 | links created along a prefix of the segments stay along a longer prefix |
| CreateTest.CreatedAlongStep | src/main/kotlin/io/github/sibmaks/mock4idea/CreateMockitoTestIntention.kt:219 | creating the missing level for the next segment keeps every created link on the package path |
| CreateTest.DirectoryTree.CreateFile | src/main/kotlin/io/github/sibmaks/mock4idea/CreateMockitoTestIntention.kt:56 | the file is added, and the directories are unchanged |
| CreateTest.WalkSnoc | src/main/kotlin/io/github/sibmaks/mock4idea/CreateMockitoTestIntention.kt:218-220 | walking one more segment takes the named subdirectory of where the walk ended |
| CreateTest.WalkExtends | src/main/kotlin/io/github/sibmaks/mock4idea/CreateMockitoTestIntention.kt:218-220 | adding directories does not change where an existing path leads |
| CreateTest.WalkPrefix | src/main/kotlin/io/github/sibmaks/mock4idea/CreateMockitoTestIntention.kt:218-220 | every prefix of an existing path exists |
| CreateTest.Invoke | src/main/kotlin/io/github/sibmaks/mock4idea/CreateMockitoTestIntention.kt:35-93 | nothing without a context class or a test root; otherwise the package directory is ensured; an existing package path leaves the tree unchanged, and any directory it creates lies on the package path; an existing `<Name>Test.java` is left alone; a new one gets the skeleton: its name, the Mockito extension, and the fields |

## Left out

- PSI, editor and UI plumbing are not modelled: write actions, element
  factories, reformatting, shortening class references, opening the new
  file, the table widgets and the auto-completion editors. The plugin's
  inputs become parameters or records. These include the statement at the
  caret, the statements under a selection, the import list, whether a class
  can be found, and the line separator.
- Persistence of the settings (`getState`, the XML storage) is not modelled.
  Neither is the application-service lookup.
- `chooseTestRootDirectory` (CreateMockitoTestIntention.kt:172-213) is not
  modelled. It lists the module's test roots and may show a chooser dialog.
  `CreateTest.Invoke` takes the chosen root, or its absence, as a parameter.
- `collectExistingLocalNames` (MockChainIntention.kt:213-218) reads the file
  as it stands when each target is reached. The names in scope are a
  parameter: `existing` for one transform, `existingNames` for `Invoke`.
- Case mapping (`uppercaseChar`, `lowercaseChar`) is modelled for ASCII
  letters only. Other characters are kept as they are.
- CamelCase.LastWord: only the last match of the regular expression is
  modelled, not the whole list `findAll` builds, because only `lastOrNull` of
  it is used. The scan resumes after each match as Kotlin's `findAll` does.
- MockChain.TransformStatement: the `?: return` exits (MockChainIntention.kt:104
  and 119 inside the loop, 127 after it) cannot fire once `resolveTransformData`
  has succeeded. Every link before the last is typed, and the previous mock
  name is set after the first iteration. These exits are therefore absent.
- MockChain.Invoke: the generated texts are returned. Their insertion before
  the statement and the statement's deletion are not modelled.
- MockChain.Invoke: each target's replacement is computed from the target's
  record as it was selected. A selection can hold nested targets, such as a
  declaration inside a lambda that is itself part of a selected declaration.
  The source rewrites the inner one first and then reads the outer one's
  call texts from the edited tree. The model does not capture that: for
  nested targets, the outer replacement shows the inner statement unedited.
  For targets whose ranges do not overlap, the two agree.
- MockStatement.Invoke and MockStatement.InvokeIntended: the same
  simplification as MockChain.Invoke. The initialiser text of an outer
  target is the one selected, not the one left after an inner target was
  rewritten.
- MockStatement.TransformStatement: the source casts the statement to a
  declaration of one local and throws if it is not one. It then reads
  `v.name` without testing the name identifier
  (MockStatementIntention.kt:127-128), while the model takes the name from
  that identifier. So a single local that is named is a precondition.
  `MockStatement.AvailableTargetsTransform` shows every offered target meets
  it, because `canTransform` tests both. `MockStatement.Invoke` requires the
  same of every target. The source does not check `isAvailable` again on
  invoke.
- The settings page's null `tableModel` (before `createComponent`, after
  `disposeUIResources`) is not modelled. Nor is `configureEditors`, the
  suggestion lists, or `projectClassSuggestions`.
- Table cells are strings. The `as? String` cast never fails for rows the
  page itself adds.
- `resolveTypeText` is the canonical text of a type, as the source computes
  it.
- CreateTest.Invoke: the `as? PsiJavaFile` casts and the missing
  `modifierList` or brace exits (CreateMockitoTestIntention.kt:40, 57, 60,
  67-68) are PSI failures with no counterpart in the model.

## Findings

| source | as written | input that shows it | evidently intended | confidence | as-written member | corrected member |
|---|---|---|---|---|---|---|
| src/main/kotlin/io/github/sibmaks/mock4idea/MockStatementIntention.kt:226-244 | `ensureImport("java.util.UUID")` skips only when `import java.util.UUID.*;` (an on-demand import of the class itself) is present, then adds `import java.util.UUID;` | a file with an empty import list; invoke the intention twice: the second invocation adds `import java.util.UUID;` again | skip when `UUID` is already imported by name or through `import java.util.*;` | medium, not executed | MockStatement.UuidImportRepeats | MockStatement.UuidImportIdempotent |
