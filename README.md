# es6-compat test generator: a Dafny model

`build_check.js` turns the compatibility-test tree of the es5, es6 and es7
data files into one generated module, keeping only the tests a set of path
filters accepts. It also sums a test report into counts of tests and
successes. This project models three of its parts and proves properties of
each:

- **The path filter.** A test is named by its path (`es6/syntax/arrow
  functions/0 parameters`). `strToFilter` turns a command-line text into a
  filter, either one regular expression or one regular expression per path
  step. `matchStep`, `matchFilter`, `matchAny` and `accept` decide whether a
  path is generated (module `PathFilter`).
- **The generator.** `genTestString` writes one test function. It takes the
  body from the function's source text with `extractFunctionBody` (module
  `FunctionBody`), may minify it with `tryMinifyBody`, escapes it with
  `jsEscape` (module `JsEscape`) and names it with `makeIdentifier` (module
  `TextHelpers`). `genTestGroup` and `genByCategory` walk the tree,
  `generateTests` assembles the file, and a `GenerationReport` collects the
  paths included, the paths excluded and the minification errors.
  - The traversal is written twice. Module `Generator` holds the source's
    own form: a `GenerationReport` class with the fields the traversal
    pushes onto, and methods with the source's loops. Module
    `GeneratorSpec` holds the folds those methods are proved to compute.
  - The output properties are proved about the folds. Every leaf path lands
    on `included` or on `excluded`, in traversal order. The group holds one
    test function per included path. An empty group is left out. The escaped
    code reads back as the code.
- **The report summary.** `summary` walks a result tree and counts its
  leaves and the successes among them, skipping keys that start with `__`
  (module `ReportSummary`). The `summary` method is proved against a
  fold. The fold is proved equal to an independent definition: the list of
  leaves, and the number of successes in it.

The JavaScript primitives these rely on are written out in module `JsText`:
the `\w` and `\s` classes, `trim`, `substring`, split on one character,
`join` and substring search.

One property of the filter is stated as it is, not as a finding.
`strToFilter` builds each step's regular expression from
`makeIdentifier(piece)`, which camel-cases the text. `matchStep` then tests
that expression against the raw path segment. A piece that names a segment
with a space therefore never matches that segment:
`PathFilter.TwoWordNameMissesItsIdentifier` proves this. Test names in the
data files have such spaces, e.g. `'always true'` (data-internal.js:17): the
filter text `always true` becomes the pattern `alwaysTrue`, which that name
does not contain.

## Model

| member | source | states |
|---|---|---|
| PathFilter.Segment | build_check.js:255-257 | the i-th path segment, or "" past the end of the path |
| PathFilter.StepMatches | build_check.js:255-257 | definition of matchStep: a wildcard step matches anything, a pattern matches a segment that contains it; its properties are the lemma rows below |
| PathFilter.FilterMatches | build_check.js:264-276 | definition of matchFilter, against which PathFilter.MatchFilter is proved |
| PathFilter.AnyMatches | build_check.js:280-290 | definition of matchAny, against which PathFilter.MatchAny is proved |
| PathFilter.Accepted | build_check.js:311-325 | definition of accept, against which PathFilter.Accept is proved |
| PathFilter.MatchFilter | build_check.js:264-276 | the loop's verdict is the filter specification: a positional filter matches when each step matches its segment; a single pattern matches when some segment contains it |
| PathFilter.MatchAny | build_check.js:280-290 | true exactly when some filter of the list matches; false for an empty list |
| PathFilter.Accept | build_check.js:311-325 | true exactly when the includes are empty or one matches, and no exclude matches |
| PathFilter.WildcardMatchesEverySegment | build_check.js:255-257 | a null or "*" step matches every segment, a missing one included |
| PathFilter.MissingSegmentMatchesOnlyEmpty | build_check.js:255-257 | a pattern matches a segment past the end of the path exactly when the pattern is empty |
| PathFilter.SegmentsPastFilterIgnored | build_check.js:264-271 | segments past the length of a positional filter never change its verdict |
| PathFilter.LongerFilterIsStricter | build_check.js:264-271 | one step more matches exactly when the shorter filter and the new step both match |
| PathFilter.WildcardsAcceptAll | build_check.js:264-271 | a positional filter of wildcards only matches every path |
| PathFilter.SingleRejectsEmptyPath | build_check.js:272-275 | a single pattern never matches the empty path |
| PathFilter.SingleIsUnionOfPositional | build_check.js:264-275 | a single pattern matches exactly when, for some i, the positional filter of i wildcards followed by the pattern matches |
| PathFilter.NoIncludesAcceptsAllNotExcluded | build_check.js:313-317 | with no include filter a path is accepted exactly when no exclude filter matches it |
| PathFilter.MoreExcludesAcceptFewer | build_check.js:313-317 | adding an exclude filter never accepts a path that was rejected |
| PathFilter.MoreIncludesAcceptMore | build_check.js:313-317 | once there is an include filter, adding another never rejects a path that was accepted |
| PathFilter.FirstIncludeCanRejectExample | build_check.js:313 | the first include filter can reject a path the empty include list accepted |
| PathFilter.StepOf | build_check.js:743 | a piece is a wildcard exactly when it is "" or "*"; it is rejected exactly when it has no word character; otherwise its pattern is makeIdentifier of the piece |
| PathFilter.StepsOf | build_check.js:743 | the steps of all pieces, one per piece, or an error exactly when some piece is rejected |
| PathFilter.MatchFilterAsWritten | build_check.js:264-276 | on a filter that is present, the same verdict as the specification |
| PathFilter.StrToFilterAsWritten | build_check.js:740-749 | strToFilter as written, a one-piece result unwrapped to that piece's step (None for the null of a lone wildcard); PathFilter.LoneWildcardUnwrapped and PathFilter.StrToFilterAgrees state its properties |
| PathFilter.LoneWildcardUnwrapped | build_check.js:743-744 | the written strToFilter gives null for exactly the texts "" and "*" |
| PathFilter.StarFilterCrashesAsWritten | build_check.js:740-749 | the written strToFilter turns "*" into null, and matchFilter fails on a null filter |
| PathFilter.StrToFilter | build_check.js:740-749 | the corrected strToFilter, which keeps a lone "" or "*" as a one-step positional wildcard where build_check.js:744 unwraps it to null; it succeeds exactly when every piece is valid, and a text with a slash becomes one positional step per piece |
| PathFilter.StarFilterAcceptsAll | build_check.js:740-749 | the corrected filter for "*" is one wildcard step, and it matches every path |
| PathFilter.StrToFilterAgrees | build_check.js:740-749 | the corrected and the written strToFilter fail on the same texts, give the same filter when the written one is not null, and differ only by a wildcard in place of null |
| PathFilter.StrToFilterSteps | build_check.js:742-744 | a filter text with k slashes gives k + 1 steps, each the step of its piece |
| PathFilter.StrToFilterOnePiece | build_check.js:742-746 | a text without a slash, other than "" and "*", becomes the single pattern makeIdentifier gives, which matches a path exactly when some segment contains it |
| PathFilter.StrToFilterRejects | build_check.js:743-747 | a filter text is refused exactly when one of its pieces is neither a wildcard nor has a word character |
| PathFilter.TwoWordNameMissesItsIdentifier | build_check.js:743 | for two words joined by a space, the step is the camel-cased name, and that step does not match the segment it was written from |
| PathFilter.IdentifierNotInTwoWords | build_check.js:255-257 | the camel-cased form of two words never occurs in the two words joined by a space |
| TextHelpers.Ind | build_check.js:65-67 | `count` spaces, but never more than six (the last entry of `indents`) |
| TextHelpers.ClipString | build_check.js:73-77 | a string shorter than len is kept; otherwise its first len - 3 characters followed by "..." |
| TextHelpers.NonEmptyItems | build_check.js:83-93 | the kept items are non-empty, and there are no more of them than items |
| TextHelpers.JoinNotEmpty | build_check.js:83-93 | the loop's text is the join of exactly the items that are neither null nor "" |
| TextHelpers.JoinNotEmptyShape | build_check.js:83-93 | the joined text is "" exactly when no item is kept; otherwise it starts with the first kept item and ends with the last |
| TextHelpers.NoneKeptIffEmpty | build_check.js:83-93 | no item is kept exactly when every item is null or "" |
| TextHelpers.JoinEnds | build_check.js:83-93 | a join of parts starts with the first part and ends with the last |
| TextHelpers.JoinAppend | build_check.js:88-89 | appending one item adds the separator and the item, or just the item to an empty list |
| TextHelpers.JoinOfNonEmptyIsNonEmpty | build_check.js:88-89 | a join of non-empty parts is "" exactly when there are no parts |
| TextHelpers.Capitalize | build_check.js:133-136 | the length and every character after the first are kept; the first is not a lower-case letter afterwards, and a text not starting with one is unchanged |
| TextHelpers.Lowerize | build_check.js:137-140 | the length and every character after the first are kept; the first is not an upper-case letter afterwards, and a text not starting with one is unchanged |
| TextHelpers.CaseChangeInvisible | build_check.js:133-140 | capitalize and lowerize change nothing up to letter case |
| TextHelpers.Fragments | build_check.js:145 | the fragments are non-empty runs of word characters, and there are none exactly when the text has no word character; TextHelpers.FragmentsOfWordThen and TextHelpers.FragmentsSkipNonWord state that each run is maximal |
| TextHelpers.FragmentsOfWordThen | build_check.js:145 | a maximal run of word characters, followed by the end or a non-word character, is one whole fragment, and the rest splits on its own |
| TextHelpers.FragmentsSkipNonWord | build_check.js:145 | a non-word character starts no fragment: it is dropped |
| TextHelpers.FragmentsCoverWordChars | build_check.js:145 | the fragments put back together are exactly the text's word characters, in order |
| TextHelpers.FragmentsOfTwoWords | build_check.js:145 | two words joined by a space split into those two words |
| TextHelpers.MakeIdentifier | build_check.js:144-150 | an identifier exists exactly when the text has a word character; it is non-empty, made of word characters, and starts with neither a digit nor an upper-case letter |
| TextHelpers.MakeIdentifierIdempotent | build_check.js:144-150 | sanitizing an identifier the sanitizer produced gives it back unchanged |
| TextHelpers.IdentifierOfTwoWords | build_check.js:144-150 | two words joined by a space become the first word lowerized and the second capitalized |
| TextHelpers.MakeIdentifierKeepsWordChars | build_check.js:144-150 | up to letter case, the identifier is the text's word characters in order, with "_" in front when they start with a digit |
| TextHelpers.AsyncMarkerDetected | build_check.js:173-175 | a body that contains `asyncTestPassed()` anywhere is asynchronous, and a text shorter than the marker is not |
| TextHelpers.IsAsyncTest | build_check.js:173-175 | definition: the body contains `asyncTestPassed()`; TextHelpers.AsyncMarkerDetected states its properties |
| JsText.ToUpperAscii | build_check.js:135 | an ASCII lower-case letter becomes its upper-case letter; any other character is kept |
| JsText.ToLowerAscii | build_check.js:139 | an ASCII upper-case letter becomes its lower-case letter; any other character is kept |
| JsText.Substring | build_check.js:223 | within bounds, the slice between them; never longer than the text |
| JsText.TrimStart | build_check.js:158 | a suffix of the text; everything removed is white space, and what is left does not start with white space |
| JsText.TrimEnd | build_check.js:158 | a prefix of the text; everything removed is white space, and what is left does not end with white space |
| JsText.Trim | build_check.js:158 | the result neither starts nor ends with white space, and is no longer than the text |
| JsText.TrimBounds | build_check.js:158 | the trimmed text is the slice between two bounds, with only white space outside them |
| JsText.TrimIsSlice | build_check.js:158 | the trimmed text is a slice of its input with only white space around it, and it neither starts nor ends with white space |
| JsText.TrimIdempotent | build_check.js:158 | trimming twice trims nothing more |
| JsText.Split | build_check.js:743 | a split has at least one piece |
| JsText.Join | build_check.js:370 | definition of `Array.prototype.join` over strings: the parts with the separator between consecutive ones; JsText.JoinSplit and TextHelpers.JoinAppend state its properties |
| JsText.Contains | build_check.js:174 | definition: the pattern occurs at some index of the text, the unanchored literal regular expression's test |
| JsText.JoinSplit | build_check.js:743 | joining the pieces of a split with the separator gives the text back |
| JsText.SplitPieces | build_check.js:743 | no piece contains the separator, and there is one piece more than there are separators |
| FunctionBody.LastOpenAtOrBefore | build_check.js:156 | the last index at or before i where a comment opens, or none when none does |
| FunctionBody.CommentSpan | build_check.js:156 | where the comment body of the first regular expression lies: between the last comment opening and the final star-slash-brace |
| FunctionBody.SkipSpace | build_check.js:160 | the first non-blank index at or after i, with only white space skipped |
| FunctionBody.IndexOfFrom | build_check.js:160 | the first index at or after i that holds the character, or none when none does |
| FunctionBody.OpenParen | build_check.js:160 | the index found holds `(`; FunctionBody.OpenParenShape states what precedes it |
| FunctionBody.CloseParen | build_check.js:160 | the index found holds `)`; FunctionBody.CloseParenShape states that it is the first one after the opening parenthesis |
| FunctionBody.OpenBrace | build_check.js:160 | the index found holds `{`; FunctionBody.OpenBraceShape states that only white space separates it from the `)` |
| FunctionBody.OpenParenShape | build_check.js:160 | the opening parenthesis comes after `function`, with only white space before `function` and between it and the parenthesis |
| FunctionBody.CloseParenShape | build_check.js:160 | the closing parenthesis lies after the opening one, with no `)` between them |
| FunctionBody.OpenBraceShape | build_check.js:160 | the opening brace lies after the closing parenthesis, with only white space between them |
| FunctionBody.ExplicitSpan | build_check.js:160 | where the body of the second regular expression lies: after the opening brace, before the last brace, with only white space after it |
| FunctionBody.CommentedBody | build_check.js:156-158 | a body is found exactly when the first regular expression matches, and it is trimmed |
| FunctionBody.ExplicitBody | build_check.js:160-162 | a body is found exactly when the second regular expression's span is found, and it is trimmed; FunctionBody.ExplicitShape and FunctionBody.ExplicitSpanShape state both directions of the shape |
| FunctionBody.ExtractFunctionBody | build_check.js:155-165 | a body is found exactly when one of the two shapes matches; the commented shape is tried first and wins when both match |
| FunctionBody.CommentedBodyIsTrimmed | build_check.js:156-158 | a body from the commented shape is trimmed |
| FunctionBody.CommentedTextEndsWithBrace | build_check.js:156-158 | a text of the commented shape ends with `}` once trailing blanks are removed |
| FunctionBody.ExplicitBodyIsTrimmed | build_check.js:160-162 | a body from the explicit shape is trimmed |
| FunctionBody.ExplicitTextEndsWithBrace | build_check.js:160-162 | a text of the explicit shape ends with `}` once trailing blanks are removed |
| FunctionBody.ExtractedBodyIsTrimmed | build_check.js:155-165 | whatever shape it came from, an extracted body is trimmed and the text ends with a closing brace |
| FunctionBody.CommentedShape | build_check.js:156-158 | for any text followed by a comment and a closing brace, the body is the trimmed comment |
| FunctionBody.ExplicitShape | build_check.js:160-163 | `function (params) { body }`, with any white space between its tokens, gives the trimmed body |
| FunctionBody.ExplicitSpanShape | build_check.js:160-162 | the converse of ExplicitShape: whenever the second regular expression finds a body, the text is `function (params) { body }` with only white space around the tokens and no `)` among the parameters, and the body found is the trimmed text between the braces |
| JsEscape.EscapeChar | build_check.js:235-237 | each character is written as one to six characters, and never as a raw `\n` or `\r` |
| JsEscape.Escape | build_check.js:235-237 | every character becomes one to six characters; JsEscape.UnescapeEscape states the round trip |
| JsEscape.UnescapeEscapeChar | build_check.js:235-237 | reading an escaped character back consumes exactly its escape and gives the character |
| JsEscape.UnescapeEscape | build_check.js:235-237 | the escaped text, read back as a JSON string body, is the original text |
| JsEscape.EscapeHasNoLineBreak | build_check.js:235-237 | the escaped text never contains a raw `\n` or `\r` |
| JsEscape.SeparatorsPassRaw | build_check.js:236 | U+2028 and U+2029 are written unescaped, as JSON.stringify leaves them |
| JsEscape.EscapeInjective | build_check.js:235-237 | two different texts never escape to the same text |
| Generator.GenerationReport.constructor | build_check.js:294-298 | a new report has empty included, excluded and minifyErrors lists |
| Generator.GenerationReport.AddMinifyError | build_check.js:299-302 | when the error's line is a line of the wrapped source, one error (test path, message, marked error line) is appended to minifyErrors and nothing else changes; otherwise it throws and nothing changes |
| Generator.TryMinifyBody | build_check.js:214-231 | the result (None when recording the error threw) and the new report are those of the minification specification |
| Generator.GenTestString | build_check.js:335-348 | the entry written, None on a test error, and the new report are those of the test-function specification |
| Generator.GenLeaf | build_check.js:389-397 | one leaf step of the traversal, as the specification's leaf visit |
| Generator.GenSubtests | build_check.js:365-378 | the subtest loop computes the specification's visit of the subtests |
| Generator.GenSubtestGroup | build_check.js:364-387 | a test with subtests adds its member, or nothing when no subtest is accepted, as specified |
| Generator.GenTest | build_check.js:363-398 | one test of the group, as the specification's test visit |
| Generator.GenTestGroup | build_check.js:358-404 | the group text and the new report are the specification's group text |
| Generator.CollectCategories | build_check.js:409 | the categories of the tests, in order of first appearance |
| Generator.GenCategoryGroups | build_check.js:411-420 | the category loop computes the specification's visit: the report, and the non-empty groups joined by commas |
| Generator.GenByCategory | build_check.js:406-431 | the text and the new report are the specification's by-category text |
| Generator.GenerateTests | build_check.js:438-465 | a fresh report, and the file text and report of the specification |
| GeneratorSpec.FuncText | build_check.js:335-348 | a test function's text is never empty |
| GeneratorSpec.PathText | build_check.js:370 | definition: `testPath.join("/")` |
| GeneratorSpec.BodyOf | build_check.js:337 | definition: the extracted body, or the text "undefined" when none is found |
| GeneratorSpec.HasLine | build_check.js:199 | definition: the error's line is a line of the source, so `src.split("\n")[line - 1]` is defined |
| GeneratorSpec.FormatErrorLine | build_check.js:198-201 | a marked line exists exactly when the error's line is a line of the source |
| GeneratorSpec.FormatErrorLineMarks | build_check.js:198-201 | the marked line is the error line cut at the column, clamped to the line, with `<!` at the cut and `>` at the end; it holds no `\n` |
| GeneratorSpec.MinifyBody | build_check.js:214-231 | definition of tryMinifyBody with addMinifyError; GeneratorSpec.MinifyBodyOutcomes states its outcomes |
| GeneratorSpec.FuncEntry | build_check.js:335-348 | definition of genTestString; GeneratorSpec.FuncTextReadsBack, GeneratorSpec.MinifyBodyOutcomes and GeneratorSpec.FuncEntryKeepsPaths state its properties |
| GeneratorSpec.VisitLeaf | build_check.js:389-397 | definition of one leaf's visit: an accepted path is pushed on included and its entry written (a test error stops the traversal); any other path is pushed on excluded; GeneratorSpec.LeafAccounted states its accounting |
| GeneratorSpec.VisitSubs | build_check.js:367-378 | definition of the subtests' loop, one leaf visit per subtest in order; GeneratorSpec.VisitSubsAccounted and GeneratorSpec.SubsAbortStays state its properties |
| GeneratorSpec.VisitTest | build_check.js:364-398 | definition of one test's visit: a leaf, or one group member holding its written subtests, none when none was written; GeneratorSpec.TestAccounted states its accounting |
| GeneratorSpec.VisitTests | build_check.js:362-399 | definition of genTestGroup's loop over tests; GeneratorSpec.VisitTestsAccounted states its accounting |
| GeneratorSpec.GroupText | build_check.js:358-404 | definition of genTestGroup's result, against which Generator.GenTestGroup is proved; GeneratorSpec.GroupAccounting states its properties |
| GeneratorSpec.MembersText | build_check.js:381-393 | definition: the members' texts joined with `,` |
| GeneratorSpec.ByCategoryText | build_check.js:406-431 | definition of genByCategory's result, against which Generator.GenByCategory is proved; GeneratorSpec.UncategorizedTestDropped states a property |
| GeneratorSpec.GenerateText | build_check.js:438-465 | definition of generateTests' text and report, against which Generator.GenerateTests is proved |
| GeneratorSpec.FileText | build_check.js:443-455 | definition of the generated file around the three groups; GeneratorSpec.FileTextShape states its shape |
| GeneratorSpec.FuncTexts | build_check.js:372-373 | one non-empty text per test function |
| GeneratorSpec.EntryText | build_check.js:382-385 | a member's text is never empty |
| GeneratorSpec.EntryTexts | build_check.js:381-393 | one non-empty text per member |
| GeneratorSpec.InCategory | build_check.js:414 | exactly the tests of that category: every test kept has it, and a test is kept exactly when it is one of the tests and has it |
| GeneratorSpec.Categories | build_check.js:409 | definition: the non-empty categories of the tests, in order of first appearance; GeneratorSpec.CategoriesDistinct and GeneratorSpec.CategoriesAreTheTestCategories state its properties |
| GeneratorSpec.VisitCategories | build_check.js:411-420 | each category group kept is non-empty, and there is at most one per category |
| GeneratorSpec.FileTextShape | build_check.js:443-455 | the file starts with the preamble and ends with the closing of the module object; it is the empty object exactly when all three groups are empty |
| GeneratorSpec.SubsAbortStays | build_check.js:367-378 | once a test error (an exception while writing one test function) stops the subtest loop, the later subtests change nothing |
| GeneratorSpec.TestsAbortStays | build_check.js:362-399 | once a test error stops the test loop, the later tests change nothing |
| GeneratorSpec.CategoriesAbortStays | build_check.js:411-420 | once a test error stops the category loop, the later categories change nothing |
| GeneratorSpec.SubPaths | build_check.js:368 | one path per subtest |
| GeneratorSpec.LeafAccounted | build_check.js:389-397 | a leaf's path lands on included or excluded, and at most one test function is written |
| GeneratorSpec.VisitSubsAccounted | build_check.js:367-378 | the subtests' paths land on included or excluded in order, one function is written per included path, and every new entry is a function |
| GeneratorSpec.TestAccounted | build_check.js:364-398 | one test's paths land on the lists in order, and at most one member, holding at least one function, is written |
| GeneratorSpec.VisitTestsAccounted | build_check.js:362-399 | a group's leaf paths land on the lists in order, and every new member holds at least one function |
| GeneratorSpec.GroupAccounting | build_check.js:358-404 | unless a test error stops it, included gains exactly the accepted paths and excluded the others, the group holds one function per included path, and the group is "" exactly when no path is accepted |
| GeneratorSpec.AcceptedRejectedCount | build_check.js:369-377 | every leaf path lands on exactly one of the lists |
| GeneratorSpec.NothingAcceptedWritesNothing | build_check.js:400-403 | a filter that accepts no leaf of a group leaves the group empty |
| GeneratorSpec.NotAbortedWithoutAccepted | build_check.js:362-399 | only an accepted test can stop the traversal |
| GeneratorSpec.CategoriesDistinct | build_check.js:409 | the categories are distinct and non-empty |
| GeneratorSpec.CategoriesAreTheTestCategories | build_check.js:409 | a category is listed exactly when some test has it |
| GeneratorSpec.UncategorizedTestDropped | build_check.js:409-415 | once a group has categories, a test without one changes neither the text nor the report |
| GeneratorSpec.MinifyBodyOutcomes | build_check.js:214-231 | it throws exactly when the minifier fails with an error whose line is not a line of the wrapped function, and then records nothing; a failure with such a line keeps the body and records exactly one error; a success that returns a wrapped function yields its body |
| GeneratorSpec.FuncEntryKeepsPaths | build_check.js:335-348 | writing a test function touches neither included nor excluded |
| GeneratorSpec.FuncTextReadsBack | build_check.js:343-346 | the written code reads back as the code, and the function text is "\n", tab, key, ":", `a` or `f`, and the quoted escaped code |
| GeneratorSpec.AsyncMarksFunction | build_check.js:337-344 | an unfolding of FuncEntry: a test function is written with `a` exactly when its body calls `asyncTestPassed()`, and its key is makeIdentifier of the last path step |
| ReportSummary.SummaryOf | build_check.js:644-661 | the successes never exceed the count |
| ReportSummary.MembersSummary | build_check.js:646-658 | the successes never exceed the count |
| ReportSummary.MemberSummary | build_check.js:647-657 | the successes never exceed the count |
| ReportSummary.Summary | build_check.js:644-661 | the loop over the members computes the summary specification |
| ReportSummary.VisitMember | build_check.js:646-658 | one member adds nothing when ignored, its group's sums when it has subtests, and otherwise one test that may be a success |
| ReportSummary.SummaryCountsLeaves | build_check.js:644-661 | the count is the number of leaves under keys that are not ignored, and the successes are the successful leaves among them |
| ReportSummary.LeavesAreResults | build_check.js:648-656 | no leaf is a set of subtests |
| ReportSummary.IgnoredMemberChangesNothing | build_check.js:639-647 | a member whose key starts with "__" changes neither sum |
| ReportSummary.MembersSummaryAppend | build_check.js:646 | the sums over two runs of members add up |
| ReportSummary.SummaryIgnoresOrder | build_check.js:646 | visiting two runs of members in either order gives the same summary |
| ReportSummary.FailuresStillCount | build_check.js:635-656 | null, undefined and an Error under a kept key count as one test and no success |
| ReportSummary.SuccessIsLooseTruth | build_check.js:635-637 | a result is a success exactly when it is true, the number 1 or a string that converts to 1 |
| ReportSummary.IsSuccess | build_check.js:635-637 | definition of isSuccess; ReportSummary.SuccessIsLooseTruth and ReportSummary.FailuresStillCount state its properties |
| ReportSummary.ShouldIgnore | build_check.js:639-641 | definition of shouldIgnore for string keys; ReportSummary.IgnoredMemberChangesNothing states what it does to the sums |

## Left out

- The command line (yargs), reading the data files and the calls of `generateTests` from the command are not modelled: they are I/O. `arr` and `unarr` are not modelled either.
- `fs.writeFileSync`: `Generator.GenerateTests` returns the file text instead of writing it, and None when the generation stops.
- Console output, colours and `dumpGenerationResult` are left out. `logMinifyError` only prints, so it is left out too.
- JsEscape.Escape: U+2028 and U+2029 pass through unescaped, as they do through JSON.stringify, so a test body holding one of them puts a raw JavaScript line terminator into the generated string literal (`JsEscape.SeparatorsPassRaw`); only `\n` and `\r` are proved absent.
- GeneratorSpec.FormatErrorLine: the colour codes chalk adds are left out. The column is always a number; a missing column is not modelled, though it only changes where the marker goes. `logMinifyError` calls `formatErrorLine` again on the same input, which cannot throw once the first call returned.
- The runner and display side of the file is not part of this model: `runTest`, the `run*`/`loadAndRun*` functions, `display*`, `envInfo`, `deepMap`, `indentCode` and `err`. `__createIterableObject` is also left out.
- The minifier (UglifyJS) is a foreign library. It is a function parameter that returns code, or an error with a message and a position.
- `adaptToRuntime` returns its argument, so the model uses the body itself.
- Generator.GenTestGroup: the `tests == null` early return is not modelled, because the tests are always a list here.
- Generator.CollectCategories: categories are listed in order of first appearance. `Object.keys` lists integer-like names first, and the model does not capture that.
- TextHelpers.Capitalize, TextHelpers.Lowerize: only ASCII letters change case, because the model has no Unicode case tables.
- JsText.Contains: the regular expressions of the filter are modelled as literal substring search. Patterns come from `makeIdentifier`, so they hold only word characters.
- ReportSummary.Value: a number carries its finite value, and None stands for NaN and the infinities. A string carries the number it converts to. Floating-point rounding is not modelled.
- ReportSummary.ShouldIgnore: only the `__` prefix is modelled. The keys for-in visits are always strings, so the `typeof key !== "string"` case does not arise.
- TextHelpers.ClipString: the `undefined` argument and the `toString()` conversion are not modelled; the argument is already a string.
- TextHelpers.ClipString: lengths and the cut count Unicode characters, where `length` and `substring` count UTF-16 code units. The two differ on text with characters outside the Basic Multilingual Plane: there the source clips earlier than the model, and can cut a surrogate pair in two.
- GeneratorSpec.FormatErrorLine: the column also counts Unicode characters, not UTF-16 code units, so on a line with characters outside the Basic Multilingual Plane the marker can sit elsewhere than in the source.
- GeneratorSpec.Test: a test is assumed to have an `exec` function, and `subtests` to be an array or absent. A test without `exec` (where `test.exec.toString()` throws) and a `subtests` value that is not an array are inputs the model cannot express.
- GeneratorSpec.BodyOf: when `extractFunctionBody` finds no body, the text "undefined" stands for it, which is what concatenation, search and escaping turn `undefined` into.
- `last` of an empty path is not modelled, because every path it is called with is non-empty.
- An exception inside `generateTests` stops the generation. The model returns the report so far and no text, and does not model the console message.
- The path filter does not model `options.verbose`, which only prints.

## Findings

| source | as written | input that shows it | evidently intended | confidence | as-written member | corrected member |
|---|---|---|---|---|---|---|
| build_check.js:740-749 | a filter text of one piece is unwrapped to that piece's step, so "*" (or "") becomes null, and `matchFilter` then calls `pathFilter.test` on null (build_check.js:274) | the filter text "*" | "*" is a wildcard and accepts every test path | not executed | PathFilter.StarFilterCrashesAsWritten | PathFilter.StarFilterAcceptsAll |
