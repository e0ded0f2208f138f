/**
 * What the generator produces, stated as values: the test tree it reads, the
 * object literal it writes (as a tree of entries and as text), and the
 * report of included, excluded and unminifiable tests. The methods of
 * module Generator are proved to compute exactly these folds.
 */
module GeneratorSpec {
  import opened Wrappers
  import opened JsText
  import opened JsEscape
  import opened TextHelpers
  import opened FunctionBody
  import opened PathFilter

  // ---------------------------------------------------------------------------
  // The test tree

  /** A subtest: its name and the source text of its exec function. */
  datatype Leaf = Leaf(name: string, exec: string)

  /** A test of a data file. `category` "" stands for a missing (falsy)
      category; `subtests` None for a test without a subtests array. Its own
      exec is only read when it has no subtests. */
  datatype Test = Test(name: string, category: string, exec: string, subtests: Option<seq<Leaf>>)

  // ---------------------------------------------------------------------------
  // The generated object

  /** A member of the generated object: a test function `key:f("…")` (or
      `a(…)` for an asynchronous test), or a test with subtests
      `"name": { … }` whose members are test functions. */
  datatype Entry = Func(key: string, async: bool, code: string) | TestGroup(name: string, subs: seq<Entry>)

  /** The number of test functions in a list of entries. */
  function FuncCount(entries: seq<Entry>): nat
    decreases entries
  {
    if |entries| == 0 then 0
    else
      var last := entries[|entries| - 1];
      FuncCount(entries[..|entries| - 1]) + (if last.Func? then 1 else FuncCount(last.subs))
  }

  // ---------------------------------------------------------------------------
  // The report

  /** One failed minification: the test path, the minifier's message, the wrapped
      source it was given (the source shows it with the error position
      highlighted) and that position. */
  datatype MinifyError = MinifyError(test: seq<string>, message: string, src: string)

  /** The minifier, a foreign library: it returns code or throws an error with
      a message and a position; the line is None when the error has none. */
  datatype MinifyOutcome = Minified(code: string) | MinifyFailed(message: string, line: Option<int>, col: int)

  /** The contents of a GenerationReport. */
  datatype Report = Report(included: seq<string>, excluded: seq<string>, minifyErrors: seq<MinifyError>)

  /** testPath.join("/") */
  function PathText(path: seq<string>): string {
    Join(path, "/")
  }

  // ---------------------------------------------------------------------------
  // One test function

  /** The body put in the generated file: the extracted body, or the text
      "undefined" which the missing body turns into when concatenated,
      searched and escaped. */
  function BodyOf(exec: string): string {
    match ExtractFunctionBody(exec)
    case Some(b) => b
    case None => "undefined"
  }

  const MinifyPrefix: string := "function x(){"
  const MinifySuffix: string := "}"

  /** The error line is a line of the source: `src.split("\n")[line - 1]`
      is defined. */
  predicate HasLine(src: string, line: Option<int>) {
    line.Some? && 1 <= line.value <= |Split(src, '\n')|
  }

  /** formatErrorLine(src, line, col) without its colours: the error line with
      "<!" at the column and ">" at its end; None for the TypeError thrown
      when the source has no such line. */
  function FormatErrorLine(src: string, line: Option<int>, col: int): (r: Option<string>)
    ensures r.Some? <==> HasLine(src, line)
  {
    if HasLine(src, line) then
      var text := Split(src, '\n')[line.value - 1];
      Some(Substring(text, 0, col) + "<!" + Substring(text, col, |text|) + ">")
    else None
  }

  /** The marked line is the error line, cut at the column clamped to it, with
      the two markers added; it holds no '\n'. */
  lemma FormatErrorLineMarks(src: string, line: int, col: int)
    requires HasLine(src, Some(line))
    ensures var text := Split(src, '\n')[line - 1];
      var c := if col < 0 then 0 else if col > |text| then |text| else col;
      && FormatErrorLine(src, Some(line), col) == Some(text[..c] + "<!" + text[c..] + ">")
      && '\n' !in FormatErrorLine(src, Some(line), col).value
  {
    SplitPieces(src, '\n');
    var text := Split(src, '\n')[line - 1];
    var c := if col < 0 then 0 else if col > |text| then |text| else col;
    assert Substring(text, 0, col) == text[..c] && Substring(text, col, |text|) == text[c..];
    assert '\n' !in text;
    assert '\n' !in text[..c] && '\n' !in text[c..];
  }

  /** tryMinifyBody: the body wrapped in a function, minified, and the wrapper
      cut off again; on a minifier error the error is recorded and the body
      kept. None: recording the error threw, because the error's line is not
      a line of the wrapped function; the exception leaves tryMinifyBody. */
  function MinifyBody(minifier: string -> MinifyOutcome, path: seq<string>, src: string, rep: Report): (Option<string>, Report) {
    var func := MinifyPrefix + src + MinifySuffix;
    match minifier(func)
    case Minified(code) => (Some(Substring(code, |MinifyPrefix|, |code| - |MinifySuffix|)), rep)
    case MinifyFailed(msg, line, col) =>
      match FormatErrorLine(func, line, col)
      case Some(marked) => (Some(src), rep.(minifyErrors := rep.minifyErrors + [MinifyError(path, msg, marked)]))
      case None => (None, rep)
  }

  /** genTestString for an accepted test: the entry it writes, or None for a
      test error (the TypeError formatErrorLine throws on an error line that
      does not exist, or the one makeIdentifier throws on a name without a
      word character), and the report after a possible minification error. */
  function FuncEntry(options: Options, minifier: string -> MinifyOutcome, path: seq<string>, exec: string, rep: Report)
    : (Report, Option<Entry>)
    requires path != []
  {
    var body := BodyOf(exec);
    var async := IsAsyncTest(body);
    var (code, rep') := if options.minify then MinifyBody(minifier, path, body, rep) else (Some(body), rep);
    if code.None? then (rep', None)
    else
      match MakeIdentifier(path[|path| - 1])
      case None => (rep', None)
      case Some(key) => (rep', Some(Func(key, async, code.value)))
  }

  // ---------------------------------------------------------------------------
  // The traversal of a group

  /** The state of the traversal: the report so far, the entries written so
      far, and whether a test error stopped it. A test error is an exception
      thrown while writing one test function; it ends the whole generation. */
  datatype State = State(rep: Report, entries: seq<Entry>, aborted: bool)

  /** A leaf (a test without subtests, or a subtest) visited by genTestGroup:
      an accepted path is pushed onto `included` and written, any other
      onto `excluded`. */
  function VisitLeaf(options: Options, minifier: string -> MinifyOutcome, path: seq<string>, exec: string, s: State): State
    requires path != []
  {
    if s.aborted then s
    else if Accepted(options, path) then
      var rep1 := s.rep.(included := s.rep.included + [PathText(path)]);
      var (rep2, e) := FuncEntry(options, minifier, path, exec, rep1);
      if e.None? then State(rep2, s.entries, true) else State(rep2, s.entries + [e.value], false)
    else State(s.rep.(excluded := s.rep.excluded + [PathText(path)]), s.entries, false)
  }

  /** The subtests of a test, visited in order. */
  function VisitSubs(options: Options, minifier: string -> MinifyOutcome, testPath: seq<string>, subs: seq<Leaf>, s: State): State
  {
    if |subs| == 0 then s
    else
      var sub := subs[|subs| - 1];
      VisitLeaf(options, minifier, testPath + [sub.name], sub.exec, VisitSubs(options, minifier, testPath, subs[..|subs| - 1], s))
  }

  /** One test of a group: a single test is a leaf; a test with subtests adds
      one member holding its accepted subtests, or nothing when there are
      none. */
  function VisitTest(options: Options, minifier: string -> MinifyOutcome, groupPath: seq<string>, test: Test, s: State): State {
    if s.aborted then s
    else match test.subtests
      case None => VisitLeaf(options, minifier, groupPath + [test.name], test.exec, s)
      case Some(subs) =>
        var t := VisitSubs(options, minifier, groupPath + [test.name], subs, State(s.rep, [], false));
        if t.aborted then State(t.rep, s.entries, true)
        else if t.entries == [] then State(t.rep, s.entries, false)
        else State(t.rep, s.entries + [TestGroup(test.name, t.entries)], false)
  }

  /** The tests of a group, visited in order. */
  function VisitTests(options: Options, minifier: string -> MinifyOutcome, groupPath: seq<string>, tests: seq<Test>, s: State): State {
    if |tests| == 0 then s
    else VisitTest(options, minifier, groupPath, tests[|tests| - 1], VisitTests(options, minifier, groupPath, tests[..|tests| - 1], s))
  }

  // ---------------------------------------------------------------------------
  // The text

  const Tab: string := "  "

  /** `\n<tab><key>:f("<escaped code>")`, or `a(` for an asynchronous test. */
  function FuncText(tab: string, key: string, async: bool, code: string): (r: string)
    ensures r != ""
  {
    "\n" + tab + key + ":" + (if async then "a" else "f") + "(\"" + Escape(code) + "\")"
  }

  /** The texts of test functions written at indentation `tab`. */
  function FuncTexts(tab: string, subs: seq<Entry>): (r: seq<string>)
    ensures |r| == |subs| && forall k :: 0 <= k < |r| ==> r[k] != ""
  {
    if |subs| == 0 then []
    else
      var e := subs[|subs| - 1];
      FuncTexts(tab, subs[..|subs| - 1])
      + [if e.Func? then FuncText(tab, e.key, e.async, e.code) else FuncText(tab, "", false, "")]
  }

  lemma FuncTextsAppend(tab: string, entries: seq<Entry>, n: nat)
    requires n + 1 == |entries| && entries[n].Func?
    ensures FuncTexts(tab, entries) == FuncTexts(tab, entries[..n]) + [EntryText(tab, entries[n])]
  {
  }

  /** A member at the indentation of its group: a test function at `tab`; a
      test with subtests opens at `tab` plus two spaces and its functions
      are at `tab` plus four spaces. */
  function EntryText(tab: string, e: Entry): (r: string)
    ensures r != ""
  {
    match e
    case Func(key, async, code) => FuncText(tab, key, async, code)
    case TestGroup(name, subs) =>
      "\n" + tab + Tab + "\"" + Escape(name) + "\": { // test+"
      + Join(FuncTexts(tab + Tab + Tab, subs), ",")
      + "\n" + tab + Tab + "}"
  }

  function EntryTexts(tab: string, entries: seq<Entry>): (r: seq<string>)
    ensures |r| == |entries| && forall k :: 0 <= k < |r| ==> r[k] != ""
  {
    if |entries| == 0 then []
    else EntryTexts(tab, entries[..|entries| - 1]) + [EntryText(tab, entries[|entries| - 1])]
  }

  lemma EntryTextsAppend(tab: string, entries: seq<Entry>, n: nat)
    requires n + 1 == |entries|
    ensures EntryTexts(tab, entries) == EntryTexts(tab, entries[..n]) + [EntryText(tab, entries[n])]
  {
  }

  /** The members of a group, separated by commas. */
  function MembersText(tab: string, entries: seq<Entry>): string {
    Join(EntryTexts(tab, entries), ",")
  }

  /** genTestGroup's result: the report after the traversal, and the group
      `\n<tab><id>: {\n<members>\n<tab>}` or "" when no member was written
      (None when a test error stopped it). */
  function GroupText(options: Options, minifier: string -> MinifyOutcome, groupPath: seq<string>, tests: seq<Test>, tab: string, rep: Report)
    : (Report, Option<string>)
    requires groupPath != []
  {
    var s := VisitTests(options, minifier, groupPath, tests, State(rep, [], false));
    if s.aborted then (s.rep, None)
    else if s.entries == [] then (s.rep, Some(""))
    else match MakeIdentifier(groupPath[|groupPath| - 1])
      case None => (s.rep, None)
      case Some(id) => (s.rep, Some("\n" + tab + id + ": {\n" + MembersText(tab, s.entries) + "\n" + tab + "}"))
  }

  // ---------------------------------------------------------------------------
  // Categories

  /** The categories of a list of tests, in order of first appearance. */
  function Categories(tests: seq<Test>): (r: seq<string>)
  {
    if |tests| == 0 then []
    else
      var cats := Categories(tests[..|tests| - 1]);
      var c := tests[|tests| - 1].category;
      if c != "" && c !in cats then cats + [c] else cats
  }

  /** tests.filter(item => item.category == category) */
  function InCategory(tests: seq<Test>, category: string): (r: seq<Test>)
    ensures |r| <= |tests|
    ensures forall k :: 0 <= k < |r| ==> r[k].category == category
    ensures forall t :: t in r <==> t in tests && t.category == category
  {
    if |tests| == 0 then []
    else
      var t := tests[|tests| - 1];
      InCategory(tests[..|tests| - 1], category) + (if t.category == category then [t] else [])
  }

  /** The state of genByCategory's loop over categories: the report, the
      non-empty group texts so far, and whether an error stopped it. */
  datatype CatState = CatState(rep: Report, groups: seq<string>, aborted: bool)

  function VisitCategories(options: Options, minifier: string -> MinifyOutcome, groupPath: seq<string>, tests: seq<Test>,
                           cats: seq<string>, tab: string, rep: Report): (r: CatState)
    ensures forall k :: 0 <= k < |r.groups| ==> r.groups[k] != ""
    ensures |r.groups| <= |cats|
  {
    if |cats| == 0 then CatState(rep, [], false)
    else
      var s := VisitCategories(options, minifier, groupPath, tests, cats[..|cats| - 1], tab, rep);
      if s.aborted then s
      else
        var c := cats[|cats| - 1];
        var (rep', g) := GroupText(options, minifier, groupPath + [c], InCategory(tests, c), tab + Tab, s.rep);
        if g.None? then CatState(rep', s.groups, true)
        else if g.value == "" then CatState(rep', s.groups, false)
        else CatState(rep', s.groups + [g.value], false)
  }

  /** genByCategory's result: without categories the group itself; otherwise
      one sub-group per category, wrapped in `\n<tab><id>: { // group\n …`. */
  function ByCategoryText(options: Options, minifier: string -> MinifyOutcome, groupPath: seq<string>, tests: seq<Test>, tab: string, rep: Report)
    : (Report, Option<string>)
    requires groupPath != []
  {
    var cats := Categories(tests);
    if cats == [] then GroupText(options, minifier, groupPath, tests, tab, rep)
    else
      var s := VisitCategories(options, minifier, groupPath, tests, cats, tab, rep);
      if s.aborted then (s.rep, None)
      else if s.groups == [] then (s.rep, Some(""))
      else match MakeIdentifier(groupPath[|groupPath| - 1])
        case None => (s.rep, None)
        case Some(id) =>
          var body := Join(s.groups, ",") + "// category " + Join(groupPath, ",") + "\n";
          (s.rep, Some("\n" + tab + id + ": { // group\n" + body + "\n" + tab + "}"))
  }

  // ---------------------------------------------------------------------------
  // The whole file

  const UnableMsg: string := "Unable to run this test"

  /** The fixed start of the generated module: the helpers f (compile a test
      body, falling back to strict mode) and a (asynchronous tests cannot run). */
  const Preamble: string :=
    "// ES6 compatibility checks\n"
    + "// -------------------------\n"
    + "var unableMsg = '" + UnableMsg + "';\n"
    + "function wrapStrict(f) { return function() { var v = f(); return v === true ? 'strict' : v; } }\n"
    + "function f(b){try{return new Function('global',b)} catch(e){"
    + "try { return wrapStrict(new Function('global','\"use strict\";'+b)); } catch (ee) { return function(){return ee;}}}}\n"
    + "function a(b){return function() { return new Error(unableMsg)}}\n"
    + "module.exports = {"

  /** generateTests: the preamble, the es5 group and the es6 and es7 groups
      by category, the non-empty ones separated by ",\n", and the closing of
      the module object; None when a test error stopped the
      generation (the report so far is still returned). */
  function GenerateText(options: Options, minifier: string -> MinifyOutcome, es5: seq<Test>, es6: seq<Test>, es7: seq<Test>)
    : (Report, Option<string>)
  {
    var (r1, g1) := GroupText(options, minifier, ["es5"], es5, Tab, Report([], [], []));
    if g1.None? then (r1, None)
    else
      var (r2, g2) := ByCategoryText(options, minifier, ["es6"], es6, Tab, r1);
      if g2.None? then (r2, None)
      else
        var (r3, g3) := ByCategoryText(options, minifier, ["es7"], es7, Tab, r2);
        if g3.None? then (r3, None)
        else (r3, Some(FileText(g1.value, g2.value, g3.value)))
  }

  /** The generated module around the texts of the three groups. */
  function FileText(es5: string, es6: string, es7: string): string {
    Preamble + Join(NonEmptyItems([Some(es5), Some(es6), Some(es7)]), ",\n") + "\n};\n"
  }

  /** The generated file is the preamble, then the groups, then the closing
      brace; when no group has a member it is the empty object. */
  lemma FileTextShape(es5: string, es6: string, es7: string)
    ensures StartsWith(FileText(es5, es6, es7), Preamble) && EndsWith(FileText(es5, es6, es7), "\n};\n")
    ensures FileText(es5, es6, es7) == Preamble + "\n};\n" <==> es5 == "" && es6 == "" && es7 == ""
  {
    var items := [Some(es5), Some(es6), Some(es7)];
    var mid := Join(NonEmptyItems(items), ",\n");
    Framed(Preamble, mid, "\n};\n");
    JoinNotEmptyShape(items, ",\n");
    assert (forall k :: 0 <= k < |items| ==> !Kept(items[k])) <==> !Kept(items[0]) && !Kept(items[1]) && !Kept(items[2]);
  }

  /** A text between a fixed start and a fixed end. */
  lemma Framed(start: string, mid: string, end: string)
    ensures StartsWith(start + mid + end, start) && EndsWith(start + mid + end, end)
    ensures start + mid + end == start + end <==> mid == ""
  {
    var text := start + mid + end;
    assert text[..|start|] == start;
    assert text[|text| - |end|..] == end;
    if mid == "" {
      assert start + mid == start;
    }
  }

  // ---------------------------------------------------------------------------
  // A test error stops the traversal

  lemma {:induction false} SubsAbortStays(options: Options, minifier: string -> MinifyOutcome, testPath: seq<string>,
                                          subs: seq<Leaf>, n: nat, s0: State)
    requires n <= |subs| && VisitSubs(options, minifier, testPath, subs[..n], s0).aborted
    ensures VisitSubs(options, minifier, testPath, subs, s0) == VisitSubs(options, minifier, testPath, subs[..n], s0)
    decreases |subs|
  {
    if n == |subs| {
      assert subs[..n] == subs;
    } else {
      var init := subs[..|subs| - 1];
      assert init[..n] == subs[..n];
      SubsAbortStays(options, minifier, testPath, init, n, s0);
    }
  }

  lemma {:induction false} TestsAbortStays(options: Options, minifier: string -> MinifyOutcome, groupPath: seq<string>,
                                           tests: seq<Test>, n: nat, s0: State)
    requires n <= |tests| && VisitTests(options, minifier, groupPath, tests[..n], s0).aborted
    ensures VisitTests(options, minifier, groupPath, tests, s0) == VisitTests(options, minifier, groupPath, tests[..n], s0)
    decreases |tests|
  {
    if n == |tests| {
      assert tests[..n] == tests;
    } else {
      var init := tests[..|tests| - 1];
      assert init[..n] == tests[..n];
      TestsAbortStays(options, minifier, groupPath, init, n, s0);
    }
  }

  lemma {:induction false} CategoriesAbortStays(options: Options, minifier: string -> MinifyOutcome, groupPath: seq<string>,
                                                tests: seq<Test>, cats: seq<string>, n: nat, tab: string, rep: Report)
    requires n <= |cats| && VisitCategories(options, minifier, groupPath, tests, cats[..n], tab, rep).aborted
    ensures VisitCategories(options, minifier, groupPath, tests, cats, tab, rep)
         == VisitCategories(options, minifier, groupPath, tests, cats[..n], tab, rep)
    decreases |cats|
  {
    if n == |cats| {
      assert cats[..n] == cats;
    } else {
      var init := cats[..|cats| - 1];
      assert init[..n] == cats[..n];
      CategoriesAbortStays(options, minifier, groupPath, tests, init, n, tab, rep);
    }
  }

  // ---------------------------------------------------------------------------
  // The paths the traversal visits

  /** The leaf paths of the subtests of a test, in order. */
  function SubPaths(testPath: seq<string>, subs: seq<Leaf>): (r: seq<seq<string>>)
    ensures |r| == |subs|
  {
    if |subs| == 0 then []
    else SubPaths(testPath, subs[..|subs| - 1]) + [testPath + [subs[|subs| - 1].name]]
  }

  /** The leaf paths of one test: its own path, or one per subtest. */
  function TestPaths(groupPath: seq<string>, t: Test): seq<seq<string>> {
    match t.subtests
    case None => [groupPath + [t.name]]
    case Some(subs) => SubPaths(groupPath + [t.name], subs)
  }

  /** The leaf paths of a group, in traversal order. */
  function LeafPaths(groupPath: seq<string>, tests: seq<Test>): seq<seq<string>> {
    if |tests| == 0 then []
    else LeafPaths(groupPath, tests[..|tests| - 1]) + TestPaths(groupPath, tests[|tests| - 1])
  }

  /** The joined paths a filter accepts, in order. */
  function AcceptedPaths(options: Options, paths: seq<seq<string>>): seq<string> {
    if |paths| == 0 then []
    else AcceptedPaths(options, paths[..|paths| - 1])
         + (if Accepted(options, paths[|paths| - 1]) then [PathText(paths[|paths| - 1])] else [])
  }

  /** The joined paths a filter rejects, in order. */
  function RejectedPaths(options: Options, paths: seq<seq<string>>): seq<string> {
    if |paths| == 0 then []
    else RejectedPaths(options, paths[..|paths| - 1])
         + (if Accepted(options, paths[|paths| - 1]) then [] else [PathText(paths[|paths| - 1])])
  }

  // ---------------------------------------------------------------------------
  // Leaf accounting

  lemma {:induction false} AcceptedPathsAppend(options: Options, a: seq<seq<string>>, b: seq<seq<string>>)
    ensures AcceptedPaths(options, a + b) == AcceptedPaths(options, a) + AcceptedPaths(options, b)
    ensures RejectedPaths(options, a + b) == RejectedPaths(options, a) + RejectedPaths(options, b)
    decreases |b|
  {
    if |b| == 0 {
      assert a + b == a;
    } else {
      var b' := b[..|b| - 1];
      assert (a + b)[..|a + b| - 1] == a + b';
      assert (a + b)[|a + b| - 1] == b[|b| - 1];
      AcceptedPathsAppend(options, a, b');
    }
  }

  /** Every visited path is sorted into exactly one list: accepted paths onto
      `included` and the others onto `excluded`, in traversal order; the
      number of test functions written is the number of paths included;
      every written member holds at least one function. */
  predicate Accounted(options: Options, paths: seq<seq<string>>, s0: State, s: State) {
    && s.rep.included == s0.rep.included + AcceptedPaths(options, paths)
    && s.rep.excluded == s0.rep.excluded + RejectedPaths(options, paths)
    && FuncCount(s.entries) == FuncCount(s0.entries) + |AcceptedPaths(options, paths)|
    && |s.entries| >= |s0.entries| && s.entries[..|s0.entries|] == s0.entries
  }

  lemma FuncCountAppend(entries: seq<Entry>, e: Entry)
    ensures FuncCount(entries + [e]) == FuncCount(entries) + (if e.Func? then 1 else FuncCount(e.subs))
  {
    assert (entries + [e])[..|entries|] == entries;
  }

  lemma AccountedTrans(options: Options, p1: seq<seq<string>>, p2: seq<seq<string>>, s0: State, s1: State, s2: State)
    requires Accounted(options, p1, s0, s1) && Accounted(options, p2, s1, s2)
    ensures Accounted(options, p1 + p2, s0, s2)
  {
    AcceptedPathsAppend(options, p1, p2);
    assert s2.entries[..|s0.entries|] == s2.entries[..|s1.entries|][..|s0.entries|];
  }

  lemma SinglePath(options: Options, path: seq<string>)
    ensures AcceptedPaths(options, [path]) == (if Accepted(options, path) then [PathText(path)] else [])
    ensures RejectedPaths(options, [path]) == (if Accepted(options, path) then [] else [PathText(path)])
  {
    assert [path][..0] == [];
  }

  /** One leaf: its path lands on one list, and at most one test function is
      written. */
  lemma LeafAccounted(options: Options, minifier: string -> MinifyOutcome, path: seq<string>, exec: string, s: State)
    requires path != [] && !s.aborted
    requires !VisitLeaf(options, minifier, path, exec, s).aborted
    ensures Accounted(options, [path], s, VisitLeaf(options, minifier, path, exec, s))
    ensures var t := VisitLeaf(options, minifier, path, exec, s);
      |t.entries| <= |s.entries| + 1 && forall k :: |s.entries| <= k < |t.entries| ==> t.entries[k].Func?
  {
    var t := VisitLeaf(options, minifier, path, exec, s);
    if Accepted(options, path) {
      var rep1 := s.rep.(included := s.rep.included + [PathText(path)]);
      var r := FuncEntry(options, minifier, path, exec, rep1);
      FuncEntryKeepsPaths(options, minifier, path, exec, rep1);
      AcceptedLeafStep(options, path, s, r.0, r.1.value, t);
    } else {
      RejectedLeafStep(options, path, s, t);
    }
  }

  lemma AcceptedLeafStep(options: Options, path: seq<string>, s: State, rep: Report, e: Entry, t: State)
    requires Accepted(options, path) && e.Func?
    requires rep.included == s.rep.included + [PathText(path)] && rep.excluded == s.rep.excluded
    requires t == State(rep, s.entries + [e], false)
    ensures Accounted(options, [path], s, t)
  {
    SinglePath(options, path);
    FuncCountAppend(s.entries, e);
    assert (s.entries + [e])[..|s.entries|] == s.entries;
  }

  lemma RejectedLeafStep(options: Options, path: seq<string>, s: State, t: State)
    requires !Accepted(options, path)
    requires t == State(s.rep.(excluded := s.rep.excluded + [PathText(path)]), s.entries, false)
    ensures Accounted(options, [path], s, t)
  {
    SinglePath(options, path);
  }

  /** Writing a test function touches only the minification errors. */
  lemma FuncEntryKeepsPaths(options: Options, minifier: string -> MinifyOutcome, path: seq<string>, exec: string, rep: Report)
    requires path != []
    ensures var r := FuncEntry(options, minifier, path, exec, rep);
      r.0.included == rep.included && r.0.excluded == rep.excluded && (r.1.Some? ==> r.1.value.Func?)
  {
    if options.minify {
      var m := MinifyBody(minifier, path, BodyOf(exec), rep);
      assert m.1.included == rep.included && m.1.excluded == rep.excluded;
    }
  }

  lemma {:induction false} VisitSubsAccounted(options: Options, minifier: string -> MinifyOutcome, testPath: seq<string>,
                                              subs: seq<Leaf>, s0: State)
    requires !s0.aborted
    requires !VisitSubs(options, minifier, testPath, subs, s0).aborted
    ensures Accounted(options, SubPaths(testPath, subs), s0, VisitSubs(options, minifier, testPath, subs, s0))
    ensures forall k :: |s0.entries| <= k < |VisitSubs(options, minifier, testPath, subs, s0).entries|
              ==> VisitSubs(options, minifier, testPath, subs, s0).entries[k].Func?
  {
    if |subs| == 0 {
      assert s0.entries[..|s0.entries|] == s0.entries;
    } else {
      var init := subs[..|subs| - 1];
      var sub := subs[|subs| - 1];
      var path := testPath + [sub.name];
      var mid := VisitSubs(options, minifier, testPath, init, s0);
      var s := VisitLeaf(options, minifier, path, sub.exec, mid);
      assert !mid.aborted;
      VisitSubsAccounted(options, minifier, testPath, init, s0);
      LeafAccounted(options, minifier, path, sub.exec, mid);
      AccountedTrans(options, SubPaths(testPath, init), [path], s0, mid, s);
      forall k | |s0.entries| <= k < |s.entries|
        ensures s.entries[k].Func?
      {
        if k < |mid.entries| {
          assert s.entries[k] == s.entries[..|mid.entries|][k];
        }
      }
    }
  }

  lemma FuncCountOne(e: Entry)
    ensures FuncCount([e]) == if e.Func? then 1 else FuncCount(e.subs)
  {
    FuncCountAppend([], e);
  }

  /** One test: its leaf paths land on the lists, and at most one member,
      holding at least one function, is written. */
  lemma TestAccounted(options: Options, minifier: string -> MinifyOutcome, groupPath: seq<string>, t: Test, s: State)
    requires !s.aborted
    requires !VisitTest(options, minifier, groupPath, t, s).aborted
    ensures Accounted(options, TestPaths(groupPath, t), s, VisitTest(options, minifier, groupPath, t, s))
    ensures var s' := VisitTest(options, minifier, groupPath, t, s);
      |s'.entries| <= |s.entries| + 1 && forall k :: |s.entries| <= k < |s'.entries| ==> FuncCount([s'.entries[k]]) >= 1
  {
    var s' := VisitTest(options, minifier, groupPath, t, s);
    match t.subtests {
      case None =>
        LeafAccounted(options, minifier, groupPath + [t.name], t.exec, s);
        if |s'.entries| > |s.entries| {
          FuncCountOne(s'.entries[|s.entries|]);
        }
      case Some(subs) =>
        var start := State(s.rep, [], false);
        var tt := VisitSubs(options, minifier, groupPath + [t.name], subs, start);
        VisitSubsAccounted(options, minifier, groupPath + [t.name], subs, start);
        if tt.entries != [] {
          var e := TestGroup(t.name, tt.entries);
          FuncCountAppend(s.entries, e);
          FuncCountOne(e);
          assert tt.entries[0].Func?;
          FuncCountOne(tt.entries[0]);
          assert tt.entries[..1] == [tt.entries[0]];
          FuncCountPrefix(tt.entries, 1);
          assert (s.entries + [e])[..|s.entries|] == s.entries;
        } else {
          assert s'.entries == s.entries;
        }
    }
  }

  lemma {:induction false} FuncCountPrefix(entries: seq<Entry>, n: nat)
    requires n <= |entries|
    ensures FuncCount(entries[..n]) <= FuncCount(entries)
    decreases |entries|
  {
    if n < |entries| {
      var init := entries[..|entries| - 1];
      assert entries[..n] == init[..n];
      FuncCountPrefix(init, n);
    } else {
      assert entries[..n] == entries;
    }
  }

  lemma {:induction false} VisitTestsAccounted(options: Options, minifier: string -> MinifyOutcome, groupPath: seq<string>,
                                               tests: seq<Test>, s0: State)
    requires !s0.aborted
    requires !VisitTests(options, minifier, groupPath, tests, s0).aborted
    ensures Accounted(options, LeafPaths(groupPath, tests), s0, VisitTests(options, minifier, groupPath, tests, s0))
    ensures forall k :: |s0.entries| <= k < |VisitTests(options, minifier, groupPath, tests, s0).entries|
              ==> FuncCount([VisitTests(options, minifier, groupPath, tests, s0).entries[k]]) >= 1
  {
    if |tests| == 0 {
      assert s0.entries[..|s0.entries|] == s0.entries;
    } else {
      var init := tests[..|tests| - 1];
      var t := tests[|tests| - 1];
      var mid := VisitTests(options, minifier, groupPath, init, s0);
      var s := VisitTest(options, minifier, groupPath, t, mid);
      assert !mid.aborted;
      VisitTestsAccounted(options, minifier, groupPath, init, s0);
      TestAccounted(options, minifier, groupPath, t, mid);
      AccountedTrans(options, LeafPaths(groupPath, init), TestPaths(groupPath, t), s0, mid, s);
      forall k | |s0.entries| <= k < |s.entries|
        ensures FuncCount([s.entries[k]]) >= 1
      {
        if k < |mid.entries| {
          assert s.entries[k] == s.entries[..|mid.entries|][k];
        }
      }
    }
  }

  /** Entries that each hold a function hold none only when there are none. */
  lemma FuncCountZero(entries: seq<Entry>)
    requires forall k :: 0 <= k < |entries| ==> FuncCount([entries[k]]) >= 1
    ensures FuncCount(entries) == 0 <==> entries == []
  {
    if |entries| > 0 {
      var last := entries[|entries| - 1];
      assert FuncCount([last]) >= 1;
      FuncCountOne(last);
    }
  }

  /** genTestGroup's leaf accounting: unless a test error stops it,
      the report gains exactly the accepted paths on `included` and the
      others on `excluded`, in traversal order, the group holds one test
      function per included path, and the group is "" exactly when no path
      was accepted. */
  lemma GroupAccounting(options: Options, minifier: string -> MinifyOutcome, groupPath: seq<string>, tests: seq<Test>,
                        tab: string, rep: Report)
    requires groupPath != []
    requires !VisitTests(options, minifier, groupPath, tests, State(rep, [], false)).aborted
    ensures var s := VisitTests(options, minifier, groupPath, tests, State(rep, [], false));
      var paths := LeafPaths(groupPath, tests);
      && s.rep.included == rep.included + AcceptedPaths(options, paths)
      && s.rep.excluded == rep.excluded + RejectedPaths(options, paths)
      && FuncCount(s.entries) == |AcceptedPaths(options, paths)|
      && (GroupText(options, minifier, groupPath, tests, tab, rep).1 == Some("") <==> AcceptedPaths(options, paths) == [])
  {
    var s0 := State(rep, [], false);
    VisitTestsAccounted(options, minifier, groupPath, tests, s0);
    var s := VisitTests(options, minifier, groupPath, tests, s0);
    FuncCountZero(s.entries);
    if s.entries != [] {
      var texts := EntryTexts(tab, s.entries);
      assert texts != [];
    }
  }

  /** Every included or excluded path pushed is a full leaf path: together the
      two lists grow by the number of leaves of the group. */
  lemma {:induction false} AcceptedRejectedCount(options: Options, paths: seq<seq<string>>)
    ensures |AcceptedPaths(options, paths)| + |RejectedPaths(options, paths)| == |paths|
  {
    if |paths| > 0 {
      AcceptedRejectedCount(options, paths[..|paths| - 1]);
    }
  }

  /** A filter that accepts nothing leaves the group out of the file. */
  lemma NothingAcceptedWritesNothing(options: Options, minifier: string -> MinifyOutcome, groupPath: seq<string>,
                                     tests: seq<Test>, tab: string, rep: Report)
    requires groupPath != []
    requires forall p :: p in LeafPaths(groupPath, tests) ==> !Accepted(options, p)
    ensures GroupText(options, minifier, groupPath, tests, tab, rep).1 == Some("")
  {
    NoneAcceptedIsEmpty(options, LeafPaths(groupPath, tests));
    NotAbortedWithoutAccepted(options, minifier, groupPath, tests, State(rep, [], false));
    GroupAccounting(options, minifier, groupPath, tests, tab, rep);
  }

  lemma {:induction false} NoneAcceptedIsEmpty(options: Options, paths: seq<seq<string>>)
    requires forall p :: p in paths ==> !Accepted(options, p)
    ensures AcceptedPaths(options, paths) == []
  {
    if |paths| > 0 {
      assert forall p :: p in paths[..|paths| - 1] ==> p in paths;
      NoneAcceptedIsEmpty(options, paths[..|paths| - 1]);
      assert paths[|paths| - 1] in paths;
    }
  }

  /** Only accepted tests can stop the traversal: when no leaf is accepted,
      nothing aborts. */
  lemma {:induction false} NotAbortedWithoutAccepted(options: Options, minifier: string -> MinifyOutcome, groupPath: seq<string>,
                                                     tests: seq<Test>, s0: State)
    requires !s0.aborted
    requires forall p :: p in LeafPaths(groupPath, tests) ==> !Accepted(options, p)
    ensures !VisitTests(options, minifier, groupPath, tests, s0).aborted
  {
    if |tests| > 0 {
      var init := tests[..|tests| - 1];
      var t := tests[|tests| - 1];
      assert forall p :: p in LeafPaths(groupPath, init) ==> p in LeafPaths(groupPath, tests);
      NotAbortedWithoutAccepted(options, minifier, groupPath, init, s0);
      var mid := VisitTests(options, minifier, groupPath, init, s0);
      match t.subtests {
        case None =>
          assert groupPath + [t.name] in LeafPaths(groupPath, tests);
        case Some(subs) =>
          var own := SubPaths(groupPath + [t.name], subs);
          assert forall p :: p in own ==> p in LeafPaths(groupPath, tests);
          SubsNotAborted(options, minifier, groupPath + [t.name], subs, State(mid.rep, [], false));
      }
    }
  }

  lemma {:induction false} SubsNotAborted(options: Options, minifier: string -> MinifyOutcome, testPath: seq<string>,
                                          subs: seq<Leaf>, s0: State)
    requires !s0.aborted
    requires forall p :: p in SubPaths(testPath, subs) ==> !Accepted(options, p)
    ensures !VisitSubs(options, minifier, testPath, subs, s0).aborted
  {
    if |subs| > 0 {
      var init := subs[..|subs| - 1];
      assert forall p :: p in SubPaths(testPath, init) ==> p in SubPaths(testPath, subs);
      SubsNotAborted(options, minifier, testPath, init, s0);
      assert testPath + [subs[|subs| - 1].name] in SubPaths(testPath, subs);
    }
  }

  // ---------------------------------------------------------------------------
  // Properties of categories

  /** The categories are distinct and non-empty. */
  lemma {:induction false} CategoriesDistinct(tests: seq<Test>)
    ensures forall i, j :: 0 <= i < j < |Categories(tests)| ==> Categories(tests)[i] != Categories(tests)[j]
    ensures forall k :: 0 <= k < |Categories(tests)| ==> Categories(tests)[k] != ""
  {
    if |tests| > 0 {
      CategoriesDistinct(tests[..|tests| - 1]);
    }
  }

  /** A category is listed exactly when some test carries it. */
  lemma {:induction false} CategoriesAreTheTestCategories(tests: seq<Test>, c: string)
    ensures c in Categories(tests) <==> c != "" && exists k :: 0 <= k < |tests| && tests[k].category == c
  {
    if |tests| > 0 {
      var init := tests[..|tests| - 1];
      CategoriesAreTheTestCategories(init, c);
      if exists k :: 0 <= k < |tests| && tests[k].category == c {
        var k :| 0 <= k < |tests| && tests[k].category == c;
        if k < |init| {
          assert init[k].category == c;
        }
      }
      if exists k :: 0 <= k < |init| && init[k].category == c {
        var k :| 0 <= k < |init| && init[k].category == c;
        assert tests[k].category == c;
      }
    }
  }

  /** A test without a category adds no category and belongs to no category. */
  lemma UncategorizedAddsNothing(tests: seq<Test>, t: Test, c: string)
    requires t.category == "" && c != ""
    ensures Categories(tests + [t]) == Categories(tests)
    ensures InCategory(tests + [t], c) == InCategory(tests, c)
  {
    assert (tests + [t])[..|tests|] == tests;
  }

  lemma {:induction false} VisitCategoriesIgnoresUncategorized(options: Options, minifier: string -> MinifyOutcome,
                                                               groupPath: seq<string>, tests: seq<Test>, t: Test,
                                                               cats: seq<string>, tab: string, rep: Report)
    requires t.category == "" && forall k :: 0 <= k < |cats| ==> cats[k] != ""
    ensures VisitCategories(options, minifier, groupPath, tests + [t], cats, tab, rep)
         == VisitCategories(options, minifier, groupPath, tests, cats, tab, rep)
  {
    if |cats| > 0 {
      VisitCategoriesIgnoresUncategorized(options, minifier, groupPath, tests, t, cats[..|cats| - 1], tab, rep);
      UncategorizedAddsNothing(tests, t, cats[|cats| - 1]);
    }
  }

  /** Once a group has categories, a test without one is silently dropped:
      it is written nowhere and reported neither as included nor as
      excluded. */
  lemma UncategorizedTestDropped(options: Options, minifier: string -> MinifyOutcome, groupPath: seq<string>,
                                 tests: seq<Test>, t: Test, tab: string, rep: Report)
    requires groupPath != []
    requires t.category == "" && Categories(tests) != []
    ensures ByCategoryText(options, minifier, groupPath, tests + [t], tab, rep)
         == ByCategoryText(options, minifier, groupPath, tests, tab, rep)
  {
    var cats := Categories(tests);
    CategoriesDistinct(tests);
    UncategorizedAddsNothing(tests, t, "x");
    VisitCategoriesIgnoresUncategorized(options, minifier, groupPath, tests, t, cats, tab, rep);
  }

  // ---------------------------------------------------------------------------
  // Properties of one test function

  /** tryMinifyBody throws exactly when the minifier fails with an error whose
      line is not a line of the wrapped function, and then records nothing. A
      failed minification with such a line keeps the body and records exactly
      one error; a successful one that returns a wrapped function yields its
      body. */
  lemma MinifyBodyOutcomes(minifier: string -> MinifyOutcome, path: seq<string>, src: string, rep: Report)
    ensures var func := MinifyPrefix + src + MinifySuffix;
      var (code, rep') := MinifyBody(minifier, path, src, rep);
      && (code.None? <==> minifier(func).MinifyFailed? && !HasLine(func, minifier(func).line))
      && (code.None? ==> rep' == rep)
      && match minifier(func)
        case MinifyFailed(msg, line, col) =>
          HasLine(func, line) ==>
            code == Some(src) && rep' == rep.(minifyErrors := rep.minifyErrors + [MinifyError(path, msg, FormatErrorLine(func, line, col).value)])
        case Minified(out) =>
          rep' == rep && forall c :: out == MinifyPrefix + c + MinifySuffix ==> code == Some(c)
  {
    match minifier(MinifyPrefix + src + MinifySuffix) {
      case Minified(out) =>
        forall c | out == MinifyPrefix + c + MinifySuffix
          ensures Substring(out, |MinifyPrefix|, |out| - |MinifySuffix|) == c
        {
          assert out[|MinifyPrefix|..|out| - |MinifySuffix|] == c;
        }
      case MinifyFailed(_, _, _) =>
    }
  }

  /** The written code reads back, when the generated module is loaded, as the
      code that was escaped; and the escaped code holds no raw '\n'. */
  lemma FuncTextReadsBack(tab: string, key: string, async: bool, code: string)
    ensures Unescape(Escape(code)) == Some(code)
    ensures '\n' !in Escape(code)
    ensures FuncText(tab, key, async, code) == "\n" + tab + key + ":" + (if async then "a" else "f") + "(\"" + Escape(code) + "\")"
  {
    UnescapeEscape(code);
    EscapeHasNoLineBreak(code);
  }

  /** A test function is written with `a` exactly when its body calls
      asyncTestPassed(). */
  lemma AsyncMarksFunction(options: Options, minifier: string -> MinifyOutcome, path: seq<string>, exec: string, rep: Report)
    requires path != []
    requires FuncEntry(options, minifier, path, exec, rep).1.Some?
    ensures FuncEntry(options, minifier, path, exec, rep).1.value.async <==> Contains(BodyOf(exec), AsyncMarker)
    ensures Some(FuncEntry(options, minifier, path, exec, rep).1.value.key) == MakeIdentifier(path[|path| - 1])
  {
  }
}
