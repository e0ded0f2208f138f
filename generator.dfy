/**
 * The generator as the source writes it: a GenerationReport object whose
 * lists the traversal pushes onto, and loops that accumulate the text of
 * each group. Every method is proved to compute the corresponding fold of
 * module GeneratorSpec, where the properties of the output are proved.
 */
module Generator {
  import opened Wrappers
  import opened JsText
  import opened JsEscape
  import opened TextHelpers
  import opened PathFilter
  import opened GeneratorSpec

  /** All information gathered by one generation: the paths written, the
      paths filtered out, and the bodies the minifier rejected. */
  class GenerationReport {
    var included: seq<string>
    var excluded: seq<string>
    var minifyErrors: seq<MinifyError>

    constructor()
      ensures Value() == Report([], [], [])
    {
      included := [];
      excluded := [];
      minifyErrors := [];
    }

    function Value(): Report
      reads this
    {
      Report(included, excluded, minifyErrors)
    }

    /** Records a failed minification of `func` for the test at `testPath`,
        with the error line marked. `thrown`: formatErrorLine threw because
        `func` has no such line, and nothing was recorded. */
    method AddMinifyError(testPath: seq<string>, func: string, message: string, line: Option<int>, col: int)
      returns (thrown: bool)
      modifies this
      ensures thrown <==> !HasLine(func, line)
      ensures Value() == if thrown then old(Value())
        else old(Value()).(minifyErrors := old(minifyErrors) + [MinifyError(testPath, message, FormatErrorLine(func, line, col).value)])
    {
      var src := FormatErrorLine(func, line, col);
      if src.None? {
        return true;
      }
      minifyErrors := minifyErrors + [MinifyError(testPath, message, src.value)];
      thrown := false;
    }
  }

  /** tryMinifyBody: the minified body, or `src` itself with the error
      recorded in the report; None when recording the error threw. */
  method TryMinifyBody(minifier: string -> MinifyOutcome, testPath: seq<string>, src: string, report: GenerationReport)
    returns (res: Option<string>)
    modifies report
    ensures (res, report.Value()) == MinifyBody(minifier, testPath, src, old(report.Value()))
  {
    var func := MinifyPrefix + src + MinifySuffix;
    match minifier(func) {
      case Minified(code) =>
        res := Some(Substring(code, |MinifyPrefix|, |code| - |MinifySuffix|));
      case MinifyFailed(message, line, col) =>
        var thrown := report.AddMinifyError(testPath, func, message, line, col);
        res := if thrown then None else Some(src);
    }
  }

  /** genTestString: the text of one test function at indentation `tab`; None
      on a test error. */
  method GenTestString(options: Options, minifier: string -> MinifyOutcome, exec: string, testPath: seq<string>,
                       report: GenerationReport, tab: string)
    returns (res: Option<string>)
    requires testPath != []
    modifies report
    ensures var (rep, e) := FuncEntry(options, minifier, testPath, exec, old(report.Value()));
      && report.Value() == rep
      && (res.Some? <==> e.Some?)
      && (e.Some? ==> res.value == EntryText(tab, e.value))
  {
    var body := BodyOf(exec);
    var isAsync := IsAsyncTest(body);
    var bodyMin := Some(body);
    if options.minify {
      bodyMin := TryMinifyBody(minifier, testPath, body, report);
    }
    if bodyMin.None? {
      return None;
    }
    var key := MakeIdentifier(testPath[|testPath| - 1]);
    if key.None? {
      return None;
    }
    res := Some(FuncText(tab, key.value, isAsync, bodyMin.value));
  }

  /** One leaf of genTestGroup, visited from traversal state `st`: its path
      is pushed onto `included` or `excluded`, and an accepted leaf is
      written at `tab`. The result is "" when nothing was written, None on
      a test error. */
  method GenLeaf(path: seq<string>, exec: string, options: Options, minifier: string -> MinifyOutcome,
                 report: GenerationReport, tab: string, ghost st: State)
    returns (member: Option<string>)
    requires path != [] && !st.aborted && report.Value() == st.rep
    modifies report
    ensures var next := VisitLeaf(options, minifier, path, exec, st);
      && report.Value() == next.rep
      && (member.None? <==> next.aborted)
      && (member.Some? && member.value == "" ==> next.entries == st.entries)
      && (member.Some? && member.value != "" ==>
            |next.entries| == |st.entries| + 1 && next.entries[..|st.entries|] == st.entries
            && next.entries[|st.entries|].Func?
            && member.value == EntryText(tab, next.entries[|st.entries|]))
  {
    var accepted := Accept(options, path);
    if !accepted {
      report.excluded := report.excluded + [PathText(path)];
      return Some("");
    }
    report.included := report.included + [PathText(path)];
    member := GenTestString(options, minifier, exec, path, report, tab);
  }

  /** The subtests of one test (the inner loop of genTestGroup): each path
      classified onto the report, the accepted ones written at `testTab`
      plus two spaces and separated by commas; None when an identifier
      error stopped it. The entries are returned for the proof only. */
  method GenSubtests(testPath: seq<string>, subs: seq<Leaf>, options: Options, minifier: string -> MinifyOutcome,
                     report: GenerationReport, testTab: string)
    returns (res: Option<string>, ghost entries: seq<Entry>)
    modifies report
    ensures var t := VisitSubs(options, minifier, testPath, subs, State(old(report.Value()), [], false));
      && report.Value() == t.rep
      && (res.None? <==> t.aborted)
      && (res.Some? ==> entries == t.entries && res.value == Join(FuncTexts(testTab + Tab, t.entries), ","))
  {
    ghost var rep0 := report.Value();
    ghost var sst := State(rep0, [], false);
    var subStr := "";
    var subCount := 0;
    for j := 0 to |subs|
      invariant sst == VisitSubs(options, minifier, testPath, subs[..j], State(rep0, [], false))
      invariant !sst.aborted && report.Value() == sst.rep
      invariant subStr == Join(FuncTexts(testTab + Tab, sst.entries), ",") && subCount == |sst.entries|
    {
      assert subs[..j + 1][..j] == subs[..j];
      var member := GenLeaf(testPath + [subs[j].name], subs[j].exec, options, minifier, report, testTab + Tab, sst);
      ghost var prev := sst.entries;
      sst := VisitLeaf(options, minifier, testPath + [subs[j].name], subs[j].exec, sst);
      if member.None? {
        SubsAbortStays(options, minifier, testPath, subs, j + 1, State(rep0, [], false));
        return None, [];
      }
      if member.value != "" {
        FuncTextsAppend(testTab + Tab, sst.entries, |prev|);
        JoinAppend(FuncTexts(testTab + Tab, prev), member.value, ",");
        if subCount != 0 {
          subStr := subStr + ",";
        }
        subStr := subStr + member.value;
        subCount := subCount + 1;
      }
    }
    assert subs[..|subs|] == subs;
    res, entries := Some(subStr), sst.entries;
  }

  /** A test with subtests, visited from traversal state `st`: its member
      `"name": { … }` at `tab` plus two spaces when at least one subtest was
      accepted, "" when none was, None on a test error. */
  method GenSubtestGroup(groupPath: seq<string>, test: Test, options: Options, minifier: string -> MinifyOutcome,
                         report: GenerationReport, tab: string, ghost st: State)
    returns (member: Option<string>)
    requires test.subtests.Some? && !st.aborted && report.Value() == st.rep
    modifies report
    ensures var next := VisitTest(options, minifier, groupPath, test, st);
      && report.Value() == next.rep
      && (member.None? <==> next.aborted)
      && (member.Some? && member.value == "" ==> next.entries == st.entries)
      && (member.Some? && member.value != "" ==>
            |next.entries| == |st.entries| + 1 && next.entries[..|st.entries|] == st.entries
            && member.value == EntryText(tab, next.entries[|st.entries|]))
  {
    var testTab := tab + Tab;
    var sub;
    ghost var subEntries;
    sub, subEntries := GenSubtests(groupPath + [test.name], test.subtests.value, options, minifier, report, testTab);
    if sub.None? {
      return None;
    }
    var subStr := sub.value;
    JoinOfNonEmptyIsNonEmpty(FuncTexts(testTab + Tab, subEntries), ",");
    if subStr == "" {
      return Some("");
    }
    ghost var e := TestGroup(test.name, subEntries);
    assert (st.entries + [e])[..|st.entries|] == st.entries;
    member := Some("\n" + tab + Tab + "\"" + Escape(test.name) + "\": { // test+" + subStr + "\n" + tab + Tab + "}");
  }

  /** One test of genTestGroup (the body of its loop over the tests),
      visited from traversal state `st`: a single test is classified and
      possibly written at `tab`; a test with subtests yields its member, if
      any. The result is "" when nothing was written, None on an identifier
      error. */
  method GenTest(groupPath: seq<string>, test: Test, options: Options, minifier: string -> MinifyOutcome,
                 report: GenerationReport, tab: string, ghost st: State)
    returns (member: Option<string>)
    requires !st.aborted && report.Value() == st.rep
    modifies report
    ensures var next := VisitTest(options, minifier, groupPath, test, st);
      && report.Value() == next.rep
      && (member.None? <==> next.aborted)
      && (member.Some? && member.value == "" ==> next.entries == st.entries)
      && (member.Some? && member.value != "" ==>
            |next.entries| == |st.entries| + 1 && next.entries[..|st.entries|] == st.entries
            && member.value == EntryText(tab, next.entries[|st.entries|]))
  {
    if test.subtests.Some? {
      member := GenSubtestGroup(groupPath, test, options, minifier, report, tab, st);
    } else {
      member := GenLeaf(groupPath + [test.name], test.exec, options, minifier, report, tab, st);
    }
  }

  /** genTestGroup: every leaf of `tests` is classified onto the report, the
      accepted ones are written, and the group is wrapped under the
      identifier of its last path step; "" when nothing was accepted. */
  method GenTestGroup(groupPath: seq<string>, tests: seq<Test>, options: Options, minifier: string -> MinifyOutcome,
                      report: GenerationReport, tab: string)
    returns (res: Option<string>)
    requires groupPath != []
    modifies report
    ensures (report.Value(), res) == GroupText(options, minifier, groupPath, tests, tab, old(report.Value()))
  {
    ghost var rep0 := report.Value();
    ghost var st := State(rep0, [], false);
    var str := "";
    var testCount := 0;
    for i := 0 to |tests|
      invariant st == VisitTests(options, minifier, groupPath, tests[..i], State(rep0, [], false))
      invariant !st.aborted && report.Value() == st.rep
      invariant str == MembersText(tab, st.entries) && testCount == |st.entries|
    {
      assert tests[..i + 1][..i] == tests[..i];
      ghost var next := VisitTest(options, minifier, groupPath, tests[i], st);
      var member := GenTest(groupPath, tests[i], options, minifier, report, tab, st);
      if member.None? {
        TestsAbortStays(options, minifier, groupPath, tests, i + 1, State(rep0, [], false));
        return None;
      }
      if member.value != "" {
        EntryTextsAppend(tab, next.entries, |st.entries|);
        JoinAppend(EntryTexts(tab, st.entries), member.value, ",");
        if testCount != 0 {
          str := str + ",";
        }
        str := str + member.value;
        testCount := testCount + 1;
      }
      st := next;
    }
    assert tests[..|tests|] == tests;
    JoinOfNonEmptyIsNonEmpty(EntryTexts(tab, st.entries), ",");
    if str != "" {
      var id := MakeIdentifier(groupPath[|groupPath| - 1]);
      if id.None? {
        return None;
      }
      str := "\n" + tab + id.value + ": {\n" + str + "\n" + tab + "}";
    }
    res := Some(str);
  }

  /** The keys of genByCategory's `categories` object: the non-empty
      categories of the tests, each once, in order of first appearance. */
  method CollectCategories(tests: seq<Test>) returns (categories: seq<string>)
    ensures categories == Categories(tests)
  {
    categories := [];
    for i := 0 to |tests|
      invariant categories == Categories(tests[..i])
    {
      assert tests[..i + 1][..i] == tests[..i];
      var c := tests[i].category;
      if c != "" && c !in categories {
        categories := categories + [c];
      }
    }
    assert tests[..|tests|] == tests;
  }

  /** genByCategory: the categories in order of first appearance; without any,
      the group itself, otherwise one sub-group per category. */
  /** The loop of genByCategory: one group per category, joined with ",". */
  method GenCategoryGroups(groupPath: seq<string>, tests: seq<Test>, categories: seq<string>, options: Options,
                           minifier: string -> MinifyOutcome, report: GenerationReport, tab: string)
    returns (res: Option<string>)
    requires groupPath != []
    modifies report
    ensures var s := VisitCategories(options, minifier, groupPath, tests, categories, tab, old(report.Value()));
      report.Value() == s.rep && res == (if s.aborted then None else Some(Join(s.groups, ",")))
  {
    ghost var rep0 := report.Value();
    ghost var cs := CatState(rep0, [], false);
    var str := "";
    for j := 0 to |categories|
      invariant cs == VisitCategories(options, minifier, groupPath, tests, categories[..j], tab, rep0)
      invariant !cs.aborted && report.Value() == cs.rep
      invariant str == Join(cs.groups, ",")
    {
      var category := categories[j];
      assert categories[..j + 1][..j] == categories[..j];
      var categoryTests := InCategory(tests, category);
      var strGroup := GenTestGroup(groupPath + [category], categoryTests, options, minifier, report, tab + Tab);
      ghost var groups := cs.groups;
      cs := VisitCategories(options, minifier, groupPath, tests, categories[..j + 1], tab, rep0);
      if strGroup.None? {
        CategoriesAbortStays(options, minifier, groupPath, tests, categories, j + 1, tab, rep0);
        return None;
      }
      if strGroup.value != "" {
        JoinAppend(groups, strGroup.value, ",");
        JoinOfNonEmptyIsNonEmpty(groups, ",");
        if str != "" {
          str := str + ",";
        }
        str := str + strGroup.value;
      }
    }
    assert categories[..|categories|] == categories;
    res := Some(str);
  }

  method GenByCategory(groupPath: seq<string>, tests: seq<Test>, options: Options, minifier: string -> MinifyOutcome,
                       report: GenerationReport, tab: string)
    returns (res: Option<string>)
    requires groupPath != []
    modifies report
    ensures (report.Value(), res) == ByCategoryText(options, minifier, groupPath, tests, tab, old(report.Value()))
  {
    var categories := CollectCategories(tests);
    if |categories| == 0 {
      res := GenTestGroup(groupPath, tests, options, minifier, report, tab);
      return;
    }
    ghost var s := VisitCategories(options, minifier, groupPath, tests, categories, tab, report.Value());
    var joined := GenCategoryGroups(groupPath, tests, categories, options, minifier, report, tab);
    if joined.None? {
      return None;
    }
    var str := joined.value;
    JoinOfNonEmptyIsNonEmpty(s.groups, ",");
    if str != "" {
      str := str + "// category " + Join(groupPath, ",") + "\n";
      var id := MakeIdentifier(groupPath[|groupPath| - 1]);
      if id.None? {
        return None;
      }
      str := "\n" + tab + id.value + ": { // group\n" + str;
      str := str + "\n" + tab + "}";
    }
    res := Some(str);
  }

  /** generateTests: the text of the generated module, or None when an
      test error stopped the generation; the report is returned in
      both cases. */
  method GenerateTests(options: Options, minifier: string -> MinifyOutcome, es5: seq<Test>, es6: seq<Test>, es7: seq<Test>)
    returns (report: GenerationReport, text: Option<string>)
    ensures fresh(report)
    ensures (report.Value(), text) == GenerateText(options, minifier, es5, es6, es7)
  {
    report := new GenerationReport();
    var str := Preamble;
    var g1 := GenTestGroup(["es5"], es5, options, minifier, report, Tab);
    if g1.None? {
      return report, None;
    }
    var g2 := GenByCategory(["es6"], es6, options, minifier, report, Tab);
    if g2.None? {
      return report, None;
    }
    var g3 := GenByCategory(["es7"], es7, options, minifier, report, Tab);
    if g3.None? {
      return report, None;
    }
    var groups := JoinNotEmpty([Some(g1.value), Some(g2.value), Some(g3.value)], ",\n");
    str := str + groups;
    str := str + "\n};\n";
    text := Some(str);
  }
}
