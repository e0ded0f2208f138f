/**
 * The path filter of the generator: which tests of the tree are generated.
 *
 * A test is named by its path, the list of names from the group down to the
 * test (["es6", "syntax", "arrow functions", "0 parameters"]). A filter is
 * either one pattern, which must match some segment of the path, or a list
 * of patterns, the i-th of which must match the i-th segment. Patterns are
 * regular expressions built from makeIdentifier, so they hold only word
 * characters and test for a literal substring; a wildcard step matches any
 * segment.
 */
module PathFilter {
  import opened Wrappers
  import opened JsText
  import opened TextHelpers

  /** One step of a positional filter: a wildcard (null or "*") or a regular
      expression made of word characters, matched anywhere in the segment. */
  datatype Pattern = Any | Sub(text: string)

  /** A filter: a single regular expression, or an array of steps. */
  datatype Filter = Single(text: string) | Positional(steps: seq<Pattern>)

  /** testPath[i] || "": a missing segment is compared as the empty string. */
  function Segment(path: seq<string>, i: nat): (r: string)
    ensures i < |path| ==> r == path[i]
    ensures i >= |path| ==> r == ""
  {
    if i < |path| then path[i] else ""
  }

  /** matchStep(regex, pathItem). */
  predicate StepMatches(step: Pattern, item: string) {
    step.Any? || Contains(item, step.text)
  }

  /** matchFilter(pathFilter, testPath), as a specification. */
  predicate FilterMatches(filter: Filter, path: seq<string>) {
    match filter
    case Positional(steps) => forall i :: 0 <= i < |steps| ==> StepMatches(steps[i], Segment(path, i))
    case Single(p) => exists i :: 0 <= i < |path| && Contains(path[i], p)
  }

  /** matchAny(filters, testPath), as a specification. */
  predicate AnyMatches(filters: seq<Filter>, path: seq<string>) {
    exists k :: 0 <= k < |filters| && FilterMatches(filters[k], path)
  }

  /** The options the generator reads. A null include or exclude list is the
      empty list here: both accept and matchAny treat the two alike. */
  datatype Options = Options(includes: seq<Filter>, excludes: seq<Filter>, minify: bool, verbose: bool)

  /** accept(options, testPath), as a specification. */
  predicate Accepted(options: Options, path: seq<string>) {
    var isIncluded := |options.includes| == 0 || AnyMatches(options.includes, path);
    var isExcluded := |options.excludes| != 0 && AnyMatches(options.excludes, path);
    isIncluded && !isExcluded
  }

  /** matchFilter(pathFilter, testPath): the positional branch stops at the
      first step that fails; the single branch looks for a matching segment. */
  method MatchFilter(filter: Filter, path: seq<string>) returns (b: bool)
    ensures b == FilterMatches(filter, path)
  {
    match filter {
      case Positional(steps) =>
        for i := 0 to |steps|
          invariant forall j :: 0 <= j < i ==> StepMatches(steps[j], Segment(path, j))
        {
          if !StepMatches(steps[i], Segment(path, i)) {
            return false;
          }
        }
        return true;
      case Single(p) =>
        for i := 0 to |path|
          invariant forall j :: 0 <= j < i ==> !Contains(path[j], p)
        {
          if Contains(path[i], p) {
            return true;
          }
        }
        return false;
    }
  }

  /** matchAny(filters, testPath): true at the first filter that matches. */
  method MatchAny(filters: seq<Filter>, path: seq<string>) returns (b: bool)
    ensures b == AnyMatches(filters, path)
  {
    for i := 0 to |filters|
      invariant forall k :: 0 <= k < i ==> !FilterMatches(filters[k], path)
    {
      var m := MatchFilter(filters[i], path);
      if m {
        return true;
      }
    }
    return false;
  }

  /** accept(options, testPath): included (no include filter, or one that
      matches) and not excluded (no exclude filter matches). The verbose
      message it prints is not modelled. */
  method Accept(options: Options, path: seq<string>) returns (res: bool)
    ensures res <==> (options.includes == [] || AnyMatches(options.includes, path))
                     && !AnyMatches(options.excludes, path)
    ensures res == Accepted(options, path)
  {
    var isIncluded := |options.includes| == 0;
    if !isIncluded {
      isIncluded := MatchAny(options.includes, path);
    }
    var isExcluded := |options.excludes| != 0;
    if isExcluded {
      isExcluded := MatchAny(options.excludes, path);
    }
    res := isIncluded && !isExcluded;
  }

  // ---------------------------------------------------------------------------
  // Properties of the filter

  /** A wildcard step matches every segment, a missing one included. */
  lemma WildcardMatchesEverySegment(path: seq<string>, i: nat)
    ensures StepMatches(Any, Segment(path, i))
  {
  }

  /** A pattern matches the missing segment only when it is empty. */
  lemma MissingSegmentMatchesOnlyEmpty(p: string, path: seq<string>, i: nat)
    requires i >= |path|
    ensures StepMatches(Sub(p), Segment(path, i)) <==> p == ""
  {
    if p == "" {
      assert OccursAt(Segment(path, i), p, 0);
    }
  }

  /** Segments past the length of a positional filter never affect it. */
  lemma SegmentsPastFilterIgnored(steps: seq<Pattern>, path: seq<string>, more: seq<string>)
    requires |path| >= |steps|
    ensures FilterMatches(Positional(steps), path + more) == FilterMatches(Positional(steps), path)
  {
    forall i | 0 <= i < |steps|
      ensures Segment(path + more, i) == Segment(path, i)
    {
    }
  }

  /** A positional filter is the conjunction of its steps: one step more can
      only reject more paths. */
  lemma LongerFilterIsStricter(steps: seq<Pattern>, step: Pattern, path: seq<string>)
    ensures FilterMatches(Positional(steps + [step]), path)
        <==> FilterMatches(Positional(steps), path) && StepMatches(step, Segment(path, |steps|))
  {
    var longer := steps + [step];
    assert forall i :: 0 <= i < |steps| ==> longer[i] == steps[i];
  }

  /** A positional filter of wildcards only accepts every path. */
  lemma WildcardsAcceptAll(n: nat, path: seq<string>)
    ensures FilterMatches(Positional(Wildcards(n)), path)
  {
  }

  function Wildcards(n: nat): (r: seq<Pattern>)
    ensures |r| == n && forall i :: 0 <= i < n ==> r[i] == Any
  {
    seq(n, _ => Any)
  }

  /** A single pattern never accepts the empty path. */
  lemma SingleRejectsEmptyPath(p: string)
    ensures !FilterMatches(Single(p), [])
  {
  }

  /** A single pattern matches exactly when one of the positional filters
      "i wildcards, then the pattern" does, for some segment i of the path. */
  lemma SingleIsUnionOfPositional(p: string, path: seq<string>)
    ensures FilterMatches(Single(p), path)
        <==> exists i :: 0 <= i < |path| && FilterMatches(Positional(Wildcards(i) + [Sub(p)]), path)
  {
    forall i | 0 <= i < |path|
      ensures FilterMatches(Positional(Wildcards(i) + [Sub(p)]), path) <==> Contains(path[i], p)
    {
      var steps := Wildcards(i) + [Sub(p)];
      assert steps[i] == Sub(p);
      if Contains(path[i], p) {
        forall j | 0 <= j < |steps|
          ensures StepMatches(steps[j], Segment(path, j))
        {
        }
      }
    }
  }

  /** With no include filter every path not excluded is accepted. */
  lemma NoIncludesAcceptsAllNotExcluded(options: Options, path: seq<string>)
    requires options.includes == []
    ensures Accepted(options, path) <==> !AnyMatches(options.excludes, path)
  {
  }

  /** An exclude filter more can only reject more paths. */
  lemma MoreExcludesAcceptFewer(options: Options, f: Filter, path: seq<string>)
    requires Accepted(options.(excludes := options.excludes + [f]), path)
    ensures Accepted(options, path)
  {
    var more := options.excludes + [f];
    forall k | 0 <= k < |options.excludes|
      ensures !FilterMatches(options.excludes[k], path)
    {
      assert more[k] == options.excludes[k];
    }
  }

  /** Once there is an include filter, one more can only accept more paths. */
  lemma MoreIncludesAcceptMore(options: Options, f: Filter, path: seq<string>)
    requires options.includes != []
    requires Accepted(options, path)
    ensures Accepted(options.(includes := options.includes + [f]), path)
  {
    var more := options.includes + [f];
    var k :| 0 <= k < |options.includes| && FilterMatches(options.includes[k], path);
    assert more[k] == options.includes[k];
  }

  /** The first include filter is not "one more": adding it to an empty list
      can reject a path that was accepted. */
  lemma FirstIncludeCanRejectExample()
    ensures var options := Options([], [], false, false);
      && Accepted(options, ["es5"])
      && !Accepted(options.(includes := [Single("es6")]), ["es5"])
  {
    assert !Contains("es5", "es6") by {
      assert "es5"[2] != "es6"[2];
      assert !OccursAt("es5", "es6", 0);
    }
  }

  // ---------------------------------------------------------------------------
  // strToFilter

  /** One piece of a filter text: "" and "*" are wildcards; any other piece is
      the regular expression of its identifier, and a piece without a word
      character stops the program ("Invalid filter"). */
  function StepOf(piece: string): (r: Result<Pattern, string>)
    ensures r.Err? <==> piece != "" && piece != "*" && !HasWordChar(piece)
    ensures r.Ok? && r.value.Any? <==> piece == "" || piece == "*"
    ensures r.Ok? && r.value.Sub? ==> Some(r.value.text) == MakeIdentifier(piece)
  {
    if piece == "" || piece == "*" then Ok(Any)
    else match MakeIdentifier(piece)
      case Some(id) => Ok(Sub(id))
      case None => Err(piece)
  }

  /** The steps of all pieces, or the first piece that is invalid. */
  function StepsOf(pieces: seq<string>): (r: Result<seq<Pattern>, string>)
    ensures r.Ok? ==> |r.value| == |pieces|
    ensures r.Ok? ==> forall i :: 0 <= i < |pieces| ==> StepOf(pieces[i]) == Ok(r.value[i])
    ensures r.Ok? <==> forall i :: 0 <= i < |pieces| ==> StepOf(pieces[i]).Ok?
  {
    if |pieces| == 0 then Ok([])
    else match StepOf(pieces[0])
      case Err(e) => Err(e)
      case Ok(step) =>
        match StepsOf(pieces[1..])
        case Err(e) => Err(e)
        case Ok(rest) =>
          assert forall i :: 1 <= i < |pieces| ==> pieces[i] == pieces[1..][i - 1];
          Ok([step] + rest)
  }

  /** strToFilter(str), as written: a one-piece filter is unwrapped, so a
      lone wildcard ("*" or "") becomes null, here None. */
  function StrToFilterAsWritten(str: string): (r: Result<Option<Filter>, string>)
  {
    var pieces := Split(str, '/');
    match StepsOf(pieces)
    case Err(e) => Err(e)
    case Ok(steps) =>
      if |steps| == 1 then
        match steps[0]
        case Any => Ok(None)
        case Sub(id) => Ok(Some(Single(id)))
      else Ok(Some(Positional(steps)))
  }

  /** The written strToFilter gives null for exactly two texts: the lone
      wildcards "" and "*". */
  lemma LoneWildcardUnwrapped(str: string)
    ensures StrToFilterAsWritten(str) == Ok(None) <==> str == "" || str == "*"
  {
    var pieces := Split(str, '/');
    if str == "" || str == "*" {
      SplitOfOnePiece(str);
      assert pieces == [str] && StepOf(pieces[0]) == Ok(Any);
      var steps := StepsOf(pieces).value;
      assert |steps| == 1 && steps[0] == Any;
      assert steps == [Any];
    }
    if StrToFilterAsWritten(str) == Ok(None) {
      var steps := StepsOf(pieces).value;
      assert |pieces| == 1 && steps[0] == Any;
      assert StepOf(pieces[0]) == Ok(Any);
      JoinSplit(str, '/');
      assert Join(pieces, "/") == pieces[0];
    }
  }

  /** matchFilter on a filter that may be null; None stands for the TypeError
      thrown by calling test on null. */
  function MatchFilterAsWritten(filter: Option<Filter>, path: seq<string>): (r: Option<bool>)
    ensures filter.Some? ==> r == Some(FilterMatches(filter.value, path))
  {
    match filter
    case None => None
    case Some(f) => Some(FilterMatches(f, path))
  }

  /** The filter "*" meant "every test", yet it crashes the generator on the
      first path it is tried against. */
  lemma StarFilterCrashesAsWritten(path: seq<string>)
    ensures StrToFilterAsWritten("*") == Ok(None)
    ensures MatchFilterAsWritten(None, path).None?
  {
    SplitOfOnePiece("*");
  }

  /** strToFilter(str) with the lone wildcard kept as a positional filter of
      one wildcard step. A text of several pieces gives one step per piece. */
  function StrToFilter(str: string): (r: Result<Filter, string>)
    ensures r.Ok? <==> StepsOf(Split(str, '/')).Ok?
    ensures r.Ok? && |Split(str, '/')| > 1 ==> r.value == Positional(StepsOf(Split(str, '/')).value)
  {
    var pieces := Split(str, '/');
    match StepsOf(pieces)
    case Err(e) => Err(e)
    case Ok(steps) =>
      if |steps| == 1 then
        match steps[0]
        case Any => Ok(Positional([Any]))
        case Sub(id) => Ok(Single(id))
      else Ok(Positional(steps))
  }

  /** A filter text without a slash, other than the lone wildcard, is one
      pattern made by makeIdentifier, and it matches a path exactly when some
      segment contains that pattern. */
  lemma StrToFilterOnePiece(str: string, path: seq<string>)
    requires '/' !in str && str != "" && str != "*" && HasWordChar(str)
    ensures StrToFilter(str) == Ok(Single(MakeIdentifier(str).value))
    ensures FilterMatches(StrToFilter(str).value, path)
        <==> exists i :: 0 <= i < |path| && Contains(path[i], MakeIdentifier(str).value)
  {
    SplitOfOnePiece(str);
  }

  /** The corrected filter "*" accepts every path. */
  lemma StarFilterAcceptsAll(path: seq<string>)
    ensures StrToFilter("*") == Ok(Positional([Any]))
    ensures FilterMatches(StrToFilter("*").value, path)
  {
    SplitOfOnePiece("*");
  }

  /** The corrected version differs from the written one only on a lone
      wildcard. */
  lemma StrToFilterAgrees(str: string)
    ensures StrToFilterAsWritten(str).Err? <==> StrToFilter(str).Err?
    ensures StrToFilterAsWritten(str).Ok? && StrToFilterAsWritten(str).value.Some?
        ==> StrToFilter(str) == Ok(StrToFilterAsWritten(str).value.value)
    ensures StrToFilterAsWritten(str) == Ok(None) ==> StrToFilter(str) == Ok(Positional([Any]))
  {
  }

  /** A text with k slashes gives k + 1 steps, one step per piece, each a
      wildcard or the identifier of its piece. */
  lemma StrToFilterSteps(str: string)
    requires StrToFilter(str).Ok? && StrToFilter(str).value.Positional?
    ensures var steps := StrToFilter(str).value.steps;
      && |steps| == multiset(str)['/'] + 1
      && forall i :: 0 <= i < |steps| ==> StepOf(Split(str, '/')[i]) == Ok(steps[i])
  {
    SplitPieces(str, '/');
  }

  /** A filter text is rejected exactly when one of its pieces is neither a
      wildcard nor has a word character. */
  lemma StrToFilterRejects(str: string)
    ensures StrToFilter(str).Err? <==> exists i :: 0 <= i < |Split(str, '/')| && InvalidPiece(Split(str, '/')[i])
  {
    var pieces := Split(str, '/');
    if StrToFilter(str).Err? {
      assert !StepsOf(pieces).Ok?;
      var i :| 0 <= i < |pieces| && !StepOf(pieces[i]).Ok?;
      assert StepOf(pieces[i]).Err?;
      assert InvalidPiece(pieces[i]);
      assert InvalidPiece(Split(str, '/')[i]);
      assert exists j :: 0 <= j < |Split(str, '/')| && InvalidPiece(Split(str, '/')[j]);
    } else {
      forall i | 0 <= i < |pieces|
        ensures !InvalidPiece(pieces[i])
      {
        assert StepOf(pieces[i]).Ok?;
      }
    }
  }

  /** A piece that is neither a wildcard nor has a word character. */
  predicate InvalidPiece(piece: string) {
    piece != "" && piece != "*" && !HasWordChar(piece)
  }

  /** A text without a slash is one piece. */
  lemma SplitOfOnePiece(s: string)
    requires '/' !in s
    ensures Split(s, '/') == [s]
  {
    SplitPieces(s, '/');
    JoinSplit(s, '/');
    assert multiset(s)['/'] == 0;
  }

  /** Patterns are camel-cased identifiers, yet they are tested against the
      names as written: a name of two words never contains its own
      identifier, so the filter "es6//arrow functions" (the one the program
      calls arrowFunctions) does not accept the "arrow functions" test. */
  lemma TwoWordNameMissesItsIdentifier(a: string, b: string)
    requires a != "" && b != "" && AllWord(a) && AllWord(b) && !IsDigit(a[0])
    ensures StepOf(a + " " + b) == Ok(Sub(Lowerize(a) + Capitalize(b)))
    ensures !StepMatches(Sub(Lowerize(a) + Capitalize(b)), a + " " + b)
  {
    IdentifierOfTwoWords(a, b);
    IdentifierNotInTwoWords(a, b);
  }

  /** Camel-casing removes the space, so the space holds the place where the
      identifier has a word character, whichever way the two are aligned. */
  lemma IdentifierNotInTwoWords(a: string, b: string)
    requires a != "" && b != "" && AllWord(a) && AllWord(b)
    ensures !Contains(a + " " + b, Lowerize(a) + Capitalize(b))
  {
    var s, id := a + " " + b, Lowerize(a) + Capitalize(b);
    assert |id| == |s| - 1;
    assert s[|a|] == ' ';
    assert IsWordChar(id[|a| - 1]) && IsWordChar(id[|a|]) by {
      assert id[|a| - 1] == Lowerize(a)[|a| - 1];
      assert id[|a|] == Capitalize(b)[0];
    }
    forall i | 0 <= i <= |s| - |id|
      ensures !OccursAt(s, id, i)
    {
      assert s[i..i + |id|][|a| - i] == s[|a|];
    }
  }
}
