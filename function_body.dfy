/**
 * extractFunctionBody(func): the body text of a test function, taken from the
 * function's source text (its toString()). Two shapes are recognized, tried
 * in this order:
 *  - commented: the text ends in a star, a slash and a closing brace (a
 *    block comment closed just before the final brace); the body is the
 *    trimmed text of the last comment opened at least two characters before
 *    that close;
 *  - explicit: `function (params) { body }` with optional white space around
 *    every token; the body is the trimmed text between the first brace after
 *    the parameter list and the last brace of the text.
 * The two regular expressions of the source are written out as scans.
 */
module FunctionBody {
  import opened Wrappers
  import opened JsText

  /** A block comment opens at index `i` of `s` (a slash, then a star). */
  predicate OpensComment(s: string, i: int) {
    0 <= i && i + 1 < |s| && s[i] == '/' && s[i + 1] == '*'
  }

  /** `s` ends with a star, a slash and a closing brace. */
  predicate EndsWithCommentAndBrace(s: string) {
    |s| >= 3 && s[|s| - 3] == '*' && s[|s| - 2] == '/' && s[|s| - 1] == '}'
  }

  /** The last index at or before `i` where a comment opens. */
  function LastOpenAtOrBefore(s: string, i: int): (r: Option<nat>)
    ensures r.Some? ==> r.value <= i && OpensComment(s, r.value)
    ensures r.Some? ==> forall q :: r.value < q <= i ==> !OpensComment(s, q)
    ensures r.None? ==> forall q :: 0 <= q <= i ==> !OpensComment(s, q)
    decreases if i < 0 then 0 else i + 1
  {
    if i < 0 then None
    else if OpensComment(s, i) then Some(i)
    else LastOpenAtOrBefore(s, i - 1)
  }

  /** Where the first regular expression of extractFunctionBody finds its
      group in `s`: the text after the last comment opening at or before
      |s| - 5, up to the final star, slash and brace. */
  function CommentSpan(s: string): (r: Option<(nat, nat)>)
    ensures r.Some? ==> var (lo, hi) := r.value;
      2 <= lo <= hi && hi == |s| - 3 && OpensComment(s, lo - 2) && EndsWithCommentAndBrace(s)
  {
    if EndsWithCommentAndBrace(s) then
      match LastOpenAtOrBefore(s, |s| - 5)
      case Some(p) => Some((p + 2, |s| - 3))
      case None => None
    else None
  }

  /** The first regular expression of extractFunctionBody followed by trim()
      of its group. */
  function CommentedBody(s: string): (r: Option<string>)
    ensures r.Some? <==> CommentSpan(s).Some?
    ensures r.Some? ==> Trim(r.value) == r.value
  {
    match CommentSpan(s)
    case Some((lo, hi)) => TrimIdempotent(s[lo..hi]); Some(Trim(s[lo..hi]))
    case None => None
  }

  /** The first index at or after `i` that is not white space (or |s|). */
  function SkipSpace(s: string, i: nat): (j: nat)
    requires i <= |s|
    ensures i <= j <= |s|
    ensures forall k :: i <= k < j ==> IsSpace(s[k])
    ensures j == |s| || !IsSpace(s[j])
    decreases |s| - i
  {
    if i < |s| && IsSpace(s[i]) then SkipSpace(s, i + 1) else i
  }

  /** The first index at or after `i` holding `c`. */
  function IndexOfFrom(s: string, c: char, i: nat): (r: Option<nat>)
    requires i <= |s|
    ensures r.Some? ==> i <= r.value < |s| && s[r.value] == c
    ensures r.Some? ==> forall k :: i <= k < r.value ==> s[k] != c
    ensures r.None? ==> forall k :: i <= k < |s| ==> s[k] != c
    decreases |s| - i
  {
    if i == |s| then None
    else if s[i] == c then Some(i)
    else IndexOfFrom(s, c, i + 1)
  }

  /** The index of the opening parenthesis in `\s* function \s* (`. */
  function OpenParen(s: string): (r: Option<nat>)
    ensures r.Some? ==> r.value < |s| && s[r.value] == '('
  {
    var f := SkipSpace(s, 0);
    if !OccursAt(s, "function", f) then None
    else
      var open := SkipSpace(s, f + 8);
      if open < |s| && s[open] == '(' then Some(open) else None
  }

  /** The index of the first closing parenthesis after the opening one. */
  function CloseParen(s: string): (r: Option<nat>)
    ensures r.Some? ==> r.value < |s| && s[r.value] == ')'
  {
    match OpenParen(s)
    case None => None
    case Some(open) => IndexOfFrom(s, ')', open + 1)
  }

  /** The index of the brace that opens the body: the next non-blank
      character after the parameter list, if it is a brace. */
  function OpenBrace(s: string): (r: Option<nat>)
    ensures r.Some? ==> r.value < |s| && s[r.value] == '{'
  {
    match CloseParen(s)
    case None => None
    case Some(close) =>
      var brace := SkipSpace(s, close + 1);
      if brace < |s| && s[brace] == '{' then Some(brace) else None
  }

  /** Where the second regular expression of extractFunctionBody,
      ^ \s* function \s* ( [^)]* ) \s* { [^]* } \s* $ (spaces added here),
      finds its body group in `s`: after the first brace that follows the
      parameter list, up to the last non-blank character, a closing brace. */
  function ExplicitSpan(s: string): (r: Option<(nat, nat)>)
    ensures r.Some? ==> var (lo, hi) := r.value;
      1 <= lo <= hi < |s| && s[lo - 1] == '{' && s[hi] == '}'
      && forall k :: hi < k < |s| ==> IsSpace(s[k])
  {
    match OpenBrace(s)
    case None => None
    case Some(brace) =>
      var end := |TrimEnd(s)|;
      if brace < end - 1 && s[end - 1] == '}' then Some((brace + 1, end - 1))
      else None
  }

  /** The second regular expression of extractFunctionBody followed by trim()
      of its body group. */
  function ExplicitBody(s: string): (r: Option<string>)
    ensures r.Some? <==> ExplicitSpan(s).Some?
    ensures r.Some? ==> Trim(r.value) == r.value
  {
    match ExplicitSpan(s)
    case Some((lo, hi)) => TrimIdempotent(s[lo..hi]); Some(Trim(s[lo..hi]))
    case None => None
  }

  /** extractFunctionBody(func); None stands for the undefined it returns when
      neither shape matches. The commented shape is tried first. */
  function ExtractFunctionBody(func: string): (r: Option<string>)
    ensures r.Some? <==> CommentSpan(func).Some? || ExplicitSpan(func).Some?
    ensures CommentSpan(func).Some? ==> r == CommentedBody(func)
    ensures CommentSpan(func).None? ==> r == ExplicitBody(func)
  {
    match CommentedBody(func)
    case Some(body) => Some(body)
    case None => ExplicitBody(func)
  }

  lemma CommentedBodyIsTrimmed(s: string)
    requires CommentedBody(s).Some?
    ensures Trim(CommentedBody(s).value) == CommentedBody(s).value
  {
    var (lo, hi) := CommentSpan(s).value;
    TrimIdempotent(s[lo..hi]);
  }

  lemma CommentedTextEndsWithBrace(s: string)
    requires CommentedBody(s).Some?
    ensures EndsWith(TrimEnd(s), "}")
  {
    TrimEndAt(s, |s| - 1);
  }

  lemma ExplicitBodyIsTrimmed(s: string)
    requires ExplicitBody(s).Some?
    ensures Trim(ExplicitBody(s).value) == ExplicitBody(s).value
  {
    var (lo, hi) := ExplicitSpan(s).value;
    TrimIdempotent(s[lo..hi]);
  }

  /** When the last non-blank character of `s` is at `hi`, trimming the end
      keeps exactly s[..hi + 1]. */
  lemma TrimEndAt(s: string, hi: nat)
    requires hi < |s| && !IsSpace(s[hi])
    requires forall k :: hi < k < |s| ==> IsSpace(s[k])
    ensures TrimEnd(s) == s[..hi + 1]
  {
  }

  lemma ExplicitTextEndsWithBrace(s: string)
    requires ExplicitBody(s).Some?
    ensures EndsWith(TrimEnd(s), "}")
  {
    var (lo, hi) := ExplicitSpan(s).value;
    TrimEndAt(s, hi);
  }

  /** Whatever shape it came from, an extracted body is trimmed and was taken
      from a text whose last non-blank character is a closing brace. */
  lemma ExtractedBodyIsTrimmed(func: string)
    requires ExtractFunctionBody(func).Some?
    ensures Trim(ExtractFunctionBody(func).value) == ExtractFunctionBody(func).value
    ensures EndsWith(TrimEnd(func), "}")
  {
    if CommentedBody(func).Some? {
      CommentedBodyIsTrimmed(func);
      CommentedTextEndsWithBrace(func);
    } else {
      ExplicitBodyIsTrimmed(func);
      ExplicitTextEndsWithBrace(func);
    }
  }

  predicate AllSpace(s: string) {
    forall k :: 0 <= k < |s| ==> IsSpace(s[k])
  }

  lemma SkipSpaceAt(s: string, i: nat, j: nat)
    requires i <= j <= |s|
    requires forall k :: i <= k < j ==> IsSpace(s[k])
    requires j == |s| || !IsSpace(s[j])
    ensures SkipSpace(s, i) == j
    decreases j - i
  {
    if i < j {
      SkipSpaceAt(s, i + 1, j);
    }
  }

  lemma IndexOfFromAt(s: string, c: char, i: nat, j: nat)
    requires i <= j < |s| && s[j] == c
    requires forall k :: i <= k < j ==> s[k] != c
    ensures IndexOfFrom(s, c, i) == Some(j)
    decreases j - i
  {
    if i < j {
      IndexOfFromAt(s, c, i + 1, j);
    }
  }

  lemma LastOpenIs(s: string, a: nat, i: int)
    requires a <= i && OpensComment(s, a)
    requires forall q :: a < q <= i ==> !OpensComment(s, q)
    ensures LastOpenAtOrBefore(s, i) == Some(a)
    decreases i - a
  {
    if i > a {
      LastOpenIs(s, a, i - 1);
    }
  }

  /** The commented shape, on a text already split into its parts. */
  lemma CommentedShapeAt(s: string, a: nat, comment: string)
    requires |s| == a + |comment| + 5
    requires s[a] == '/' && s[a + 1] == '*'
    requires forall k :: 0 <= k < |comment| ==> s[a + 2 + k] == comment[k]
    requires s[|s| - 3] == '*' && s[|s| - 2] == '/' && s[|s| - 1] == '}'
    requires forall i :: !OpensComment(comment, i)
    ensures ExtractFunctionBody(s) == Some(Trim(comment))
  {
    assert CommentSpan(s) == Some((a + 2, |s| - 3)) by {
      forall q | a < q <= |s| - 5
        ensures !OpensComment(s, q)
      {
        if q > a + 1 {
          assert !OpensComment(comment, q - a - 2);
        }
      }
      LastOpenIs(s, a, |s| - 5);
      assert EndsWithCommentAndBrace(s);
    }
    assert s[a + 2..|s| - 3] == comment;
    CommentedBodyOfSpan(s, a + 2, comment);
  }

  lemma CommentedBodyOfSpan(s: string, lo: nat, comment: string)
    requires lo <= |s| - 3 && CommentSpan(s) == Some((lo, |s| - 3)) && s[lo..|s| - 3] == comment
    ensures ExtractFunctionBody(s) == Some(Trim(comment))
  {
    CommentedBodyIs(s, lo, |s| - 3);
    var r := ExtractFunctionBody(s);
    assert r == CommentedBody(s);
  }

  /** The commented body is the trimmed text of the comment span. */
  lemma CommentedBodyIs(s: string, lo: nat, hi: nat)
    requires CommentSpan(s) == Some((lo, hi))
    ensures CommentedBody(s) == Some(Trim(s[lo..hi]))
  {
  }

  /** The commented shape: whatever precedes the comment, the body is the
      trimmed comment text, provided that text opens no comment itself. */
  lemma CommentedShape(prefix: string, comment: string)
    requires forall i :: !OpensComment(comment, i)
    ensures ExtractFunctionBody(prefix + "/*" + comment + "*/}") == Some(Trim(comment))
  {
    var s := prefix + "/*" + comment + "*/}";
    var a := |prefix|;
    assert forall k :: 0 <= k < |comment| ==> s[a + 2 + k] == comment[k];
    CommentedShapeAt(s, a, comment);
  }

  lemma OpenParenAt(s: string, f: nat, open: nat)
    requires f + 8 <= open < |s|
    requires AllSpace(s[..f]) && s[f..f + 8] == "function"
    requires AllSpace(s[f + 8..open]) && s[open] == '('
    ensures OpenParen(s) == Some(open)
  {
    assert s[f] == s[f..f + 8][0];
    assert forall k :: 0 <= k < f ==> s[k] == s[..f][k];
    assert forall k :: f + 8 <= k < open ==> s[k] == s[f + 8..open][k - f - 8];
    SkipSpaceAt(s, 0, f);
    SkipSpaceAt(s, f + 8, open);
  }

  lemma OpenBraceAt(s: string, open: nat, close: nat, brace: nat)
    requires OpenParen(s) == Some(open)
    requires open < close < brace < |s|
    requires ')' !in s[open + 1..close] && s[close] == ')'
    requires AllSpace(s[close + 1..brace]) && s[brace] == '{'
    ensures OpenBrace(s) == Some(brace)
  {
    CloseParenAt(s, open, close);
    assert forall k :: close < k < brace ==> IsSpace(s[k]) by {
      assert forall k :: close < k < brace ==> s[k] == s[close + 1..brace][k - close - 1];
    }
    SkipSpaceAt(s, close + 1, brace);
  }

  lemma CloseParenAt(s: string, open: nat, close: nat)
    requires OpenParen(s) == Some(open)
    requires open < close < |s|
    requires ')' !in s[open + 1..close] && s[close] == ')'
    ensures CloseParen(s) == Some(close)
  {
    assert forall k :: open < k < close ==> s[k] != ')' by {
      assert forall k :: open < k < close ==> s[k] == s[open + 1..close][k - open - 1];
    }
    IndexOfFromAt(s, ')', open + 1, close);
  }

  lemma ExplicitSpanAt(s: string, brace: nat, last: nat)
    requires OpenBrace(s) == Some(brace)
    requires brace < last < |s| && s[last] == '}'
    requires AllSpace(s[last + 1..])
    ensures ExplicitSpan(s) == Some((brace + 1, last))
  {
    assert forall k :: last < k < |s| ==> IsSpace(s[k]) by {
      assert forall k :: last < k < |s| ==> s[k] == s[last + 1..][k - last - 1];
    }
    TrimEndAt(s, last);
  }

  /** Slicing inside the left operand of a concatenation. */
  lemma SliceLeft(a: string, b: string, i: nat, j: nat)
    requires i <= j <= |a|
    ensures (a + b)[i..j] == a[i..j]
  {
  }

  /** Slicing inside the right operand of a concatenation. */
  lemma SliceRight(a: string, b: string, i: nat, j: nat)
    requires |a| <= i <= j <= |a| + |b|
    ensures (a + b)[i..j] == b[i - |a|..j - |a|]
  {
  }

  /** A text whose last character closes a body that does not end in a
      comment close does not end in a comment close and a brace. */
  lemma NoCommentCloseBeforeBrace(s: string, brace: nat, last: nat, body: string)
    requires brace < last && last == |s| - 1 && s[brace] == '{'
    requires s[brace + 1..last] == body && !EndsWith(body, "*/")
    ensures !EndsWithCommentAndBrace(s)
  {
    if |body| >= 2 {
      assert body[|body| - 2..] == [s[last - 2], s[last - 1]];
    } else if |body| == 1 {
      assert s[last - 2] == '{';
    } else {
      assert s[last - 1] == '{';
    }
  }

  lemma ExplicitFromSpan(s: string, brace: nat, last: nat, body: string)
    requires ExplicitSpan(s) == Some((brace + 1, last))
    requires s[brace + 1..last] == body && !EndsWithCommentAndBrace(s)
    ensures ExtractFunctionBody(s) == Some(Trim(body))
  {
  }

  /** The opening of the explicit shape (white space, the keyword, white
      space and the parenthesis) holds its parts at these positions. */
  lemma HeadSlices(ws1: string, ws2: string)
    ensures var h := ws1 + "function" + ws2 + "(";
      && |h| == |ws1| + |ws2| + 9 && h[..|ws1|] == ws1 && h[|ws1|..|ws1| + 8] == "function"
      && h[|ws1| + 8..|h| - 1] == ws2 && h[|h| - 1] == '('
  {
    var p1 := ws1 + "function";
    var p2 := p1 + ws2;
    SliceLeft(p2, "(", 0, |ws1|); SliceLeft(p1, ws2, 0, |ws1|); SliceLeft(ws1, "function", 0, |ws1|);
    SliceLeft(p2, "(", |ws1|, |p1|); SliceLeft(p1, ws2, |ws1|, |p1|); SliceRight(ws1, "function", |ws1|, |p1|);
    SliceLeft(p2, "(", |p1|, |p2|); SliceRight(p1, ws2, |p1|, |p2|);
  }

  /** The same for the parameters, the closing parenthesis, white space and
      the opening brace. */
  lemma MiddleSlices(params: string, ws3: string)
    ensures var m := params + ")" + ws3 + "{";
      && |m| == |params| + |ws3| + 2 && m[..|params|] == params && m[|params|] == ')'
      && m[|params| + 1..|m| - 1] == ws3 && m[|m| - 1] == '{'
  {
    var p1 := params + ")";
    var p2 := p1 + ws3;
    SliceLeft(p2, "{", 0, |params|); SliceLeft(p1, ws3, 0, |params|); SliceLeft(params, ")", 0, |params|);
    SliceLeft(p2, "{", |p1|, |p2|); SliceRight(p1, ws3, |p1|, |p2|);
  }

  /** The same for the body, the closing brace and white space. */
  lemma TailSlices(body: string, ws4: string)
    ensures var t := body + "}" + ws4;
      && |t| == |body| + |ws4| + 1 && t[..|body|] == body && t[|body|] == '}'
      && t[|body| + 1..] == ws4
  {
    var p1 := body + "}";
    SliceLeft(p1, ws4, 0, |body|); SliceLeft(body, "}", 0, |body|);
    SliceRight(p1, ws4, |p1|, |p1| + |ws4|);
  }

  /** Where the parts of a text made of three pieces lie in it. */
  lemma ThreePieces(a: string, b: string, c: string)
    ensures forall i, j :: 0 <= i <= j <= |a| ==> (a + b + c)[i..j] == a[i..j]
    ensures forall i, j :: |a| <= i <= j <= |a| + |b| ==> (a + b + c)[i..j] == b[i - |a|..j - |a|]
    ensures forall i :: |a| + |b| <= i <= |a| + |b| + |c| ==> (a + b + c)[i..] == c[i - |a| - |b|..]
  {
  }

  /** The explicit shape on a text given by the positions of its parts. */
  lemma ExplicitShapeAt(s: string, f: nat, open: nat, close: nat, brace: nat, last: nat)
    requires f + 8 <= open < close < brace < last < |s|
    requires AllSpace(s[..f]) && s[f..f + 8] == "function"
    requires AllSpace(s[f + 8..open]) && s[open] == '('
    requires ')' !in s[open + 1..close] && s[close] == ')'
    requires AllSpace(s[close + 1..brace]) && s[brace] == '{'
    requires s[last] == '}' && AllSpace(s[last + 1..])
    requires !EndsWith(s[brace + 1..last], "*/")
    ensures ExtractFunctionBody(s) == Some(Trim(s[brace + 1..last]))
  {
    OpenParenAt(s, f, open);
    OpenBraceAt(s, open, close, brace);
    ExplicitSpanAt(s, brace, last);
    if last + 1 == |s| {
      NoCommentCloseBeforeBrace(s, brace, last, s[brace + 1..last]);
    } else {
      assert IsSpace(s[|s| - 1]) by {
        assert s[|s| - 1] == s[last + 1..][|s| - 1 - (last + 1)];
      }
    }
    ExplicitFromSpan(s, brace, last, s[brace + 1..last]);
  }

  /** The converse of ExplicitShape: whenever the second regular expression
      finds a body, the text is `function (params) { body }` with white space
      around the tokens and no closing parenthesis among the parameters, and
      the body found is the trimmed text between the braces. */
  lemma ExplicitSpanShape(s: string) returns (ws1: string, ws2: string, params: string, ws3: string, body: string, ws4: string)
    requires ExplicitSpan(s).Some?
    ensures AllSpace(ws1) && AllSpace(ws2) && AllSpace(ws3) && AllSpace(ws4)
    ensures ')' !in params
    ensures s == ws1 + "function" + ws2 + "(" + params + ")" + ws3 + "{" + body + "}" + ws4
    ensures ExplicitBody(s) == Some(Trim(body))
  {
    var lo, hi := ExplicitSpan(s).value.0, ExplicitSpan(s).value.1;
    ws1, ws2, params, ws3, ws4 := ShapeOfSpan(s, lo, hi);
    body := s[lo..hi];
    ExplicitBodyOfSpan(s, lo, hi, body);
  }

  /** The text around the body span of the explicit shape. */
  lemma ShapeOfSpan(s: string, lo: nat, hi: nat) returns (ws1: string, ws2: string, params: string, ws3: string, ws4: string)
    requires ExplicitSpan(s) == Some((lo, hi))
    ensures lo <= hi <= |s|
    ensures AllSpace(ws1) && AllSpace(ws2) && AllSpace(ws3) && AllSpace(ws4)
    ensures ')' !in params
    ensures s == ws1 + "function" + ws2 + "(" + params + ")" + ws3 + "{" + s[lo..hi] + "}" + ws4
  {
    var f, open, close, brace, last := ExplicitCuts(s);
    assert lo == brace + 1 && hi == last;
    ws1, ws2, params, ws3, ws4 := Pieces(s, f, open, close, brace, hi);
    assert s == ws1 + "function" + ws2 + "(" + params + ")" + ws3 + "{" + s[brace + 1..hi] + "}" + ws4;
    assert s[lo..hi] == s[brace + 1..hi];
  }

  /** OpenParen finds the parenthesis only after `function`, with nothing
      but white space before, between and after. */
  lemma OpenParenShape(s: string)
    requires OpenParen(s).Some?
    ensures var f := SkipSpace(s, 0);
      OccursAt(s, "function", f) && f + 8 <= OpenParen(s).value && AllSpace(s[f + 8..OpenParen(s).value])
  {
    var f := SkipSpace(s, 0);
    var open := SkipSpace(s, f + 8);
    assert forall k :: f + 8 <= k < open ==> s[f + 8..open][k - f - 8] == s[k];
  }

  /** CloseParen finds the first `)` after the opening parenthesis. */
  lemma CloseParenShape(s: string)
    requires CloseParen(s).Some?
    ensures OpenParen(s).Some? && OpenParen(s).value < CloseParen(s).value
    ensures ')' !in s[OpenParen(s).value + 1..CloseParen(s).value]
  {
    var open, close := OpenParen(s).value, CloseParen(s).value;
    assert forall k :: open + 1 <= k < close ==> s[open + 1..close][k - open - 1] == s[k];
  }

  /** OpenBrace finds a brace with only white space after the `)`. */
  lemma OpenBraceShape(s: string)
    requires OpenBrace(s).Some?
    ensures CloseParen(s).Some? && CloseParen(s).value < OpenBrace(s).value
    ensures AllSpace(s[CloseParen(s).value + 1..OpenBrace(s).value])
  {
    var close, brace := CloseParen(s).value, OpenBrace(s).value;
    assert forall k :: close + 1 <= k < brace ==> s[close + 1..brace][k - close - 1] == s[k];
  }

  /** The indices at which the second regular expression cuts `s`: the start
      of `function`, the two parentheses, the opening brace and the closing
      one. */
  lemma ExplicitCuts(s: string) returns (f: nat, open: nat, close: nat, brace: nat, hi: nat)
    requires ExplicitSpan(s).Some?
    ensures f + 8 <= open < close < brace < hi < |s|
    ensures OccursAt(s, "function", f) && s[open] == '(' && s[close] == ')' && s[brace] == '{' && s[hi] == '}'
    ensures AllSpace(s[..f]) && AllSpace(s[f + 8..open]) && ')' !in s[open + 1..close]
    ensures AllSpace(s[close + 1..brace]) && AllSpace(s[hi + 1..])
    ensures ExplicitSpan(s) == Some((brace + 1, hi))
  {
    f := SkipSpace(s, 0);
    open := OpenParen(s).value;
    close := CloseParen(s).value;
    brace := ExplicitSpanAfterBrace(s);
    OpenParenShape(s);
    CloseParenShape(s);
    OpenBraceShape(s);
    hi := ExplicitSpan(s).value.1;
    LeadingSpace(s);
    TrailingSpace(s, hi);
  }

  /** The body span begins just after the brace OpenBrace finds. */
  lemma ExplicitSpanAfterBrace(s: string) returns (brace: nat)
    requires ExplicitSpan(s).Some?
    ensures OpenBrace(s) == Some(brace) && ExplicitSpan(s).value.0 == brace + 1
  {
    brace := OpenBrace(s).value;
  }

  /** The explicit body is the trimmed text of the span. */
  lemma ExplicitBodyOfSpan(s: string, lo: nat, hi: nat, body: string)
    requires lo <= hi <= |s| && ExplicitSpan(s) == Some((lo, hi)) && body == s[lo..hi]
    ensures ExplicitBody(s) == Some(Trim(body))
  {
    var r := ExplicitBody(s);
    assert r == Some(Trim(s[lo..hi]));
  }

  /** SkipSpace from the start skips only white space. */
  lemma LeadingSpace(s: string)
    ensures AllSpace(s[..SkipSpace(s, 0)])
  {
    var f := SkipSpace(s, 0);
    assert forall k :: 0 <= k < f ==> s[..f][k] == s[k];
  }

  /** A tail of white space characters is all white space. */
  lemma TrailingSpace(s: string, hi: nat)
    requires hi < |s| && forall k :: hi < k < |s| ==> IsSpace(s[k])
    ensures AllSpace(s[hi + 1..])
  {
    assert forall k :: hi < k < |s| ==> s[hi + 1..][k - hi - 1] == s[k];
  }

  /** The pieces between the cuts of the explicit shape. */
  lemma Pieces(s: string, f: nat, open: nat, close: nat, brace: nat, hi: nat)
    returns (ws1: string, ws2: string, params: string, ws3: string, ws4: string)
    requires f + 8 <= open < close < brace < hi < |s|
    requires OccursAt(s, "function", f) && s[open] == '(' && s[close] == ')' && s[brace] == '{' && s[hi] == '}'
    requires AllSpace(s[..f]) && AllSpace(s[f + 8..open]) && ')' !in s[open + 1..close]
    requires AllSpace(s[close + 1..brace]) && AllSpace(s[hi + 1..])
    ensures AllSpace(ws1) && AllSpace(ws2) && AllSpace(ws3) && AllSpace(ws4)
    ensures ')' !in params
    ensures s == ws1 + "function" + ws2 + "(" + params + ")" + ws3 + "{" + s[brace + 1..hi] + "}" + ws4
  {
    ws1, ws2, params, ws3, ws4 := s[..f], s[f + 8..open], s[open + 1..close], s[close + 1..brace], s[hi + 1..];
    CutsRebuild(s, f, open, close, brace, hi);
  }

  /** Cutting `s` at the indices of the explicit shape and joining the pieces
      with the tokens between them gives `s` back. */
  lemma CutsRebuild(s: string, f: nat, open: nat, close: nat, brace: nat, hi: nat)
    requires f + 8 <= open < close < brace < hi < |s|
    requires OccursAt(s, "function", f) && s[open] == '(' && s[close] == ')' && s[brace] == '{' && s[hi] == '}'
    ensures s == s[..f] + "function" + s[f + 8..open] + "(" + s[open + 1..close] + ")" + s[close + 1..brace]
      + "{" + s[brace + 1..hi] + "}" + s[hi + 1..]
  {
    var p := s[..f] + "function";
    assert p == s[..f + 8] by { PrefixStep(s, f, f + 8); }
    p := p + s[f + 8..open];
    assert p == s[..open] by { PrefixStep(s, f + 8, open); }
    p := p + "(";
    assert p == s[..open + 1] by { PrefixChar(s, open); }
    p := p + s[open + 1..close];
    assert p == s[..close] by { PrefixStep(s, open + 1, close); }
    p := p + ")";
    assert p == s[..close + 1] by { PrefixChar(s, close); }
    p := p + s[close + 1..brace];
    assert p == s[..brace] by { PrefixStep(s, close + 1, brace); }
    p := p + "{";
    assert p == s[..brace + 1] by { PrefixChar(s, brace); }
    p := p + s[brace + 1..hi];
    assert p == s[..hi] by { PrefixStep(s, brace + 1, hi); }
    p := p + "}";
    assert p == s[..hi + 1] by { PrefixChar(s, hi); }
    p := p + s[hi + 1..];
    assert p == s by { PrefixStep(s, hi + 1, |s|); assert s[..|s|] == s; }
  }

  /** A prefix of `s` extended by the next slice. */
  lemma PrefixStep(s: string, i: nat, j: nat)
    requires i <= j <= |s|
    ensures s[..j] == s[..i] + s[i..j]
  {
  }

  /** A prefix of `s` extended by its next character. */
  lemma PrefixChar(s: string, i: nat)
    requires i < |s|
    ensures s[..i + 1] == s[..i] + [s[i]]
  {
  }

  /** The explicit shape `function (params) { body }`, with any white space
      around its tokens, gives the trimmed body, unless the body ends in a
      comment close, which would make the commented shape apply first. */
  lemma ExplicitShape(ws1: string, ws2: string, params: string, ws3: string, body: string, ws4: string)
    requires AllSpace(ws1) && AllSpace(ws2) && AllSpace(ws3) && AllSpace(ws4)
    requires ')' !in params
    requires !EndsWith(body, "*/")
    ensures ExtractFunctionBody((ws1 + "function" + ws2 + "(") + (params + ")" + ws3 + "{") + (body + "}" + ws4))
         == Some(Trim(body))
  {
    var h, m, t := ws1 + "function" + ws2 + "(", params + ")" + ws3 + "{", body + "}" + ws4;
    var s := h + m + t;
    HeadSlices(ws1, ws2);
    MiddleSlices(params, ws3);
    TailSlices(body, ws4);
    ThreePieces(h, m, t);
    var f := |ws1|;
    var open := |h| - 1;
    var close := |h| + |params|;
    var brace := |h| + |m| - 1;
    var last := |h| + |m| + |body|;
    assert s[..f] == ws1 by { assert s[0..f] == h[0..f]; }
    assert s[f..f + 8] == "function";
    assert s[f + 8..open] == ws2;
    assert s[open] == '(' by { assert s[open..open + 1] == h[open..open + 1]; }
    assert s[open + 1..close] == params;
    assert s[close] == ')' by { assert s[close..close + 1] == m[close - |h|..close - |h| + 1]; }
    assert s[close + 1..brace] == ws3;
    assert s[brace] == '{' by { assert s[brace..brace + 1] == m[|m| - 1..|m|]; }
    assert s[brace + 1..last] == body by { assert t[..|body|] == t[0..|body|]; }
    assert s[last] == '}' by { assert s[last..] == t[|body|..]; }
    assert s[last + 1..] == ws4;
    ExplicitShapeAt(s, f, open, close, brace, last);
  }
}
