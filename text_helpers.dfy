/**
 * The small text helpers of build_check.js: the indentation table, clipping,
 * the join that skips empty items, the one-character case changes, the
 * identifier sanitizer and the async-test marker.
 */
module TextHelpers {
  import opened Wrappers
  import opened JsText

  /** The `indents` table: zero to six spaces. */
  const Indents: seq<string> := ["", " ", "  ", "   ", "    ", "     ", "      "]

  predicate AllSpaces(s: string) {
    forall i :: 0 <= i < |s| ==> s[i] == ' '
  }

  /** ind(count): `count` spaces, but never more than six. */
  function Ind(count: nat): (r: string)
    ensures |r| == if count < 6 then count else 6
    ensures AllSpaces(r)
  {
    if count < |Indents| then Indents[count] else Indents[|Indents| - 1]
  }

  /** clipString(len, str) on a string already converted by toString(): unchanged
      when shorter than `len`, otherwise cut after len - 3 characters and
      marked with "...". */
  function ClipString(len: int, str: string): (r: string)
    ensures |str| < len ==> r == str
    ensures |str| >= len && len >= 3 ==> |r| == len && r[..len - 3] == str[..len - 3] && r[len - 3..] == "..."
    ensures |str| >= len && len < 3 ==> r == "..."
  {
    if |str| < len then str else Substring(str, 0, len - 3) + "..."
  }

  /** An item joinNotEmpty keeps: neither null (None) nor "". */
  predicate Kept(item: Option<string>) {
    item.Some? && item.value != ""
  }

  /** The kept items, in order. */
  function NonEmptyItems(items: seq<Option<string>>): (r: seq<string>)
    ensures forall k :: 0 <= k < |r| ==> r[k] != ""
    ensures |r| <= |items|
  {
    if |items| == 0 then []
    else
      var last := items[|items| - 1];
      NonEmptyItems(items[..|items| - 1]) + (if Kept(last) then [last.value] else [])
  }

  lemma {:induction false} JoinAppend(parts: seq<string>, x: string, sep: string)
    ensures Join(parts + [x], sep) == if parts == [] then x else Join(parts, sep) + sep + x
  {
    if |parts| > 1 {
      assert (parts + [x])[1..] == parts[1..] + [x];
      JoinAppend(parts[1..], x, sep);
    } else if |parts| == 1 {
      assert parts + [x] == [parts[0], x];
    }
  }

  lemma {:induction false} JoinOfNonEmptyIsNonEmpty(parts: seq<string>, sep: string)
    requires forall k :: 0 <= k < |parts| ==> parts[k] != ""
    ensures (Join(parts, sep) == "") <==> (parts == [])
  {
    if |parts| > 1 {
      JoinOfNonEmptyIsNonEmpty(parts[1..], sep);
    }
  }

  /** joinNotEmpty(items, sep): the loop of build_check.js:83-93. */
  method JoinNotEmpty(items: seq<Option<string>>, sep: string) returns (str: string)
    ensures str == Join(NonEmptyItems(items), sep)
  {
    str := "";
    var i := 0;
    while i < |items|
      invariant 0 <= i <= |items|
      invariant str == Join(NonEmptyItems(items[..i]), sep)
    {
      var item := items[i];
      ghost var done := NonEmptyItems(items[..i]);
      assert items[..i + 1][..i] == items[..i] && items[..i + 1][i] == item;
      assert NonEmptyItems(items[..i + 1]) == done + (if Kept(item) then [item.value] else []);
      JoinOfNonEmptyIsNonEmpty(done, sep);
      if item.Some? && item.value != "" {
        JoinAppend(NonEmptyItems(items[..i]), item.value, sep);
        if |str| != 0 {
          str := str + sep;
        }
        str := str + item.value;
        assert str == Join(done + [item.value], sep);
      } else {
        assert done + [] == done;
      }
      assert str == Join(NonEmptyItems(items[..i + 1]), sep);
      i := i + 1;
    }
    assert items[..i] == items;
  }

  /** The joined text is empty exactly when no item is kept; otherwise it starts
      with the first kept item and ends with the last one, so a separator shows
      only between two kept items. */
  lemma {:induction false} JoinNotEmptyShape(items: seq<Option<string>>, sep: string)
    ensures var kept := NonEmptyItems(items);
      && (Join(kept, sep) == "" <==> forall k :: 0 <= k < |items| ==> !Kept(items[k]))
      && (kept != [] ==> StartsWith(Join(kept, sep), kept[0]) && EndsWith(Join(kept, sep), kept[|kept| - 1]))
  {
    var kept := NonEmptyItems(items);
    JoinOfNonEmptyIsNonEmpty(kept, sep);
    NoneKeptIffEmpty(items);
    if kept != [] {
      JoinEnds(kept, sep);
    }
  }

  lemma {:induction false} NoneKeptIffEmpty(items: seq<Option<string>>)
    ensures NonEmptyItems(items) == [] <==> forall k :: 0 <= k < |items| ==> !Kept(items[k])
  {
    if |items| > 0 {
      var init, last := items[..|items| - 1], items[|items| - 1];
      NoneKeptIffEmpty(init);
      if Kept(last) {
        assert |NonEmptyItems(items)| > 0;
      } else {
        assert NonEmptyItems(items) == NonEmptyItems(init) + [];
        assert (forall k :: 0 <= k < |items| ==> !Kept(items[k])) <==> (forall k :: 0 <= k < |init| ==> !Kept(init[k])) by {
          assert forall k :: 0 <= k < |init| ==> init[k] == items[k];
        }
      }
    }
  }

  lemma {:induction false} JoinEnds(parts: seq<string>, sep: string)
    requires parts != []
    ensures StartsWith(Join(parts, sep), parts[0])
    ensures EndsWith(Join(parts, sep), parts[|parts| - 1])
  {
    if |parts| > 1 {
      JoinEnds(parts[1..], sep);
      var rest := Join(parts[1..], sep);
      assert Join(parts, sep) == parts[0] + (sep + rest);
      assert Join(parts, sep) == (parts[0] + sep) + rest;
    }
  }

  // ---------------------------------------------------------------------------
  // capitalize, lowerize and makeIdentifier

  /** capitalize(s): the first character upper-cased, the rest unchanged. */
  function Capitalize(s: string): (r: string)
    ensures |r| == |s|
    ensures |s| > 0 ==> r[1..] == s[1..] && !IsLowerAscii(r[0])
    ensures |s| > 0 && !IsLowerAscii(s[0]) ==> r == s
  {
    if |s| == 0 then s else [ToUpperAscii(s[0])] + s[1..]
  }

  /** lowerize(s): the first character lower-cased, the rest unchanged. */
  function Lowerize(s: string): (r: string)
    ensures |r| == |s|
    ensures |s| > 0 ==> r[1..] == s[1..] && !IsUpperAscii(r[0])
    ensures |s| > 0 && !IsUpperAscii(s[0]) ==> r == s
  {
    if |s| == 0 then s else [ToLowerAscii(s[0])] + s[1..]
  }

  predicate AllWord(s: string) {
    forall i :: 0 <= i < |s| ==> IsWordChar(s[i])
  }

  predicate HasWordChar(s: string) {
    exists i :: 0 <= i < |s| && IsWordChar(s[i])
  }

  /** The length of the run of word characters that starts `s`. */
  function WordRunLength(s: string): (n: nat)
    ensures n <= |s|
    ensures forall i :: 0 <= i < n ==> IsWordChar(s[i])
    ensures n == |s| || !IsWordChar(s[n])
  {
    if |s| > 0 && IsWordChar(s[0]) then 1 + WordRunLength(s[1..]) else 0
  }

  /** str.split(/\W+/).filter(Boolean): the maximal runs of word characters, in order. */
  function Fragments(s: string): (r: seq<string>)
    ensures forall k :: 0 <= k < |r| ==> r[k] != "" && AllWord(r[k])
    ensures r == [] <==> !HasWordChar(s)
    decreases |s|
  {
    if |s| == 0 then []
    else if !IsWordChar(s[0]) then
      var r := Fragments(s[1..]);
      assert HasWordChar(s) ==> HasWordChar(s[1..]) by {
        if HasWordChar(s) {
          var i :| 0 <= i < |s| && IsWordChar(s[i]);
          assert i > 0 && IsWordChar(s[1..][i - 1]);
        }
      }
      r
    else
      var n := WordRunLength(s);
      [s[..n]] + Fragments(s[n..])
  }

  /** The run of word characters that starts a word followed by a non-word
      character is that word. */
  lemma {:induction false} WordRunOf(w: string, rest: string)
    requires AllWord(w) && (rest == "" || !IsWordChar(rest[0]))
    ensures WordRunLength(w + rest) == |w|
  {
    if |w| > 0 {
      assert (w + rest)[1..] == w[1..] + rest;
      WordRunOf(w[1..], rest);
    }
  }

  /** A maximal run of word characters is one whole fragment. */
  lemma FragmentsOfWordThen(w: string, rest: string)
    requires w != "" && AllWord(w) && (rest == "" || !IsWordChar(rest[0]))
    ensures Fragments(w + rest) == [w] + Fragments(rest)
  {
    WordRunOf(w, rest);
    assert (w + rest)[..|w|] == w;
    assert (w + rest)[|w|..] == rest;
  }

  /** A non-word character belongs to no fragment. */
  lemma FragmentsSkipNonWord(c: char, rest: string)
    requires !IsWordChar(c)
    ensures Fragments([c] + rest) == Fragments(rest)
  {
    assert ([c] + rest)[1..] == rest;
  }

  lemma FragmentsOfTwoWords(a: string, b: string)
    requires a != "" && b != "" && AllWord(a) && AllWord(b)
    ensures Fragments(a + " " + b) == [a, b]
  {
    assert " " + b == [' '] + b;
    assert a + " " + b == a + ([' '] + b);
    FragmentsOfWordThen(a, [' '] + b);
    FragmentsSkipNonWord(' ', b);
    assert b == b + "";
    FragmentsOfWordThen(b, "");
  }

  /** The concatenation of a list of strings. */
  function Concat(parts: seq<string>): string {
    if |parts| == 0 then "" else parts[0] + Concat(parts[1..])
  }

  /** The fragments after the first, each capitalized, concatenated. */
  function CamelTail(parts: seq<string>): string {
    if |parts| == 0 then "" else Capitalize(parts[0]) + CamelTail(parts[1..])
  }

  /** The word characters of `s`, in order. */
  function WordChars(s: string): (r: string)
    ensures AllWord(r)
  {
    if |s| == 0 then "" else (if IsWordChar(s[0]) then [s[0]] else "") + WordChars(s[1..])
  }

  /** makeIdentifier(str). None stands for the TypeError the source throws when
      `str` has no word character (parts[0] is then undefined). */
  function MakeIdentifier(str: string): (r: Option<string>)
    ensures r.Some? <==> HasWordChar(str)
    ensures r.Some? ==> r.value != "" && AllWord(r.value)
    ensures r.Some? ==> !IsDigit(r.value[0]) && !IsUpperAscii(r.value[0])
  {
    var parts := Fragments(str);
    if parts == [] then None
    else
      var initial := if IsDigit(parts[0][0]) then "_" + parts[0] else parts[0];
      var id := Lowerize(initial) + CamelTail(parts[1..]);
      assert AllWord(CamelTail(parts[1..])) by { CamelTailAllWord(parts[1..]); }
      assert id[0] == ToLowerAscii(initial[0]);
      Some(id)
  }

  lemma {:induction false} CamelTailAllWord(parts: seq<string>)
    requires forall k :: 0 <= k < |parts| ==> AllWord(parts[k])
    ensures AllWord(CamelTail(parts))
  {
    if |parts| > 0 {
      CamelTailAllWord(parts[1..]);
    }
  }

  /** Sanitizing an identifier the sanitizer produced gives it back unchanged. */
  lemma MakeIdentifierIdempotent(str: string)
    requires HasWordChar(str)
    ensures MakeIdentifier(MakeIdentifier(str).value) == MakeIdentifier(str)
  {
    var id := MakeIdentifier(str).value;
    assert WordRunLength(id) == |id|;
    assert id[|id|..] == "";
    assert Fragments(id) == [id[..|id|]] + Fragments(id[|id|..]);
    assert id[..|id|] == id;
    var parts := Fragments(id);
    assert parts == [id];
    assert parts[1..] == [] && CamelTail(parts[1..]) == "";
    assert ToLowerAscii(id[0]) == id[0];
    assert Lowerize(id) == [id[0]] + id[1..] == id;
    assert Lowerize(id) + CamelTail(parts[1..]) == id;
  }

  /** Two words joined by a space become the first word lowerized and the
      second capitalized. */
  lemma IdentifierOfTwoWords(a: string, b: string)
    requires a != "" && b != "" && AllWord(a) && AllWord(b) && !IsDigit(a[0])
    ensures MakeIdentifier(a + " " + b) == Some(Lowerize(a) + Capitalize(b))
  {
    FragmentsOfTwoWords(a, b);
    var parts := Fragments(a + " " + b);
    assert parts[0] == a && parts[1..] == [b];
    assert [b][1..] == [];
    assert CamelTail([b]) == Capitalize(b) + CamelTail([]);
    assert CamelTail([b]) == Capitalize(b);
  }

  /** Every character lower-cased (ASCII only): comparison up to case. */
  function LowerAll(s: string): (r: string)
    ensures |r| == |s|
  {
    if |s| == 0 then "" else [ToLowerAscii(s[0])] + LowerAll(s[1..])
  }

  lemma {:induction false} LowerAllConcat(a: string, b: string)
    ensures LowerAll(a + b) == LowerAll(a) + LowerAll(b)
  {
    if |a| > 0 {
      assert (a + b)[1..] == a[1..] + b;
      LowerAllConcat(a[1..], b);
    } else {
      assert a + b == b;
    }
  }

  lemma CaseChangeInvisible(s: string)
    ensures LowerAll(Capitalize(s)) == LowerAll(s)
    ensures LowerAll(Lowerize(s)) == LowerAll(s)
  {
    if |s| > 0 {
      assert Capitalize(s)[1..] == s[1..];
      assert Lowerize(s)[1..] == s[1..];
    }
  }

  lemma {:induction false} CamelTailUpToCase(parts: seq<string>)
    ensures LowerAll(CamelTail(parts)) == LowerAll(Concat(parts))
  {
    if |parts| > 0 {
      CamelTailUpToCase(parts[1..]);
      CaseChangeInvisible(parts[0]);
      LowerAllConcat(Capitalize(parts[0]), CamelTail(parts[1..]));
      LowerAllConcat(parts[0], Concat(parts[1..]));
    }
  }

  lemma {:induction false} WordCharsConcat(a: string, b: string)
    ensures WordChars(a + b) == WordChars(a) + WordChars(b)
  {
    if |a| > 0 {
      assert (a + b)[1..] == a[1..] + b;
      WordCharsConcat(a[1..], b);
    } else {
      assert a + b == b;
    }
  }

  lemma {:induction false} WordCharsOfWord(a: string)
    requires AllWord(a)
    ensures WordChars(a) == a
  {
    if |a| > 0 {
      WordCharsOfWord(a[1..]);
    }
  }

  /** The fragments, put back together, are exactly the word characters of the input. */
  lemma {:induction false} FragmentsCoverWordChars(s: string)
    ensures Concat(Fragments(s)) == WordChars(s)
    decreases |s|
  {
    if |s| > 0 {
      if !IsWordChar(s[0]) {
        FragmentsCoverWordChars(s[1..]);
      } else {
        var n := WordRunLength(s);
        FragmentsCoverWordChars(s[n..]);
        assert s == s[..n] + s[n..];
        WordCharsConcat(s[..n], s[n..]);
        WordCharsOfWord(s[..n]);
        assert Fragments(s)[1..] == Fragments(s[n..]);
      }
    }
  }

  lemma MakeIdentifierUnfold(str: string)
    requires HasWordChar(str)
    ensures var parts := Fragments(str);
      var initial := if IsDigit(parts[0][0]) then "_" + parts[0] else parts[0];
      MakeIdentifier(str) == Some(Lowerize(initial) + CamelTail(parts[1..]))
  {
  }

  lemma CamelUpToCase(initial: string, tail: seq<string>)
    ensures LowerAll(Lowerize(initial) + CamelTail(tail)) == LowerAll(initial + Concat(tail))
  {
    LowerAllConcat(Lowerize(initial), CamelTail(tail));
    CaseChangeInvisible(initial);
    CamelTailUpToCase(tail);
    LowerAllConcat(initial, Concat(tail));
  }

  /** Up to letter case, the identifier is the input's word characters in order,
      with "_" in front when the first of them is a digit: non-word characters
      are dropped and only the case of fragment-initial letters changes. */
  lemma MakeIdentifierKeepsWordChars(str: string)
    requires HasWordChar(str)
    ensures WordChars(str) != []
    ensures LowerAll(MakeIdentifier(str).value)
         == LowerAll(if IsDigit(WordChars(str)[0]) then "_" + WordChars(str) else WordChars(str))
  {
    var parts := Fragments(str);
    FragmentsCoverWordChars(str);
    MakeIdentifierUnfold(str);
    FragmentsUpToCase(parts, WordChars(str));
  }

  /** The camel-casing of fragments that spell w, up to letter case. */
  lemma FragmentsUpToCase(parts: seq<string>, w: string)
    requires parts != [] && parts[0] != [] && Concat(parts) == w
    ensures w != []
    ensures var initial := if IsDigit(parts[0][0]) then "_" + parts[0] else parts[0];
      LowerAll(Lowerize(initial) + CamelTail(parts[1..])) == LowerAll(if IsDigit(w[0]) then "_" + w else w)
  {
    var head, rest := parts[0], Concat(parts[1..]);
    var initial := if IsDigit(head[0]) then "_" + head else head;
    var target := if IsDigit(w[0]) then "_" + w else w;
    assert target == initial + rest by {
      assert w == head + rest;
      assert w[0] == head[0];
      if IsDigit(head[0]) {
        assert ("_" + head) + rest == "_" + (head + rest);
      }
    }
    CamelUpToCase(initial, parts[1..]);
  }

  // ---------------------------------------------------------------------------
  // isAsyncTest

  /** The marker whose presence makes a test asynchronous. */
  const AsyncMarker := "asyncTestPassed()"

  /** isAsyncTest(body): /asyncTestPassed\(\)/.test(body). */
  predicate IsAsyncTest(body: string) {
    Contains(body, AsyncMarker)
  }

  /** Any body that calls the marker, wherever it stands, is asynchronous, and
      a body shorter than the marker never is. */
  lemma AsyncMarkerDetected(before: string, after: string, short: string)
    requires |short| < |AsyncMarker|
    ensures IsAsyncTest(before + AsyncMarker + after)
    ensures !IsAsyncTest(short)
  {
    var s := before + AsyncMarker + after;
    assert s[|before|..|before| + |AsyncMarker|] == AsyncMarker;
    assert OccursAt(s, AsyncMarker, |before|);
  }
}
