/**
 * The summary of a test report: the report is a tree of objects whose leaves
 * are the results of individual tests; the summary counts the leaves and the
 * successes among them, skipping members whose key starts with "__".
 */
module ReportSummary {
  import opened Wrappers
  import opened JsText

  /** A JavaScript value as found in a result tree. A number or string carries
      its numeric value (None for NaN and the infinities, or for a string that
      does not convert to a finite number); functions and arrays are objects
      and appear as Obj with their enumerable members. */
  datatype Value =
    | Undefined
    | Null
    | Bool(b: bool)
    | Num(finite: Option<real>)
    | Str(text: string, asNumber: Option<real>)
    | Error(message: string)
    | Obj(members: seq<Member>)

  /** An enumerable string-keyed property, in the order for-in visits it. */
  datatype Member = Member(key: string, val: Value)

  /** `typeof v === "object"` (true for null as well). */
  predicate IsTypeofObject(v: Value) {
    v.Null? || v.Error? || v.Obj?
  }

  /** `v == true` for a value that is not an object: the boolean is
      converted to the number 1 and compared with the value's number. */
  predicate LooselyTrue(v: Value) {
    match v
    case Bool(b) => b
    case Num(n) => n == Some(1.0)
    case Str(_, n) => n == Some(1.0)
    case _ => false
  }

  /** isSuccess: a non-object that is loosely equal to true. */
  predicate IsSuccess(v: Value) {
    !IsTypeofObject(v) && LooselyTrue(v)
  }

  /** shouldIgnore: for-in keys are strings, so only the "__" prefix matters. */
  predicate ShouldIgnore(key: string) {
    StartsWith(key, "__")
  }

  /** `_.isObject(val) && !(val instanceof Error)`: a set of subtests. */
  predicate IsGroup(v: Value) {
    v.Obj?
  }

  /** The `{__count, __success}` object summary returns. */
  datatype Stats = Stats(count: nat, success: nat)

  function Add(a: Stats, b: Stats): Stats {
    Stats(a.count + b.count, a.success + b.success)
  }

  /** summary(report): a primitive or an Error has no enumerable members and
      sums to zero. */
  function SummaryOf(v: Value): (r: Stats)
    ensures r.success <= r.count
    decreases v
  {
    if v.Obj? then MembersSummary(v.members) else Stats(0, 0)
  }

  /** The sums over the members visited so far. */
  function MembersSummary(ms: seq<Member>): (r: Stats)
    ensures r.success <= r.count
    decreases ms
  {
    if |ms| == 0 then Stats(0, 0)
    else Add(MembersSummary(ms[..|ms| - 1]), MemberSummary(ms[|ms| - 1]))
  }

  /** What one member adds: nothing when ignored, the sums of a group, or one
      leaf which may be a success. */
  function MemberSummary(m: Member): (r: Stats)
    ensures r.success <= r.count
    decreases m
  {
    if ShouldIgnore(m.key) then Stats(0, 0)
    else if IsGroup(m.val) then SummaryOf(m.val)
    else Stats(1, if IsSuccess(m.val) then 1 else 0)
  }

  /** summary, as its loop: the members of an object are visited in order
      and each adds to the two counters. */
  method Summary(report: Value) returns (res: Stats)
    ensures res == SummaryOf(report)
    decreases report, 1
  {
    var count: nat := 0;
    var success: nat := 0;
    if report.Obj? {
      var ms := report.members;
      for i := 0 to |ms|
        invariant Stats(count, success) == MembersSummary(ms[..i])
      {
        assert ms[i] in ms;
        count, success := VisitMember(ms[i], count, success);
        MembersSummaryStep(ms, i);
      }
      assert ms[..|ms|] == ms;
    }
    res := Stats(count, success);
  }

  /** The callback summary hands to forIn: an ignored key adds nothing, a set
      of subtests adds its own summary, any other value is one test. */
  method VisitMember(m: Member, count: nat, success: nat) returns (count': nat, success': nat)
    ensures Stats(count', success') == Add(Stats(count, success), MemberSummary(m))
    decreases m, 0
  {
    count', success' := count, success;
    if ShouldIgnore(m.key) {
      return;
    }
    if IsGroup(m.val) {
      var s := Summary(m.val);
      count' := count' + s.count;
      success' := success' + s.success;
    } else {
      count' := count' + 1;
      if IsSuccess(m.val) {
        success' := success' + 1;
      }
    }
  }

  lemma MembersSummaryStep(ms: seq<Member>, i: nat)
    requires i < |ms|
    ensures MembersSummary(ms[..i + 1]) == Add(MembersSummary(ms[..i]), MemberSummary(ms[i]))
  {
    assert ms[..i + 1][..i] == ms[..i];
  }

  // ---------------------------------------------------------------------------
  // The leaves, as an independent definition

  /** The test results of a report: the leaves under keys that are not
      ignored, in visiting order. */
  function Leaves(v: Value): seq<Value>
    decreases v
  {
    if v.Obj? then MembersLeaves(v.members) else []
  }

  function MembersLeaves(ms: seq<Member>): seq<Value>
    decreases ms
  {
    if |ms| == 0 then [] else MembersLeaves(ms[..|ms| - 1]) + MemberLeaves(ms[|ms| - 1])
  }

  function MemberLeaves(m: Member): seq<Value>
    decreases m
  {
    if ShouldIgnore(m.key) then []
    else if IsGroup(m.val) then Leaves(m.val)
    else [m.val]
  }

  /** The number of successful results in a list. */
  function Successes(results: seq<Value>): nat {
    if |results| == 0 then 0
    else Successes(results[..|results| - 1]) + (if IsSuccess(results[|results| - 1]) then 1 else 0)
  }

  lemma {:induction false} SuccessesAppend(a: seq<Value>, b: seq<Value>)
    ensures Successes(a + b) == Successes(a) + Successes(b)
    decreases |b|
  {
    if |b| == 0 {
      assert a + b == a;
    } else {
      assert (a + b)[..|a + b| - 1] == a + b[..|b| - 1];
      SuccessesAppend(a, b[..|b| - 1]);
    }
  }

  /** Every leaf is a non-object or an Error: no leaf is a set of subtests. */
  lemma {:induction false} LeavesAreResults(v: Value)
    ensures forall k :: 0 <= k < |Leaves(v)| ==> !IsGroup(Leaves(v)[k])
    decreases v, 1
  {
    if v.Obj? {
      MembersLeavesAreResults(v.members);
    }
  }

  lemma {:induction false} MembersLeavesAreResults(ms: seq<Member>)
    ensures forall k :: 0 <= k < |MembersLeaves(ms)| ==> !IsGroup(MembersLeaves(ms)[k])
    decreases ms, 0
  {
    if |ms| > 0 {
      var m := ms[|ms| - 1];
      var init := MembersLeaves(ms[..|ms| - 1]);
      MembersLeavesAreResults(ms[..|ms| - 1]);
      if !ShouldIgnore(m.key) && IsGroup(m.val) {
        LeavesAreResults(m.val);
      }
      assert MembersLeaves(ms) == init + MemberLeaves(m);
      forall k | 0 <= k < |MembersLeaves(ms)|
        ensures !IsGroup(MembersLeaves(ms)[k])
      {
        if k >= |init| {
          assert MembersLeaves(ms)[k] == MemberLeaves(m)[k - |init|];
        }
      }
    }
  }

  /** summary counts exactly the leaves, and the successes among them. */
  lemma {:induction false} SummaryCountsLeaves(v: Value)
    ensures SummaryOf(v) == Stats(|Leaves(v)|, Successes(Leaves(v)))
    decreases v, 1
  {
    if v.Obj? {
      MembersCountLeaves(v.members);
    }
  }

  lemma {:induction false} MembersCountLeaves(ms: seq<Member>)
    ensures MembersSummary(ms) == Stats(|MembersLeaves(ms)|, Successes(MembersLeaves(ms)))
    decreases ms, 0
  {
    if |ms| > 0 {
      var m := ms[|ms| - 1];
      MembersCountLeaves(ms[..|ms| - 1]);
      MemberCountsLeaves(m);
      SuccessesAppend(MembersLeaves(ms[..|ms| - 1]), MemberLeaves(m));
    }
  }

  lemma {:induction false} MemberCountsLeaves(m: Member)
    ensures MemberSummary(m) == Stats(|MemberLeaves(m)|, Successes(MemberLeaves(m)))
    decreases m, 2
  {
    if !ShouldIgnore(m.key) {
      if IsGroup(m.val) {
        SummaryCountsLeaves(m.val);
      } else {
        assert [m.val][..0] == [];
      }
    }
  }

  /** A member under an ignored key changes nothing. */
  lemma IgnoredMemberChangesNothing(ms: seq<Member>, key: string, val: Value)
    requires ShouldIgnore(key)
    ensures MembersSummary(ms + [Member(key, val)]) == MembersSummary(ms)
  {
    assert (ms + [Member(key, val)])[..|ms|] == ms;
  }

  /** The summary of two runs of members is the sum of their summaries. */
  lemma {:induction false} MembersSummaryAppend(a: seq<Member>, b: seq<Member>)
    ensures MembersSummary(a + b) == Add(MembersSummary(a), MembersSummary(b))
    decreases |b|
  {
    if |b| == 0 {
      assert a + b == a;
    } else {
      assert (a + b)[..|a + b| - 1] == a + b[..|b| - 1];
      MembersSummaryAppend(a, b[..|b| - 1]);
    }
  }
  /** The order in which two runs of members are visited does not matter. */
  lemma SummaryIgnoresOrder(a: seq<Member>, b: seq<Member>)
    ensures MembersSummary(a + b) == MembersSummary(b + a)
  {
    MembersSummaryAppend(a, b);
    MembersSummaryAppend(b, a);
  }


  /** Only booleans, numbers and strings can be successes: null, undefined
      and Error results are always failures, while still counted. */
  lemma FailuresStillCount(key: string, val: Value)
    requires !ShouldIgnore(key) && (val.Null? || val.Undefined? || val.Error?)
    ensures MemberSummary(Member(key, val)) == Stats(1, 0)
  {
  }

  /** A true result, the number 1 and a string converting to 1 are successes. */
  lemma SuccessIsLooseTruth(v: Value)
    ensures IsSuccess(v) <==> v == Bool(true) || v == Num(Some(1.0)) || (v.Str? && v.asNumber == Some(1.0))
  {
  }
}
