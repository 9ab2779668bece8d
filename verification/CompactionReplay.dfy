/**
 Replaying recorded conversations under a context ceiling: every call is shrunk by a running
 reduction, and a call that still crosses the ceiling is cut to the floor.
 */
module CompactionReplay {
  import opened Numbers

  const FLOOR_TOKENS := 38_000
  const SUMMARY_OUTPUT_TOKENS := 2_500

  datatype Ceiling = Unlimited | AtMost(limit: int) {
    /** A larger ceiling, with no ceiling at all as the largest. */
    predicate NotAbove(that: Ceiling) {
      that.Unlimited? || (AtMost? && limit <= that.limit)
    }
  }

  datatype Tally = Tally(tokens: int, cuts: nat)

  /** What the replay of one conversation carries from call to call. */
  datatype Replay = Replay(tokens: int, cuts: nat, reduction: int)

  function Effective(input: int, reduction: int): int {
    Max(FLOOR_TOKENS, input - reduction)
  }

  predicate Crosses(effective: int, ceiling: Ceiling) {
    ceiling.AtMost? && ceiling.limit < effective
  }

  function Call(r: Replay, input: int, ceiling: Ceiling): Replay {
    var effective := Effective(input, r.reduction);
    if Crosses(effective, ceiling) then
      Replay(r.tokens + effective + SUMMARY_OUTPUT_TOKENS + FLOOR_TOKENS,
             r.cuts + 1,
             r.reduction + (effective - FLOOR_TOKENS))
    else
      r.(tokens := r.tokens + effective)
  }

  /** One conversation, call after call. */
  function Conversation(calls: seq<int>, ceiling: Ceiling): Replay {
    if calls == [] then Replay(0, 0, 0)
    else Call(Conversation(calls[..|calls| - 1], ceiling), calls[|calls| - 1], ceiling)
  }

  function Sessions(sessions: seq<seq<int>>, ceiling: Ceiling): Tally {
    if sessions == [] then Tally(0, 0)
    else
      var before := Sessions(sessions[..|sessions| - 1], ceiling);
      var last := Conversation(sessions[|sessions| - 1], ceiling);
      Tally(before.tokens + last.tokens, before.cuts + last.cuts)
  }

  /** The two nested loops, with one running total and a reduction that restarts per conversation. */
  method Simulate(sessions: seq<seq<int>>, ceiling: Ceiling) returns (tally: Tally)
    ensures tally == Sessions(sessions, ceiling)
  {
    var tokens, cuts: nat := 0, 0;
    for s := 0 to |sessions|
      invariant Tally(tokens, cuts) == Sessions(sessions[..s], ceiling)
    {
      var list := sessions[s];
      var reduction := 0;
      ghost var tokens0, cuts0 := tokens, cuts;
      for i := 0 to |list|
        invariant cuts0 <= cuts
        invariant Conversation(list[..i], ceiling) == Replay(tokens - tokens0, cuts - cuts0, reduction)
      {
        assert list[..i + 1][..i] == list[..i];
        var effective := Max(FLOOR_TOKENS, list[i] - reduction);
        if ceiling.Unlimited? || effective <= ceiling.limit {
          tokens := tokens + effective;
          continue;
        }
        tokens := tokens + effective + SUMMARY_OUTPUT_TOKENS;
        cuts := cuts + 1;
        reduction := reduction + (effective - FLOOR_TOKENS);
        tokens := tokens + FLOOR_TOKENS;
      }
      assert list[..|list|] == list;
      assert sessions[..s + 1][..s] == sessions[..s];
    }
    assert sessions[..|sessions|] == sessions;
    tally := Tally(tokens, cuts);
  }

  // ---- Lowering the ceiling never cuts less often ----

  /**
   The reductions of the two runs may lead one another, but only by less than a full cut, and the
   lower ceiling is a whole cut ahead whenever its reduction leads.
   */
  predicate Coupled(high: Replay, low: Replay, c: int, c': int) {
    && low.reduction - high.reduction <= c - FLOOR_TOKENS
    && high.reduction - low.reduction <= c' - FLOOR_TOKENS
    && high.cuts <= low.cuts
    && (high.reduction < low.reduction ==> high.cuts < low.cuts)
  }

  lemma {:induction false} RunsStayCoupled(calls: seq<int>, c: int, c': int)
    requires FLOOR_TOKENS <= c' <= c
    ensures Coupled(Conversation(calls, AtMost(c)), Conversation(calls, AtMost(c')), c, c')
  {
    if calls != [] {
      RunsStayCoupled(calls[..|calls| - 1], c, c');
    }
  }

  lemma {:induction false} CutsAtMostCalls(calls: seq<int>, ceiling: Ceiling)
    ensures Conversation(calls, ceiling).cuts <= |calls|
    ensures ceiling.Unlimited? ==> Conversation(calls, ceiling).cuts == 0
    ensures ceiling.AtMost? && ceiling.limit < FLOOR_TOKENS ==> Conversation(calls, ceiling).cuts == |calls|
  {
    if calls != [] {
      CutsAtMostCalls(calls[..|calls| - 1], ceiling);
    }
  }

  lemma LowerCeilingCutsNoLess(calls: seq<int>, low: Ceiling, high: Ceiling)
    requires low.NotAbove(high)
    ensures Conversation(calls, high).cuts <= Conversation(calls, low).cuts
  {
    CutsAtMostCalls(calls, low);
    CutsAtMostCalls(calls, high);
    if high.AtMost? && FLOOR_TOKENS <= low.limit {
      RunsStayCoupled(calls, high.limit, low.limit);
    }
  }

  lemma {:induction false} LowerCeilingCutsNoLessInTotal(sessions: seq<seq<int>>, low: Ceiling, high: Ceiling)
    requires low.NotAbove(high)
    ensures Sessions(sessions, high).cuts <= Sessions(sessions, low).cuts
  {
    if sessions != [] {
      LowerCeilingCutsNoLessInTotal(sessions[..|sessions| - 1], low, high);
      LowerCeilingCutsNoLess(sessions[|sessions| - 1], low, high);
    }
  }

  /** The coupling is needed: the running reduction itself is ordered neither way by the ceiling. */
  lemma ReductionIsNotMonotone()
    ensures Conversation([100_000], AtMost(50_000)).reduction > Conversation([100_000], AtMost(100_000)).reduction
    ensures Conversation([60_000, 70_000], AtMost(50_000)).reduction
            < Conversation([60_000, 70_000], AtMost(65_000)).reduction
  {
    assert [60_000, 70_000][..1] == [60_000];
    assert Conversation([60_000], AtMost(50_000)) == Replay(60_000 + 2_500 + 38_000, 1, 22_000);
    assert Conversation([60_000], AtMost(65_000)) == Replay(60_000, 0, 0);
  }

  // ---- Bounds ----

  function Peak(calls: seq<int>): int
    requires calls != []
  {
    if |calls| == 1 then calls[0] else Max(Peak(calls[..|calls| - 1]), calls[|calls| - 1])
  }

  /** What the past takes off the next call: the last cut's input, down to the floor. */
  function Memory(cuts: seq<int>): int {
    if cuts == [] then 0 else cuts[|cuts| - 1] - FLOOR_TOKENS
  }

  /** The inputs of the calls that are cut, told without any running reduction. */
  function CutInputs(calls: seq<int>, c: int): seq<int> {
    if calls == [] then []
    else
      var before, input := CutInputs(calls[..|calls| - 1], c), calls[|calls| - 1];
      if c + Memory(before) < input then before + [input] else before
  }

  /** The tokens of the calls themselves, each seen behind the cuts before it. */
  function Shown(calls: seq<int>, c: int): int {
    if calls == [] then 0
    else
      var before := calls[..|calls| - 1];
      Shown(before, c) + Max(FLOOR_TOKENS, calls[|calls| - 1] - Memory(CutInputs(before, c)))
  }

  /**
   With a ceiling at or above the floor, all that survives of the past is the last cut, and the bill is
   exactly what the calls show plus a summary and a fresh floor for every cut.
   */
  lemma {:induction false} ReplayRemembersTheLastCut(calls: seq<int>, c: int)
    requires FLOOR_TOKENS <= c
    ensures var r, cuts := Conversation(calls, AtMost(c)), CutInputs(calls, c);
            && r.cuts == |cuts|
            && r.reduction == Memory(cuts)
            && r.tokens == Shown(calls, c) + r.cuts * (SUMMARY_OUTPUT_TOKENS + FLOOR_TOKENS)
    ensures 0 <= Memory(CutInputs(calls, c))
  {
    if calls != [] {
      ReplayRemembersTheLastCut(calls[..|calls| - 1], c);
    }
  }

  /** The first cut is above the ceiling, and each later one above the former by a full stride. */
  lemma {:induction false} CutsClimb(calls: seq<int>, c: int, k: nat)
    requires k < |CutInputs(calls, c)|
    ensures CutInputs(calls, c)[k] > c + Memory(CutInputs(calls, c)[..k])
    ensures CutInputs(calls, c)[k] in calls
  {
    var before := CutInputs(calls[..|calls| - 1], c);
    if k < |before| {
      CutsClimb(calls[..|calls| - 1], c, k);
      assert CutInputs(calls, c)[..k] == before[..k];
    } else {
      assert CutInputs(calls, c)[..k] == before;
    }
  }

  lemma {:induction false} AtMostPeak(calls: seq<int>, x: int)
    requires x in calls
    ensures x <= Peak(calls)
  {
    if |calls| > 1 && x != calls[|calls| - 1] {
      assert x in calls[..|calls| - 1];
      AtMostPeak(calls[..|calls| - 1], x);
    }
  }

  /** A conversation is cut at all exactly when its largest call is above the ceiling. */
  lemma {:induction false} CutExactlyWhenPeakCrosses(calls: seq<int>, c: int)
    requires calls != [] && FLOOR_TOKENS <= c
    ensures Conversation(calls, AtMost(c)).cuts > 0 <==> c < Peak(calls)
  {
    var before := calls[..|calls| - 1];
    ReplayRemembersTheLastCut(before, c);
    if before != [] {
      CutExactlyWhenPeakCrosses(before, c);
    }
  }

  lemma {:induction false} EachCutRemovesAFullStride(calls: seq<int>, c: int)
    requires FLOOR_TOKENS <= c
    ensures Conversation(calls, AtMost(c)).cuts * (c - FLOOR_TOKENS + 1) <= Conversation(calls, AtMost(c)).reduction
  {
    if calls != [] {
      EachCutRemovesAFullStride(calls[..|calls| - 1], c);
    }
  }

  lemma CutsBoundedByPeak(calls: seq<int>, c: int)
    requires calls != [] && FLOOR_TOKENS <= c
    ensures Conversation(calls, AtMost(c)).cuts * (c - FLOOR_TOKENS + 1) <= Max(0, Peak(calls) - FLOOR_TOKENS)
  {
    EachCutRemovesAFullStride(calls, c);
    ReplayRemembersTheLastCut(calls, c);
    var cuts := CutInputs(calls, c);
    if cuts != [] {
      CutsClimb(calls, c, |cuts| - 1);
      AtMostPeak(calls, cuts[|cuts| - 1]);
    }
  }

  lemma {:induction false} ConversationCostsAtMost(calls: seq<int>, c: int)
    requires FLOOR_TOKENS <= c
    ensures var capped := Conversation(calls, AtMost(c));
            && 0 <= capped.reduction
            && capped.tokens <= Conversation(calls, Unlimited).tokens
                                + capped.cuts * (FLOOR_TOKENS + SUMMARY_OUTPUT_TOKENS)
  {
    if calls != [] {
      ConversationCostsAtMost(calls[..|calls| - 1], c);
      assert Conversation(calls[..|calls| - 1], Unlimited).reduction == 0 by {
        UncappedNeverReduces(calls[..|calls| - 1]);
      }
    }
  }

  lemma {:induction false} UncappedNeverReduces(calls: seq<int>)
    ensures Conversation(calls, Unlimited).reduction == 0
  {
    if calls != [] {
      UncappedNeverReduces(calls[..|calls| - 1]);
    }
  }

  lemma {:induction false} CappedBillAtMost(sessions: seq<seq<int>>, c: int)
    requires FLOOR_TOKENS <= c
    ensures var capped := Sessions(sessions, AtMost(c));
            capped.tokens <= Sessions(sessions, Unlimited).tokens
                             + capped.cuts * (FLOOR_TOKENS + SUMMARY_OUTPUT_TOKENS)
  {
    if sessions != [] {
      CappedBillAtMost(sessions[..|sessions| - 1], c);
      ConversationCostsAtMost(sessions[|sessions| - 1], c);
    }
  }

  // ---- The bill of many conversations ----

  /** The bill of two lists of conversations is the sum of their bills. */
  lemma {:induction false} BillsAdd(a: seq<seq<int>>, b: seq<seq<int>>, ceiling: Ceiling)
    ensures var both, one, other := Sessions(a + b, ceiling), Sessions(a, ceiling), Sessions(b, ceiling);
            both.tokens == one.tokens + other.tokens && both.cuts == one.cuts + other.cuts
  {
    if b == [] {
      assert a + b == a;
    } else {
      var n := |b| - 1;
      BillsAdd(a, b[..n], ceiling);
      assert (a + b)[..|a| + n] == a + b[..n];
    }
  }

  /** Conversations do not see one another, so their order does not matter. */
  lemma {:induction false} BillIgnoresOrder(a: seq<seq<int>>, b: seq<seq<int>>, ceiling: Ceiling)
    requires multiset(a) == multiset(b)
    ensures Sessions(a, ceiling) == Sessions(b, ceiling)
    decreases |a|
  {
    if a == [] {
      assert |multiset(b)| == |b|;
    } else {
      assert a[0] in multiset(b);
      var rest := TakenOut(a, a[0], ceiling);
      var rest' := TakenOut(b, a[0], ceiling);
      BillIgnoresOrder(rest, rest', ceiling);
    }
  }

  lemma TakenOut(a: seq<seq<int>>, calls: seq<int>, ceiling: Ceiling) returns (rest: seq<seq<int>>)
    requires calls in a
    ensures |rest| < |a| && multiset(rest) == multiset(a) - multiset{calls}
    ensures Sessions(a, ceiling).tokens == Sessions(rest, ceiling).tokens + Sessions([calls], ceiling).tokens
    ensures Sessions(a, ceiling).cuts == Sessions(rest, ceiling).cuts + Sessions([calls], ceiling).cuts
  {
    var i :| 0 <= i < |a| && a[i] == calls;
    rest := a[..i] + a[i + 1..];
    assert a == a[..i] + [calls] + a[i + 1..];
    BillsAdd(a[..i] + [calls], a[i + 1..], ceiling);
    BillsAdd(a[..i], [calls], ceiling);
    BillsAdd(a[..i], a[i + 1..], ceiling);
  }

  /** One conversation alone: what its calls show, and 2 500 and 38 000 tokens for every cut. */
  lemma BillOfOne(calls: seq<int>, c: int)
    requires 38_000 <= c
    ensures var bill := Sessions([calls], AtMost(c));
            && bill.cuts == |CutInputs(calls, c)|
            && bill.tokens == Shown(calls, c) + bill.cuts * (2_500 + 38_000)
  {
    assert [calls][..0] == [];
    ReplayRemembersTheLastCut(calls, c);
  }

  /** Every call at its size, or at 38 000 if it is smaller. */
  function FlooredCalls(calls: seq<int>): int {
    if calls == [] then 0
    else
      var input := calls[|calls| - 1];
      FlooredCalls(calls[..|calls| - 1]) + if input < 38_000 then 38_000 else input
  }

  function Floored(sessions: seq<seq<int>>): int {
    if sessions == [] then 0
    else Floored(sessions[..|sessions| - 1]) + FlooredCalls(sessions[|sessions| - 1])
  }

  lemma {:induction false} UncappedConversation(calls: seq<int>)
    ensures Conversation(calls, Unlimited) == Replay(FlooredCalls(calls), 0, 0)
  {
    if calls != [] {
      UncappedConversation(calls[..|calls| - 1]);
    }
  }

  /** The baseline of the table: without a ceiling nothing is cut and every call is billed on its own. */
  lemma {:induction false} BillWithoutCeiling(sessions: seq<seq<int>>)
    ensures Sessions(sessions, Unlimited) == Tally(Floored(sessions), 0)
  {
    if sessions != [] {
      BillWithoutCeiling(sessions[..|sessions| - 1]);
      UncappedConversation(sessions[|sessions| - 1]);
    }
  }

  // ---- Any ceiling, also one below the floor ----

  /** What call n shows, and all before it: at least 38 000, and less what the cuts before it took off. */
  ghost predicate AreShown(shown: seq<int>, calls: seq<int>, c: int) {
    |shown| == |calls| && forall n :: 0 <= n < |calls| ==> shown[n] == ShownAt(calls[n], TakenOff(shown[..n], c))
  }

  function ShownAt(input: int, off: int): int {
    if input - off < 38_000 then 38_000 else input - off
  }

  /** The calls above the ceiling are cut, each by all it shows above 38 000. */
  function TakenOff(shown: seq<int>, c: int): int {
    if shown == [] then 0
    else
      var last := shown[|shown| - 1];
      TakenOff(shown[..|shown| - 1], c) + if c < last then last - 38_000 else 0
  }

  /** What is billed for them: itself each, and another 40 500 for every one above the ceiling. */
  function Billed(shown: seq<int>, c: int): int {
    if shown == [] then 0
    else
      var last := shown[|shown| - 1];
      Billed(shown[..|shown| - 1], c) + last + if c < last then 40_500 else 0
  }

  function Above(shown: seq<int>, c: int): nat {
    if shown == [] then 0
    else Above(shown[..|shown| - 1], c) + if c < shown[|shown| - 1] then 1 else 0
  }

  lemma ShownOneMore(shown: seq<int>, calls: seq<int>, c: int, input: int)
    requires AreShown(shown, calls, c)
    ensures AreShown(shown + [ShownAt(input, TakenOff(shown, c))], calls + [input], c)
  {
    var shown' := shown + [ShownAt(input, TakenOff(shown, c))];
    forall n | 0 <= n < |shown'|
      ensures shown'[n] == ShownAt((calls + [input])[n], TakenOff(shown'[..n], c))
    {
      assert shown'[..n] == shown[..n];
      assert n == |shown| ==> shown[..n] == shown;
    }
  }

  lemma {:induction false} BillOfAnyCeiling(calls: seq<int>, c: int) returns (shown: seq<int>)
    ensures AreShown(shown, calls, c)
    ensures Conversation(calls, AtMost(c)) == Replay(Billed(shown, c), Above(shown, c), TakenOff(shown, c))
  {
    if calls == [] {
      shown := [];
    } else {
      var n := |calls| - 1;
      var before := BillOfAnyCeiling(calls[..n], c);
      shown := before + [ShownAt(calls[n], TakenOff(before, c))];
      ShownOneMore(before, calls[..n], c, calls[n]);
      assert calls[..n] + [calls[n]] == calls;
      assert shown[..n] == before;
    }
  }
}
