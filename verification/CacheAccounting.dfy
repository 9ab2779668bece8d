/**
 Why the prompt cache did not return what the previous call of a lane had already sent. Every pair of
 consecutive calls that counts is put in one of three buckets, and what it lost is also charged to a
 new turn or to the middle of one.
 */
module CacheAccounting {
  import opened Text
  import opened Numbers

  const TTL_GUARD_MS := 300_000

  /** One generation. The token counts default to zero; a missing end is the start. */
  datatype Call = Call(
    traceId: string, provider: Option<string>, start: int, end: Option<int>,
    input: nat, cacheRead: nat, cost: real)

  type Lane = seq<Call>

  /** Not a rebuilt history, and not after the cache has expired. */
  predicate Admitted(prev: Call, cur: Call) {
    && prev.input <= cur.input
    && cur.start - (if prev.end.Some? then prev.end.value else prev.start) <= TTL_GUARD_MS
  }

  predicate SameTurn(prev: Call, cur: Call) {
    prev.traceId == cur.traceId
  }

  function Lost(prev: Call, cur: Call): nat {
    Max(0, prev.input - cur.cacheRead)
  }

  datatype Cause = Warm | Switched | Prefix

  function CauseOf(prev: Call, cur: Call): Cause {
    if Lost(prev, cur) == 0 then Warm else if prev.provider != cur.provider then Switched else Prefix
  }

  datatype Sums = Sums(calls: nat, lostTokens: nat, input: nat, cached: nat, cost: real)

  const NOTHING := Sums(0, 0, 0, 0, 0.0)

  class Bucket {
    var calls: nat
    var lostTokens: nat
    var input: nat
    var cached: nat
    var cost: real

    function Contents(): Sums
      reads this
    {
      Sums(calls, lostTokens, input, cached, cost)
    }

    constructor ()
      ensures Contents() == NOTHING
    {
      calls, lostTokens, input, cached, cost := 0, 0, 0, 0, 0.0;
    }
  }

  class Ratio {
    var num: nat
    var den: nat

    constructor ()
      ensures num == 0 && den == 0
    {
      num, den := 0, 0;
    }
  }

  // ---- The books, pair by pair ----

  datatype Slot = Slot(num: nat, den: nat)

  datatype Books = Books(
    switched: Sums, prefix: Sums, warm: Sums,
    newTurnLost: nat, inTurnLost: nat,
    turn: Slot, step: Slot)
  {
    function Of(cause: Cause): Sums {
      match cause case Warm => warm case Switched => switched case Prefix => prefix
    }

    function LostAt(inTurn: bool): nat {
      if inTurn then inTurnLost else newTurnLost
    }

    function At(inTurn: bool): Slot {
      if inTurn then step else turn
    }
  }

  const BLANK := Books(NOTHING, NOTHING, NOTHING, 0, 0, Slot(0, 0), Slot(0, 0))

  function Charged(s: Sums, prev: Call, cur: Call): Sums {
    Sums(s.calls + 1, s.lostTokens + Lost(prev, cur), s.input + cur.input, s.cached + cur.cacheRead, s.cost + cur.cost)
  }

  function Entered(b: Books, prev: Call, cur: Call): Books {
    var cause, same := CauseOf(prev, cur), SameTurn(prev, cur);
    var slot := Slot(b.At(same).num + cur.cacheRead, b.At(same).den + prev.input);
    Books(if cause == Switched then Charged(b.switched, prev, cur) else b.switched,
          if cause == Prefix then Charged(b.prefix, prev, cur) else b.prefix,
          if cause == Warm then Charged(b.warm, prev, cur) else b.warm,
          b.newTurnLost + (if same then 0 else Lost(prev, cur)),
          b.inTurnLost + (if same then Lost(prev, cur) else 0),
          if same then b.turn else slot,
          if same then slot else b.step)
  }

  /** The books after the pairs among the first n calls of a lane. */
  function LaneBooks(b: Books, lane: Lane, n: nat): Books
    requires n <= |lane|
  {
    if n < 2 then b
    else
      var before := LaneBooks(b, lane, n - 1);
      if Admitted(lane[n - 2], lane[n - 1]) then Entered(before, lane[n - 2], lane[n - 1]) else before
  }

  function AllBooks(lanes: seq<Lane>): Books {
    if lanes == [] then BLANK
    else
      var last := lanes[|lanes| - 1];
      LaneBooks(AllBooks(lanes[..|lanes| - 1]), last, |last|)
  }

  ghost predicate Holding(b: Books, switched: Bucket, prefix: Bucket, warm: Bucket, turn: Ratio, step: Ratio)
    reads switched, prefix, warm, turn, step
  {
    && switched != prefix && prefix != warm && warm != switched && turn != step
    && b.switched == switched.Contents() && b.prefix == prefix.Contents() && b.warm == warm.Contents()
    && b.turn == Slot(turn.num, turn.den) && b.step == Slot(step.num, step.den)
  }

  /** One admitted pair, written through whichever bucket and ratio it belongs to. */
  method Enter(
    ghost b: Books, prev: Call, cur: Call,
    switched: Bucket, prefix: Bucket, warm: Bucket, turn: Ratio, step: Ratio,
    newTurnLost: nat, inTurnLost: nat) returns (newTurnLost': nat, inTurnLost': nat)
    requires Holding(b, switched, prefix, warm, turn, step)
    requires b.newTurnLost == newTurnLost && b.inTurnLost == inTurnLost
    modifies switched, prefix, warm, turn, step
    ensures Holding(Entered(b, prev, cur), switched, prefix, warm, turn, step)
    ensures newTurnLost' == Entered(b, prev, cur).newTurnLost && inTurnLost' == Entered(b, prev, cur).inTurnLost
  {
    newTurnLost', inTurnLost' := newTurnLost, inTurnLost;
    var sameTurn := prev.traceId == cur.traceId;
    var slot := if sameTurn then step else turn;
    slot.num := slot.num + cur.cacheRead;
    slot.den := slot.den + prev.input;
    var changed := prev.provider != cur.provider;
    var lost := Max(0, prev.input - cur.cacheRead);
    var bucket := if lost == 0 then warm else if changed then switched else prefix;
    bucket.calls := bucket.calls + 1;
    bucket.lostTokens := bucket.lostTokens + lost;
    bucket.input := bucket.input + cur.input;
    bucket.cached := bucket.cached + cur.cacheRead;
    bucket.cost := bucket.cost + cur.cost;
    if lost > 0 {
      if prev.traceId == cur.traceId {
        inTurnLost' := inTurnLost' + lost;
      } else {
        newTurnLost' := newTurnLost' + lost;
      }
    }
  }

  /** The pairs of one lane. */
  method EnterLane(
    ghost b: Books, lane: Lane,
    switched: Bucket, prefix: Bucket, warm: Bucket, turn: Ratio, step: Ratio,
    newTurnLost: nat, inTurnLost: nat) returns (newTurnLost': nat, inTurnLost': nat)
    requires Holding(b, switched, prefix, warm, turn, step)
    requires b.newTurnLost == newTurnLost && b.inTurnLost == inTurnLost
    modifies switched, prefix, warm, turn, step
    ensures var after := LaneBooks(b, lane, |lane|);
            && Holding(after, switched, prefix, warm, turn, step)
            && after.newTurnLost == newTurnLost' && after.inTurnLost == inTurnLost'
  {
    newTurnLost', inTurnLost' := newTurnLost, inTurnLost;
    ghost var after := b;
    var i := 1;
    while i < |lane|
      invariant 1 <= i && (i <= |lane| || lane == [])
      invariant after == LaneBooks(b, lane, if lane == [] then 0 else i)
      invariant Holding(after, switched, prefix, warm, turn, step)
      invariant after.newTurnLost == newTurnLost' && after.inTurnLost == inTurnLost'
    {
      var prev, cur := lane[i - 1], lane[i];
      var since := if prev.end.Some? then prev.end.value else prev.start;
      if cur.input >= prev.input && cur.start - since <= TTL_GUARD_MS {
        newTurnLost', inTurnLost' :=
          Enter(after, prev, cur, switched, prefix, warm, turn, step, newTurnLost', inTurnLost');
        after := Entered(after, prev, cur);
      }
      i := i + 1;
    }
  }

  /** From the observations of every environment to the books and the spend of one. */
  method RunCache(rows: seq<Observation>, environment: string) returns (books: Books, spend: real)
    ensures books == Decomposed(Chat(rows, environment))
    ensures spend == ChatSum(Chat(rows, environment), Price())
  {
    var chat := SelectChat(rows, environment);
    spend := 0.0;
    for i := 0 to |chat|
      invariant spend == ChatSum(chat[..i], Price())
    {
      assert chat[..i + 1][..i] == chat[..i];
      spend := spend + chat[i].1.cost;
    }
    assert chat[..|chat|] == chat;
    books := Decompose(chat);
  }

  method SelectChat(rows: seq<Observation>, environment: string) returns (chat: seq<(string, Call)>)
    ensures chat == Chat(rows, environment)
  {
    chat := [];
    for i := 0 to |rows|
      invariant chat == Chat(rows[..i], environment)
    {
      assert rows[..i + 1][..i] == rows[..i];
      var o := rows[i];
      if CHAT <= o.name && o.sessionId.Some? && o.environment == environment {
        chat := chat + [(LaneKey(o.sessionId.value, o.name), o.call)];
      }
    }
    assert rows[..|rows|] == rows;
  }

  method Decompose(chat: seq<(string, Call)>) returns (books: Books)
    ensures books == Decomposed(chat)
  {
    var keys, lanes := GroupLanes(chat);
    var switched := new Bucket();
    var prefix := new Bucket();
    var warm := new Bucket();
    var turn := new Ratio();
    var step := new Ratio();
    var newTurnLost, inTurnLost := 0, 0;
    ghost var b := BLANK;
    for l := 0 to |keys|
      invariant fresh({switched, prefix, warm, turn, step})
      invariant b == AllBooks(LanesOf(keys[..l], chat)) && Holding(b, switched, prefix, warm, turn, step)
      invariant b.newTurnLost == newTurnLost && b.inTurnLost == inTurnLost
    {
      var lane := ByStart(lanes[keys[l]]);
      newTurnLost, inTurnLost :=
        EnterLane(b, lane, switched, prefix, warm, turn, step, newTurnLost, inTurnLost);
      b := LaneBooks(b, lane, |lane|);
      OneMoreLane(keys, l, chat);
    }
    assert keys[..|keys|] == keys;
    books := Books(switched.Contents(), prefix.Contents(), warm.Contents(), newTurnLost, inTurnLost,
                   Slot(turn.num, turn.den), Slot(step.num, step.den));
  }

  lemma OneMoreLane(keys: seq<string>, l: nat, chat: seq<(string, Call)>)
    requires l < |keys|
    ensures var lane := ByStart(Filed(chat, keys[l]));
            AllBooks(LanesOf(keys[..l + 1], chat))
            == LaneBooks(AllBooks(LanesOf(keys[..l], chat)), lane, |lane|)
  {
    assert LanesOf(keys[..l + 1], chat)[..l] == LanesOf(keys[..l], chat);
  }

  // ---- The pairs themselves ----

  /** The total of a quantity over the pairs that count. */
  function LaneTotal(lane: Lane, n: nat, read: (Call, Call) -> nat): nat
    requires n <= |lane|
  {
    if n < 2 then 0
    else LaneTotal(lane, n - 1, read)
         + if Admitted(lane[n - 2], lane[n - 1]) then read(lane[n - 2], lane[n - 1]) else 0
  }

  function Total(lanes: seq<Lane>, read: (Call, Call) -> nat): nat {
    if lanes == [] then 0
    else
      var last := lanes[|lanes| - 1];
      Total(lanes[..|lanes| - 1], read) + LaneTotal(last, |last|, read)
  }

  function Once(): (Call, Call) -> nat {
    (p: Call, c: Call) => 1
  }

  function LostTo(cause: Cause): (Call, Call) -> nat {
    (p: Call, c: Call) => if CauseOf(p, c) == cause then Lost(p, c) else 0
  }

  function CallOf(cause: Cause): (Call, Call) -> nat {
    (p: Call, c: Call) => if CauseOf(p, c) == cause then 1 else 0
  }

  function LostWhere(inTurn: bool): (Call, Call) -> nat {
    (p: Call, c: Call) => if SameTurn(p, c) == inTurn then Lost(p, c) else 0
  }

  lemma {:induction false} LaneBooksTotal(b: Books, lane: Lane, n: nat, cause: Cause, inTurn: bool)
    requires n <= |lane|
    ensures var after := LaneBooks(b, lane, n);
            && after.Of(cause).lostTokens == b.Of(cause).lostTokens + LaneTotal(lane, n, LostTo(cause))
            && after.Of(cause).calls == b.Of(cause).calls + LaneTotal(lane, n, CallOf(cause))
            && after.LostAt(inTurn) == b.LostAt(inTurn) + LaneTotal(lane, n, LostWhere(inTurn))
  {
    if n >= 2 {
      LaneBooksTotal(b, lane, n - 1, cause, inTurn);
    }
  }

  /** Each bucket and each position holds the total of its own pairs. */
  lemma {:induction false} BooksAreTotals(lanes: seq<Lane>, cause: Cause, inTurn: bool)
    ensures var b := AllBooks(lanes);
            && b.Of(cause).lostTokens == Total(lanes, LostTo(cause))
            && b.Of(cause).calls == Total(lanes, CallOf(cause))
            && b.LostAt(inTurn) == Total(lanes, LostWhere(inTurn))
  {
    if lanes != [] {
      var n := |lanes| - 1;
      BooksAreTotals(lanes[..n], cause, inTurn);
      LaneBooksTotal(AllBooks(lanes[..n]), lanes[n], |lanes[n]|, cause, inTurn);
    }
  }

  // ---- What the books hold, told by the fields of the calls ----

  /** A prompt that did not shrink, within five minutes of the end of the call before it. */
  predicate Fits(prev: Call, cur: Call) {
    && prev.input <= cur.input
    && cur.start - (match prev.end case Some(t) => t case None => prev.start) <= 300_000
  }

  /** Less was read back than was sent, and another provider served. */
  predicate LostBySwitch(prev: Call, cur: Call) {
    Fits(prev, cur) && cur.cacheRead < prev.input && prev.provider != cur.provider
  }

  /** Less was read back than was sent, by the same provider. */
  predicate LostPrefix(prev: Call, cur: Call) {
    Fits(prev, cur) && cur.cacheRead < prev.input && prev.provider == cur.provider
  }

  predicate ReadWarm(prev: Call, cur: Call) {
    Fits(prev, cur) && prev.input <= cur.cacheRead
  }

  predicate AtNewTurn(prev: Call, cur: Call) {
    Fits(prev, cur) && prev.traceId != cur.traceId
  }

  predicate WithinTurn(prev: Call, cur: Call) {
    Fits(prev, cur) && prev.traceId == cur.traceId
  }

  type PairTest = (Call, Call) -> bool

  /** A number summed over the neighbours among the first n calls of a lane that pass a test. */
  function LaneNeighbours(lane: Lane, n: nat, fits: PairTest, w: (Call, Call) -> real): real
    requires n <= |lane|
  {
    if n < 2 then 0.0
    else LaneNeighbours(lane, n - 1, fits, w)
         + if fits(lane[n - 2], lane[n - 1]) then w(lane[n - 2], lane[n - 1]) else 0.0
  }

  function Neighbours(lanes: seq<Lane>, fits: PairTest, w: (Call, Call) -> real): real {
    if lanes == [] then 0.0
    else
      var last := lanes[|lanes| - 1];
      Neighbours(lanes[..|lanes| - 1], fits, w) + LaneNeighbours(last, |last|, fits, w)
  }

  function Each(): (Call, Call) -> real {
    (prev: Call, cur: Call) => 1.0
  }

  function NotReadBack(): (Call, Call) -> real {
    (prev: Call, cur: Call) => if cur.cacheRead < prev.input then (prev.input - cur.cacheRead) as real else 0.0
  }

  function SentBefore(): (Call, Call) -> real {
    (prev: Call, cur: Call) => prev.input as real
  }

  function SentNow(): (Call, Call) -> real {
    (prev: Call, cur: Call) => cur.input as real
  }

  function ReadBack(): (Call, Call) -> real {
    (prev: Call, cur: Call) => cur.cacheRead as real
  }

  function PaidNow(): (Call, Call) -> real {
    (prev: Call, cur: Call) => cur.cost
  }

  /** A bucket holds the count, losses, inputs, reads and costs of the neighbours that pass the test. */
  ghost predicate BucketHolds(s: Sums, lanes: seq<Lane>, fits: PairTest) {
    && s.calls as real == Neighbours(lanes, fits, Each())
    && s.lostTokens as real == Neighbours(lanes, fits, NotReadBack())
    && s.input as real == Neighbours(lanes, fits, SentNow())
    && s.cached as real == Neighbours(lanes, fits, ReadBack())
    && s.cost == Neighbours(lanes, fits, PaidNow())
  }

  ghost predicate PositionHolds(lost: nat, ratio: Slot, lanes: seq<Lane>, fits: PairTest) {
    && lost as real == Neighbours(lanes, fits, NotReadBack())
    && ratio.num as real == Neighbours(lanes, fits, ReadBack())
    && ratio.den as real == Neighbours(lanes, fits, SentBefore())
  }

  ghost predicate TestsCause(fits: PairTest, cause: Cause) {
    forall prev, cur {:trigger fits(prev, cur)} ::
      fits(prev, cur) <==> Admitted(prev, cur) && CauseOf(prev, cur) == cause
  }

  ghost predicate TestsPosition(fits: PairTest, inTurn: bool) {
    forall prev, cur {:trigger fits(prev, cur)} ::
      fits(prev, cur) <==> Admitted(prev, cur) && SameTurn(prev, cur) == inTurn
  }

  lemma {:induction false} LaneBucket(b: Books, lane: Lane, n: nat, cause: Cause, fits: PairTest)
    requires n <= |lane| && TestsCause(fits, cause)
    ensures var s, t := b.Of(cause), LaneBooks(b, lane, n).Of(cause);
            && t.calls as real == s.calls as real + LaneNeighbours(lane, n, fits, Each())
            && t.lostTokens as real == s.lostTokens as real + LaneNeighbours(lane, n, fits, NotReadBack())
            && t.input as real == s.input as real + LaneNeighbours(lane, n, fits, SentNow())
            && t.cached as real == s.cached as real + LaneNeighbours(lane, n, fits, ReadBack())
            && t.cost == s.cost + LaneNeighbours(lane, n, fits, PaidNow())
  {
    if n >= 2 {
      LaneBucket(b, lane, n - 1, cause, fits);
      assert fits(lane[n - 2], lane[n - 1])
        <==> Admitted(lane[n - 2], lane[n - 1]) && CauseOf(lane[n - 2], lane[n - 1]) == cause;
    }
  }

  lemma {:induction false} BucketOfLanes(lanes: seq<Lane>, cause: Cause, fits: PairTest)
    requires TestsCause(fits, cause)
    ensures BucketHolds(AllBooks(lanes).Of(cause), lanes, fits)
  {
    if lanes != [] {
      var n := |lanes| - 1;
      BucketOfLanes(lanes[..n], cause, fits);
      LaneBucket(AllBooks(lanes[..n]), lanes[n], |lanes[n]|, cause, fits);
    }
  }

  lemma {:induction false} LanePosition(b: Books, lane: Lane, n: nat, inTurn: bool, fits: PairTest)
    requires n <= |lane| && TestsPosition(fits, inTurn)
    ensures var after := LaneBooks(b, lane, n);
            && after.LostAt(inTurn) as real == b.LostAt(inTurn) as real + LaneNeighbours(lane, n, fits, NotReadBack())
            && after.At(inTurn).num as real == b.At(inTurn).num as real + LaneNeighbours(lane, n, fits, ReadBack())
            && after.At(inTurn).den as real == b.At(inTurn).den as real + LaneNeighbours(lane, n, fits, SentBefore())
  {
    if n >= 2 {
      LanePosition(b, lane, n - 1, inTurn, fits);
      assert fits(lane[n - 2], lane[n - 1])
        <==> Admitted(lane[n - 2], lane[n - 1]) && SameTurn(lane[n - 2], lane[n - 1]) == inTurn;
    }
  }

  lemma {:induction false} PositionOfLanes(lanes: seq<Lane>, inTurn: bool, fits: PairTest)
    requires TestsPosition(fits, inTurn)
    ensures PositionHolds(AllBooks(lanes).LostAt(inTurn), AllBooks(lanes).At(inTurn), lanes, fits)
  {
    if lanes != [] {
      var n := |lanes| - 1;
      PositionOfLanes(lanes[..n], inTurn, fits);
      LanePosition(AllBooks(lanes[..n]), lanes[n], |lanes[n]|, inTurn, fits);
    }
  }

  /** Every bucket, position and ratio, over the neighbours it is for. */
  lemma BooksByFields(lanes: seq<Lane>)
    ensures var b := AllBooks(lanes);
            && BucketHolds(b.switched, lanes, LostBySwitch)
            && BucketHolds(b.prefix, lanes, LostPrefix)
            && BucketHolds(b.warm, lanes, ReadWarm)
            && PositionHolds(b.newTurnLost, b.turn, lanes, AtNewTurn)
            && PositionHolds(b.inTurnLost, b.step, lanes, WithinTurn)
  {
    BucketOfLanes(lanes, Switched, LostBySwitch);
    BucketOfLanes(lanes, Prefix, LostPrefix);
    BucketOfLanes(lanes, Warm, ReadWarm);
    PositionOfLanes(lanes, false, AtNewTurn);
    PositionOfLanes(lanes, true, WithinTurn);
  }

  // ---- Conservation ----

  predicate Conserves(b: Books) {
    && b.switched.lostTokens + b.prefix.lostTokens == b.newTurnLost + b.inTurnLost
    && b.warm.lostTokens == 0
    && b.turn.den - b.turn.num <= b.newTurnLost
    && b.step.den - b.step.num <= b.inTurnLost
  }

  lemma {:induction false} LaneConserves(b: Books, lane: Lane, n: nat)
    requires n <= |lane| && Conserves(b)
    ensures var after := LaneBooks(b, lane, n);
            && Conserves(after)
            && after.switched.calls + after.prefix.calls + after.warm.calls
               == b.switched.calls + b.prefix.calls + b.warm.calls + LaneTotal(lane, n, Once())
  {
    if n >= 2 {
      LaneConserves(b, lane, n - 1);
    }
  }

  /**
   What is lost by cause is what is lost by position; a warm call loses nothing; every pair that counts
   is in exactly one bucket; and no ratio misses more than its position lost.
   */
  lemma {:induction false} CacheAccountsBalance(lanes: seq<Lane>)
    ensures var b := AllBooks(lanes);
            && Conserves(b)
            && b.switched.calls + b.prefix.calls + b.warm.calls == Total(lanes, Once())
  {
    if lanes != [] {
      var n := |lanes| - 1;
      CacheAccountsBalance(lanes[..n]);
      LaneConserves(AllBooks(lanes[..n]), lanes[n], |lanes[n]|);
    }
  }

  /** No call of the position reads back more than the call before it sent. */
  predicate NoOverread(lane: Lane, n: nat, inTurn: bool)
    requires n <= |lane|
  {
    forall i :: 0 < i < n && Admitted(lane[i - 1], lane[i]) && SameTurn(lane[i - 1], lane[i]) == inTurn
      ==> lane[i].cacheRead <= lane[i - 1].input
  }

  /** How far a ratio falls short of one, in tokens, against what its position lost. */
  function Excess(b: Books, inTurn: bool): int {
    b.LostAt(inTurn) - (b.At(inTurn).den - b.At(inTurn).num)
  }

  lemma {:induction false} LaneExcess(b: Books, lane: Lane, n: nat, inTurn: bool)
    requires n <= |lane|
    ensures Excess(LaneBooks(b, lane, n), inTurn) >= Excess(b, inTurn)
    ensures Excess(LaneBooks(b, lane, n), inTurn) == Excess(b, inTurn) <==> NoOverread(lane, n, inTurn)
  {
    if n >= 2 {
      LaneExcess(b, lane, n - 1, inTurn);
      var prev, cur := lane[n - 2], lane[n - 1];
      assert NoOverread(lane, n, inTurn)
        <==> NoOverread(lane, n - 1, inTurn)
             && (Admitted(prev, cur) && SameTurn(prev, cur) == inTurn ==> cur.cacheRead <= prev.input);
    }
  }

  /** The acceptance ratio misses exactly what was lost, precisely when no call over-reads. */
  lemma {:induction false} RatioTellsTheLossIff(lanes: seq<Lane>, inTurn: bool)
    ensures var b := AllBooks(lanes);
            && b.At(inTurn).den - b.At(inTurn).num <= b.LostAt(inTurn)
            && (b.At(inTurn).den - b.At(inTurn).num == b.LostAt(inTurn)
                <==> forall l :: 0 <= l < |lanes| ==> NoOverread(lanes[l], |lanes[l]|, inTurn))
  {
    if lanes != [] {
      var n := |lanes| - 1;
      RatioTellsTheLossIff(lanes[..n], inTurn);
      LaneExcess(AllBooks(lanes[..n]), lanes[n], |lanes[n]|, inTurn);
      assert (forall l :: 0 <= l < |lanes| ==> NoOverread(lanes[l], |lanes[l]|, inTurn))
        <==> (forall l :: 0 <= l < n ==> NoOverread(lanes[..n][l], |lanes[..n][l]|, inTurn))
             && NoOverread(lanes[n], |lanes[n]|, inTurn);
    }
  }

  // ---- Money ----

  /** What a call weighs: its cost, say, or one. */
  type Weight = Call -> real

  function Price(): Weight {
    (c: Call) => c.cost
  }

  function One(): Weight {
    (c: Call) => 1.0
  }

  function LaneSum(lane: Lane, w: Weight): real {
    if lane == [] then 0.0 else LaneSum(lane[..|lane| - 1], w) + w(lane[|lane| - 1])
  }

  function Sum(lanes: seq<Lane>, w: Weight): real {
    if lanes == [] then 0.0 else Sum(lanes[..|lanes| - 1], w) + LaneSum(lanes[|lanes| - 1], w)
  }

  predicate CostsNothingNegative(lanes: seq<Lane>) {
    forall l, i :: 0 <= l < |lanes| && 0 <= i < |lanes[l]| ==> lanes[l][i].cost >= 0.0
  }

  function CostOf(b: Books): real {
    b.switched.cost + b.prefix.cost + b.warm.cost
  }

  predicate NonNegative(b: Books) {
    b.switched.cost >= 0.0 && b.prefix.cost >= 0.0 && b.warm.cost >= 0.0
  }

  lemma {:induction false} LaneCostWithinSpend(b: Books, lane: Lane, n: nat)
    requires n <= |lane| && NonNegative(b) && forall i :: 0 <= i < |lane| ==> lane[i].cost >= 0.0
    ensures NonNegative(LaneBooks(b, lane, n))
    ensures 0.0 <= CostOf(LaneBooks(b, lane, n)) - CostOf(b) <= LaneSum(lane[..n], Price())
  {
    if n >= 1 {
      LaneCostWithinSpend(b, lane, n - 1);
      assert lane[..n][..n - 1] == lane[..n - 1];
    }
  }

  /** A call is priced at most once, so the buckets never hold more than was spent. */
  lemma {:induction false} BucketsWithinSpend(lanes: seq<Lane>)
    requires CostsNothingNegative(lanes)
    ensures NonNegative(AllBooks(lanes)) && CostOf(AllBooks(lanes)) <= Sum(lanes, Price())
  {
    if lanes != [] {
      var n := |lanes| - 1;
      forall l, i | 0 <= l < n && 0 <= i < |lanes[..n][l]|
        ensures lanes[..n][l][i].cost >= 0.0
      {
        assert lanes[..n][l] == lanes[l];
      }
      BucketsWithinSpend(lanes[..n]);
      LaneCostWithinSpend(AllBooks(lanes[..n]), lanes[n], |lanes[n]|);
      assert lanes[n][..|lanes[n]|] == lanes[n];
    }
  }

  function Rate(b: Sums): real {
    if b.input > 0 then b.cost / b.input as real * 1000000.0 else 0.0
  }

  /** What the bucket cost beyond the price of the same tokens at the warm rate. */
  function Recoverable(b: Sums, warmRate: real): real {
    var excess := (Rate(b) - warmRate) * (b.input as real / 1000000.0);
    if excess > 0.0 then excess else 0.0
  }

  /** The price of so many tokens, a million of them costing `rate`. */
  function AtRate(rate: real, tokens: nat): real {
    rate * (tokens as real / 1000000.0)
  }

  /** What some tokens cost if others of that cost set the price. */
  function AtPriceOf(cost: real, others: nat, tokens: nat): real
    requires others > 0
  {
    cost * tokens as real / others as real
  }

  lemma RecoverableIsOverprice(b: Sums, warmRate: real)
    requires b.input > 0
    ensures var atWarmRate := AtRate(warmRate, b.input);
            Recoverable(b, warmRate) == if b.cost > atWarmRate then b.cost - atWarmRate else 0.0
  {
    var n := b.input as real;
    var million := 1000000.0;
    calc {
      Rate(b) * (n / million);
      (b.cost / n) * million * (n / million);
      (b.cost / n) * (million * (n / million));
      (b.cost / n) * n;
      b.cost;
    }
    assert (Rate(b) - warmRate) * (n / million) == Rate(b) * (n / million) - warmRate * (n / million);
  }

  lemma RecoverableWithinLanes(lanes: seq<Lane>)
    requires CostsNothingNegative(lanes)
    ensures var b := AllBooks(lanes);
            0.0 <= Recoverable(b.switched, Rate(b.warm)) + Recoverable(b.prefix, Rate(b.warm)) <= Sum(lanes, Price())
  {
    var b := AllBooks(lanes);
    BucketsWithinSpend(lanes);
    RecoverableAtMostCost(b.switched, Rate(b.warm), b.warm);
    RecoverableAtMostCost(b.prefix, Rate(b.warm), b.warm);
  }

  /** Priced like the warm calls, the bucket's input would have cost less by what is recoverable. */
  lemma RecoverableIsExcess(b: Sums, warm: Sums)
    requires b.input > 0 && warm.input > 0
    ensures var excess := b.cost - AtPriceOf(warm.cost, warm.input, b.input);
            Recoverable(b, Rate(warm)) == if excess > 0.0 then excess else 0.0
  {
    RecoverableIsOverprice(b, Rate(warm));
    RateOfOthers(warm, b.input);
  }

  lemma RateOfOthers(warm: Sums, tokens: nat)
    requires warm.input > 0
    ensures AtRate(Rate(warm), tokens) == AtPriceOf(warm.cost, warm.input, tokens)
  {
    PricedAt(warm.cost, warm.input as real, tokens as real);
  }

  lemma PricedAt(cost: real, input: real, n: real)
    requires input > 0.0
    ensures cost / input * 1000000.0 * (n / 1000000.0) == cost * n / input
  {
    var x := cost / input;
    assert x * input == cost;
    assert x * 1000000.0 * (n / 1000000.0) == x * n;
    assert cost * n == input * (x * n);
    OverInput(input, x * n);
  }

  lemma OverInput(input: real, y: real)
    requires input > 0.0
    ensures input * y / input == y
  {
  }

  lemma RecoverableAtMostCost(b: Sums, warmRate: real, warm: Sums)
    requires b.cost >= 0.0 && warm.cost >= 0.0 && warmRate == Rate(warm)
    ensures 0.0 <= Recoverable(b, warmRate) <= b.cost
  {
    assert warmRate >= 0.0;
    if b.input > 0 {
      RecoverableIsOverprice(b, warmRate);
      assert warmRate * (b.input as real / 1000000.0) >= 0.0;
    } else {
      assert (Rate(b) - warmRate) * (b.input as real / 1000000.0) == 0.0;
    }
  }

  // ---- Lanes ----

  /** The key of a lane: one conversation on one model. */
  function LaneKey(sessionId: string, name: string): string {
    sessionId + "|" + name
  }

  /** Names of other observations are not looked at. */
  const CHAT := "chat "

  predicate IsChatName(name: string) {
    CHAT <= name
  }

  /** One id runs on with a bar and a chat name behind the other. */
  predicate RunsInto(s: string, s': string) {
    s + "|" + CHAT <= s'
  }

  lemma ShorterRunsInto(s: string, n: string, s': string, n': string)
    requires IsChatName(n) && IsChatName(n')
    requires LaneKey(s, n) == LaneKey(s', n') && |s| < |s'|
    ensures RunsInto(s, s')
  {
    var key, m := LaneKey(s, n), |s'| - |s| - 1;
    assert s' == key[..|s'|] && s == key[..|s|];
    assert key[|s|] == '|' && key[|s'|] == '|';
    assert n == key[|s| + 1..];
    assert n[m] == '|';
    assert m >= 5 by {
      assert n[..5] == CHAT;
    }
    assert s'[..|s|] == s && s'[|s|] == '|' && s'[|s| + 1..] == n[..m];
    assert n[..m][..5] == CHAT;
    assert s' == s + "|" + CHAT + s'[|s| + 6..];
  }

  /** Ids of which neither runs into the other are never keyed alike, nor are two models of one. */
  lemma LanesAreKeyedApart(s: string, n: string, s': string, n': string)
    requires IsChatName(n) && IsChatName(n') && !RunsInto(s, s') && !RunsInto(s', s)
    ensures LaneKey(s, n) == LaneKey(s', n') <==> s == s' && n == n'
  {
    if LaneKey(s, n) == LaneKey(s', n') {
      if |s| < |s'| {
        ShorterRunsInto(s, n, s', n');
      } else if |s'| < |s| {
        ShorterRunsInto(s', n', s, n);
      } else {
        var key := LaneKey(s, n);
        assert s == key[..|s|] && s' == key[..|s|] && n == key[|s| + 1..] && n' == key[|s| + 1..];
      }
    }
  }

  /** The names under which it does: the rest of the longer id goes over to the name. */
  lemma RunningIntoShares(s: string, s': string, n': string) returns (n: string)
    requires RunsInto(s, s') && IsChatName(n')
    ensures IsChatName(n) && LaneKey(s, n) == LaneKey(s', n')
  {
    var t := s'[|s| + 6..];
    assert s' == s + "|" + CHAT + t;
    n := CHAT + t + "|" + n';
    assert LaneKey(s, n) == s + "|" + CHAT + t + "|" + n';
  }

  /** Some conversation with a shorter id shares a lane with this one, under two chat names. */
  ghost predicate SharesWithShorter(s': string) {
    exists s, n, n' :: IsChatName(n) && IsChatName(n') && |s| < |s'| && LaneKey(s, n) == LaneKey(s', n')
  }

  predicate HasChatBehindBar(s': string) {
    exists k :: 0 <= k <= |s'| && RunsInto(s'[..k], s')
  }

  /** An id can share a lane with a shorter one exactly when "|chat " is in it. */
  lemma SharesWithShorterIff(s': string)
    ensures SharesWithShorter(s') <==> HasChatBehindBar(s')
  {
    if SharesWithShorter(s') {
      var s, n, n' :| IsChatName(n) && IsChatName(n') && |s| < |s'| && LaneKey(s, n) == LaneKey(s', n');
      ShorterRunsInto(s, n, s', n');
      assert s == s'[..|s|];
    }
    if k :| 0 <= k <= |s'| && RunsInto(s'[..k], s') {
      var n := RunningIntoShares(s'[..k], s', CHAT);
    }
  }

  /** An observation of any kind; a missing name is the empty one. */
  datatype Observation = Observation(sessionId: Option<string>, name: string, environment: string, call: Call)

  predicate IsChat(o: Observation, environment: string) {
    IsChatName(o.name) && o.sessionId.Some? && o.environment == environment
  }

  /** The chat calls of an environment, each under the key of its lane. */
  function Chat(rows: seq<Observation>, environment: string): seq<(string, Call)> {
    if rows == [] then []
    else
      var o := rows[|rows| - 1];
      Chat(rows[..|rows| - 1], environment)
      + if IsChat(o, environment) then [(LaneKey(o.sessionId.value, o.name), o.call)] else []
  }

  /** The calls filed under a key, in the order they came. */
  function Filed(chat: seq<(string, Call)>, key: string): Lane {
    if chat == [] then []
    else
      var last := chat[|chat| - 1];
      Filed(chat[..|chat| - 1], key) + if last.0 == key then [last.1] else []
  }

  lemma FiledOneMore(chat: seq<(string, Call)>, last: (string, Call), key: string)
    ensures Filed(chat + [last], key) == if last.0 == key then Filed(chat, key) + [last.1] else Filed(chat, key)
  {
    assert (chat + [last])[..|chat|] == chat;
  }

  /** The keys in order of first appearance, which is the order a map lists them in. */
  function KeysOf(chat: seq<(string, Call)>): seq<string> {
    if chat == [] then []
    else
      var before, last := KeysOf(chat[..|chat| - 1]), chat[|chat| - 1];
      if last.0 in before then before else before + [last.0]
  }

  lemma KeysOneMore(chat: seq<(string, Call)>, last: (string, Call))
    ensures KeysOf(chat + [last]) == if last.0 in KeysOf(chat) then KeysOf(chat) else KeysOf(chat) + [last.0]
  {
    assert (chat + [last])[..|chat|] == chat;
  }

  ghost predicate Lists(keys: seq<string>, lanes: map<string, Lane>) {
    forall key :: key in keys <==> key in lanes
  }

  lemma ListsOneMore(keys: seq<string>, lanes: map<string, Lane>, key: string, lane: Lane)
    requires Lists(keys, lanes)
    ensures Lists(if key in lanes then keys else keys + [key], lanes[key := lane])
  {
  }

  ghost predicate Filing(lanes: map<string, Lane>, chat: seq<(string, Call)>) {
    forall key :: Filed(chat, key) == if key in lanes then lanes[key] else []
  }

  lemma FilingOneMore(lanes: map<string, Lane>, chat: seq<(string, Call)>, last: (string, Call))
    requires Filing(lanes, chat)
    ensures var lane := if last.0 in lanes then lanes[last.0] else [];
            Filing(lanes[last.0 := lane + [last.1]], chat + [last])
  {
    var lane := if last.0 in lanes then lanes[last.0] else [];
    var lanes' := lanes[last.0 := lane + [last.1]];
    forall key
      ensures Filed(chat + [last], key) == if key in lanes' then lanes'[key] else []
    {
      FiledOneMore(chat, last, key);
      assert Filed(chat, key) == if key in lanes then lanes[key] else [];
    }
  }

  ghost predicate Grouped(lanes: map<string, Lane>, chat: seq<(string, Call)>) {
    Lists(KeysOf(chat), lanes) && Filing(lanes, chat)
  }

  lemma GroupedOneMore(lanes: map<string, Lane>, chat: seq<(string, Call)>, last: (string, Call))
    requires Grouped(lanes, chat)
    ensures var lane := if last.0 in lanes then lanes[last.0] else [];
            Grouped(lanes[last.0 := lane + [last.1]], chat + [last])
  {
    var lane := if last.0 in lanes then lanes[last.0] else [];
    FilingOneMore(lanes, chat, last);
    ListsOneMore(KeysOf(chat), lanes, last.0, lane + [last.1]);
    KeysOneMore(chat, last);
    assert last.0 in KeysOf(chat) <==> last.0 in lanes;
  }

  /** Call by call: a new key gets a new lane, and the call goes to the end of its key's lane. */
  function LanesUpTo(chat: seq<(string, Call)>): map<string, Lane> {
    if chat == [] then map[]
    else
      var before, last := LanesUpTo(chat[..|chat| - 1]), chat[|chat| - 1];
      before[last.0 := (if last.0 in before then before[last.0] else []) + [last.1]]
  }

  lemma {:induction false} LanesAreGrouped(chat: seq<(string, Call)>)
    ensures Grouped(LanesUpTo(chat), chat)
  {
    if chat != [] {
      var rest, last := chat[..|chat| - 1], chat[|chat| - 1];
      LanesAreGrouped(rest);
      GroupedOneMore(LanesUpTo(rest), rest, last);
      assert chat == rest + [last];
    }
  }

  method GroupLanes(chat: seq<(string, Call)>) returns (keys: seq<string>, lanes: map<string, Lane>)
    ensures keys == KeysOf(chat) && Grouped(lanes, chat)
  {
    keys, lanes := FileAll(chat);
    LanesAreGrouped(chat);
  }

  method FileAll(chat: seq<(string, Call)>) returns (keys: seq<string>, lanes: map<string, Lane>)
    ensures keys == KeysOf(chat) && lanes == LanesUpTo(chat)
  {
    keys, lanes := [], map[];
    for i := 0 to |chat|
      invariant keys == KeysOf(chat[..i]) && lanes == LanesUpTo(chat[..i])
    {
      assert chat[..i + 1][..i] == chat[..i];
      var (key, o) := chat[i];
      SameKeys(chat[..i], key);
      var lane := if key in lanes then lanes[key] else [];
      if key !in lanes {
        keys := keys + [key];
      }
      lanes := lanes[key := lane + [o]];
    }
    assert chat[..|chat|] == chat;
  }

  lemma SameKeys(chat: seq<(string, Call)>, key: string)
    ensures key in KeysOf(chat) <==> key in LanesUpTo(chat)
  {
    LanesAreGrouped(chat);
  }

  // ---- Sorting a lane ----

  /** Behind every call that did not start later. */
  function Insert(lane: Lane, c: Call): Lane {
    if lane == [] || lane[|lane| - 1].start <= c.start then lane + [c]
    else Insert(lane[..|lane| - 1], c) + [lane[|lane| - 1]]
  }

  /** The stable sort by start time. */
  function ByStart(lane: Lane): Lane {
    if lane == [] then [] else Insert(ByStart(lane[..|lane| - 1]), lane[|lane| - 1])
  }

  function LanesOf(keys: seq<string>, chat: seq<(string, Call)>): seq<Lane> {
    seq(|keys|, i requires 0 <= i < |keys| => ByStart(Filed(chat, keys[i])))
  }

  /** The books of the sorted lanes of the calls. */
  function Decomposed(chat: seq<(string, Call)>): Books {
    AllBooks(LanesOf(KeysOf(chat), chat))
  }

  predicate InOrder(lane: Lane) {
    forall i :: 0 < i < |lane| ==> lane[i - 1].start <= lane[i].start
  }

  /** Calls that start together are equal. */
  predicate TiesEqual(lane: Lane) {
    forall i, j :: 0 <= i < |lane| && 0 <= j < |lane| && lane[i].start == lane[j].start ==> lane[i] == lane[j]
  }

  lemma {:induction false} InsertKeepsAll(lane: Lane, c: Call)
    ensures multiset(Insert(lane, c)) == multiset(lane) + multiset{c}
  {
    if !(lane == [] || lane[|lane| - 1].start <= c.start) {
      InsertKeepsAll(lane[..|lane| - 1], c);
      WithoutLast(lane);
    }
  }

  lemma {:induction false} InsertKeepsSum(lane: Lane, c: Call, w: Weight)
    ensures LaneSum(Insert(lane, c), w) == LaneSum(lane, w) + w(c)
  {
    if lane == [] || lane[|lane| - 1].start <= c.start {
      assert (lane + [c])[..|lane|] == lane;
    } else {
      var rest := lane[..|lane| - 1];
      InsertKeepsSum(rest, c, w);
      assert Insert(lane, c)[..|Insert(lane, c)| - 1] == Insert(rest, c);
    }
  }

  lemma {:induction false} InsertKeepsOrder(lane: Lane, c: Call)
    requires InOrder(lane)
    ensures InOrder(Insert(lane, c))
    ensures var sorted := Insert(lane, c);
            && |sorted| == |lane| + 1
            && (sorted[|lane|] == c || (lane != [] && sorted[|lane|] == lane[|lane| - 1]))
  {
    if !(lane == [] || lane[|lane| - 1].start <= c.start) {
      InsertKeepsOrder(lane[..|lane| - 1], c);
      assert Insert(lane, c) == Insert(lane[..|lane| - 1], c) + [lane[|lane| - 1]];
    }
  }

  lemma SortOneMore(lane: Lane, c: Call)
    ensures ByStart(lane + [c]) == Insert(ByStart(lane), c)
  {
    assert (lane + [c])[..|lane|] == lane;
  }

  lemma {:induction false} SortedInOrder(lane: Lane)
    ensures InOrder(ByStart(lane))
  {
    if lane != [] {
      var rest := lane[..|lane| - 1];
      SortedInOrder(rest);
      InsertKeepsOrder(ByStart(rest), lane[|lane| - 1]);
    }
  }

  lemma {:induction false} SortKeepsAll(lane: Lane)
    ensures multiset(ByStart(lane)) == multiset(lane)
  {
    if lane != [] {
      var rest, last := lane[..|lane| - 1], lane[|lane| - 1];
      SortKeepsAll(rest);
      InsertKeepsAll(ByStart(rest), last);
      WithoutLast(lane);
    }
  }

  lemma {:induction false} LastIsLatest(lane: Lane, k: nat)
    requires InOrder(lane) && k < |lane|
    ensures lane[k].start <= lane[|lane| - 1].start
    decreases |lane| - k
  {
    if k < |lane| - 1 {
      LastIsLatest(lane, k + 1);
    }
  }

  lemma {:induction false} OneOrderOnly(a: Lane, b: Lane)
    requires InOrder(a) && TiesEqual(a) && InOrder(b) && multiset(a) == multiset(b)
    ensures a == b
    decreases |a|
  {
    SameLength(a, b);
    if a != [] {
      SameLast(a, b);
      var rest, rest' := a[..|a| - 1], b[..|b| - 1];
      assert multiset(rest) == multiset(rest') by {
        WithoutLast(a);
        WithoutLast(b);
      }
      OneOrderOnly(rest, rest');
      assert a == rest + [a[|a| - 1]];
      assert b == rest' + [b[|b| - 1]];
    }
  }

  lemma SameLength(a: Lane, b: Lane)
    requires multiset(a) == multiset(b)
    ensures |a| == |b|
  {
    assert |a| == |multiset(a)| && |b| == |multiset(b)|;
  }

  lemma WithoutLast(lane: Lane)
    requires lane != []
    ensures multiset(lane[..|lane| - 1]) == multiset(lane) - multiset{lane[|lane| - 1]}
  {
    assert lane == lane[..|lane| - 1] + [lane[|lane| - 1]];
  }

  lemma SameLast(a: Lane, b: Lane)
    requires InOrder(a) && TiesEqual(a) && InOrder(b) && multiset(a) == multiset(b)
    requires |a| == |b| > 0
    ensures a[|a| - 1] == b[|b| - 1]
  {
    var n := |a| - 1;
    assert a[n] in multiset(b) && b[n] in multiset(a);
    var i :| 0 <= i < |b| && b[i] == a[n];
    var j :| 0 <= j < |a| && a[j] == b[n];
    LastIsLatest(b, i);
    LastIsLatest(a, j);
  }

  // ---- The order of arrival ----

  /** Calls of one lane that start together are equal. */
  predicate TiesAreEqual(chat: seq<(string, Call)>) {
    forall o, o' :: o in chat && o' in chat && o.0 == o'.0 && o.1.start == o'.1.start ==> o == o'
  }

  lemma {:induction false} FiledCounts(chat: seq<(string, Call)>, key: string, c: Call)
    ensures multiset(Filed(chat, key))[c] == multiset(chat)[(key, c)]
  {
    if chat != [] {
      var rest, last := chat[..|chat| - 1], chat[|chat| - 1];
      FiledCounts(rest, key, c);
      assert chat == rest + [last];
    }
  }

  lemma LaneFromChat(chat: seq<(string, Call)>, key: string, i: nat)
    requires i < |ByStart(Filed(chat, key))|
    ensures (key, ByStart(Filed(chat, key))[i]) in chat
  {
    var c := ByStart(Filed(chat, key))[i];
    SortKeepsAll(Filed(chat, key));
    assert c in multiset(ByStart(Filed(chat, key)));
    FiledCounts(chat, key, c);
    assert (key, c) in multiset(chat);
  }

  lemma LaneTiesEqual(chat: seq<(string, Call)>, key: string)
    requires TiesAreEqual(chat)
    ensures TiesEqual(ByStart(Filed(chat, key)))
  {
    var lane := ByStart(Filed(chat, key));
    forall i, j | 0 <= i < |lane| && 0 <= j < |lane| && lane[i].start == lane[j].start
      ensures lane[i] == lane[j]
    {
      LaneFromChat(chat, key, i);
      LaneFromChat(chat, key, j);
      assert (key, lane[i]) == (key, lane[j]);
    }
  }

  lemma LaneIgnoresArrival(chat: seq<(string, Call)>, chat': seq<(string, Call)>, key: string)
    requires TiesAreEqual(chat) && multiset(chat) == multiset(chat')
    ensures ByStart(Filed(chat, key)) == ByStart(Filed(chat', key))
  {
    forall c
      ensures multiset(Filed(chat, key))[c] == multiset(Filed(chat', key))[c]
    {
      FiledCounts(chat, key, c);
      FiledCounts(chat', key, c);
    }
    LaneTiesEqual(chat, key);
    SortedInOrder(Filed(chat, key));
    SortKeepsAll(Filed(chat, key));
    SortKeepsAll(Filed(chat', key));
    SortedInOrder(Filed(chat', key));
    OneOrderOnly(ByStart(Filed(chat, key)), ByStart(Filed(chat', key)));
  }

  predicate NoRepeats(keys: seq<string>) {
    forall i, j :: 0 <= i < j < |keys| ==> keys[i] != keys[j]
  }

  lemma {:induction false} KeysAreThose(chat: seq<(string, Call)>)
    ensures NoRepeats(KeysOf(chat))
    ensures forall key :: key in KeysOf(chat) <==> exists o :: o in chat && o.0 == key
  {
    if chat != [] {
      var rest, last := chat[..|chat| - 1], chat[|chat| - 1];
      KeysAreThose(rest);
      assert chat == rest + [last];
      assert last in chat;
      forall key
        ensures key in KeysOf(chat) <==> exists o :: o in chat && o.0 == key
      {
        if o :| o in rest && o.0 == key {
          assert o in chat;
        }
      }
    }
  }

  function Plus(s: Sums, t: Sums): Sums {
    Sums(s.calls + t.calls, s.lostTokens + t.lostTokens, s.input + t.input, s.cached + t.cached, s.cost + t.cost)
  }

  function Together(a: Books, b: Books): Books {
    Books(Plus(a.switched, b.switched), Plus(a.prefix, b.prefix), Plus(a.warm, b.warm),
          a.newTurnLost + b.newTurnLost, a.inTurnLost + b.inTurnLost,
          Slot(a.turn.num + b.turn.num, a.turn.den + b.turn.den),
          Slot(a.step.num + b.step.num, a.step.den + b.step.den))
  }

  lemma {:induction false} LaneAddsItsOwn(b: Books, lane: Lane, n: nat)
    requires n <= |lane|
    ensures LaneBooks(b, lane, n) == Together(b, LaneBooks(BLANK, lane, n))
  {
    if n >= 2 {
      LaneAddsItsOwn(b, lane, n - 1);
    }
  }

  lemma {:induction false} TakeLaneOut(lanes: seq<Lane>, i: nat)
    requires i < |lanes|
    ensures AllBooks(lanes)
         == Together(AllBooks(lanes[..i] + lanes[i + 1..]), LaneBooks(BLANK, lanes[i], |lanes[i]|))
  {
    var n := |lanes| - 1;
    var rest := lanes[..i] + lanes[i + 1..];
    LaneAddsItsOwn(AllBooks(lanes[..n]), lanes[n], |lanes[n]|);
    if i == n {
      assert rest == lanes[..n];
    } else {
      TakeLaneOut(lanes[..n], i);
      assert rest[..n - 1] == lanes[..n][..i] + lanes[..n][i + 1..];
      assert rest[n - 1] == lanes[n];
      LaneAddsItsOwn(AllBooks(rest[..n - 1]), lanes[n], |lanes[n]|);
      assert AllBooks(rest) == Together(AllBooks(rest[..n - 1]), LaneBooks(BLANK, lanes[n], |lanes[n]|));
    }
  }

  lemma EmptyTogether(keys: seq<string>, keys': seq<string>)
    requires forall k :: k in keys <==> k in keys'
    ensures keys == [] <==> keys' == []
  {
    if keys != [] {
      assert keys[0] in keys';
    }
    if keys' != [] {
      assert keys'[0] in keys;
    }
  }

  /** Lanes may be taken in any order. */
  lemma {:induction false} LanesInAnyOrder(keys: seq<string>, keys': seq<string>, chat: seq<(string, Call)>)
    requires NoRepeats(keys) && NoRepeats(keys') && forall k :: k in keys <==> k in keys'
    ensures AllBooks(LanesOf(keys, chat)) == AllBooks(LanesOf(keys', chat))
  {
    if keys == [] {
      EmptyTogether(keys, keys');
    } else {
      var n := |keys| - 1;
      assert keys[n] in keys';
      var i :| 0 <= i < |keys'| && keys'[i] == keys[n];
      RestWithout(keys, n);
      RestWithout(keys', i);
      LanesInAnyOrder(Rest(keys, n), Rest(keys', i), chat);
      TakeKeyOut(keys, n, chat);
      TakeKeyOut(keys', i, chat);
    }
  }

  function Rest(keys: seq<string>, i: nat): seq<string>
    requires i < |keys|
  {
    keys[..i] + keys[i + 1..]
  }

  lemma TakeKeyOut(keys: seq<string>, i: nat, chat: seq<(string, Call)>)
    requires i < |keys|
    ensures var lane := ByStart(Filed(chat, keys[i]));
            AllBooks(LanesOf(keys, chat))
            == Together(AllBooks(LanesOf(Rest(keys, i), chat)), LaneBooks(BLANK, lane, |lane|))
  {
    TakeLaneOut(LanesOf(keys, chat), i);
    LanesOfRest(keys, i, chat);
  }

  lemma LanesOfRest(keys: seq<string>, i: nat, chat: seq<(string, Call)>)
    requires i < |keys|
    ensures LanesOf(keys, chat)[..i] + LanesOf(keys, chat)[i + 1..] == LanesOf(Rest(keys, i), chat)
  {
    assert LanesOf(keys, chat)[..i] == LanesOf(keys[..i], chat);
    assert LanesOf(keys, chat)[i + 1..] == LanesOf(keys[i + 1..], chat);
    LanesOfTwo(keys[..i], keys[i + 1..], chat);
  }

  lemma LanesOfTwo(some: seq<string>, more: seq<string>, chat: seq<(string, Call)>)
    ensures LanesOf(some, chat) + LanesOf(more, chat) == LanesOf(some + more, chat)
  {
  }

  lemma RestWithout(keys: seq<string>, i: nat)
    requires i < |keys| && NoRepeats(keys)
    ensures NoRepeats(Rest(keys, i))
    ensures forall k :: k in Rest(keys, i) <==> k in keys && k != keys[i]
  {
    var rest := Rest(keys, i);
    assert forall j :: 0 <= j < |rest| ==> rest[j] == keys[if j < i then j else j + 1];
    forall k | k in keys && k != keys[i]
      ensures k in rest
    {
      var j :| 0 <= j < |keys| && keys[j] == k;
      assert rest[if j < i then j else j - 1] == k;
    }
  }

  /** While calls of a lane that start together are equal, their order of arrival does not matter. */
  lemma ArrivalOrderIsImmaterial(chat: seq<(string, Call)>, chat': seq<(string, Call)>)
    requires TiesAreEqual(chat) && multiset(chat) == multiset(chat')
    ensures Decomposed(chat) == Decomposed(chat')
  {
    var keys, keys' := KeysOf(chat), KeysOf(chat');
    KeysAreThose(chat);
    KeysAreThose(chat');
    assert forall o :: o in chat <==> o in multiset(chat);
    assert forall o :: o in chat' <==> o in multiset(chat');
    LanesInAnyOrder(keys, keys', chat);
    forall i | 0 <= i < |keys'|
      ensures LanesOf(keys', chat)[i] == LanesOf(keys', chat')[i]
    {
      LaneIgnoresArrival(chat, chat', keys'[i]);
    }
    assert LanesOf(keys', chat) == LanesOf(keys', chat');
  }

  /** With two calls of a lane that start together and differ in input the order of arrival does decide. */
  lemma TiesDecide(key: string, c: Call, d: Call)
    requires c.start == d.start && c.input < d.input
    requires c.end.Some? ==> c.start <= c.end.value
    ensures multiset([(key, c), (key, d)]) == multiset([(key, d), (key, c)])
    ensures Decomposed([(key, c), (key, d)]) != Decomposed([(key, d), (key, c)])
  {
    PairOfOneLane(key, c, d);
    PairOfOneLane(key, d, c);
    assert Entered(BLANK, c, d) != BLANK by {
      assert Entered(BLANK, c, d).Of(CauseOf(c, d)).calls == 1;
    }
  }

  lemma PairOfOneLane(key: string, c: Call, d: Call)
    requires c.start <= d.start
    ensures var chat := [(key, c), (key, d)];
            Decomposed(chat) == if Admitted(c, d) then Entered(BLANK, c, d) else BLANK
  {
    LanesOfPair(key, c, d);
    OneLaneOfTwo([c, d]);
  }

  lemma OneLaneOfTwo(lane: Lane)
    requires |lane| == 2
    ensures AllBooks([lane]) == if Admitted(lane[0], lane[1]) then Entered(BLANK, lane[0], lane[1]) else BLANK
  {
    assert [lane][..0] == [];
    assert AllBooks([lane]) == LaneBooks(BLANK, lane, 2);
    assert LaneBooks(BLANK, lane, 1) == BLANK;
  }

  lemma LanesOfPair(key: string, c: Call, d: Call)
    requires c.start <= d.start
    ensures LanesOf(KeysOf([(key, c), (key, d)]), [(key, c), (key, d)]) == [[c, d]]
  {
    var chat := [(key, c), (key, d)];
    KeyOfPair(key, c, d);
    FiledPair(key, c, d);
    SortPair(c, d);
    assert KeysOf(chat) == [key] && ByStart(Filed(chat, key)) == [c, d];
  }

  lemma KeyOfPair(key: string, c: Call, d: Call)
    ensures KeysOf([(key, c), (key, d)]) == [key]
  {
    KeysOneMore([], (key, c));
    KeysOneMore([(key, c)], (key, d));
    assert [] + [(key, c)] == [(key, c)];
    assert [(key, c)] + [(key, d)] == [(key, c), (key, d)];
    assert key in [key];
  }

  lemma FiledPair(key: string, c: Call, d: Call)
    ensures Filed([(key, c), (key, d)], key) == [c, d]
  {
    FiledOneMore([], (key, c), key);
    FiledOneMore([(key, c)], (key, d), key);
    assert [] + [(key, c)] == [(key, c)];
    assert [(key, c)] + [(key, d)] == [(key, c), (key, d)];
  }

  lemma SortPair(c: Call, d: Call)
    requires c.start <= d.start
    ensures ByStart([c, d]) == [c, d]
  {
    SortOneMore([], c);
    SortOneMore([c], d);
    assert [] + [c] == [c];
    assert [c] + [d] == [c, d];
  }

  // ---- Every call is in one lane ----

  function ChatSum(chat: seq<(string, Call)>, w: Weight): real {
    if chat == [] then 0.0 else ChatSum(chat[..|chat| - 1], w) + w(chat[|chat| - 1].1)
  }

  lemma OneMoreFiled(chat: seq<(string, Call)>, last: (string, Call), key: string, w: Weight)
    ensures LaneSum(ByStart(Filed(chat + [last], key)), w)
         == LaneSum(ByStart(Filed(chat, key)), w) + if last.0 == key then w(last.1) else 0.0
  {
    var lane := Filed(chat, key);
    FiledOneMore(chat, last, key);
    if last.0 == key {
      SortOneMore(lane, last.1);
      InsertKeepsSum(ByStart(lane), last.1, w);
    }
  }

  lemma SumOfKeys(keys: seq<string>, chat: seq<(string, Call)>, w: Weight)
    requires keys != []
    ensures var n := |keys| - 1;
            Sum(LanesOf(keys, chat), w)
            == Sum(LanesOf(keys[..n], chat), w) + LaneSum(ByStart(Filed(chat, keys[n])), w)
  {
    assert LanesOf(keys, chat)[..|keys| - 1] == LanesOf(keys[..|keys| - 1], chat);
  }

  lemma {:induction false} SumWithOneMore(
    keys: seq<string>, chat: seq<(string, Call)>, last: (string, Call), w: Weight)
    requires NoRepeats(keys)
    ensures Sum(LanesOf(keys, chat + [last]), w)
         == Sum(LanesOf(keys, chat), w) + if last.0 in keys then w(last.1) else 0.0
  {
    if keys != [] {
      var n := |keys| - 1;
      SumWithOneMore(keys[..n], chat, last, w);
      OneMoreFiled(chat, last, keys[n], w);
      SumOfKeys(keys, chat + [last], w);
      SumOfKeys(keys, chat, w);
      assert last.0 in keys <==> last.0 in keys[..n] || last.0 == keys[n];
    }
  }

  /** Grouping into sorted lanes keeps every call and files it once: whatever calls weigh, it adds up. */
  lemma {:induction false} LanesHoldEveryCallOnce(chat: seq<(string, Call)>, w: Weight)
    ensures Sum(LanesOf(KeysOf(chat), chat), w) == ChatSum(chat, w)
  {
    if chat != [] {
      var rest, last := chat[..|chat| - 1], chat[|chat| - 1];
      var keys := KeysOf(rest);
      assert chat == rest + [last];
      LanesHoldEveryCallOnce(rest, w);
      KeysAreThose(rest);
      SumWithOneMore(keys, rest, last, w);
      if last.0 !in keys {
        FiledNothing(rest, last.0);
        OneMoreFiled(rest, last, last.0, w);
        assert KeysOf(chat) == keys + [last.0];
        assert (keys + [last.0])[..|keys|] == keys;
        SumOfKeys(keys + [last.0], chat, w);
      }
    }
  }

  /** What the report calls recoverable is never negative and never more than was spent. */
  lemma RecoverableWithinSpend(chat: seq<(string, Call)>)
    requires forall o :: o in chat ==> o.1.cost >= 0.0
    ensures var b := Decomposed(chat);
            0.0 <= Recoverable(b.switched, Rate(b.warm)) + Recoverable(b.prefix, Rate(b.warm)) <= ChatSum(chat, Price())
  {
    var keys := KeysOf(chat);
    var lanes: seq<Lane> := LanesOf(keys, chat);
    forall l: int, i: int | 0 <= l < |lanes| && 0 <= i < |lanes[l]|
      ensures lanes[l][i].cost >= 0.0
    {
      LaneFromChat(chat, keys[l], i);
    }
    RecoverableWithinLanes(lanes);
    LanesHoldEveryCallOnce(chat, Price());
  }

  lemma {:induction false} FiledNothing(chat: seq<(string, Call)>, key: string)
    requires forall o :: o in chat ==> o.0 != key
    ensures Filed(chat, key) == []
  {
    if chat != [] {
      FiledNothing(chat[..|chat| - 1], key);
    }
  }

  // ---- How many pairs there are ----

  lemma {:induction false} LanePairs(lane: Lane, n: nat)
    requires 1 <= n <= |lane|
    ensures LaneTotal(lane, n, Once()) <= n - 1
  {
    if n >= 2 {
      LanePairs(lane, n - 1);
    }
  }

  lemma {:induction false} LaneSumOfOnes(lane: Lane)
    ensures LaneSum(lane, One()) == |lane| as real
  {
    if lane != [] {
      LaneSumOfOnes(lane[..|lane| - 1]);
    }
  }

  lemma {:induction false} ChatSumOfOnes(chat: seq<(string, Call)>)
    ensures ChatSum(chat, One()) == |chat| as real
  {
    if chat != [] {
      ChatSumOfOnes(chat[..|chat| - 1]);
    }
  }

  lemma {:induction false} PairsOfLanes(lanes: seq<Lane>)
    requires forall l :: 0 <= l < |lanes| ==> lanes[l] != []
    ensures (Total(lanes, Once()) + |lanes|) as real <= Sum(lanes, One())
  {
    if lanes != [] {
      var n := |lanes| - 1;
      PairsOfLanes(lanes[..n]);
      LanePairs(lanes[n], |lanes[n]|);
      LaneSumOfOnes(lanes[n]);
    }
  }

  /** Of n calls in k lanes at most n - k pairs are ever weighed. */
  lemma PairsAtMostCallsLessLanes(chat: seq<(string, Call)>)
    ensures Total(LanesOf(KeysOf(chat), chat), Once()) + |KeysOf(chat)| <= |chat|
  {
    var keys := KeysOf(chat);
    KeysAreThose(chat);
    forall l | 0 <= l < |keys|
      ensures ByStart(Filed(chat, keys[l])) != []
    {
      assert keys[l] in keys;
      var o :| o in chat && o.0 == keys[l];
      FiledCounts(chat, keys[l], o.1);
      assert o == (keys[l], o.1) && o in multiset(chat);
      SortKeepsAll(Filed(chat, keys[l]));
      assert o.1 in multiset(ByStart(Filed(chat, keys[l])));
    }
    PairsOfLanes(LanesOf(keys, chat));
    LanesHoldEveryCallOnce(chat, One());
    ChatSumOfOnes(chat);
  }

  // ---- From the observations ----

  lemma {:induction false} ChatOfTwo(a: seq<Observation>, b: seq<Observation>, environment: string)
    ensures Chat(a + b, environment) == Chat(a, environment) + Chat(b, environment)
  {
    if b == [] {
      assert a + b == a;
    } else {
      var n := |b| - 1;
      ChatOfTwo(a, b[..n], environment);
      assert (a + b)[..|a + b| - 1] == a + b[..n];
      assert (a + b)[|a + b| - 1] == b[n];
    }
  }

  lemma ChatWithout(rows: seq<Observation>, x: Observation, environment: string) returns (rest: seq<Observation>)
    requires x in rows
    ensures |rest| < |rows| && multiset(rest) == multiset(rows) - multiset{x}
    ensures multiset(Chat(rows, environment)) == multiset(Chat(rest, environment)) + multiset(Chat([x], environment))
  {
    var i :| 0 <= i < |rows| && rows[i] == x;
    var before, after := rows[..i], rows[i + 1..];
    rest := before + after;
    assert rows == before + [x] + after;
    ChatOfTwo(before + [x], after, environment);
    ChatOfTwo(before, [x], environment);
    ChatOfTwo(before, after, environment);
  }

  lemma {:induction false} ChatOfPermuted(rows: seq<Observation>, rows': seq<Observation>, environment: string)
    requires multiset(rows) == multiset(rows')
    ensures multiset(Chat(rows, environment)) == multiset(Chat(rows', environment))
    decreases |rows|
  {
    if rows == [] {
      assert |multiset(rows')| == |rows'|;
    } else {
      var x := rows[0];
      assert x in multiset(rows');
      var rest := ChatWithout(rows, x, environment);
      var rest' := ChatWithout(rows', x, environment);
      ChatOfPermuted(rest, rest', environment);
    }
  }

  /**
   The pages of observations may come in any order: while calls of a lane that start together are equal,
   the decomposition is a function of the observations alone.
   */
  lemma PageOrderIsImmaterial(rows: seq<Observation>, rows': seq<Observation>, environment: string)
    requires multiset(rows) == multiset(rows') && TiesAreEqual(Chat(rows, environment))
    ensures Decomposed(Chat(rows, environment)) == Decomposed(Chat(rows', environment))
  {
    ChatOfPermuted(rows, rows', environment);
    ArrivalOrderIsImmaterial(Chat(rows, environment), Chat(rows', environment));
  }

  /** The calls of one conversation on one model, in the order they came. */
  function CallsOf(rows: seq<Observation>, environment: string, sessionId: string, name: string): Lane {
    if rows == [] then []
    else
      var o := rows[|rows| - 1];
      CallsOf(rows[..|rows| - 1], environment, sessionId, name)
      + if o.environment == environment && o.sessionId == Some(sessionId) && o.name == name then [o.call] else []
  }

  predicate OneConversation(rows: seq<Observation>, environment: string, sessionId: string, name: string) {
    Filed(Chat(rows, environment), LaneKey(sessionId, name)) == CallsOf(rows, environment, sessionId, name)
  }

  /** A lane is one conversation on one model, as long as no other id runs into its own, or its own into it. */
  lemma {:induction false} LaneIsOneConversation(
    rows: seq<Observation>, environment: string, sessionId: string, name: string)
    requires IsChatName(name)
    requires forall i :: 0 <= i < |rows| && IsChat(rows[i], environment) ==>
               !RunsInto(rows[i].sessionId.value, sessionId) && !RunsInto(sessionId, rows[i].sessionId.value)
    ensures OneConversation(rows, environment, sessionId, name)
  {
    if rows != [] {
      var n := |rows| - 1;
      LaneIsOneConversation(rows[..n], environment, sessionId, name);
      if IsChat(rows[n], environment) {
        var s := rows[n].sessionId.value;
        LanesAreKeyedApart(s, rows[n].name, sessionId, name);
        var last := (LaneKey(s, rows[n].name), rows[n].call);
        FiledOneMore(Chat(rows[..n], environment), last, LaneKey(sessionId, name));
        assert Chat(rows, environment) == Chat(rows[..n], environment) + [last];
      } else {
        assert Chat(rows, environment) == Chat(rows[..n], environment);
      }
    }
  }

  predicate IdsAmong(rows: seq<Observation>, ids: set<string>) {
    forall i :: 0 <= i < |rows| && rows[i].sessionId.Some? ==> rows[i].sessionId.value in ids
  }

  /** Whatever the observations of these conversations, every lane of theirs is one conversation. */
  ghost predicate LanesAreConversations(ids: set<string>) {
    forall rows, environment, s, name ::
      IdsAmong(rows, ids) && s in ids && IsChatName(name) ==> OneConversation(rows, environment, s, name)
  }

  /** Lanes are conversations, for given ids, exactly when none of the ids runs into another. */
  lemma LanesAreConversationsIff(ids: set<string>)
    ensures LanesAreConversations(ids) <==> forall s, s' :: s in ids && s' in ids ==> !RunsInto(s, s')
  {
    if s, s' :| s in ids && s' in ids && RunsInto(s, s') {
      var call := Call("", None, 0, None, 0, 0, 0.0);
      var n := StrangerInLane(s, s', "", call);
      var rows := [Observation(Some(s'), CHAT, "", call)];
      assert IdsAmong(rows, ids) && !OneConversation(rows, "", s, n);
    } else {
      forall rows, environment, s, name | IdsAmong(rows, ids) && s in ids && IsChatName(name)
        ensures OneConversation(rows, environment, s, name)
      {
        LaneIsOneConversation(rows, environment, s, name);
      }
    }
  }

  /** A call of the longer id in a lane of the shorter one, which has no call of its own. */
  lemma StrangerInLane(s: string, s': string, environment: string, call: Call) returns (n: string)
    requires RunsInto(s, s')
    ensures IsChatName(n) && !OneConversation([Observation(Some(s'), CHAT, environment, call)], environment, s, n)
  {
    n := RunningIntoShares(s, s', CHAT);
    var rows := [Observation(Some(s'), CHAT, environment, call)];
    assert rows[..0] == [];
    assert Chat(rows, environment) == [(LaneKey(s', CHAT), call)];
    FiledOneMore([], (LaneKey(s', CHAT), call), LaneKey(s, n));
    assert [] + [(LaneKey(s', CHAT), call)] == [(LaneKey(s', CHAT), call)];
    assert Filed(Chat(rows, environment), LaneKey(s, n)) == [call];
    assert CallsOf(rows, environment, s, n) == [];
  }

  /** The weight of the observations whose names begin with "chat ", of a session, in the environment. */
  function ChatWeight(rows: seq<Observation>, environment: string, w: Weight): real {
    if rows == [] then 0.0
    else
      var o := rows[|rows| - 1];
      ChatWeight(rows[..|rows| - 1], environment, w)
      + if |o.name| >= 5 && o.name[..5] == "chat " && o.sessionId != None && o.environment == environment
        then w(o.call) else 0.0
  }

  /** Those and no others are looked at: their cost is the spend, and their number the number of calls. */
  lemma {:induction false} ChatIsOfTheseRows(rows: seq<Observation>, environment: string, w: Weight)
    ensures ChatSum(Chat(rows, environment), w) == ChatWeight(rows, environment, w)
  {
    if rows != [] {
      var n := |rows| - 1;
      var before := Chat(rows[..n], environment);
      ChatIsOfTheseRows(rows[..n], environment, w);
      if IsChat(rows[n], environment) {
        assert Chat(rows, environment)[..|before|] == before;
      } else {
        assert Chat(rows, environment) == before;
      }
    }
  }

  /** Two conversations in one lane: both calls are chats, and they are weighed as a pair. */
  lemma ConversationsArePaired(s: string, t: string, name: string, environment: string, c: Call, d: Call)
    requires IsChatName(name) && c.start <= d.start && Admitted(c, d)
    ensures var o := Observation(Some(s + "|" + CHAT + t), name, environment, c);
            var o' := Observation(Some(s), CHAT + t + "|" + name, environment, d);
            && o.sessionId != o'.sessionId && IsChat(o, environment) && IsChat(o', environment)
            && Decomposed(Chat([o, o'], environment)) == Entered(BLANK, c, d)
  {
    var long, other := s + "|" + CHAT + t, CHAT + t + "|" + name;
    var o := Observation(Some(long), name, environment, c);
    var o' := Observation(Some(s), other, environment, d);
    var key := LaneKey(s, other);
    assert LaneKey(long, name) == key;
    assert |long| != |s|;
    ChatOfPair(o, o', environment);
    PairOfOneLane(key, c, d);
  }

  lemma ChatOfPair(o: Observation, o': Observation, environment: string)
    requires IsChat(o, environment) && IsChat(o', environment)
    ensures Chat([o, o'], environment)
         == [(LaneKey(o.sessionId.value, o.name), o.call), (LaneKey(o'.sessionId.value, o'.name), o'.call)]
  {
    assert [o, o'][..1] == [o] && [o][..0] == [];
    assert Chat([o], environment) == [(LaneKey(o.sessionId.value, o.name), o.call)];
  }
}
