/**
  The import preflight: the budget after a batch, projected over plain
  JavaScript objects, against a recount of the table and against judging the
  entries one by one.
 */
module BatchBudget {
  import opened Common
  import opened BudgetGovernor
  import opened TopicObjects

  datatype BatchUsage = BatchUsage(activeEntries: int, activeChars: int, topics: TopicObject, indexChars: int)

  // ---------- the loops, as functions ----------

  /** `o[topic] = (o[topic] ?? 0) + amount` */
  function AddTo(names: set<string>, o: TopicObject, topic: string, amount: int): TopicObject {
    Assign(o, topic, Plus(ReadOr0(names, o, topic), Number(amount)))
  }

  function Freed(names: set<string>, o: TopicObject, op: BatchOp): TopicObject {
    if Releases(op) then AddTo(names, o, op.existing.value.topic, -op.existing.value.charCount) else o
  }

  function DeltaStep(names: set<string>, o: TopicObject, op: BatchOp): TopicObject {
    AddTo(names, Freed(names, o, op), op.entry.topic, op.entry.charCount)
  }

  /** `topicDelta` after the loop over the operations. */
  function DeltaObject(names: set<string>, ops: seq<BatchOp>): TopicObject {
    if ops == [] then [] else DeltaStep(names, DeltaObject(names, ops[..|ops| - 1]), ops[|ops| - 1])
  }

  /** One topic shifted: dropped at or below 0, a comparison that is false for what is no number. */
  function ShiftOne(names: set<string>, o: TopicObject, p: Prop): TopicObject {
    var next := Plus(ReadOr0(names, o, p.key), p.value);
    if next.Number? && next.n <= 0 then Removed(o, p.key) else Assign(o, p.key, next)
  }

  function ShiftAll(names: set<string>, o: TopicObject, delta: TopicObject): TopicObject {
    if delta == [] then o else ShiftOne(names, ShiftAll(names, o, delta[..|delta| - 1]), delta[|delta| - 1])
  }

  function ProjectedObject(names: set<string>, u: BatchUsage, ops: seq<BatchOp>): BatchUsage {
    BatchUsage(u.activeEntries + SumOps(ops, InsertOne) - SumOps(ops, ReleaseOne),
               u.activeChars + SumOps(ops, EntryChars) - SumOps(ops, FreedChars),
               ShiftAll(names, u.topics, DeltaObject(names, ops)),
               u.indexChars + SumOps(ops, EntryIndex) - SumOps(ops, FreedIndex))
  }

  /** The loop for the largest topic: a comparison with what is no number is false, so a first one stays. */
  function Largest(o: TopicObject): Option<Chars> {
    if o == [] then None
    else
      var before, last := Largest(o[..|o| - 1]), o[|o| - 1].value;
      if before.None? || (last.Number? && before.value.Number? && last.n > before.value.n) then Some(last) else before
  }

  predicate TopicsPass(b: Budget, o: TopicObject) {
    b.maxTopicChars.Some? && Largest(o).Some? && Largest(o).value.Number? ==>
        Largest(o).value.n <= b.maxTopicChars.value
  }

  /** The preflight accepts. */
  predicate Passes(b: Budget, u: BatchUsage) {
    && u.activeEntries <= b.maxActiveEntries && u.activeChars <= b.maxTotalChars
    && TopicsPass(b, u.topics) && u.indexChars <= b.maxIndexChars
  }

  /** The topic check sees nothing: the first topic enumerated holds what is no number. */
  predicate Blind(o: TopicObject) {
    o != [] && o[0].value.NotNumber?
  }

  lemma {:induction false} LargestIs(o: TopicObject)
    ensures o == [] <==> Largest(o).None?
    ensures o != [] ==> (Largest(o).value.NotNumber? <==> Blind(o))
    ensures o != [] && Largest(o).value.Number? ==>
              && (exists i | 0 <= i < |o| :: o[i].value == Largest(o).value)
              && (forall i | 0 <= i < |o| && o[i].value.Number? :: o[i].value.n <= Largest(o).value.n)
  {
    if |o| == 1 {
      assert o[..0] == [];
      assert o[0].value == Largest(o).value;
    } else if o != [] {
      var before := o[..|o| - 1];
      LargestIs(before);
      if Largest(o).value.Number? {
        if Largest(o) == Largest(before) {
          var i :| 0 <= i < |before| && before[i].value == Largest(before).value;
          assert o[i].value == Largest(o).value;
        } else {
          assert o[|o| - 1].value == Largest(o).value;
        }
      }
    }
  }

  predicate NumbersWithin(o: TopicObject, limit: nat) {
    forall i | 0 <= i < |o| && o[i].value.Number? :: o[i].value.n <= limit
  }

  /** The topic check passes exactly when it is blind or no topic is over the limit. */
  lemma TopicsPassIff(b: Budget, o: TopicObject)
    requires b.maxTopicChars.Some?
    ensures TopicsPass(b, o) <==> Blind(o) || NumbersWithin(o, b.maxTopicChars.value)
  {
    LargestIs(o);
    if o != [] && Largest(o).value.Number? {
      var i :| 0 <= i < |o| && o[i].value == Largest(o).value;
    }
  }

  // ---------- what the loops leave under each key ----------

  lemma AddToAt(names: set<string>, o: TopicObject, topic: string, amount: int, k: string)
    ensures Get(AddTo(names, o, topic, amount), k)
         == if k == topic && (Get(o, topic).Some? || topic != PROTO)
            then Some(Plus(ReadOr0(names, o, topic), Number(amount)))
            else Get(o, k)
  {
    GetAssigned(o, topic, Plus(ReadOr0(names, o, topic), Number(amount)), k);
  }

  /** What the delta of a batch holds: sums under ordinary names, no number under inherited ones, `__proto__` never. */
  function DeltaAt(names: set<string>, ops: seq<BatchOp>, k: string): Option<Chars> {
    if k !in Touched(ops) || k == PROTO then None
    else Some(ChargedValue(names, k, TopicSum(ops, k)))
  }

  lemma TouchedLast(ops: seq<BatchOp>)
    requires ops != []
    ensures var op := ops[|ops| - 1];
            Touched(ops) == Touched(ops[..|ops| - 1]) + {op.entry.topic}
                            + (if Releases(op) then {op.existing.value.topic} else {})
  {
    assert ops[..|ops| - 1 + 1] == ops;
    TouchedNext(ops, |ops| - 1);
  }

  /** A charged topic: the sum of its charges, or what is no number under an inherited name. */
  function ChargedValue(names: set<string>, k: string, sum: int): Chars {
    if k in names then NotNumber else Number(sum)
  }

  lemma AddToHolds(names: set<string>, o: TopicObject, topic: string, amount: int, k: string, charged: bool, sum: int)
    requires Get(o, PROTO).None? && k != PROTO
    requires Get(o, k) == (if charged then Some(ChargedValue(names, k, sum)) else None) && (!charged ==> sum == 0)
    ensures Get(AddTo(names, o, topic, amount), PROTO).None?
    ensures Get(AddTo(names, o, topic, amount), k)
         == if k == topic then Some(ChargedValue(names, k, sum + amount)) else Get(o, k)
  {
    AddToAt(names, o, topic, amount, k);
    AddToAt(names, o, topic, amount, PROTO);
  }

  predicate FreesTopic(op: BatchOp, k: string) {
    Releases(op) && k == op.existing.value.topic
  }

  function FreedFrom(op: BatchOp, k: string): int {
    if FreesTopic(op, k) then -op.existing.value.charCount else 0
  }

  lemma FreedHolds(names: set<string>, o: TopicObject, op: BatchOp, k: string, charged: bool, sum: int)
    requires Get(o, PROTO).None? && k != PROTO
    requires Get(o, k) == (if charged then Some(ChargedValue(names, k, sum)) else None) && (!charged ==> sum == 0)
    ensures Get(Freed(names, o, op), PROTO).None?
    ensures Get(Freed(names, o, op), k)
         == if charged || FreesTopic(op, k) then Some(ChargedValue(names, k, sum + FreedFrom(op, k))) else None
  {
    if Releases(op) {
      AddToHolds(names, o, op.existing.value.topic, -op.existing.value.charCount, k, charged, sum);
    }
  }

  function PaidTo(op: BatchOp, k: string): int {
    if k == op.entry.topic then op.entry.charCount else 0
  }

  lemma NetIs(op: BatchOp, k: string)
    ensures TopicNet(k)(op) == FreedFrom(op, k) + PaidTo(op, k)
  {
  }

  lemma PaidHolds(names: set<string>, o: TopicObject, op: BatchOp, k: string, charged: bool, sum: int)
    requires Get(o, PROTO).None? && k != PROTO
    requires Get(o, k) == (if charged then Some(ChargedValue(names, k, sum)) else None) && (!charged ==> sum == 0)
    ensures Get(AddTo(names, o, op.entry.topic, op.entry.charCount), k)
         == if charged || k == op.entry.topic then Some(ChargedValue(names, k, sum + PaidTo(op, k))) else None
  {
    AddToHolds(names, o, op.entry.topic, op.entry.charCount, k, charged, sum);
  }

  lemma StepHolds(names: set<string>, o: TopicObject, op: BatchOp, k: string, charged: bool, sum: int)
    requires Get(o, PROTO).None? && k != PROTO
    requires Get(o, k) == (if charged then Some(ChargedValue(names, k, sum)) else None) && (!charged ==> sum == 0)
    ensures Get(DeltaStep(names, o, op), k)
         == if charged || FreesTopic(op, k) || k == op.entry.topic
            then Some(ChargedValue(names, k, sum + FreedFrom(op, k) + PaidTo(op, k))) else None
  {
    FreedHolds(names, o, op, k, charged, sum);
    PaidHolds(names, Freed(names, o, op), op, k, charged || FreesTopic(op, k), sum + FreedFrom(op, k));
  }

  lemma AddToNoProto(names: set<string>, o: TopicObject, topic: string, amount: int)
    requires Get(o, PROTO).None?
    ensures Get(AddTo(names, o, topic, amount), PROTO).None?
  {
    AddToAt(names, o, topic, amount, PROTO);
  }

  lemma ProtoNeverOwned(names: set<string>, o: TopicObject, op: BatchOp)
    requires Get(o, PROTO).None?
    ensures Get(DeltaStep(names, o, op), PROTO).None?
  {
    if Releases(op) {
      AddToNoProto(names, o, op.existing.value.topic, -op.existing.value.charCount);
    }
    AddToNoProto(names, Freed(names, o, op), op.entry.topic, op.entry.charCount);
  }

  lemma {:induction false} DeltaHasNoProto(names: set<string>, ops: seq<BatchOp>)
    ensures Get(DeltaObject(names, ops), PROTO).None?
  {
    if ops != [] {
      DeltaHasNoProto(names, ops[..|ops| - 1]);
      ProtoNeverOwned(names, DeltaObject(names, ops[..|ops| - 1]), ops[|ops| - 1]);
    }
  }

  lemma SumLast(ops: seq<BatchOp>, k: string)
    requires ops != []
    ensures TopicSum(ops, k) == TopicSum(ops[..|ops| - 1], k) + FreedFrom(ops[|ops| - 1], k) + PaidTo(ops[|ops| - 1], k)
  {
    NetIs(ops[|ops| - 1], k);
  }

  lemma DeltaAtLast(names: set<string>, ops: seq<BatchOp>, k: string)
    requires ops != [] && k != PROTO
    ensures var before, op := ops[..|ops| - 1], ops[|ops| - 1];
            && (k !in Touched(before) ==> TopicSum(before, k) == 0)
            && DeltaAt(names, ops, k)
               == if k in Touched(before) || FreesTopic(op, k) || k == op.entry.topic
                  then Some(ChargedValue(names, k, TopicSum(before, k) + FreedFrom(op, k) + PaidTo(op, k))) else None
  {
    TouchedLast(ops);
    SumLast(ops, k);
    if k !in Touched(ops[..|ops| - 1]) {
      UntouchedSum(ops[..|ops| - 1], k);
    }
  }

  lemma DeltaHoldsNext(names: set<string>, ops: seq<BatchOp>, o: TopicObject, k: string)
    requires ops != [] && k != PROTO && Get(o, PROTO).None?
    requires Get(o, k) == DeltaAt(names, ops[..|ops| - 1], k)
    ensures Get(DeltaStep(names, o, ops[|ops| - 1]), k) == DeltaAt(names, ops, k)
  {
    DeltaAtLast(names, ops, k);
    StepHolds(names, o, ops[|ops| - 1], k, k in Touched(ops[..|ops| - 1]), TopicSum(ops[..|ops| - 1], k));
  }

  lemma {:induction false} DeltaHolds(names: set<string>, ops: seq<BatchOp>, k: string)
    ensures Get(DeltaObject(names, ops), k) == DeltaAt(names, ops, k)
  {
    if k == PROTO {
      DeltaHasNoProto(names, ops);
    } else if ops == [] {
    } else {
      DeltaHolds(names, ops[..|ops| - 1], k);
      DeltaHasNoProto(names, ops[..|ops| - 1]);
      DeltaHoldsNext(names, ops, DeltaObject(names, ops[..|ops| - 1]), k);
    }
  }

  lemma AddToKeeps(names: set<string>, o: TopicObject, topic: string, amount: int)
    requires IndicesFirst(o) && UniqueKeys(o)
    ensures IndicesFirst(AddTo(names, o, topic, amount)) && UniqueKeys(AddTo(names, o, topic, amount))
  {
    AssignKeeps(o, topic, Plus(ReadOr0(names, o, topic), Number(amount)));
  }

  lemma DeltaStepKeeps(names: set<string>, o: TopicObject, op: BatchOp)
    requires IndicesFirst(o) && UniqueKeys(o)
    ensures IndicesFirst(DeltaStep(names, o, op)) && UniqueKeys(DeltaStep(names, o, op))
  {
    if Releases(op) {
      AddToKeeps(names, o, op.existing.value.topic, -op.existing.value.charCount);
    }
    AddToKeeps(names, Freed(names, o, op), op.entry.topic, op.entry.charCount);
  }

  lemma {:induction false} DeltaKeeps(names: set<string>, ops: seq<BatchOp>)
    ensures IndicesFirst(DeltaObject(names, ops)) && UniqueKeys(DeltaObject(names, ops))
  {
    if ops != [] {
      DeltaKeeps(names, ops[..|ops| - 1]);
      DeltaStepKeeps(names, DeltaObject(names, ops[..|ops| - 1]), ops[|ops| - 1]);
    }
  }

  /** One key after a shift by `v`. */
  function ShiftedAt(names: set<string>, o: TopicObject, k: string, v: Chars): Option<Chars> {
    var next := Plus(ReadOr0(names, o, k), v);
    if next.Number? && next.n <= 0 then None else Some(next)
  }

  lemma ShiftOneAt(names: set<string>, o: TopicObject, p: Prop, k: string)
    requires p.key != PROTO
    ensures Get(ShiftOne(names, o, p), k) == if k == p.key then ShiftedAt(names, o, k, p.value) else Get(o, k)
  {
    GetAssigned(o, p.key, Plus(ReadOr0(names, o, p.key), p.value), k);
    GetRemoved(o, p.key, k);
  }

  lemma {:induction false} ShiftAllAt(names: set<string>, o: TopicObject, delta: TopicObject, k: string)
    requires UniqueKeys(delta) && Get(delta, PROTO).None?
    ensures Get(ShiftAll(names, o, delta), k)
         == if Get(delta, k).Some? then ShiftedAt(names, o, k, Get(delta, k).value) else Get(o, k)
  {
    if delta != [] {
      var before, last := delta[..|delta| - 1], delta[|delta| - 1];
      LastProp(before, last, k);
      LastProp(before, last, PROTO);
      assert delta == before + [last];
      ShiftAllAt(names, o, before, k);
      HasProp(before, last.key);
      ShiftOneAt(names, ShiftAll(names, o, before), last, k);
    }
  }

  lemma {:induction false} LastProp(o: TopicObject, p: Prop, k: string)
    ensures Get(o + [p], k) == if Get(o, k).Some? then Get(o, k) else if k == p.key then Some(p.value) else None
  {
    if o == [] {
      assert o + [p] == [p] && [p][1..] == [];
    } else {
      LastProp(o[1..], p, k);
      assert (o + [p])[1..] == o[1..] + [p];
    }
  }

  lemma {:induction false} ShiftAllKeeps(names: set<string>, o: TopicObject, delta: TopicObject)
    requires IndicesFirst(o) && UniqueKeys(o)
    ensures IndicesFirst(ShiftAll(names, o, delta)) && UniqueKeys(ShiftAll(names, o, delta))
  {
    if delta != [] {
      var before, p := ShiftAll(names, o, delta[..|delta| - 1]), delta[|delta| - 1];
      ShiftAllKeeps(names, o, delta[..|delta| - 1]);
      AssignKeeps(before, p.key, Plus(ReadOr0(names, before, p.key), p.value));
      RemovedKeeps(before, p.key);
    }
  }

  /** The topic under `k` after the whole batch. */
  function TopicAfter(names: set<string>, o: TopicObject, ops: seq<BatchOp>, k: string): Option<Chars> {
    if DeltaAt(names, ops, k).Some? then ShiftedAt(names, o, k, DeltaAt(names, ops, k).value) else Get(o, k)
  }

  lemma ProjectedAt(names: set<string>, u: BatchUsage, ops: seq<BatchOp>, k: string)
    ensures Get(ProjectedObject(names, u, ops).topics, k) == TopicAfter(names, u.topics, ops, k)
  {
    DeltaKeeps(names, ops);
    DeltaHolds(names, ops, k);
    DeltaHasNoProto(names, ops);
    ShiftAllAt(names, u.topics, DeltaObject(names, ops), k);
  }

  // ---------- against a recount ----------

  /** The object lists exactly these numbers. */
  ghost predicate Lists(o: TopicObject, topics: map<string, int>) {
    forall k :: Get(o, k) == ListedAt(topics, k)
  }

  /** No inherited name is charged, except that charges to `__proto__` may cancel out. */
  predicate InheritedUncharged(names: set<string>, ops: seq<BatchOp>) {
    forall k | k in names && k in Touched(ops) :: k == PROTO && TopicSum(ops, k) == 0
  }

  function Listed(n: int): Option<Chars> {
    if n > 0 then Some(Number(n)) else None
  }

  lemma ChargeAgreesIff(names: set<string>, o: TopicObject, k: string, touched: bool, before: nat, sum: int)
    requires PROTO in names && Get(o, k) == Listed(before) && before + sum >= 0 && (!touched ==> sum == 0)
    ensures (if touched && k != PROTO then ShiftedAt(names, o, k, ChargedValue(names, k, sum)) else Get(o, k))
            == Listed(before + sum) <==>
              (k in names && touched ==> k == PROTO && sum == 0)
  {
  }

  /** One topic of a map of sizes, as the object lists it. */
  function ListedAt(topics: map<string, int>, k: string): Option<Chars> {
    if k in topics then Some(Number(topics[k])) else None
  }

  lemma ListedInRecount(t: Table, f: Filter, k: string)
    requires PositiveSizes(t, f)
    ensures TopicTotal(t, f, k) >= 0
    ensures ListedAt(Recount(t, f).topicChars, k) == Listed(TopicTotal(t, f, k))
  {
    PresentIffPositive(t, f, k);
  }

  lemma TotalAfter(t: Table, f: Filter, ops: seq<BatchOp>, k: string)
    requires BatchDescribes(t, f, ops)
    ensures TopicTotal(Written(t, ops), f, k) == TopicTotal(t, f, k) + TopicSum(ops, k)
    ensures k !in Touched(ops) ==> TopicSum(ops, k) == 0
  {
    TotalsAfterBatch(t, f, ops, k);
    if k !in Touched(ops) {
      UntouchedSum(ops, k);
    }
  }

  lemma TopicAfterIs(names: set<string>, o: TopicObject, ops: seq<BatchOp>, k: string)
    ensures TopicAfter(names, o, ops, k)
         == if k in Touched(ops) && k != PROTO then ShiftedAt(names, o, k, ChargedValue(names, k, TopicSum(ops, k)))
            else Get(o, k)
  {
  }

  /** One topic of the recount before and after the batch. */
  lemma RecountAfter(t: Table, f: Filter, ops: seq<BatchOp>, k: string) returns (before: nat)
    requires BatchDescribes(t, f, ops) && PositiveSizes(t, f)
    ensures ListedAt(Recount(t, f).topicChars, k) == Listed(before)
    ensures ListedAt(Recount(Written(t, ops), f).topicChars, k) == Listed(before + TopicSum(ops, k))
    ensures before + TopicSum(ops, k) >= 0 && (k !in Touched(ops) ==> TopicSum(ops, k) == 0)
  {
    PositiveAfterBatch(t, f, ops);
    ListedInRecount(t, f, k);
    ListedInRecount(Written(t, ops), f, k);
    TotalAfter(t, f, ops, k);
    before := TopicTotal(t, f, k);
  }

  lemma TopicAgreesIff(names: set<string>, t: Table, f: Filter, ops: seq<BatchOp>, o: TopicObject, k: string)
    requires PROTO in names && BatchDescribes(t, f, ops) && PositiveSizes(t, f)
    requires Get(o, k) == ListedAt(Recount(t, f).topicChars, k)
    ensures TopicAfter(names, o, ops, k) == ListedAt(Recount(Written(t, ops), f).topicChars, k) <==>
              (k in names && k in Touched(ops) ==> k == PROTO && TopicSum(ops, k) == 0)
  {
    var before := RecountAfter(t, f, ops, k);
    TopicAfterIs(names, o, ops, k);
    ChargeAgreesIff(names, o, k, k in Touched(ops), before, TopicSum(ops, k));
  }

  /**
    The projection against the recount: characters and index size agree, the
    entry count is off by one for each replaced row, and the topics agree
    exactly when the batch charges no inherited name.
   */
  lemma BatchProjectionIsRecountIff(names: set<string>, t: Table, f: Filter, ops: seq<BatchOp>, u: BatchUsage)
    requires PROTO in names && BatchDescribes(t, f, ops) && PositiveSizes(t, f)
    requires var r := Recount(t, f);
             u.activeEntries == r.activeEntries && u.activeChars == r.activeChars && u.indexChars == r.indexChars
             && Lists(u.topics, r.topicChars)
    ensures var p, r := ProjectedObject(names, u, ops), Recount(Written(t, ops), f);
            && r.activeChars == p.activeChars && r.indexChars == p.indexChars
            && r.activeEntries == p.activeEntries + SumOps(ops, ReleaseOne)
            && (Lists(p.topics, r.topicChars) <==> InheritedUncharged(names, ops))
  {
    SumsAreRecount(t, f, ops);
    var p, r := ProjectedObject(names, u, ops), Recount(Written(t, ops), f);
    forall k: string
      ensures Get(p.topics, k) == ListedAt(r.topicChars, k) <==>
                (k in names && k in Touched(ops) ==> k == PROTO && TopicSum(ops, k) == 0)
    {
      ProjectedAt(names, u, ops, k);
      TopicAgreesIff(names, t, f, ops, u.topics, k);
    }
  }

  // ---------- against judging the entries one by one ----------

  /** Enumerated as an object is, and every topic a size. */
  ghost predicate Sound(o: TopicObject) {
    IndicesFirst(o) && UniqueKeys(o) && forall k | Get(o, k).Some? :: Get(o, k).value.Number? && Get(o, k).value.n >= 0
  }

  ghost predicate Agrees(u: BatchUsage, v: Usage) {
    && u.activeEntries == v.activeEntries && u.activeChars == v.activeChars && u.indexChars == v.indexChars
    && Lists(u.topics, v.topicChars)
  }

  predicate NumberWithin(value: Option<Chars>, limit: nat) {
    value.Some? && value.value.Number? ==> value.value.n <= limit
  }

  ghost predicate KeysWithin(o: TopicObject, limit: nat) {
    forall k :: NumberWithin(Get(o, k), limit)
  }

  /** The limit on topics, read off the values under the keys. */
  lemma WithinByKey(o: TopicObject, limit: nat)
    requires UniqueKeys(o)
    ensures NumbersWithin(o, limit) <==> KeysWithin(o, limit)
  {
    if NumbersWithin(o, limit) {
      forall k: string
        ensures NumberWithin(Get(o, k), limit)
      {
        HasProp(o, k);
      }
    }
    if KeysWithin(o, limit) {
      forall i | 0 <= i < |o| && o[i].value.Number?
        ensures o[i].value.n <= limit
      {
        GetAt(o, i);
        assert NumberWithin(Get(o, o[i].key), limit);
      }
    }
  }

  lemma ProjectionKeeps(names: set<string>, u: BatchUsage, ops: seq<BatchOp>)
    requires IndicesFirst(u.topics) && UniqueKeys(u.topics)
    ensures var o := ProjectedObject(names, u, ops).topics;
            IndicesFirst(o) && UniqueKeys(o)
  {
    ShiftAllKeeps(names, u.topics, DeltaObject(names, ops));
  }

  // ---------- the preflight itself ----------

  datatype Limit = MaxActiveEntries | MaxTotalChars | MaxTopicChars | MaxIndexChars

  datatype Verdict = Accepted | Exceeded(limit: Limit, observed: int)

  /** The running sums of the loop over the operations. */
  datatype Accumulated = Accumulated(batchChars: int, releases: int, batchIndex: int, releasedIndex: int,
                                     inserts: int, delta: TopicObject)

  function SumsOf(names: set<string>, ops: seq<BatchOp>): Accumulated {
    Accumulated(SumOps(ops, EntryChars), SumOps(ops, FreedChars), SumOps(ops, EntryIndex), SumOps(ops, FreedIndex),
                SumOps(ops, InsertOne), DeltaObject(names, ops))
  }

  function WithOp(names: set<string>, r: Accumulated, op: BatchOp): Accumulated {
    Accumulated(r.batchChars + EntryChars(op), r.releases + FreedChars(op), r.batchIndex + EntryIndex(op),
                r.releasedIndex + FreedIndex(op), r.inserts + InsertOne(op), DeltaStep(names, r.delta, op))
  }

  lemma SumsNext(names: set<string>, ops: seq<BatchOp>, i: nat)
    requires i < |ops|
    ensures SumsOf(names, ops[..i + 1]) == WithOp(names, SumsOf(names, ops[..i]), ops[i])
  {
    assert ops[..i + 1][..i] == ops[..i];
  }

  /** The loop body: what one operation adds and gives back. */
  method AddOp(names: set<string>, sums: Accumulated, op: BatchOp) returns (r: Accumulated)
    ensures r == WithOp(names, sums, op)
  {
    r := sums;
    var newIndex := EstimateIndexChars(op.entry.title, op.entry.topic, op.entry.tags);
    if op.kind == InsertOp {
      r := r.(inserts := r.inserts + 1);
    } else if op.existing.Some? {
      var previous := op.existing.value;
      r := r.(releases := r.releases + previous.charCount,
              releasedIndex := r.releasedIndex + EstimateIndexChars(previous.title, previous.topic, previous.tags),
              delta := AddTo(names, r.delta, previous.topic, -previous.charCount));
    }
    r := r.(batchChars := r.batchChars + op.entry.charCount, batchIndex := r.batchIndex + newIndex,
            delta := AddTo(names, r.delta, op.entry.topic, op.entry.charCount));
  }

  method Accumulate(names: set<string>, ops: seq<BatchOp>) returns (r: Accumulated)
    ensures r == SumsOf(names, ops)
  {
    r := Accumulated(0, 0, 0, 0, 0, []);
    assert r == SumsOf(names, ops[..0]);
    for i := 0 to |ops|
      invariant r == SumsOf(names, ops[..i])
    {
      SumsNext(names, ops, i);
      r := AddOp(names, r, ops[i]);
    }
    assert ops[..|ops|] == ops;
  }

  /** The loop that applies the delta to a copy of the topics. */
  method ShiftedTopics(names: set<string>, topics: TopicObject, delta: TopicObject) returns (r: TopicObject)
    ensures r == ShiftAll(names, topics, delta)
  {
    r := topics;
    for i := 0 to |delta|
      invariant r == ShiftAll(names, topics, delta[..i])
    {
      assert delta[..i + 1][..i] == delta[..i];
      var next := Plus(ReadOr0(names, r, delta[i].key), delta[i].value);
      if next.Number? && next.n <= 0 {
        r := Removed(r, delta[i].key);
      } else {
        r := Assign(r, delta[i].key, next);
      }
    }
    assert delta[..|delta|] == delta;
  }

  /** The loop for the largest topic. */
  method LargestTopic(topics: TopicObject) returns (largest: Option<Chars>)
    ensures largest == Largest(topics)
  {
    largest := None;
    for i := 0 to |topics|
      invariant largest == Largest(topics[..i])
    {
      assert topics[..i + 1][..i] == topics[..i];
      var chars := topics[i].value;
      if largest.None? || (chars.Number? && largest.value.Number? && chars.n > largest.value.n) {
        largest := Some(chars);
      }
    }
    assert topics[..|topics|] == topics;
  }

  /** The projected usage, and the first limit it breaks in the order the limits are checked. */
  method ProjectBatchBudget(names: set<string>, budget: Budget, usage: BatchUsage, ops: seq<BatchOp>)
    returns (after: BatchUsage, verdict: Verdict)
    ensures after == ProjectedObject(names, usage, ops)
    ensures verdict.Accepted? <==> Passes(budget, after)
    ensures verdict.Exceeded? ==> match verdict.limit
      case MaxActiveEntries => verdict.observed == after.activeEntries > budget.maxActiveEntries
      case MaxTotalChars => verdict.observed == after.activeChars > budget.maxTotalChars
      case MaxTopicChars => budget.maxTopicChars.Some? && Largest(after.topics) == Some(Number(verdict.observed))
                            && verdict.observed > budget.maxTopicChars.value
      case MaxIndexChars => verdict.observed == after.indexChars > budget.maxIndexChars
  {
    var sums := Accumulate(names, ops);
    var topics := ShiftedTopics(names, usage.topics, sums.delta);
    var released := ReleasesForCount(ops);
    after := BatchUsage(usage.activeEntries + sums.inserts - released,
                        usage.activeChars + sums.batchChars - sums.releases,
                        topics, usage.indexChars + sums.batchIndex - sums.releasedIndex);
    var largest := LargestTopic(topics);
    if after.activeEntries > budget.maxActiveEntries {
      return after, Exceeded(MaxActiveEntries, after.activeEntries);
    }
    if after.activeChars > budget.maxTotalChars {
      return after, Exceeded(MaxTotalChars, after.activeChars);
    }
    if budget.maxTopicChars.Some? && largest.Some? && largest.value.Number?
       && largest.value.n > budget.maxTopicChars.value {
      return after, Exceeded(MaxTopicChars, largest.value.n);
    }
    if after.indexChars > budget.maxIndexChars {
      return after, Exceeded(MaxIndexChars, after.indexChars);
    }
    return after, Accepted;
  }
}
