/**
  Budget accounting: the recount that SQL does over the entry table, and the
  incremental projections that must agree with it.
 */
module BudgetGovernor {
  import opened Common

  datatype Status = Active | ArchivedEntry | Superseded | Forgotten

  datatype Entry = Entry(id: string, scope: string, project: Option<string>, status: Status,
                         topic: string, title: string, tags: seq<string>, charCount: int)

  datatype Usage = Usage(activeEntries: int, activeChars: int, topicChars: map<string, int>, indexChars: int)

  datatype Budget = Budget(maxActiveEntries: nat, maxTotalChars: nat, maxTopicChars: Option<nat>, maxIndexChars: nat)

  /** Strings are sequences of code points, so `codePointCount` is the length. */
  function EstimateIndexChars(title: string, topic: string, tags: seq<string>): int {
    |title| + |topic| + |Join(tags, " ")| + 16
  }

  // ---------- the recount ----------

  datatype Filter = Filter(scope: string, project: Option<string>)

  predicate Counted(e: Entry, f: Filter) {
    e.status.Active? && e.scope == f.scope && (f.project.Some? ==> e.project == f.project)
  }

  /** SQLite's length() of a text: the characters before the first NUL. */
  function SqlLength(s: string): int {
    if s == "" || s[0] == '\0' then 0 else 1 + SqlLength(s[1..])
  }

  function SqlLengthSum(tags: seq<string>): int {
    if tags == [] then 0 else SqlLength(tags[0]) + SqlLengthSum(tags[1..])
  }

  /** The index size of one row as the SQL expression over `json_each(tags_json)` counts it. */
  function SqlIndexChars(e: Entry): int {
    SqlLength(e.title) + SqlLength(e.topic) + (if e.tags == [] then 0 else SqlLengthSum(e.tags) + |e.tags| - 1) + 16
  }

  function LengthSum(tags: seq<string>): int {
    if tags == [] then 0 else |tags[0]| + LengthSum(tags[1..])
  }

  /** The code points of the joined tags are the sum of theirs plus one separator between neighbours. */
  lemma {:induction false} JoinedTagsLength(tags: seq<string>)
    ensures |Join(tags, " ")| == if tags == [] then 0 else LengthSum(tags) + |tags| - 1
  {
    if |tags| > 1 {
      JoinedTagsLength(tags[1..]);
    } else if |tags| == 1 {
      assert LengthSum(tags[1..]) == 0;
    }
  }

  lemma {:induction false} SqlLengthBelow(s: string)
    ensures SqlLength(s) <= |s|
    ensures SqlLength(s) == |s| <==> '\0' !in s
  {
    if s != "" {
      SqlLengthBelow(s[1..]);
    }
  }

  lemma {:induction false} SqlLengthSumBelow(tags: seq<string>)
    ensures SqlLengthSum(tags) <= LengthSum(tags)
    ensures SqlLengthSum(tags) == LengthSum(tags) <==> forall tag | tag in tags :: '\0' !in tag
  {
    if tags != [] {
      SqlLengthBelow(tags[0]);
      SqlLengthSumBelow(tags[1..]);
      assert forall tag :: tag in tags <==> tag == tags[0] || tag in tags[1..];
    }
  }

  /** No NUL in the indexed texts of the entry. */
  predicate NulFree(e: Entry) {
    '\0' !in e.title && '\0' !in e.topic && forall tag | tag in e.tags :: '\0' !in tag
  }

  /** The two ways to size an entry agree exactly when its indexed texts hold no NUL. */
  lemma IndexSizesAgreeIff(e: Entry)
    ensures SqlIndexChars(e) == EstimateIndexChars(e.title, e.topic, e.tags) <==> NulFree(e)
  {
    JoinedTagsLength(e.tags);
    SqlLengthBelow(e.title);
    SqlLengthBelow(e.topic);
    SqlLengthSumBelow(e.tags);
  }

  type Table = map<string, Entry>

  ghost function Total(t: Table, f: Entry -> int): int {
    if t == map[] then 0
    else
      var k :| k in t;
      f(t[k]) + Total(t - {k}, f)
  }

  /** The sum does not depend on the order in which rows are taken. */
  lemma {:induction false} TotalWithout(t: Table, k: string, f: Entry -> int)
    requires k in t
    ensures Total(t, f) == f(t[k]) + Total(t - {k}, f)
    decreases |t|
  {
    var first :| first in t && Total(t, f) == f(t[first]) + Total(t - {first}, f);
    if first != k {
      TotalWithout(t - {first}, k, f);
      TotalWithout(t - {k}, first, f);
      assert t - {first} - {k} == t - {k} - {first};
    }
  }

  function ValueAt(t: Table, k: string, f: Entry -> int): int {
    if k in t then f(t[k]) else 0
  }

  lemma TotalUpdate(t: Table, k: string, e: Entry, f: Entry -> int)
    ensures Total(t[k := e], f) == Total(t, f) - ValueAt(t, k, f) + f(e)
  {
    TotalWithout(t[k := e], k, f);
    assert t[k := e] - {k} == t - {k};
    if k in t {
      TotalWithout(t, k, f);
    } else {
      assert t - {k} == t;
    }
  }

  function CountPart(f: Filter): Entry -> int {
    (e: Entry) => if Counted(e, f) then 1 else 0
  }

  function CharPart(f: Filter): Entry -> int {
    (e: Entry) => if Counted(e, f) then e.charCount else 0
  }

  function IndexPart(f: Filter): Entry -> int {
    (e: Entry) => if Counted(e, f) then SqlIndexChars(e) else 0
  }

  function TopicPart(f: Filter, topic: string): Entry -> int {
    (e: Entry) => if Counted(e, f) && e.topic == topic then e.charCount else 0
  }

  function TopicsOf(t: Table, f: Filter): set<string> {
    set k | k in t && Counted(t[k], f) :: t[k].topic
  }

  ghost function TopicTotal(t: Table, f: Filter, topic: string): int {
    Total(t, TopicPart(f, topic))
  }

  /** What `getBudgetUsage` reports for the table. */
  ghost function Recount(t: Table, f: Filter): Usage {
    Usage(Total(t, CountPart(f)), Total(t, CharPart(f)),
          map topic | topic in TopicsOf(t, f) :: TopicTotal(t, f, topic),
          Total(t, IndexPart(f)))
  }

  function ChargedOf(usage: Usage, topic: string): int {
    if topic in usage.topicChars then usage.topicChars[topic] else 0
  }

  /** One pass over the rows with running sums computes the recount. */
  method GetBudgetUsage(t: Table, f: Filter) returns (usage: Usage)
    ensures usage == Recount(t, f)
  {
    usage := Usage(0, 0, map[], 0);
    var seen: Table := map[];
    var rest := t.Keys;
    while rest != {}
      invariant rest <= t.Keys && seen.Keys == t.Keys - rest
      invariant forall k | k in seen :: seen[k] == t[k]
      invariant usage == Recount(seen, f)
    {
      var k :| k in rest;
      var e := t[k];
      RecountAdd(seen, k, e, f);
      if Counted(e, f) {
        usage := WithRow(usage, e);
      }
      seen := seen[k := e];
      rest := rest - {k};
    }
    assert seen == t;
  }

  lemma NoTopicNoChars(t: Table, f: Filter, topic: string)
    requires topic !in TopicsOf(t, f)
    ensures Total(t, TopicPart(f, topic)) == 0
    decreases |t|
  {
    if t != map[] {
      var k :| k in t
               && Total(t, TopicPart(f, topic)) == TopicPart(f, topic)(t[k]) + Total(t - {k}, TopicPart(f, topic));
      assert Counted(t[k], f) ==> t[k].topic in TopicsOf(t, f);
      assert TopicsOf(t - {k}, f) <= TopicsOf(t, f);
      NoTopicNoChars(t - {k}, f, topic);
    }
  }

  lemma TopicsAdd(t: Table, k: string, e: Entry, f: Filter)
    requires k !in t
    ensures TopicsOf(t[k := e], f) == TopicsOf(t, f) + (if Counted(e, f) then {e.topic} else {})
  {
    var t' := t[k := e];
    assert t'[k] == e && forall x | x in t :: t'[x] == t[x];
    forall topic | topic in TopicsOf(t, f)
      ensures topic in TopicsOf(t', f)
    {
      var x :| x in t && Counted(t[x], f) && t[x].topic == topic;
      assert x in t' && t'[x] == t[x];
    }
  }

  /** The map entry of a topic, or 0 without one, is the topic's total. */
  lemma ChargedIsTotal(t: Table, f: Filter, topic: string)
    ensures ChargedOf(Recount(t, f), topic) == TopicTotal(t, f, topic)
  {
    if topic !in TopicsOf(t, f) {
      NoTopicNoChars(t, f, topic);
    }
  }

  function TopicChars(e: Entry, f: Filter, topic: string): int {
    if Counted(e, f) && e.topic == topic then e.charCount else 0
  }

  lemma TopicTotalUpdate(t: Table, k: string, e: Entry, f: Filter, topic: string)
    ensures TopicTotal(t[k := e], f, topic)
            == TopicTotal(t, f, topic) - (if k in t then TopicChars(t[k], f, topic) else 0) + TopicChars(e, f, topic)
  {
    TotalUpdate(t, k, e, TopicPart(f, topic));
  }

  lemma TopicCharsAdd(t: Table, k: string, e: Entry, f: Filter)
    requires k !in t
    ensures Recount(t[k := e], f).topicChars
            == if Counted(e, f) then WithRow(Recount(t, f), e).topicChars else Recount(t, f).topicChars
  {
    TopicsAdd(t, k, e, f);
    var u, got := Recount(t, f), Recount(t[k := e], f).topicChars;
    forall topic | topic in got
      ensures got[topic] == ChargedOf(u, topic) + TopicChars(e, f, topic)
    {
      TopicTotalUpdate(t, k, e, f, topic);
      ChargedIsTotal(t, f, topic);
    }
    if Counted(e, f) {
      SameMap(got, u.topicChars[e.topic := ChargedOf(u, e.topic) + e.charCount]);
    } else {
      SameMap(got, u.topicChars);
    }
  }

  lemma SameMap(a: map<string, int>, b: map<string, int>)
    requires a.Keys == b.Keys && forall k | k in b :: a[k] == b[k]
    ensures a == b
  {
  }

  /** The usage with one more counted row. */
  function WithRow(u: Usage, e: Entry): Usage {
    Usage(u.activeEntries + 1, u.activeChars + e.charCount,
          u.topicChars[e.topic := ChargedOf(u, e.topic) + e.charCount], u.indexChars + SqlIndexChars(e))
  }

  lemma RecountAdd(t: Table, k: string, e: Entry, f: Filter)
    requires k !in t
    ensures Recount(t[k := e], f) == if Counted(e, f) then WithRow(Recount(t, f), e) else Recount(t, f)
  {
    TotalUpdate(t, k, e, CountPart(f));
    TotalUpdate(t, k, e, CharPart(f));
    TotalUpdate(t, k, e, IndexPart(f));
    TopicCharsAdd(t, k, e, f);
  }

  // ---------- batch projection ----------

  datatype OpKind = InsertOp | ReplaceOp | MergeOp

  datatype BatchOp = BatchOp(kind: OpKind, entry: Entry, existing: Option<Entry>)

  /** The operation overwrites a known row, whose sizes are given back. */
  predicate Releases(op: BatchOp) {
    !op.kind.InsertOp? && op.existing.Some?
  }

  function InsertOne(op: BatchOp): int { if op.kind.InsertOp? then 1 else 0 }

  function ReleaseOne(op: BatchOp): int { if Releases(op) then 1 else 0 }

  function EntryChars(op: BatchOp): int { op.entry.charCount }

  function FreedChars(op: BatchOp): int { if Releases(op) then op.existing.value.charCount else 0 }

  function IndexOf(e: Entry): int { EstimateIndexChars(e.title, e.topic, e.tags) }

  function EntryIndex(op: BatchOp): int { IndexOf(op.entry) }

  function FreedIndex(op: BatchOp): int { if Releases(op) then IndexOf(op.existing.value) else 0 }

  function TopicNet(topic: string): BatchOp -> int {
    (op: BatchOp) =>
      (if op.entry.topic == topic then op.entry.charCount else 0)
      - (if Releases(op) && op.existing.value.topic == topic then op.existing.value.charCount else 0)
  }

  function SumOps(ops: seq<BatchOp>, f: BatchOp -> int): int {
    if ops == [] then 0 else SumOps(ops[..|ops| - 1], f) + f(ops[|ops| - 1])
  }

  function Touched(ops: seq<BatchOp>): set<string> {
    (set op | op in ops :: op.entry.topic) + (set op | op in ops && Releases(op) :: op.existing.value.topic)
  }

  function TopicSum(ops: seq<BatchOp>, topic: string): int {
    SumOps(ops, TopicNet(topic))
  }

  function ValueOr0(m: map<string, int>, topic: string): int {
    if topic in m then m[topic] else 0
  }

  /** Shift the topics by the deltas; a shifted topic that ends at or below 0 is dropped. */
  function ShiftTopics(topics: map<string, int>, delta: map<string, int>): map<string, int> {
    map t | t in topics.Keys + delta.Keys && (t in delta ==> ValueOr0(topics, t) + delta[t] > 0)
      :: ValueOr0(topics, t) + ValueOr0(delta, t)
  }

  function DeltaOf(ops: seq<BatchOp>): map<string, int> {
    map t | t in Touched(ops) :: TopicSum(ops, t)
  }

  function Projected(u: Usage, ops: seq<BatchOp>): Usage {
    Usage(u.activeEntries + SumOps(ops, InsertOne) - SumOps(ops, ReleaseOne),
          u.activeChars + SumOps(ops, EntryChars) - SumOps(ops, FreedChars),
          ShiftTopics(u.topicChars, DeltaOf(ops)),
          u.indexChars + SumOps(ops, EntryIndex) - SumOps(ops, FreedIndex))
  }

  /** All four limits hold. */
  ghost predicate Fits(b: Budget, u: Usage) {
    && u.activeEntries <= b.maxActiveEntries
    && u.activeChars <= b.maxTotalChars
    && (b.maxTopicChars.Some? ==> forall t | t in u.topicChars :: u.topicChars[t] <= b.maxTopicChars.value)
    && u.indexChars <= b.maxIndexChars
  }

  lemma SumNext(ops: seq<BatchOp>, i: nat, f: BatchOp -> int)
    requires i < |ops|
    ensures SumOps(ops[..i + 1], f) == SumOps(ops[..i], f) + f(ops[i])
  {
    assert ops[..i + 1][..i] == ops[..i];
  }

  lemma UntouchedSum(ops: seq<BatchOp>, topic: string)
    requires topic !in Touched(ops)
    ensures TopicSum(ops, topic) == 0
  {
    if ops != [] {
      var prev, last := ops[..|ops| - 1], ops[|ops| - 1];
      assert last in ops;
      assert topic !in Touched(prev) by {
        assert forall op | op in prev :: op in ops;
      }
      UntouchedSum(prev, topic);
    }
  }

  lemma TouchedNext(ops: seq<BatchOp>, i: nat)
    requires i < |ops|
    ensures Touched(ops[..i + 1]) == Touched(ops[..i]) + {ops[i].entry.topic}
                                     + (if Releases(ops[i]) then {ops[i].existing.value.topic} else {})
  {
    assert ops[..i + 1] == ops[..i] + [ops[i]];
  }

  lemma DeltaIsSum(ops: seq<BatchOp>, t: string)
    ensures ValueOr0(DeltaOf(ops), t) == TopicSum(ops, t)
  {
    if t !in Touched(ops) {
      UntouchedSum(ops, t);
    }
  }

  method ReleasesForCount(ops: seq<BatchOp>) returns (count: int)
    ensures count == SumOps(ops, ReleaseOne)
    ensures 0 <= count <= |ops|
  {
    count := 0;
    for i := 0 to |ops|
      invariant count == SumOps(ops[..i], ReleaseOne) && 0 <= count <= i
    {
      SumNext(ops, i, ReleaseOne);
      if ops[i].kind == ReplaceOp || ops[i].kind == MergeOp {
        if ops[i].existing.Some? {
          count := count + 1;
        }
      }
    }
    assert ops[..|ops|] == ops;
  }

  // ---------- the projection against a recount ----------

  /** The table once every operation of the batch has written its entry. */
  function Written(t: Table, ops: seq<BatchOp>): Table {
    if ops == [] then t
    else
      var op := ops[|ops| - 1];
      Written(t, ops[..|ops| - 1])[op.entry.id := op.entry]
  }

  /** Operation `op` describes the table: fresh ids for inserts, the stored row for the others. */
  ghost predicate Describes(t: Table, f: Filter, op: BatchOp) {
    && Counted(op.entry, f) && op.entry.charCount > 0 && NulFree(op.entry)
    && (op.kind.InsertOp? ==> op.entry.id !in t)
    && (!op.kind.InsertOp? ==> op.entry.id in t && op.existing == Some(t[op.entry.id]))
    && (!op.kind.InsertOp? ==> Counted(t[op.entry.id], f) && NulFree(t[op.entry.id]))
  }

  ghost predicate BatchDescribes(t: Table, f: Filter, ops: seq<BatchOp>) {
    && (forall op | op in ops :: Describes(t, f, op))
    && (forall i, j | 0 <= i < j < |ops| :: ops[i].entry.id != ops[j].entry.id)
  }

  ghost predicate PositiveSizes(t: Table, f: Filter) {
    forall k | k in t && Counted(t[k], f) :: t[k].charCount > 0
  }

  lemma {:induction false} WrittenElsewhere(t: Table, ops: seq<BatchOp>, k: string)
    requires forall op | op in ops :: op.entry.id != k
    ensures k in Written(t, ops) <==> k in t
    ensures k in t ==> Written(t, ops)[k] == t[k]
  {
    if ops != [] {
      assert ops[|ops| - 1] in ops && forall op | op in ops[..|ops| - 1] :: op in ops;
      WrittenElsewhere(t, ops[..|ops| - 1], k);
    }
  }

  /** The four totals after a batch, as sums over the operations. */
  lemma {:induction false} TotalsAfterBatch(t: Table, f: Filter, ops: seq<BatchOp>, topic: string)
    requires BatchDescribes(t, f, ops)
    ensures var t' := Written(t, ops);
      && Total(t', CountPart(f)) == Total(t, CountPart(f)) + SumOps(ops, InsertOne)
      && Total(t', CharPart(f)) == Total(t, CharPart(f)) + SumOps(ops, EntryChars) - SumOps(ops, FreedChars)
      && Total(t', IndexPart(f)) == Total(t, IndexPart(f)) + SumOps(ops, EntryIndex) - SumOps(ops, FreedIndex)
      && TopicTotal(t', f, topic) == TopicTotal(t, f, topic) + TopicSum(ops, topic)
  {
    if ops != [] {
      var prev, op := ops[..|ops| - 1], ops[|ops| - 1];
      assert op in ops && forall o | o in prev :: o in ops;
      TotalsAfterBatch(t, f, prev, topic);
      var before := Written(t, prev);
      var k := op.entry.id;
      WrittenElsewhere(t, prev, k);
      IndexSizesAgreeIff(op.entry);
      if k in t {
        IndexSizesAgreeIff(t[k]);
      }
      TotalUpdate(before, k, op.entry, CountPart(f));
      TotalUpdate(before, k, op.entry, CharPart(f));
      TotalUpdate(before, k, op.entry, IndexPart(f));
      TopicTotalUpdate(before, k, op.entry, f, topic);
    }
  }

  lemma {:induction false} PositiveAfterBatch(t: Table, f: Filter, ops: seq<BatchOp>)
    requires PositiveSizes(t, f) && forall op | op in ops :: Describes(t, f, op)
    ensures PositiveSizes(Written(t, ops), f)
  {
    if ops != [] {
      assert ops[|ops| - 1] in ops && forall op | op in ops[..|ops| - 1] :: op in ops;
      PositiveAfterBatch(t, f, ops[..|ops| - 1]);
    }
  }

  /** With positive sizes a topic is present exactly when its total is positive. */
  lemma {:induction false} PresentIffPositive(t: Table, f: Filter, topic: string)
    requires PositiveSizes(t, f)
    ensures topic in TopicsOf(t, f) <==> TopicTotal(t, f, topic) > 0
    ensures TopicTotal(t, f, topic) >= 0
    decreases |t|
  {
    if t != map[] {
      var k :| k in t;
      TotalWithout(t, k, TopicPart(f, topic));
      PresentIffPositive(t - {k}, f, topic);
      assert forall x | x in t - {k} :: x in t && (t - {k})[x] == t[x];
      if topic in TopicsOf(t, f) {
        var x :| x in t && Counted(t[x], f) && t[x].topic == topic;
        assert x != k ==> x in t - {k};
      }
    }
  }

  /**
    The projection against the recount: characters, index size and topics (with
    which topics are present) agree. Only the entry count is off, by one for each
    row the batch replaces.
   */
  lemma SumsAreRecount(t: Table, f: Filter, ops: seq<BatchOp>)
    requires BatchDescribes(t, f, ops) && PositiveSizes(t, f)
    ensures var p, r := Projected(Recount(t, f), ops), Recount(Written(t, ops), f);
      && r.activeChars == p.activeChars && r.indexChars == p.indexChars && r.topicChars == p.topicChars
      && r.activeEntries == p.activeEntries + SumOps(ops, ReleaseOne)
  {
    var t' := Written(t, ops);
    TotalsAfterBatch(t, f, ops, "");
    PositiveAfterBatch(t, f, ops);
    var p, r := Projected(Recount(t, f), ops).topicChars, Recount(t', f).topicChars;
    forall topic
      ensures topic in p <==> topic in r
      ensures topic in p && topic in r ==> p[topic] == r[topic]
    {
      TopicShift(t, f, ops, topic);
    }
    SameMap(p, r);
  }

  lemma TopicShift(t: Table, f: Filter, ops: seq<BatchOp>, topic: string)
    requires BatchDescribes(t, f, ops) && PositiveSizes(t, f) && PositiveSizes(Written(t, ops), f)
    ensures var p, r := Projected(Recount(t, f), ops).topicChars, Recount(Written(t, ops), f).topicChars;
      (topic in p <==> topic in r) && (topic in p && topic in r ==> p[topic] == r[topic])
  {
    TotalsAfterBatch(t, f, ops, topic);
    PresentIffPositive(t, f, topic);
    PresentIffPositive(Written(t, ops), f, topic);
    ChargedIsTotal(t, f, topic);
    if topic !in Touched(ops) {
      UntouchedSum(ops, topic);
    }
    assert ValueOr0(Recount(t, f).topicChars, topic) == TopicTotal(t, f, topic);
    assert ValueOr0(DeltaOf(ops), topic) == TopicSum(ops, topic);
  }

  // ---------- single writes ----------

  /** The usage a single write is judged by: only active candidates count. */
  function UsageWith(u: Usage, e: Entry): Usage {
    if !e.status.Active? then u
    else Usage(u.activeEntries + 1, u.activeChars + e.charCount,
               u.topicChars[e.topic := ValueOr0(u.topicChars, e.topic) + e.charCount], u.indexChars + IndexOf(e))
  }

  predicate EvaluationAccepts(b: Budget, u: Usage, e: Entry) {
    var after := UsageWith(u, e);
    && after.activeEntries <= b.maxActiveEntries
    && after.activeChars <= b.maxTotalChars
    && after.indexChars <= b.maxIndexChars
    && (b.maxTopicChars.Some? ==> ValueOr0(after.topicChars, e.topic) <= b.maxTopicChars.value)
  }

  /** `evaluateBudget` without its advisory warnings: it looks at the candidate's topic only, and that is enough. */
  method EvaluateBudget(b: Budget, usage: Usage, e: Entry) returns (accepted: bool, after: Usage)
    ensures after == UsageWith(usage, e) && accepted == EvaluationAccepts(b, usage, e)
    ensures Fits(b, usage) ==> (accepted <==> Fits(b, after))
  {
    after := usage;
    if e.status == Active {
      var charged := (if e.topic in usage.topicChars then usage.topicChars[e.topic] else 0) + e.charCount;
      after := Usage(usage.activeEntries + 1, usage.activeChars + e.charCount, usage.topicChars[e.topic := charged],
                     usage.indexChars + EstimateIndexChars(e.title, e.topic, e.tags));
    }
    var exceeds := after.activeEntries > b.maxActiveEntries || after.activeChars > b.maxTotalChars
                   || after.indexChars > b.maxIndexChars
                   || (b.maxTopicChars.Some?
                       && ValueOr0(after.topicChars, e.topic) > b.maxTopicChars.value);
    accepted := !exceeds;
  }

  function UsageAfterAll(u: Usage, es: seq<Entry>): Usage {
    if es == [] then u else UsageWith(UsageAfterAll(u, es[..|es| - 1]), es[|es| - 1])
  }

  predicate AcceptsAll(b: Budget, u: Usage, es: seq<Entry>) {
    es == [] ||
    (AcceptsAll(b, u, es[..|es| - 1]) && EvaluationAccepts(b, UsageAfterAll(u, es[..|es| - 1]), es[|es| - 1]))
  }

  /** The table once each entry has been written. */
  function TableAfter(t: Table, es: seq<Entry>): Table {
    if es == [] then t else TableAfter(t, es[..|es| - 1])[es[|es| - 1].id := es[|es| - 1]]
  }

  /** Each entry is new and is accepted against a recount of the table it finds. */
  ghost predicate AcceptedInTurn(b: Budget, t: Table, f: Filter, es: seq<Entry>) {
    es == [] ||
    (var before, e := TableAfter(t, es[..|es| - 1]), es[|es| - 1];
     AcceptedInTurn(b, t, f, es[..|es| - 1]) && e.id !in before && EvaluationAccepts(b, Recount(before, f), e))
  }

  lemma AcceptedWriteFits(b: Budget, t: Table, f: Filter, e: Entry)
    requires Fits(b, Recount(t, f)) && e.id !in t && EvaluationAccepts(b, Recount(t, f), e)
    ensures Fits(b, Recount(t[e.id := e], f))
  {
    RecountAdd(t, e.id, e, f);
    IndexSizesBelow(e);
  }

  lemma IndexSizesBelow(e: Entry)
    ensures SqlIndexChars(e) <= IndexOf(e)
  {
    JoinedTagsLength(e.tags);
    SqlLengthBelow(e.title);
    SqlLengthBelow(e.topic);
    SqlLengthSumBelow(e.tags);
  }

  /** Starting within budget, every recount along a sequence of accepted writes is within all four limits. */
  lemma {:induction false} AcceptedWritesStayWithin(b: Budget, t: Table, f: Filter, es: seq<Entry>)
    requires Fits(b, Recount(t, f)) && AcceptedInTurn(b, t, f, es)
    ensures Fits(b, Recount(TableAfter(t, es), f))
  {
    if es != [] {
      AcceptedWritesStayWithin(b, t, f, es[..|es| - 1]);
      AcceptedWriteFits(b, TableAfter(t, es[..|es| - 1]), f, es[|es| - 1]);
    }
  }

  function InsertsOf(es: seq<Entry>): seq<BatchOp> {
    if es == [] then [] else InsertsOf(es[..|es| - 1]) + [BatchOp(InsertOp, es[|es| - 1], None)]
  }

  lemma Append(ops: seq<BatchOp>, op: BatchOp, f: BatchOp -> int)
    ensures SumOps(ops + [op], f) == SumOps(ops, f) + f(op)
    ensures Touched(ops + [op])
        == Touched(ops) + {op.entry.topic} + (if Releases(op) then {op.existing.value.topic} else {})
  {
    var all := ops + [op];
    assert all[..|ops|] == ops && all[..|ops| + 1] == all;
    TouchedNext(all, |ops|);
  }

  lemma InsertsNext(es: seq<Entry>, f: BatchOp -> int)
    requires es != []
    ensures var op := BatchOp(InsertOp, es[|es| - 1], None);
      && SumOps(InsertsOf(es), f) == SumOps(InsertsOf(es[..|es| - 1]), f) + f(op)
      && Touched(InsertsOf(es)) == Touched(InsertsOf(es[..|es| - 1])) + {op.entry.topic}
  {
    Append(InsertsOf(es[..|es| - 1]), BatchOp(InsertOp, es[|es| - 1], None), f);
  }

  lemma {:induction false} InsertTotals(u: Usage, es: seq<Entry>)
    requires Sized(es)
    ensures var w, ops := UsageAfterAll(u, es), InsertsOf(es);
      && w.activeEntries == u.activeEntries + SumOps(ops, InsertOne) && SumOps(ops, ReleaseOne) == 0
      && w.activeChars == u.activeChars + SumOps(ops, EntryChars) && SumOps(ops, FreedChars) == 0
      && w.indexChars == u.indexChars + SumOps(ops, EntryIndex) && SumOps(ops, FreedIndex) == 0
  {
    if es != [] {
      var prev, e := es[..|es| - 1], es[|es| - 1];
      InsertTotals(u, prev);
      InsertsNext(es, InsertOne);
      InsertsNext(es, ReleaseOne);
      InsertsNext(es, EntryChars);
      InsertsNext(es, FreedChars);
      InsertsNext(es, EntryIndex);
      InsertsNext(es, FreedIndex);
    }
  }

  lemma {:induction false} InsertTopics(u: Usage, es: seq<Entry>, topic: string)
    requires Sized(es)
    ensures var w, ops := UsageAfterAll(u, es), InsertsOf(es);
      && ValueOr0(w.topicChars, topic) == ValueOr0(u.topicChars, topic) + TopicSum(ops, topic)
      && (topic in w.topicChars <==> topic in u.topicChars || topic in Touched(ops))
  {
    if es != [] {
      var prev, e := es[..|es| - 1], es[|es| - 1];
      InsertTopics(u, prev, topic);
      InsertsNext(es, TopicNet(topic));
    }
  }

  predicate Sized(es: seq<Entry>) {
    forall i | 0 <= i < |es| :: es[i].status.Active? && es[i].charCount >= 0
  }

  /** The three sums fit, and so does every topic written to. */
  ghost predicate WrittenFits(b: Budget, w: Usage, es: seq<Entry>) {
    && w.activeEntries <= b.maxActiveEntries && w.activeChars <= b.maxTotalChars && w.indexChars <= b.maxIndexChars
    && (b.maxTopicChars.Some? ==> forall e | e in es :: ValueOr0(w.topicChars, e.topic) <= b.maxTopicChars.value)
  }

  lemma WrittenFitsNext(b: Budget, w: Usage, es: seq<Entry>, e: Entry)
    requires e.status.Active? && e.charCount >= 0
    ensures es != [] ==>
              (WrittenFits(b, UsageWith(w, e), es + [e]) <==> WrittenFits(b, w, es) && EvaluationAccepts(b, w, e))
    ensures es == [] ==> (WrittenFits(b, UsageWith(w, e), es + [e]) <==> EvaluationAccepts(b, w, e))
  {
    GrowsWith(w, e);
    assert forall x :: x in es + [e] <==> x in es || x == e;
  }

  /** Judging entries one by one accepts all exactly when the last sums fit, with every topic written to. */
  lemma {:induction false} AcceptsAllIff(b: Budget, u: Usage, es: seq<Entry>)
    requires es != [] && Sized(es)
    ensures AcceptsAll(b, u, es) <==> WrittenFits(b, UsageAfterAll(u, es), es)
  {
    var prev, e := es[..|es| - 1], es[|es| - 1];
    assert es == prev + [e];
    WrittenFitsNext(b, UsageAfterAll(u, prev), prev, e);
    if prev != [] {
      AcceptsAllIff(b, u, prev);
    }
  }

  lemma GrowsWith(u: Usage, e: Entry)
    requires e.status.Active? && e.charCount >= 0
    ensures var w := UsageWith(u, e);
            && u.activeEntries <= w.activeEntries && u.activeChars <= w.activeChars && u.indexChars <= w.indexChars
            && forall t :: ValueOr0(u.topicChars, t) <= ValueOr0(w.topicChars, t)
  {
  }

  /** Every topic that no entry is written to is within its limit. */
  predicate UntouchedWithin(b: Budget, u: Usage, es: seq<Entry>) {
    b.maxTopicChars.Some? ==>
      forall t | t in u.topicChars && (forall e | e in es :: e.topic != t) :: u.topicChars[t] <= b.maxTopicChars.value
  }

  /** One topic of the projection against the same topic after the writes. */
  lemma ProjectedTopic(u: Usage, es: seq<Entry>, t: string, limit: nat)
    requires Sized(es)
    ensures var p, w, ops := Projected(u, InsertsOf(es)).topicChars, UsageAfterAll(u, es).topicChars, InsertsOf(es);
            && (t !in Touched(ops) ==> (t in p <==> t in u.topicChars))
            && (t !in Touched(ops) && t in u.topicChars ==> p[t] == u.topicChars[t])
            && (t in Touched(ops) ==> (ValueOr0(p, t) <= limit <==> ValueOr0(w, t) <= limit))
  {
    InsertTopics(u, es, t);
    DeltaIsSum(InsertsOf(es), t);
  }

  /**
    The sums of a batch of inserts fit exactly when judging its entries one by
    one accepts every step and no topic left alone was over its limit before.
   */
  lemma SumsFitIff(b: Budget, u: Usage, es: seq<Entry>)
    requires es != [] && Sized(es)
    ensures Fits(b, Projected(u, InsertsOf(es))) <==> AcceptsAll(b, u, es) && UntouchedWithin(b, u, es)
  {
    InsertTotals(u, es);
    AcceptsAllIff(b, u, es);
    if b.maxTopicChars.Some? {
      SumTopicsFitIff(u, es, b.maxTopicChars.value);
    }
  }

  lemma SumTopicsFitIff(u: Usage, es: seq<Entry>, limit: nat)
    requires Sized(es)
    ensures var p, w := Projected(u, InsertsOf(es)).topicChars, UsageAfterAll(u, es).topicChars;
            (forall t | t in p :: p[t] <= limit) <==>
              (forall e | e in es :: ValueOr0(w, e.topic) <= limit)
              && (forall t | t in u.topicChars && (forall e | e in es :: e.topic != t) :: u.topicChars[t] <= limit)
  {
    var p, w, ops := Projected(u, InsertsOf(es)), UsageAfterAll(u, es), InsertsOf(es);
    InsertsTouch(es);
    forall t
      ensures t !in Touched(ops) ==> (t in p.topicChars <==> t in u.topicChars)
      ensures t !in Touched(ops) && t in u.topicChars ==> p.topicChars[t] == u.topicChars[t]
      ensures t in Touched(ops) ==> (ValueOr0(p.topicChars, t) <= limit <==> ValueOr0(w.topicChars, t) <= limit)
    {
      ProjectedTopic(u, es, t, limit);
    }
    TopicsFitIff(p.topicChars, w.topicChars, u.topicChars, Touched(ops), limit);
    assert forall t :: t in Touched(ops) <==> exists e | e in es :: e.topic == t;
  }

  lemma TopicsFitIff(p: map<string, int>, w: map<string, int>, u: map<string, int>, touched: set<string>, limit: nat)
    requires forall t :: t !in touched ==> (t in p <==> t in u)
    requires forall t | t !in touched && t in u :: p[t] == u[t]
    requires forall t | t in touched :: ValueOr0(p, t) <= limit <==> ValueOr0(w, t) <= limit
    ensures (forall t | t in p :: p[t] <= limit) <==>
              (forall t | t in touched :: ValueOr0(w, t) <= limit)
              && (forall t | t in u && t !in touched :: u[t] <= limit)
  {
    if forall t | t in p :: p[t] <= limit {
      forall t | t in touched
        ensures ValueOr0(w, t) <= limit
      {
        assert ValueOr0(p, t) <= limit;
      }
    }
  }

  function OnEntry(f: BatchOp -> int): Entry -> int {
    (e: Entry) => f(BatchOp(InsertOp, e, None))
  }

  lemma {:induction false} InsertsAsSums(es: seq<Entry>, f: BatchOp -> int)
    ensures SumOps(InsertsOf(es), f) == SumOver(multiset(es), OnEntry(f))
  {
    if es != [] {
      var prev, e := es[..|es| - 1], es[|es| - 1];
      InsertsAsSums(prev, f);
      InsertsNext(es, f);
      LastOut(es);
      SumWithout(multiset(es), e, OnEntry(f));
    }
  }

  lemma LastOut<T>(es: seq<T>)
    requires es != []
    ensures es[|es| - 1] in multiset(es)
    ensures multiset(es) - multiset{es[|es| - 1]} == multiset(es[..|es| - 1])
  {
    assert es == es[..|es| - 1] + [es[|es| - 1]];
  }

  lemma {:induction false} OpsAsSums(ops: seq<BatchOp>, f: BatchOp -> int)
    ensures SumOps(ops, f) == SumOver(multiset(ops), f)
  {
    if ops != [] {
      OpsAsSums(ops[..|ops| - 1], f);
      LastOut(ops);
      SumWithout(multiset(ops), ops[|ops| - 1], f);
    }
  }

  /** A sum over operations does not depend on their order. */
  lemma SameOpSums(ops: seq<BatchOp>, ops': seq<BatchOp>, f: BatchOp -> int)
    requires multiset(ops) == multiset(ops')
    ensures SumOps(ops, f) == SumOps(ops', f)
  {
    OpsAsSums(ops, f);
    OpsAsSums(ops', f);
  }

  ghost function SumOver<T>(m: multiset<T>, f: T -> int): int
    decreases |m|
  {
    if m == multiset{} then 0
    else
      var e :| e in m;
      f(e) + SumOver(m - multiset{e}, f)
  }

  /** The element the sum takes first. */
  lemma FirstTaken<T>(m: multiset<T>, f: T -> int) returns (e: T)
    requires m != multiset{}
    ensures e in m && SumOver(m, f) == f(e) + SumOver(m - multiset{e}, f)
  {
    e :| e in m && SumOver(m, f) == f(e) + SumOver(m - multiset{e}, f);
  }

  lemma TakenInTurn<T>(m: multiset<T>, x: T, y: T)
    requires x in m && y in m && x != y
    ensures y in m - multiset{x} && m - multiset{x} - multiset{y} == m - multiset{y} - multiset{x}
    ensures |m - multiset{x}| < |m|
  {
  }

  lemma {:induction false} SumWithout<T>(m: multiset<T>, e: T, f: T -> int)
    requires e in m
    ensures SumOver(m, f) == f(e) + SumOver(m - multiset{e}, f)
    decreases |m|
  {
    var first := FirstTaken(m, f);
    if first != e {
      TakenInTurn(m, first, e);
      TakenInTurn(m, e, first);
      SumWithout(m - multiset{first}, e, f);
      SumWithout(m - multiset{e}, first, f);
    }
  }

  lemma {:induction false} InsertsTouch(es: seq<Entry>)
    ensures Touched(InsertsOf(es)) == set e | e in es :: e.topic
  {
    if es != [] {
      var prev, last := es[..|es| - 1], es[|es| - 1];
      InsertsTouch(prev);
      InsertsNext(es, InsertOne);
      assert forall e :: e in es <==> e in prev || e == last;
    }
  }

  /** The sums of a batch of inserts do not depend on their order, and neither does judging them one by one. */
  lemma SumsIgnoreOrder(b: Budget, u: Usage, es: seq<Entry>, es': seq<Entry>)
    requires Sized(es) && multiset(es) == multiset(es')
    ensures Projected(u, InsertsOf(es)) == Projected(u, InsertsOf(es'))
    ensures AcceptsAll(b, u, es) <==> AcceptsAll(b, u, es')
  {
    SameSums(es, es', InsertOne);
    SameSums(es, es', ReleaseOne);
    SameSums(es, es', EntryChars);
    SameSums(es, es', FreedChars);
    SameSums(es, es', EntryIndex);
    SameSums(es, es', FreedIndex);
    SameDelta(es, es');
    assert forall e :: e in es <==> e in multiset(es);
    assert forall e :: e in es' <==> e in multiset(es');
    assert |es| == |multiset(es)| == |multiset(es')| == |es'|;
    if es != [] {
      assert Sized(es') by {
        forall i | 0 <= i < |es'|
          ensures es'[i].status.Active? && es'[i].charCount >= 0
        {
          assert es'[i] in es;
        }
      }
      SameWithin(b, u, es, es');
    }
  }

  lemma SameWithin(b: Budget, u: Usage, es: seq<Entry>, es': seq<Entry>)
    requires es != [] && es' != [] && Sized(es) && Sized(es') && multiset(es) == multiset(es')
    ensures AcceptsAll(b, u, es) <==> AcceptsAll(b, u, es')
  {
    AcceptsAllIff(b, u, es);
    AcceptsAllIff(b, u, es');
    InsertTotals(u, es);
    InsertTotals(u, es');
    SameSums(es, es', InsertOne);
    SameSums(es, es', EntryChars);
    SameSums(es, es', EntryIndex);
    assert forall e :: e in es <==> e in multiset(es);
    assert forall e :: e in es' <==> e in multiset(es');
    forall t: string
      ensures ValueOr0(UsageAfterAll(u, es).topicChars, t) == ValueOr0(UsageAfterAll(u, es').topicChars, t)
    {
      InsertTopics(u, es, t);
      InsertTopics(u, es', t);
      SameSums(es, es', TopicNet(t));
    }
  }

  lemma SameDelta(es: seq<Entry>, es': seq<Entry>)
    requires multiset(es) == multiset(es')
    ensures DeltaOf(InsertsOf(es)) == DeltaOf(InsertsOf(es'))
  {
    assert forall e :: e in es <==> e in multiset(es);
    assert forall e :: e in es' <==> e in multiset(es');
    InsertsTouch(es);
    InsertsTouch(es');
    var d, d' := DeltaOf(InsertsOf(es)), DeltaOf(InsertsOf(es'));
    forall t | t in d'
      ensures d[t] == d'[t]
    {
      SameSums(es, es', TopicNet(t));
    }
    SameMap(d, d');
  }

  lemma SameSums(es: seq<Entry>, es': seq<Entry>, f: BatchOp -> int)
    requires multiset(es) == multiset(es')
    ensures SumOps(InsertsOf(es), f) == SumOps(InsertsOf(es'), f)
  {
    InsertsAsSums(es, f);
    InsertsAsSums(es', f);
  }
}
