/**
  The preflight's verdict on a batch of inserts against judging its entries one
  by one: exactly when the two always agree.
 */
module BatchEach {
  import opened Common
  import opened BudgetGovernor
  import opened TopicObjects
  import opened BatchBudget
  import opened BatchOrder

  // ---------- when no inherited name is charged ----------

  /** A listed number is within the limit. */
  predicate ListedWithin(topics: map<string, int>, k: string, limit: nat) {
    k in topics ==> topics[k] <= limit
  }

  /** One topic of the object and of the sums: within the limit together. */
  lemma TopicWithin(o: TopicObject, topics: map<string, int>, delta: map<string, int>, names: set<string>, k: string,
                    limit: nat)
    requires Get(o, k) == ListedAt(topics, k) && ValueOr0(topics, k) >= 0
    requires PROTO in names && (k in names && k in delta ==> k == PROTO && delta[k] == 0)
    ensures NumberWithin(StoredAfter(names, o, k, k in delta, ValueOr0(delta, k)), limit)
        <==> ListedWithin(ShiftTopics(topics, delta), k, limit)
  {
  }

  lemma SoundListed(o: TopicObject, topics: map<string, int>, k: string)
    requires Lists(o, topics) && Sound(o)
    ensures Get(o, k) == ListedAt(topics, k)
    ensures ValueOr0(topics, k) >= 0
  {
    assert Get(o, k).Some? ==> Get(o, k).value.n >= 0;
  }

  lemma {:induction false} ChargeOf(names: set<string>, es: seq<Entry>, k: string)
    requires InheritedUncharged(names, InsertsOf(es))
    ensures var ops := InsertsOf(es);
            && (k in DeltaOf(ops) <==> k in Touched(ops)) && ValueOr0(DeltaOf(ops), k) == TopicSum(ops, k)
            && (k in names && k in DeltaOf(ops) ==> k == PROTO && DeltaOf(ops)[k] == 0)
  {
    TouchedIff(es, k);
    DeltaIsSum(InsertsOf(es), k);
  }

  lemma {:induction false} AfterWithin(names: set<string>, u: BatchUsage, v: Usage, es: seq<Entry>, k: string,
                                       limit: nat)
    requires InheritedUncharged(names, InsertsOf(es)) && PROTO in names && Agrees(u, v) && Sound(u.topics)
    ensures NumberWithin(Get(After(names, u, InsertsOf(es)), k), limit)
        <==> ListedWithin(Projected(v, InsertsOf(es)).topicChars, k, limit)
  {
    AfterAt(names, u, InsertsOf(es), k);
    SoundListed(u.topics, v.topicChars, k);
    ChargeOf(names, es, k);
    TopicWithin(u.topics, v.topicChars, DeltaOf(InsertsOf(es)), names, k, limit);
  }

  lemma {:induction false} TopicsPassAsSums(names: set<string>, b: Budget, u: BatchUsage, v: Usage, es: seq<Entry>)
    requires Sized(es) && InheritedNames(names) && InheritedUncharged(names, InsertsOf(es))
    requires Agrees(u, v) && Sound(u.topics) && b.maxTopicChars.Some?
    ensures var topics := Projected(v, InsertsOf(es)).topicChars;
            TopicsPass(b, After(names, u, InsertsOf(es))) <==>
              forall t | t in topics :: topics[t] <= b.maxTopicChars.value
  {
    var o, topics := After(names, u, InsertsOf(es)), Projected(v, InsertsOf(es)).topicChars;
    var limit := b.maxTopicChars.value;
    NeverBlind(names, u, InsertsOf(es));
    AfterKeeps(names, u, InsertsOf(es));
    TopicsPassIff(b, o);
    WithinByKey(o, limit);
    forall k: string
      ensures NumberWithin(Get(o, k), limit) <==> ListedWithin(topics, k, limit)
    {
      AfterWithin(names, u, v, es, k, limit);
    }
    KeysWithinIff(o, topics, limit);
  }

  lemma KeysWithinIff(o: TopicObject, topics: map<string, int>, limit: nat)
    requires forall k :: NumberWithin(Get(o, k), limit) <==> ListedWithin(topics, k, limit)
    ensures KeysWithin(o, limit) <==> forall t | t in topics :: topics[t] <= limit
  {
    if KeysWithin(o, limit) {
      forall t | t in topics
        ensures topics[t] <= limit
      {
        assert NumberWithin(Get(o, t), limit);
        assert ListedWithin(topics, t, limit);
      }
    }
  }

  /**
    A batch of inserts that charges no inherited name is accepted exactly when
    judging its entries one by one accepts every step and no topic left alone
    was over its limit before.
   */
  lemma {:induction false} BatchAcceptedIffEachAccepted(names: set<string>, b: Budget, u: BatchUsage, v: Usage,
                                                        es: seq<Entry>)
    requires es != [] && Sized(es) && InheritedNames(names) && InheritedUncharged(names, InsertsOf(es))
    requires Agrees(u, v) && Sound(u.topics)
    ensures Accepts(names, b, u, InsertsOf(es)) <==> AcceptsAll(b, v, es) && UntouchedWithin(b, v, es)
  {
    SumsFitIff(b, v, es);
    if b.maxTopicChars.Some? {
      TopicsPassAsSums(names, b, u, v, es);
    }
  }

  // ---------- when one is ----------

  lemma {:induction false} TopicSumAtMost(es: seq<Entry>, k: string)
    requires Sized(es)
    ensures 0 <= TopicSum(InsertsOf(es), k) <= SumOps(InsertsOf(es), EntryChars)
  {
    if es != [] {
      TopicSumAtMost(es[..|es| - 1], k);
      InsertsNext(es, TopicNet(k));
      InsertsNext(es, EntryChars);
    }
  }

  /** A usage that owns one topic and nothing else. */
  function Owning(k: string, n: nat): BatchUsage {
    BatchUsage(0, n, [Prop(k, Number(n))], 0)
  }

  function OwningSums(k: string, n: nat): Usage {
    Usage(0, n, map[k := n], 0)
  }

  lemma OwningIsSound(k: string, n: nat)
    ensures Sound(Owning(k, n).topics) && Agrees(Owning(k, n), OwningSums(k, n))
    ensures forall t :: Get(Owning(k, n).topics, t) == if t == k then Some(Number(n)) else None
  {
    var o := Owning(k, n).topics;
    assert o[1..] == [];
  }

  /** What the tight case needs of a charged inherited name: how much its topic must hold before. */
  function Before(k: string, total: nat): nat {
    if k == PROTO then total else total + 1
  }

  predicate Charged(names: set<string>, es: seq<Entry>, k: string) {
    k in names && k in Touched(InsertsOf(es)) && !(k == PROTO && TopicSum(InsertsOf(es), k) == 0)
  }

  /** The topic that is over its limit is no number, or is not charged: the preflight lets all pass. */
  lemma {:induction false} AllWithin(names: set<string>, es: seq<Entry>, k: string, total: nat, t: string)
    requires Sized(es) && PROTO in names && Charged(names, es, k) && total == SumOps(InsertsOf(es), EntryChars)
    ensures NumberWithin(Get(After(names, Owning(k, Before(k, total)), InsertsOf(es)), t), total)
  {
    OwningIsSound(k, Before(k, total));
    AfterAt(names, Owning(k, Before(k, total)), InsertsOf(es), t);
    TouchedIff(es, k);
    TopicSumAtMost(es, t);
  }

  lemma {:induction false} BatchPasses(names: set<string>, b: Budget, es: seq<Entry>, k: string, total: nat)
    requires Sized(es) && PROTO in names && Charged(names, es, k) && total == SumOps(InsertsOf(es), EntryChars)
    requires b.maxTopicChars == Some(total)
    ensures TopicsPass(b, After(names, Owning(k, Before(k, total)), InsertsOf(es)))
  {
    var u := Owning(k, Before(k, total));
    OwningIsSound(k, Before(k, total));
    AfterKeeps(names, u, InsertsOf(es));
    TopicsPassIff(b, After(names, u, InsertsOf(es)));
    WithinByKey(After(names, u, InsertsOf(es)), total);
    forall t: string
      ensures NumberWithin(Get(After(names, u, InsertsOf(es)), t), total)
    {
      AllWithin(names, es, k, total, t);
    }
  }

  lemma {:induction false} EachRefuses(names: set<string>, b: Budget, es: seq<Entry>, k: string, total: nat)
    requires es != [] && Sized(es) && Charged(names, es, k) && b.maxTopicChars == Some(total)
    ensures !AcceptsAll(b, OwningSums(k, Before(k, total)), es)
  {
    var v := OwningSums(k, Before(k, total));
    AcceptsAllIff(b, v, es);
    InsertTopics(v, es, k);
    TouchedIff(es, k);
    SumPositiveIff(es, k);
    var i :| 0 <= i < |es| && es[i].topic == k;
    assert es[i] in es && ValueOr0(UsageAfterAll(v, es).topicChars, es[i].topic) > total;
  }

  /** As limits: the usage after the batch, and this much to a topic. */
  function TightWith(u: BatchUsage, topic: nat): Budget {
    Tight(u).(maxTopicChars := Some(topic))
  }

  /** The verdicts agree for this usage and budget. */
  ghost predicate SameAsEach(names: set<string>, b: Budget, u: BatchUsage, v: Usage, es: seq<Entry>) {
    Accepts(names, b, u, InsertsOf(es)) <==> AcceptsAll(b, v, es) && UntouchedWithin(b, v, es)
  }

  ghost predicate AlwaysAsEach(names: set<string>, es: seq<Entry>) {
    forall b, u: BatchUsage, v | Agrees(u, v) && Sound(u.topics) :: SameAsEach(names, b, u, v, es)
  }

  lemma {:induction false} ChargedDiffers(names: set<string>, es: seq<Entry>, k: string)
    requires es != [] && Sized(es) && InheritedNames(names) && Charged(names, es, k)
    ensures !AlwaysAsEach(names, es)
  {
    TopicSumAtMost(es, k);
    var total: nat := SumOps(InsertsOf(es), EntryChars);
    var u, v := Owning(k, Before(k, total)), OwningSums(k, Before(k, total));
    var b := TightWith(ProjectedObject(names, u, InsertsOf(es)), total);
    OwningIsSound(k, Before(k, total));
    BatchPasses(names, b, es, k, total);
    EachRefuses(names, b, es, k, total);
    assert !SameAsEach(names, b, u, v, es);
  }

  /**
    The preflight agrees with judging the entries one by one, over every usage
    and every budget, exactly when the batch charges no inherited name, except
    that charges to `__proto__` may cancel out.
   */
  lemma {:induction false} AsEachIff(names: set<string>, es: seq<Entry>)
    requires es != [] && Sized(es) && InheritedNames(names)
    ensures AlwaysAsEach(names, es) <==> InheritedUncharged(names, InsertsOf(es))
  {
    if InheritedUncharged(names, InsertsOf(es)) {
      forall b, u: BatchUsage, v | Agrees(u, v) && Sound(u.topics)
        ensures SameAsEach(names, b, u, v, es)
      {
        BatchAcceptedIffEachAccepted(names, b, u, v, es);
      }
    } else {
      var k :| k in names && k in Touched(InsertsOf(es)) && !(k == PROTO && TopicSum(InsertsOf(es), k) == 0);
      ChargedDiffers(names, es, k);
    }
  }
}
