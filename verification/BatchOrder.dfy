/**
  Whether the preflight's verdict on a batch of inserts depends on the order of
  the batch: it looks at the first topic its object enumerates.
 */
module BatchOrder {
  import opened Common
  import opened BudgetGovernor
  import opened TopicObjects
  import opened BatchBudget

  // ---------- the order of the keys ----------

  /** The keys that the object owns, in the order given. */
  function Kept(keys: seq<string>, o: TopicObject): seq<string> {
    if keys == [] then []
    else if Get(o, keys[0]).Some? then [keys[0]] + Kept(keys[1..], o)
    else Kept(keys[1..], o)
  }

  /** The keys that the object does not own. */
  function Fresh(keys: seq<string>, o: TopicObject): seq<string> {
    if keys == [] then []
    else if Get(o, keys[0]).Some? then Fresh(keys[1..], o)
    else [keys[0]] + Fresh(keys[1..], o)
  }

  lemma {:induction false} KeptSame(keys: seq<string>, o: TopicObject, o': TopicObject)
    requires forall k | k in keys :: Get(o, k).Some? == Get(o', k).Some?
    ensures Kept(keys, o) == Kept(keys, o')
  {
    if keys != [] {
      KeptSame(keys[1..], o, o');
    }
  }

  lemma {:induction false} KeptWithout(keys: seq<string>, o: TopicObject, o': TopicObject, key: string)
    requires Get(o', key).None? && forall k | k != key :: Get(o, k).Some? == Get(o', k).Some?
    ensures Kept(keys, o') == Without(Kept(keys, o), key)
  {
    if keys != [] {
      KeptWithout(keys[1..], o, o', key);
      if Get(o, keys[0]).Some? {
        assert Kept(keys, o)[1..] == Kept(keys[1..], o);
      }
    }
  }

  lemma {:induction false} KeptAppend(keys: seq<string>, key: string, o: TopicObject)
    ensures Kept(keys + [key], o) == Kept(keys, o) + if Get(o, key).Some? then [key] else []
  {
    if keys == [] {
      assert (keys + [key])[1..] == [];
    } else {
      KeptAppend(keys[1..], key, o);
      assert (keys + [key])[1..] == keys[1..] + [key];
    }
  }

  lemma {:induction false} FreshAppend(keys: seq<string>, key: string, o: TopicObject)
    ensures Fresh(keys + [key], o) == Fresh(keys, o) + if Get(o, key).Some? then [] else [key]
  {
    if keys == [] {
      assert (keys + [key])[1..] == [];
    } else {
      FreshAppend(keys[1..], key, o);
      assert (keys + [key])[1..] == keys[1..] + [key];
    }
  }

  lemma {:induction false} FreshMembers(keys: seq<string>, o: TopicObject, k: string)
    ensures k in Fresh(keys, o) <==> k in keys && Get(o, k).None?
  {
    if keys != [] {
      FreshMembers(keys[1..], o, k);
    }
  }

  lemma {:induction false} KeptMembers(keys: seq<string>, o: TopicObject, k: string)
    ensures k in Kept(keys, o) <==> k in keys && Get(o, k).Some?
  {
    if keys != [] {
      KeptMembers(keys[1..], o, k);
    }
  }

  lemma {:induction false} WithoutJoin(a: seq<string>, b: seq<string>, key: string)
    ensures Without(a + b, key) == Without(a, key) + Without(b, key)
  {
    if a == [] {
      assert a + b == b;
    } else {
      WithoutJoin(a[1..], b, key);
      assert (a + b)[1..] == a[1..] + b;
      if a[0] != key {
        Assoc([a[0]], Without(a[1..], key), Without(b, key));
      }
    }
  }

  lemma {:induction false} PlainAppend(o: TopicObject, p: Prop)
    ensures PlainKeys(o + [p]) == PlainKeys(o) + if IsIndex(p.key) then [] else [p.key]
  {
    if o == [] {
      assert o + [p] == [p] && [p][1..] == [];
    } else {
      PlainAppend(o[1..], p);
      assert (o + [p])[1..] == o[1..] + [p];
    }
  }

  /** After the shifts: the old plain keys that are left, then the new ones in the order of the delta. */
  function OldThenNew(o: TopicObject, delta: TopicObject, after: TopicObject): seq<string> {
    Kept(PlainKeys(o), after) + Kept(Fresh(PlainKeys(delta), o), after)
  }

  /** One more shift drops the key from both parts. */
  lemma DropNext(owned: seq<string>, added: seq<string>, now: TopicObject, key: string)
    requires PlainKeys(now) == Kept(owned, now) + Kept(added, now)
    ensures PlainKeys(Removed(now, key)) == Kept(owned, Removed(now, key)) + Kept(added, Removed(now, key))
  {
    var next := Removed(now, key);
    forall k: string
      ensures Get(next, k) == if k == key then None else Get(now, k)
    {
      GetRemoved(now, key, k);
    }
    PlainRemoved(now, key);
    KeptWithout(owned, now, next, key);
    KeptWithout(added, now, next, key);
    WithoutJoin(Kept(owned, now), Kept(added, now), key);
  }

  /** One more shift keeps the keys there are, and appends a new one that is no index. */
  lemma SetNext(owned: seq<string>, added: seq<string>, now: TopicObject, key: string, v: Chars)
    requires PlainKeys(now) == Kept(owned, now) + Kept(added, now) && key != PROTO
    requires Get(now, key).None? ==> key !in owned && key !in added
    ensures var next := Assign(now, key, v);
            PlainKeys(next)
            == Kept(owned, next) + Kept(added, next) + if Get(now, key).Some? || IsIndex(key) then [] else [key]
  {
    var next := Assign(now, key, v);
    forall k: string | k in owned || k in added
      ensures Get(next, k).Some? == Get(now, k).Some?
    {
      GetAssigned(now, key, v, k);
    }
    PlainAssigned(now, key, v);
    KeptSame(owned, now, next);
    KeptSame(added, now, next);
  }

  /** The new keys, once one more has been shifted. */
  lemma AddedNext(o: TopicObject, delta: TopicObject, p: Prop, next: TopicObject)
    ensures Kept(Fresh(PlainKeys(delta + [p]), o), next)
         == Kept(Fresh(PlainKeys(delta), o), next)
            + if !IsIndex(p.key) && Get(o, p.key).None? && Get(next, p.key).Some? then [p.key] else []
  {
    PlainAppend(delta, p);
    if !IsIndex(p.key) {
      FreshAppend(PlainKeys(delta), p.key, o);
      KeptAppend(Fresh(PlainKeys(delta), o), p.key, next);
    } else {
      assert PlainKeys(delta + [p]) == PlainKeys(delta);
    }
    assert Fresh(PlainKeys(delta), o) + [] == Fresh(PlainKeys(delta), o);
  }

  /** The keys in order after one more shift, of a key not shifted before. */
  lemma OrderNext(names: set<string>, o: TopicObject, delta: TopicObject, p: Prop, now: TopicObject)
    requires UniqueKeys(delta + [p]) && p.key != PROTO
    requires PlainKeys(now) == OldThenNew(o, delta, now)
    requires Get(now, p.key) == Get(o, p.key)
    ensures PlainKeys(ShiftOne(names, now, p)) == OldThenNew(o, delta + [p], ShiftOne(names, now, p))
  {
    var next := ShiftOne(names, now, p);
    var value := Plus(ReadOr0(names, now, p.key), p.value);
    var owned, added := PlainKeys(o), Fresh(PlainKeys(delta), o);
    AddedNext(o, delta, p, next);
    if value.Number? && value.n <= 0 {
      GetRemoved(now, p.key, p.key);
      DropNext(owned, added, now, p.key);
    } else {
      GetAssigned(now, p.key, value, p.key);
      NotAmong(delta, p);
      FreshMembers(PlainKeys(delta), o, p.key);
      PlainKeysMembers(o, p.key);
      SetNext(owned, added, now, p.key, value);
      Assoc(Kept(owned, next), Kept(added, next), if Get(now, p.key).Some? || IsIndex(p.key) then [] else [p.key]);
    }
  }

  lemma NotAmong(delta: TopicObject, p: Prop)
    requires UniqueKeys(delta + [p])
    ensures Get(delta, p.key).None? && p.key !in PlainKeys(delta)
  {
    var all := delta + [p];
    forall i | 0 <= i < |delta|
      ensures delta[i].key != p.key
    {
      assert all[i].key == delta[i].key && all[|delta|].key == p.key;
    }
    HasProp(delta, p.key);
    PlainKeysMembers(delta, p.key);
  }

  lemma UniqueBefore(o: TopicObject, p: Prop)
    requires UniqueKeys(o + [p])
    ensures UniqueKeys(o)
  {
    forall i, j | 0 <= i < j < |o|
      ensures o[i].key != o[j].key
    {
      assert (o + [p])[i] == o[i] && (o + [p])[j] == o[j];
    }
  }

  /** After all shifts: the old plain keys that are left, then the new ones in the order of the delta. */
  lemma {:induction false} KeysAfter(names: set<string>, o: TopicObject, delta: TopicObject)
    requires UniqueKeys(delta) && Get(delta, PROTO).None?
    ensures PlainKeys(ShiftAll(names, o, delta)) == OldThenNew(o, delta, ShiftAll(names, o, delta))
  {
    if delta == [] {
      forall k | k in PlainKeys(o)
        ensures Get(o, k).Some?
      {
        PlainKeysMembers(o, k);
      }
      KeptAll(PlainKeys(o), o);
    } else {
      var before, p := delta[..|delta| - 1], delta[|delta| - 1];
      assert delta == before + [p];
      LastProp(before, p, PROTO);
      NotAmong(before, p);
      UniqueBefore(before, p);
      KeysAfter(names, o, before);
      ShiftAllAt(names, o, before, p.key);
      OrderNext(names, o, before, p, ShiftAll(names, o, before));
    }
  }

  lemma {:induction false} KeptAll(keys: seq<string>, o: TopicObject)
    requires forall k | k in keys :: Get(o, k).Some?
    ensures Kept(keys, o) == keys
  {
    if keys != [] {
      assert keys[0] in keys;
      KeptAll(keys[1..], o);
    }
  }

  // ---------- what a batch leaves ----------

  function After(names: set<string>, u: BatchUsage, ops: seq<BatchOp>): TopicObject {
    ProjectedObject(names, u, ops).topics
  }

  function StoredChars(o: TopicObject, k: string): int {
    if Get(o, k).Some? && Get(o, k).value.Number? then Get(o, k).value.n else 0
  }

  /** What is stored under a topic afterwards, by how the batch charges it. */
  function StoredAfter(names: set<string>, o: TopicObject, k: string, charged: bool, sum: int): Option<Chars> {
    if !charged || k == PROTO then Get(o, k)
    else if k in names then Some(NotNumber)
    else Listed(StoredChars(o, k) + sum)
  }

  lemma StoredIs(names: set<string>, o: TopicObject, ops: seq<BatchOp>, k: string)
    requires PROTO in names && (Get(o, k).Some? ==> Get(o, k).value.Number?)
    ensures TopicAfter(names, o, ops, k) == StoredAfter(names, o, k, k in Touched(ops), TopicSum(ops, k))
  {
  }

  lemma AfterAt(names: set<string>, u: BatchUsage, ops: seq<BatchOp>, k: string)
    requires Sound(u.topics) && PROTO in names
    ensures Get(After(names, u, ops), k)
         == StoredAfter(names, u.topics, k, k in Touched(ops), TopicSum(ops, k))
  {
    ProjectedAt(names, u, ops, k);
    StoredIs(names, u.topics, ops, k);
  }

  /** An inherited name, other than `__proto__`, that the batch charges or frees. */
  predicate Inherits(names: set<string>, ops: seq<BatchOp>, k: string) {
    k in names && k != PROTO && k in Touched(ops)
  }

  /** Every other topic holds a number. */
  lemma OrdinaryIsNumber(names: set<string>, u: BatchUsage, ops: seq<BatchOp>, k: string)
    requires Sound(u.topics) && PROTO in names
    requires Get(After(names, u, ops), k).Some? && !Inherits(names, ops, k)
    ensures Get(After(names, u, ops), k).value.Number?
  {
    AfterAt(names, u, ops, k);
  }

  lemma AfterKeeps(names: set<string>, u: BatchUsage, ops: seq<BatchOp>)
    requires Sound(u.topics)
    ensures IndicesFirst(After(names, u, ops)) && UniqueKeys(After(names, u, ops))
  {
    ProjectionKeeps(names, u, ops);
  }

  /** The plain keys afterwards: the old ones that are left, then the new ones. */
  lemma AfterKeys(names: set<string>, u: BatchUsage, ops: seq<BatchOp>)
    ensures PlainKeys(After(names, u, ops)) == OldThenNew(u.topics, DeltaObject(names, ops), After(names, u, ops))
  {
    DeltaKeeps(names, ops);
    DeltaHasNoProto(names, ops);
    KeysAfter(names, u.topics, DeltaObject(names, ops));
  }

  // ---------- which topic leads ----------

  /** A topic that, if it is new, is there after the batch. */
  predicate Leads(names: set<string>, ops: seq<BatchOp>, k: string) {
    !IsIndex(k) && (Inherits(names, ops, k) || (k !in names && TopicSum(ops, k) > 0))
  }

  function OrElse(first: Option<string>, second: Option<string>): Option<string> {
    if first.Some? then first else second
  }

  function LeadIf(names: set<string>, ops: seq<BatchOp>, k: string): Option<string> {
    if Leads(names, ops, k) then Some(k) else None
  }

  /** The first such topic among those that one operation shifts: what it frees comes before what it charges. */
  function LeadOf(names: set<string>, ops: seq<BatchOp>, op: BatchOp): Option<string> {
    OrElse(if Releases(op) then LeadIf(names, ops, op.existing.value.topic) else None,
           LeadIf(names, ops, op.entry.topic))
  }

  /** The first such topic of the part `done` of the batch `ops`. */
  function FirstLead(names: set<string>, ops: seq<BatchOp>, done: seq<BatchOp>): Option<string> {
    if done == [] then None
    else OrElse(FirstLead(names, ops, done[..|done| - 1]), LeadOf(names, ops, done[|done| - 1]))
  }

  function Leading(names: set<string>, ops: seq<BatchOp>, keys: seq<string>): seq<string> {
    if keys == [] then []
    else if Leads(names, ops, keys[0]) then [keys[0]] + Leading(names, ops, keys[1..])
    else Leading(names, ops, keys[1..])
  }

  lemma {:induction false} LeadingAppend(names: set<string>, ops: seq<BatchOp>, keys: seq<string>, k: string)
    ensures Leading(names, ops, keys + [k]) == Leading(names, ops, keys) + if Leads(names, ops, k) then [k] else []
  {
    if keys == [] {
      assert (keys + [k])[1..] == [];
    } else {
      LeadingAppend(names, ops, keys[1..], k);
      assert (keys + [k])[1..] == keys[1..] + [k];
    }
  }

  lemma {:induction false} LeadingMembers(names: set<string>, ops: seq<BatchOp>, keys: seq<string>, k: string)
    ensures k in Leading(names, ops, keys) <==> k in keys && Leads(names, ops, k)
  {
    if keys != [] {
      LeadingMembers(names, ops, keys[1..], k);
    }
  }

  /** The first leading key of an object. */
  function Head(names: set<string>, ops: seq<BatchOp>, o: TopicObject): Option<string> {
    var leading := Leading(names, ops, PlainKeys(o));
    if leading == [] then None else Some(leading[0])
  }

  lemma HeadAfterAdd(names: set<string>, ops: seq<BatchOp>, o: TopicObject, topic: string, amount: int)
    requires PROTO in names
    ensures Head(names, ops, AddTo(names, o, topic, amount)) == OrElse(Head(names, ops, o), LeadIf(names, ops, topic))
  {
    var keys := PlainKeys(o);
    PlainAssigned(o, topic, Plus(ReadOr0(names, o, topic), Number(amount)));
    LeadingAppend(names, ops, keys, topic);
    LeadingMembers(names, ops, keys, topic);
    PlainKeysMembers(o, topic);
    assert keys + [] == keys;
  }

  lemma OrElseInTurn(a: Option<string>, b: Option<string>, c: Option<string>)
    ensures OrElse(OrElse(a, b), c) == OrElse(a, OrElse(b, c))
  {
  }

  lemma HeadAfterStep(names: set<string>, ops: seq<BatchOp>, o: TopicObject, op: BatchOp)
    requires PROTO in names
    ensures Head(names, ops, DeltaStep(names, o, op)) == OrElse(Head(names, ops, o), LeadOf(names, ops, op))
  {
    HeadAfterAdd(names, ops, Freed(names, o, op), op.entry.topic, op.entry.charCount);
    if Releases(op) {
      var freed := op.existing.value.topic;
      HeadAfterAdd(names, ops, o, freed, -op.existing.value.charCount);
      OrElseInTurn(Head(names, ops, o), LeadIf(names, ops, freed), LeadIf(names, ops, op.entry.topic));
    }
  }

  /** The first leading key of the delta is the first leading topic of the batch. */
  lemma {:induction false} HeadOfDelta(names: set<string>, ops: seq<BatchOp>, done: seq<BatchOp>)
    requires PROTO in names
    ensures Head(names, ops, DeltaObject(names, done)) == FirstLead(names, ops, done)
  {
    if done != [] {
      HeadOfDelta(names, ops, done[..|done| - 1]);
      HeadAfterStep(names, ops, DeltaObject(names, done[..|done| - 1]), done[|done| - 1]);
    }
  }

  /** It is led by one of the operations. */
  lemma {:induction false} LeadBySome(names: set<string>, ops: seq<BatchOp>, done: seq<BatchOp>)
    ensures FirstLead(names, ops, done).Some? ==>
              exists i | 0 <= i < |done| :: LeadOf(names, ops, done[i]) == FirstLead(names, ops, done)
  {
    if done != [] {
      var before, last := done[..|done| - 1], done[|done| - 1];
      LeadBySome(names, ops, before);
      if FirstLead(names, ops, before).Some? {
        var i :| 0 <= i < |before| && LeadOf(names, ops, before[i]) == FirstLead(names, ops, before);
        assert done[i] == before[i];
      }
    }
  }

  lemma {:induction false} LeadByFirst(names: set<string>, ops: seq<BatchOp>, done: seq<BatchOp>)
    requires done != [] && LeadOf(names, ops, done[0]).Some?
    ensures FirstLead(names, ops, done) == LeadOf(names, ops, done[0])
  {
    if |done| > 1 {
      LeadByFirst(names, ops, done[..|done| - 1]);
    } else {
      assert FirstLead(names, ops, done[..0]) == None;
    }
  }

  // ---------- what the first key is ----------

  lemma {:induction false} KeptIsLeading(names: set<string>, ops: seq<BatchOp>, keys: seq<string>, o: TopicObject,
                                         after: TopicObject)
    requires forall k | k in keys :: Get(o, k).None? && Get(after, k).Some? <==> Leads(names, ops, k)
    ensures Kept(Fresh(keys, o), after) == Leading(names, ops, keys)
  {
    if keys != [] {
      assert keys[0] in keys;
      KeptIsLeading(names, ops, keys[1..], o, after);
      if Get(o, keys[0]).None? {
        assert Fresh(keys, o)[1..] == Fresh(keys[1..], o);
      }
    }
  }

  /** If no old plain key is left, a key of the delta is there and new exactly when it leads. */
  lemma NewKeyLeads(names: set<string>, u: BatchUsage, ops: seq<BatchOp>, k: string)
    requires Sound(u.topics) && PROTO in names && Kept(PlainKeys(u.topics), After(names, u, ops)) == []
    requires k in PlainKeys(DeltaObject(names, ops))
    ensures Get(u.topics, k).None? && Get(After(names, u, ops), k).Some? <==> Leads(names, ops, k)
  {
    PlainKeysMembers(DeltaObject(names, ops), k);
    DeltaHolds(names, ops, k);
    AfterAt(names, u, ops, k);
    KeptMembers(PlainKeys(u.topics), After(names, u, ops), k);
    PlainKeysMembers(u.topics, k);
  }

  lemma NewKeysLead(names: set<string>, u: BatchUsage, ops: seq<BatchOp>)
    requires Sound(u.topics) && PROTO in names && Kept(PlainKeys(u.topics), After(names, u, ops)) == []
    ensures PlainKeys(After(names, u, ops)) == Leading(names, ops, PlainKeys(DeltaObject(names, ops)))
  {
    AfterKeys(names, u, ops);
    forall k | k in PlainKeys(DeltaObject(names, ops))
      ensures Get(u.topics, k).None? && Get(After(names, u, ops), k).Some? <==> Leads(names, ops, k)
    {
      NewKeyLeads(names, u, ops, k);
    }
    KeptIsLeading(names, ops, PlainKeys(DeltaObject(names, ops)), u.topics, After(names, u, ops));
  }

  /** Then the first plain key is the first leading topic. */
  lemma FirstNewKey(names: set<string>, u: BatchUsage, ops: seq<BatchOp>)
    requires Sound(u.topics) && PROTO in names && Kept(PlainKeys(u.topics), After(names, u, ops)) == []
    ensures var keys := PlainKeys(After(names, u, ops));
            (if keys == [] then None else Some(keys[0])) == FirstLead(names, ops, ops)
  {
    NewKeysLead(names, u, ops);
    HeadOfDelta(names, ops, ops);
  }

  /** The first property: an index with a number, or the first plain key. */
  lemma BlindIff(names: set<string>, u: BatchUsage, ops: seq<BatchOp>)
    requires Sound(u.topics) && InheritedNames(names)
    ensures var o := After(names, u, ops);
            Blind(o) <==> NoIndices(o) && PlainKeys(o) != [] && Get(o, PlainKeys(o)[0]) == Some(NotNumber)
  {
    var o := After(names, u, ops);
    AfterKeeps(names, u, ops);
    if o != [] {
      GetAt(o, 0);
      if IsIndex(o[0].key) {
        OrdinaryIsNumber(names, u, ops, o[0].key);
      } else {
        assert NoIndices(o);
        PlainKeysAll(o);
      }
    }
  }

  lemma NeverBlind(names: set<string>, u: BatchUsage, ops: seq<BatchOp>)
    requires Sound(u.topics) && InheritedNames(names) && forall k | k in Touched(ops) :: !Inherits(names, ops, k)
    ensures !Blind(After(names, u, ops))
  {
    BlindIff(names, u, ops);
    var o := After(names, u, ops);
    if Blind(o) {
      OrdinaryIsNumber(names, u, ops, PlainKeys(o)[0]);
    }
  }

  // ---------- the same batch in another order ----------

  ghost predicate Permuted(ops: seq<BatchOp>, ops': seq<BatchOp>) {
    multiset(ops) == multiset(ops')
  }

  lemma PermutedMembers(ops: seq<BatchOp>, ops': seq<BatchOp>)
    requires Permuted(ops, ops')
    ensures forall op :: op in ops <==> op in ops'
    ensures Touched(ops) == Touched(ops')
  {
    forall op
      ensures op in ops <==> op in ops'
    {
      assert op in ops <==> op in multiset(ops);
      assert op in ops' <==> op in multiset(ops');
    }
  }

  lemma SameLead(names: set<string>, ops: seq<BatchOp>, ops': seq<BatchOp>, op: BatchOp)
    requires Permuted(ops, ops')
    ensures LeadOf(names, ops, op) == LeadOf(names, ops', op)
  {
    PermutedMembers(ops, ops');
    SameOpSums(ops, ops', TopicNet(op.entry.topic));
    if Releases(op) {
      SameOpSums(ops, ops', TopicNet(op.existing.value.topic));
    }
  }

  /** The contents do not depend on the order. */
  lemma SameContents(names: set<string>, u: BatchUsage, ops: seq<BatchOp>, ops': seq<BatchOp>)
    requires Permuted(ops, ops') && Sound(u.topics) && PROTO in names
    ensures forall k :: Get(After(names, u, ops), k) == Get(After(names, u, ops'), k)
  {
    PermutedMembers(ops, ops');
    forall k: string
      ensures Get(After(names, u, ops), k) == Get(After(names, u, ops'), k)
    {
      AfterAt(names, u, ops, k);
      AfterAt(names, u, ops', k);
      SameOpSums(ops, ops', TopicNet(k));
    }
  }

  lemma SameIndices(o: TopicObject, o': TopicObject)
    requires forall k :: Get(o, k) == Get(o', k)
    ensures NoIndices(o) ==> NoIndices(o')
  {
    if NoIndices(o) {
      forall i | 0 <= i < |o'|
        ensures !IsIndex(o'[i].key)
      {
        HasProp(o', o'[i].key);
        HasProp(o, o'[i].key);
      }
    }
  }

  // ---------- when the order matters ----------

  /** Some operation shifts an inherited name before anything else that will be there. */
  ghost predicate InheritedLeads(names: set<string>, ops: seq<BatchOp>) {
    exists op | op in ops :: LeadOf(names, ops, op).Some? && LeadOf(names, ops, op).value in names
  }

  /** Some operation shifts an ordinary topic, which gains characters in all, before anything else. */
  ghost predicate OrdinaryLeads(names: set<string>, ops: seq<BatchOp>) {
    exists op | op in ops :: LeadOf(names, ops, op).Some? && LeadOf(names, ops, op).value !in names
  }

  /** Some topic that is an array index gains characters in all. */
  ghost predicate IndexGains(ops: seq<BatchOp>) {
    exists k | k in Touched(ops) :: IsIndex(k) && TopicSum(ops, k) > 0
  }

  /** An inherited name and an ordinary topic compete to be enumerated first, and no array index precedes both. */
  ghost predicate OrderMatters(names: set<string>, ops: seq<BatchOp>) {
    InheritedLeads(names, ops) && OrdinaryLeads(names, ops) && !IndexGains(ops)
  }

  lemma IndexNotBlind(names: set<string>, u: BatchUsage, ops: seq<BatchOp>)
    requires Sound(u.topics) && InheritedNames(names) && IndexGains(ops)
    ensures !Blind(After(names, u, ops))
  {
    var o := After(names, u, ops);
    var k :| k in Touched(ops) && IsIndex(k) && TopicSum(ops, k) > 0;
    AfterAt(names, u, ops, k);
    assert k != PROTO && k !in names;
    assert Get(o, k).Some?;
    HasProp(o, k);
    BlindIff(names, u, ops);
  }

  /** The first leading topic is inherited, if no ordinary one leads, and ordinary, if no inherited one does. */
  lemma FirstLeadKind(names: set<string>, ops: seq<BatchOp>)
    ensures var lead := FirstLead(names, ops, ops);
            && (lead.Some? && !OrdinaryLeads(names, ops) ==> lead.value in names)
            && (lead.Some? && !InheritedLeads(names, ops) ==> lead.value !in names)
  {
    LeadBySome(names, ops, ops);
    if FirstLead(names, ops, ops).Some? {
      var i :| 0 <= i < |ops| && LeadOf(names, ops, ops[i]) == FirstLead(names, ops, ops);
      assert ops[i] in ops;
    }
  }

  lemma {:induction false} LeadLeads(names: set<string>, ops: seq<BatchOp>, done: seq<BatchOp>)
    ensures FirstLead(names, ops, done).Some? ==> Leads(names, ops, FirstLead(names, ops, done).value)
  {
    if done != [] {
      LeadLeads(names, ops, done[..|done| - 1]);
    }
  }

  /** What the first plain key holds if no old one is left: no number exactly when its topic is inherited. */
  lemma FirstNewValue(names: set<string>, u: BatchUsage, ops: seq<BatchOp>)
    requires Sound(u.topics) && PROTO in names && Kept(PlainKeys(u.topics), After(names, u, ops)) == []
    requires PlainKeys(After(names, u, ops)) != []
    ensures var k := PlainKeys(After(names, u, ops))[0];
            && FirstLead(names, ops, ops) == Some(k)
            && (Get(After(names, u, ops), k) == Some(NotNumber) <==> k in names)
  {
    var k := PlainKeys(After(names, u, ops))[0];
    FirstNewKey(names, u, ops);
    LeadLeads(names, ops, ops);
    AfterAt(names, u, ops, k);
  }

  lemma SameEmpty(o: TopicObject, o': TopicObject)
    requires forall k :: Get(o, k) == Get(o', k)
    ensures PlainKeys(o) == [] <==> PlainKeys(o') == []
  {
    if PlainKeys(o) != [] {
      PlainKeysMembers(o, PlainKeys(o)[0]);
      PlainKeysMembers(o', PlainKeys(o)[0]);
    }
    if PlainKeys(o') != [] {
      PlainKeysMembers(o, PlainKeys(o')[0]);
      PlainKeysMembers(o', PlainKeys(o')[0]);
    }
  }

  /** The first plain key holds a number in both orders or in neither. */
  ghost predicate SameFirst(o: TopicObject, o': TopicObject) {
    var p, p' := PlainKeys(o), PlainKeys(o');
    && (p == [] <==> p' == [])
    && (p != [] && p' != [] ==> (Get(o, p[0]) == Some(NotNumber) <==> Get(o', p'[0]) == Some(NotNumber)))
  }

  lemma PermutedLeads(names: set<string>, ops: seq<BatchOp>, ops': seq<BatchOp>)
    requires Permuted(ops, ops')
    ensures InheritedLeads(names, ops) ==> InheritedLeads(names, ops')
    ensures OrdinaryLeads(names, ops) ==> OrdinaryLeads(names, ops')
    ensures IndexGains(ops) ==> IndexGains(ops')
  {
    PermutedMembers(ops, ops');
    forall op | op in ops
      ensures LeadOf(names, ops, op) == LeadOf(names, ops', op)
    {
      SameLead(names, ops, ops', op);
    }
    forall k | k in Touched(ops)
      ensures TopicSum(ops, k) == TopicSum(ops', k)
    {
      SameOpSums(ops, ops', TopicNet(k));
    }
  }

  lemma FirstKeySame(names: set<string>, u: BatchUsage, ops: seq<BatchOp>, ops': seq<BatchOp>)
    requires Permuted(ops, ops') && Sound(u.topics) && PROTO in names
    requires !(InheritedLeads(names, ops) && OrdinaryLeads(names, ops))
    ensures SameFirst(After(names, u, ops), After(names, u, ops'))
  {
    var o, o' := After(names, u, ops), After(names, u, ops');
    SameContents(names, u, ops, ops');
    AfterKeys(names, u, ops);
    AfterKeys(names, u, ops');
    KeptSame(PlainKeys(u.topics), o, o');
    SameEmpty(o, o');
    if Kept(PlainKeys(u.topics), o) == [] && PlainKeys(o) != [] {
      PermutedLeads(names, ops', ops);
      FirstNewValue(names, u, ops);
      FirstNewValue(names, u, ops');
      FirstLeadKind(names, ops);
      FirstLeadKind(names, ops');
    }
  }

  lemma SameBlind(names: set<string>, u: BatchUsage, ops: seq<BatchOp>, ops': seq<BatchOp>)
    requires Permuted(ops, ops') && Sound(u.topics) && InheritedNames(names) && !OrderMatters(names, ops)
    ensures Blind(After(names, u, ops)) <==> Blind(After(names, u, ops'))
  {
    if IndexGains(ops) {
      PermutedLeads(names, ops, ops');
      IndexNotBlind(names, u, ops);
      IndexNotBlind(names, u, ops');
    } else {
      FirstKeySame(names, u, ops, ops');
      SameContents(names, u, ops, ops');
      SameIndices(After(names, u, ops), After(names, u, ops'));
      SameIndices(After(names, u, ops'), After(names, u, ops));
      BlindIff(names, u, ops);
      BlindIff(names, u, ops');
    }
  }

  lemma SameTopicsPass(b: Budget, o: TopicObject, o': TopicObject)
    requires UniqueKeys(o) && UniqueKeys(o') && (Blind(o) <==> Blind(o'))
    requires forall k :: Get(o, k) == Get(o', k)
    ensures TopicsPass(b, o) <==> TopicsPass(b, o')
  {
    if b.maxTopicChars.Some? {
      TopicsPassIff(b, o);
      TopicsPassIff(b, o');
      WithinByKey(o, b.maxTopicChars.value);
      WithinByKey(o', b.maxTopicChars.value);
    }
  }

  ghost predicate Accepts(names: set<string>, b: Budget, u: BatchUsage, ops: seq<BatchOp>) {
    Passes(b, ProjectedObject(names, u, ops))
  }

  lemma SameTotals(names: set<string>, u: BatchUsage, ops: seq<BatchOp>, ops': seq<BatchOp>)
    requires Permuted(ops, ops')
    ensures var p, p' := ProjectedObject(names, u, ops), ProjectedObject(names, u, ops');
            p' == p.(topics := p'.topics)
  {
    SameOpSums(ops, ops', InsertOne);
    SameOpSums(ops, ops', ReleaseOne);
    SameOpSums(ops, ops', EntryChars);
    SameOpSums(ops, ops', FreedChars);
    SameOpSums(ops, ops', EntryIndex);
    SameOpSums(ops, ops', FreedIndex);
  }

  lemma SameVerdict(names: set<string>, b: Budget, u: BatchUsage, ops: seq<BatchOp>, ops': seq<BatchOp>)
    requires Permuted(ops, ops') && Sound(u.topics) && InheritedNames(names) && !OrderMatters(names, ops)
    ensures Accepts(names, b, u, ops) <==> Accepts(names, b, u, ops')
  {
    SameTotals(names, u, ops, ops');
    SameContents(names, u, ops, ops');
    SameBlind(names, u, ops, ops');
    AfterKeeps(names, u, ops);
    AfterKeeps(names, u, ops');
    SameTopicsPass(b, After(names, u, ops), After(names, u, ops'));
  }

  // ---------- the orders that differ ----------

  const EMPTY := BatchUsage(0, 0, [], 0)

  lemma EmptyNoIndices(names: set<string>, ops: seq<BatchOp>)
    requires InheritedNames(names) && !IndexGains(ops)
    ensures NoIndices(After(names, EMPTY, ops))
  {
    var o := After(names, EMPTY, ops);
    forall i | 0 <= i < |o|
      ensures !IsIndex(o[i].key)
    {
      HasProp(o, o[i].key);
      AfterAt(names, EMPTY, ops, o[i].key);
    }
  }

  /** Over an empty usage, the first operation's leading topic is enumerated first. */
  lemma FirstOpLeads(names: set<string>, ops: seq<BatchOp>)
    requires InheritedNames(names) && !IndexGains(ops) && ops != [] && LeadOf(names, ops, ops[0]).Some?
    ensures var o, k := After(names, EMPTY, ops), LeadOf(names, ops, ops[0]).value;
            o != [] && o[0].key == k && Get(o, k) == Some(o[0].value) && o[0].value.NotNumber? == (k in names)
            && (k !in names ==> o[0].value.n > 0)
  {
    var o, k := After(names, EMPTY, ops), LeadOf(names, ops, ops[0]).value;
    LeadByFirst(names, ops, ops);
    AfterKeeps(names, EMPTY, ops);
    FirstNewKey(names, EMPTY, ops);
    FirstNewValue(names, EMPTY, ops);
    EmptyNoIndices(names, ops);
    PlainKeysAll(o);
    GetAt(o, 0);
    AfterAt(names, EMPTY, ops, k);
  }

  function MovedFirst(ops: seq<BatchOp>, i: nat): seq<BatchOp>
    requires i < |ops|
  {
    [ops[i]] + ops[..i] + ops[i + 1..]
  }

  lemma MovedIsPermuted(names: set<string>, ops: seq<BatchOp>, i: nat)
    requires i < |ops|
    ensures var moved := MovedFirst(ops, i);
            && Permuted(ops, moved) && moved[0] == ops[i]
            && LeadOf(names, moved, moved[0]) == LeadOf(names, ops, ops[i])
            && (IndexGains(moved) ==> IndexGains(ops))
  {
    var moved := MovedFirst(ops, i);
    assert ops == ops[..i] + [ops[i]] + ops[i + 1..];
    SameLead(names, ops, moved, ops[i]);
    PermutedLeads(names, moved, ops);
  }

  function AtLeast0(n: int): nat {
    if n < 0 then 0 else n
  }

  /** The usage after the batch as limits, with no character allowed to a topic. */
  function Tight(u: BatchUsage): Budget {
    Budget(AtLeast0(u.activeEntries), AtLeast0(u.activeChars), Some(0), AtLeast0(u.indexChars))
  }

  /** With an inherited name first, the topic check sees nothing. */
  lemma InheritedFirst(names: set<string>, b: Budget, ops: seq<BatchOp>)
    requires InheritedNames(names) && !IndexGains(ops) && ops != []
    requires LeadOf(names, ops, ops[0]).Some? && LeadOf(names, ops, ops[0]).value in names
    ensures TopicsPass(b, After(names, EMPTY, ops))
  {
    FirstOpLeads(names, ops);
    if b.maxTopicChars.Some? {
      TopicsPassIff(b, After(names, EMPTY, ops));
    }
  }

  /** With an ordinary topic first, it sees that one. */
  lemma OrdinaryFirst(names: set<string>, b: Budget, ops: seq<BatchOp>)
    requires InheritedNames(names) && !IndexGains(ops) && ops != [] && b.maxTopicChars == Some(0)
    requires LeadOf(names, ops, ops[0]).Some? && LeadOf(names, ops, ops[0]).value !in names
    ensures !TopicsPass(b, After(names, EMPTY, ops))
  {
    FirstOpLeads(names, ops);
    TopicsPassIff(b, After(names, EMPTY, ops));
  }

  /** Accepted with the inherited name in front. */
  lemma {:induction false} AcceptedOneWay(names: set<string>, ops: seq<BatchOp>, i: nat, p: BatchUsage)
    requires InheritedNames(names) && !IndexGains(ops) && i < |ops|
    requires LeadOf(names, ops, ops[i]).Some? && LeadOf(names, ops, ops[i]).value in names
    requires p == ProjectedObject(names, EMPTY, ops)
    ensures Accepts(names, Tight(p), EMPTY, MovedFirst(ops, i))
  {
    MovedIsPermuted(names, ops, i);
    SameTotals(names, EMPTY, ops, MovedFirst(ops, i));
    InheritedFirst(names, Tight(p), MovedFirst(ops, i));
  }

  /** Refused with the ordinary topic in front. */
  lemma {:induction false} RefusedTheOther(names: set<string>, ops: seq<BatchOp>, j: nat, p: BatchUsage)
    requires InheritedNames(names) && !IndexGains(ops) && j < |ops|
    requires LeadOf(names, ops, ops[j]).Some? && LeadOf(names, ops, ops[j]).value !in names
    ensures !Accepts(names, Tight(p), EMPTY, MovedFirst(ops, j))
  {
    MovedIsPermuted(names, ops, j);
    OrdinaryFirst(names, Tight(p), MovedFirst(ops, j));
    assert !Passes(Tight(p), ProjectedObject(names, EMPTY, MovedFirst(ops, j)));
  }

  /** Every order of the batch meets the same verdict, over any usage and any budget. */
  ghost predicate OrderFree(names: set<string>, ops: seq<BatchOp>) {
    forall b, u: BatchUsage, ops' | Permuted(ops, ops') && Sound(u.topics) ::
      Accepts(names, b, u, ops) <==> Accepts(names, b, u, ops')
  }

  /**
    The verdict on a batch of inserts, replacements and merges is independent of
    their order exactly when it is not the case that an inherited name and an
    ordinary topic compete to be enumerated first.
   */
  lemma {:induction false} OrderFreeIff(names: set<string>, ops: seq<BatchOp>)
    requires InheritedNames(names)
    ensures OrderFree(names, ops) <==> !OrderMatters(names, ops)
  {
    if !OrderMatters(names, ops) {
      forall b, u: BatchUsage, ops' | Permuted(ops, ops') && Sound(u.topics)
        ensures Accepts(names, b, u, ops) <==> Accepts(names, b, u, ops')
      {
        SameVerdict(names, b, u, ops, ops');
      }
    } else {
      var one :| one in ops && LeadOf(names, ops, one).Some? && LeadOf(names, ops, one).value in names;
      var two :| two in ops && LeadOf(names, ops, two).Some? && LeadOf(names, ops, two).value !in names;
      var i :| 0 <= i < |ops| && ops[i] == one;
      var j :| 0 <= j < |ops| && ops[j] == two;
      var p := ProjectedObject(names, EMPTY, ops);
      AcceptedOneWay(names, ops, i, p);
      RefusedTheOther(names, ops, j, p);
      MovedIsPermuted(names, ops, i);
      MovedIsPermuted(names, ops, j);
      assert Sound(EMPTY.topics);
    }
  }

  // ---------- batches of inserts ----------

  ghost predicate HasTopic(es: seq<Entry>, topic: string) {
    exists i | 0 <= i < |es| :: es[i].topic == topic
  }

  /** Some entry with a positive size has this topic. */
  ghost predicate Gains(es: seq<Entry>, topic: string) {
    exists i | 0 <= i < |es| :: es[i].topic == topic && es[i].charCount > 0
  }

  lemma {:induction false} SumPositiveIff(es: seq<Entry>, topic: string)
    requires Sized(es)
    ensures TopicSum(InsertsOf(es), topic) >= 0
    ensures TopicSum(InsertsOf(es), topic) > 0 <==> Gains(es, topic)
  {
    if es != [] {
      var prev, last := es[..|es| - 1], es[|es| - 1];
      SumPositiveIff(prev, topic);
      InsertsNext(es, TopicNet(topic));
      GainsLast(es, topic);
    }
  }

  lemma GainsLast(es: seq<Entry>, topic: string)
    requires es != []
    ensures var last := es[|es| - 1];
            Gains(es, topic) <==> Gains(es[..|es| - 1], topic) || (last.topic == topic && last.charCount > 0)
  {
    var prev, last := es[..|es| - 1], es[|es| - 1];
    if Gains(es, topic) && !(last.topic == topic && last.charCount > 0) {
      var i :| 0 <= i < |es| && es[i].topic == topic && es[i].charCount > 0;
      assert prev[i] == es[i];
    }
    if Gains(prev, topic) {
      var i :| 0 <= i < |prev| && prev[i].topic == topic && prev[i].charCount > 0;
      assert prev[i] == es[i];
    }
  }

  lemma {:induction false} TouchedIff(es: seq<Entry>, topic: string)
    ensures topic in Touched(InsertsOf(es)) <==> HasTopic(es, topic)
  {
    InsertsTouch(es);
  }

  lemma {:induction false} InsertAt(es: seq<Entry>, i: nat)
    requires i < |es|
    ensures |InsertsOf(es)| == |es| && InsertsOf(es)[i] == BatchOp(InsertOp, es[i], None)
  {
    if |es| > 1 {
      InsertAt(es[..|es| - 1], if i < |es| - 1 then i else 0);
    }
  }

  /** An inserted entry leads under an inherited name, or under an ordinary topic that gains. */
  lemma {:induction false} InsertLeads(names: set<string>, es: seq<Entry>, i: nat)
    requires Sized(es) && i < |es|
    ensures LeadOf(names, InsertsOf(es), BatchOp(InsertOp, es[i], None))
         == if !IsIndex(es[i].topic) && (if es[i].topic in names then es[i].topic != PROTO else Gains(es, es[i].topic))
            then Some(es[i].topic) else None
  {
    TouchedIff(es, es[i].topic);
    SumPositiveIff(es, es[i].topic);
    assert HasTopic(es, es[i].topic);
  }

  /** Some entry has an inherited name for its topic, other than `__proto__`. */
  ghost predicate HasInherited(names: set<string>, es: seq<Entry>) {
    exists i | 0 <= i < |es| :: es[i].topic in names && es[i].topic != PROTO
  }

  /** Some topic that is neither inherited nor an array index gains characters. */
  ghost predicate OrdinaryGains(names: set<string>, es: seq<Entry>) {
    exists i | 0 <= i < |es| :: es[i].topic !in names && !IsIndex(es[i].topic) && es[i].charCount > 0
  }

  /** Some topic that is an array index gains characters. */
  ghost predicate SomeIndexGains(es: seq<Entry>) {
    exists i | 0 <= i < |es| :: IsIndex(es[i].topic) && es[i].charCount > 0
  }

  lemma {:induction false} InsertIsSome(es: seq<Entry>, op: BatchOp)
    requires op in InsertsOf(es)
    ensures exists i | 0 <= i < |es| :: op == BatchOp(InsertOp, es[i], None)
  {
    if es != [] {
      InsertAt(es, 0);
      var i :| 0 <= i < |InsertsOf(es)| && InsertsOf(es)[i] == op;
      InsertAt(es, i);
    }
  }

  lemma {:induction false} InsertIndexGainsIff(es: seq<Entry>)
    requires Sized(es)
    ensures IndexGains(InsertsOf(es)) <==> SomeIndexGains(es)
  {
    if IndexGains(InsertsOf(es)) {
      var k :| k in Touched(InsertsOf(es)) && IsIndex(k) && TopicSum(InsertsOf(es), k) > 0;
      SumPositiveIff(es, k);
      var i :| 0 <= i < |es| && es[i].topic == k && es[i].charCount > 0;
    }
    if SomeIndexGains(es) {
      var i :| 0 <= i < |es| && IsIndex(es[i].topic) && es[i].charCount > 0;
      assert HasTopic(es, es[i].topic) && Gains(es, es[i].topic);
      TouchedIff(es, es[i].topic);
      SumPositiveIff(es, es[i].topic);
    }
  }

  lemma {:induction false} InsertInheritedIff(names: set<string>, es: seq<Entry>)
    requires Sized(es) && InheritedNames(names)
    ensures InheritedLeads(names, InsertsOf(es)) <==> HasInherited(names, es)
  {
    if InheritedLeads(names, InsertsOf(es)) {
      var op :| op in InsertsOf(es) && LeadOf(names, InsertsOf(es), op).Some?
                && LeadOf(names, InsertsOf(es), op).value in names;
      InsertIsSome(es, op);
      var i :| 0 <= i < |es| && op == BatchOp(InsertOp, es[i], None);
      InsertLeads(names, es, i);
    }
    if HasInherited(names, es) {
      var i :| 0 <= i < |es| && es[i].topic in names && es[i].topic != PROTO;
      InsertLeads(names, es, i);
      InsertAt(es, i);
      assert InsertsOf(es)[i] in InsertsOf(es);
    }
  }

  lemma {:induction false} InsertOrdinaryIff(names: set<string>, es: seq<Entry>)
    requires Sized(es) && InheritedNames(names)
    ensures OrdinaryLeads(names, InsertsOf(es)) <==> OrdinaryGains(names, es)
  {
    if OrdinaryLeads(names, InsertsOf(es)) {
      var op :| op in InsertsOf(es) && LeadOf(names, InsertsOf(es), op).Some?
                && LeadOf(names, InsertsOf(es), op).value !in names;
      InsertIsSome(es, op);
      var i :| 0 <= i < |es| && op == BatchOp(InsertOp, es[i], None);
      InsertLeads(names, es, i);
      var j :| 0 <= j < |es| && es[j].topic == es[i].topic && es[j].charCount > 0;
    }
    if OrdinaryGains(names, es) {
      var i :| 0 <= i < |es| && es[i].topic !in names && !IsIndex(es[i].topic) && es[i].charCount > 0;
      assert Gains(es, es[i].topic);
      InsertLeads(names, es, i);
      InsertAt(es, i);
      assert InsertsOf(es)[i] in InsertsOf(es);
    }
  }

  /** For inserts: some entry is under an inherited name, some ordinary topic gains, and no array index does. */
  lemma {:induction false} InsertOrderMattersIff(names: set<string>, es: seq<Entry>)
    requires Sized(es) && InheritedNames(names)
    ensures OrderMatters(names, InsertsOf(es)) <==>
              HasInherited(names, es) && OrdinaryGains(names, es) && !SomeIndexGains(es)
  {
    InsertIndexGainsIff(es);
    InsertInheritedIff(names, es);
    InsertOrdinaryIff(names, es);
  }

  // ---------- a batch with a topic named `constructor` ----------

  const SMALL := Entry("a", "p", None, Active, "constructor", "t", [], 5)
  const LARGE := Entry("b", "p", None, Active, "big", "t", [], 1000)
  const LIMITS := Budget(10, 10000, Some(100), 10000)

  lemma SumOfTwo(one: Entry, two: Entry, f: BatchOp -> int)
    ensures SumOps(InsertsOf([one, two]), f) == f(BatchOp(InsertOp, one, None)) + f(BatchOp(InsertOp, two, None))
  {
    InsertsNext([one, two], f);
    assert [one, two][..1] == [one];
    InsertsNext([one], f);
    assert [one][..0] == [];
  }

  lemma TotalsOfTwo(names: set<string>, one: Entry, two: Entry)
    ensures var p := ProjectedObject(names, EMPTY, InsertsOf([one, two]));
            && p.activeEntries == 2 && p.activeChars == one.charCount + two.charCount
            && p.indexChars == IndexOf(one) + IndexOf(two)
  {
    SumOfTwo(one, two, InsertOne);
    SumOfTwo(one, two, ReleaseOne);
    SumOfTwo(one, two, EntryChars);
    SumOfTwo(one, two, FreedChars);
    SumOfTwo(one, two, EntryIndex);
    SumOfTwo(one, two, FreedIndex);
  }

  lemma InheritedAreLong(k: string)
    requires k in INHERITED
    ensures |k| > 3
  {
  }

  lemma SmallIsInherited()
    ensures SMALL.topic in INHERITED && SMALL.topic != PROTO && InheritedNames(INHERITED) && !IsIndex(SMALL.topic)
  {
    InheritedIsSuch();
    assert |SMALL.topic| != |PROTO|;
  }

  lemma LargeIsOrdinary()
    ensures LARGE.topic !in INHERITED && !IsIndex(LARGE.topic)
  {
    if LARGE.topic in INHERITED {
      InheritedAreLong(LARGE.topic);
    }
    assert !IsDigit(LARGE.topic[0]);
  }

  lemma TheTopics()
    ensures SMALL.topic in INHERITED && SMALL.topic != PROTO && InheritedNames(INHERITED)
    ensures LARGE.topic !in INHERITED && !IsIndex(LARGE.topic) && !IsIndex(SMALL.topic)
  {
    SmallIsInherited();
    LargeIsOrdinary();
  }

  lemma {:induction false} PairHasNoIndex(es: seq<Entry>)
    requires es == [SMALL, LARGE] || es == [LARGE, SMALL]
    ensures Sized(es) && !IndexGains(InsertsOf(es))
  {
    TheTopics();
    forall i | 0 <= i < |es|
      ensures es[i] == SMALL || es[i] == LARGE
    {
    }
    InsertIndexGainsIff(es);
  }

  lemma {:induction false} PairLeads(es: seq<Entry>)
    requires es == [SMALL, LARGE] || es == [LARGE, SMALL]
    ensures var ops := InsertsOf(es);
            ops != [] && !IndexGains(ops) && LeadOf(INHERITED, ops, ops[0]) == Some(es[0].topic)
  {
    TheTopics();
    PairHasNoIndex(es);
    InsertAt(es, 0);
    InsertLeads(INHERITED, es, 0);
    assert es[0] == LARGE ==> Gains(es, LARGE.topic);
  }

  /** The two entries are accepted in one order and refused in the other. */
  lemma OrderDecides()
    ensures Accepts(INHERITED, LIMITS, EMPTY, InsertsOf([SMALL, LARGE]))
    ensures !Accepts(INHERITED, LIMITS, EMPTY, InsertsOf([LARGE, SMALL]))
  {
    TheTopics();
    PairLeads([SMALL, LARGE]);
    TotalsOfTwo(INHERITED, SMALL, LARGE);
    InheritedFirst(INHERITED, LIMITS, InsertsOf([SMALL, LARGE]));
    LargeIsSeen();
  }

  lemma LargeIsSeen()
    ensures !TopicsPass(LIMITS, After(INHERITED, EMPTY, InsertsOf([LARGE, SMALL])))
  {
    var ops := InsertsOf([LARGE, SMALL]);
    var o := After(INHERITED, EMPTY, ops);
    TheTopics();
    PairLeads([LARGE, SMALL]);
    FirstOpLeads(INHERITED, ops);
    AfterAt(INHERITED, EMPTY, ops, LARGE.topic);
    SumOfTwo(LARGE, SMALL, TopicNet(LARGE.topic));
    TopicsPassIff(LIMITS, o);
  }

  /** The batch is accepted though its second entry, judged alone, is refused at any point. */
  lemma BatchAcceptsWhatEachRefuses(v: Usage)
    requires v == Usage(0, 0, map[], 0) || v == UsageWith(Usage(0, 0, map[], 0), SMALL)
    ensures Accepts(INHERITED, LIMITS, EMPTY, InsertsOf([SMALL, LARGE]))
    ensures !EvaluationAccepts(LIMITS, v, LARGE)
    ensures !AcceptsAll(LIMITS, Usage(0, 0, map[], 0), [SMALL, LARGE])
  {
    OrderDecides();
    var none, es := Usage(0, 0, map[], 0), [SMALL, LARGE];
    assert es[..1] == [SMALL] && [SMALL][..0] == [];
    assert UsageAfterAll(none, es[..1]) == UsageWith(none, SMALL);
  }

  /** Written to an empty table, the two entries leave topics that the projection does not list. */
  lemma ProjectionMissesTheRecount(f: Filter)
    ensures var ops := InsertsOf([SMALL, LARGE]);
            !Lists(ProjectedObject(INHERITED, EMPTY, ops).topics, Recount(Written(map[], ops), f).topicChars)
  {
    var es := [SMALL, LARGE];
    TheTopics();
    assert es[0] == SMALL;
    assert HasTopic(es, SMALL.topic);
    TouchedIff(es, SMALL.topic);
    AfterAt(INHERITED, EMPTY, InsertsOf(es), SMALL.topic);
  }
}
