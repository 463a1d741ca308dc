/**
  The items of a maintenance plan: the hash that pins them down, and the
  grouping of the destructive ones by fingerprint.
 */
module PlanItems {
  import opened Common
  import opened Sorting
  import opened TextOrder

  datatype Action = Merge | Supersede | Forget | Update | Retain

  datatype Risk = Low | Medium | High

  /** `fingerprint` is all that apply reads of the evidence; an expected revision that is no number is `None`. */
  datatype Item = Item(target: string, expected: Option<int>, action: Action, fingerprint: Option<string>, risk: Risk)

  ghost predicate DistinctTargets(items: seq<Item>) {
    forall i, j | 0 <= i < j < |items| :: items[i].target != items[j].target
  }

  function TargetList(items: seq<Item>): (r: seq<string>)
    ensures |r| == |items| && forall i | 0 <= i < |items| :: r[i] == items[i].target
  {
    if items == [] then [] else [items[0].target] + TargetList(items[1..])
  }

  // ---------- the plan hash ----------

  /** What is hashed of an item: everything but the evidence. */
  datatype Payload = Payload(target: string, expected: Option<int>, action: Action, risk: Risk)

  function PayloadOf(i: Item): Payload {
    Payload(i.target, i.expected, i.action, i.risk)
  }

  function Payloads(items: seq<Item>): (r: seq<Payload>)
    ensures |r| == |items| && forall k | 0 <= k < |items| :: r[k] == PayloadOf(items[k])
  {
    if items == [] then [] else [PayloadOf(items[0])] + Payloads(items[1..])
  }

  /** Two lists are hashed alike exactly when they agree, row by row, in target, revision, action and risk. */
  lemma PayloadsAgreeIff(a: seq<Item>, b: seq<Item>)
    ensures Payloads(a) == Payloads(b) <==>
              && |a| == |b|
              && forall k | 0 <= k < |a| ::
                   && a[k].target == b[k].target && a[k].expected == b[k].expected
                   && a[k].action == b[k].action && a[k].risk == b[k].risk
  {
    var p, q := Payloads(a), Payloads(b);
    if p == q {
      forall k | 0 <= k < |a|
        ensures PayloadOf(a[k]) == PayloadOf(b[k])
      {
        assert p[k] == q[k];
      }
    }
  }

  /** The SHA-256 of the canonical JSON, of which nothing is assumed. */
  type Sha = seq<Payload> -> string

  predicate JsBefore(a: Item, b: Item) {
    JsLess(a.target, b.target)
  }

  predicate SqlBefore(a: Item, b: Item) {
    SqlLess(a.target, b.target)
  }

  /** The order in which `create` hashes and inserts the items. */
  function CreateOrder(items: seq<Item>): (r: seq<Item>)
    ensures multiset(r) == multiset(items)
  {
    Sort(JsBefore, items)
  }

  /** The order in which SQLite returns the item rows: `ORDER BY target_memory_id`. */
  function ReadOrder(items: seq<Item>): (r: seq<Item>)
    ensures multiset(r) == multiset(items)
  {
    Sort(SqlBefore, items)
  }

  lemma TargetsOrder(items: seq<Item>)
    requires DistinctTargets(items)
    ensures Orders(JsBefore, items) && Orders(SqlBefore, items) && Distinct(items)
  {
    forall a, b, c | a in items && b in items && c in items
      ensures !JsBefore(a, a) && (a == b || JsBefore(a, b) || JsBefore(b, a))
      ensures JsBefore(a, b) && JsBefore(b, c) ==> JsBefore(a, c)
      ensures !SqlBefore(a, a) && (a == b || SqlBefore(a, b) || SqlBefore(b, a))
      ensures SqlBefore(a, b) && SqlBefore(b, c) ==> SqlBefore(a, c)
    {
      JsTotal(a.target, b.target, c.target);
      SqlTotal(a.target, b.target, c.target);
    }
  }

  /** The stored hash does not depend on the order the planner listed the items in. */
  lemma HashIgnoresInsertionOrder(a: seq<Item>, b: seq<Item>, sha: Sha)
    requires DistinctTargets(a) && multiset(a) == multiset(b)
    ensures sha(Payloads(CreateOrder(a))) == sha(Payloads(CreateOrder(b)))
  {
    TargetsOrder(a);
    SortIgnoresOrder(JsBefore, a, b);
  }

  ghost predicate HasInvertedPair(items: seq<Item>) {
    exists i, j | 0 <= i < |items| && 0 <= j < |items| :: Inverted(items[i].target, items[j].target)
  }

  lemma OrdersMeet(items: seq<Item>)
    requires DistinctTargets(items) && !HasInvertedPair(items)
    ensures ReadOrder(items) == CreateOrder(items)
  {
    var created := CreateOrder(items);
    TargetsOrder(items);
    SortSorts(JsBefore, items);
    SortSorts(SqlBefore, items);
    SameMembers(created, items);
    forall i, j | 0 <= i < j < |created|
      ensures SqlBefore(created[i], created[j])
    {
      assert created[i] in items && created[j] in items && JsBefore(created[i], created[j]);
      assert !JsBefore(created[j], created[j]);
      OrdersAgreeIff(created[i].target, created[j].target);
    }
    SameMembers(ReadOrder(items), items);
    SortedUnique(SqlBefore, ReadOrder(items), created);
  }

  lemma Position<T>(less: (T, T) -> bool, s: seq<T>, i: nat, j: nat)
    requires Sorted(less, s) && i < |s| && j < |s| && less(s[i], s[j]) && !less(s[j], s[i])
    ensures i < j
  {
  }

  lemma TargetDetermines(items: seq<Item>, x: Item, y: Item)
    requires DistinctTargets(items) && x in items && y in items
    ensures x.target == y.target ==> x == y
  {
  }

  lemma OrdersPart(items: seq<Item>, x: Item, y: Item)
    requires DistinctTargets(items) && x in items && y in items && JsBefore(x, y) && SqlBefore(y, x)
    ensures Payloads(ReadOrder(items)) != Payloads(CreateOrder(items))
  {
    var created, read := CreateOrder(items), ReadOrder(items);
    TargetsOrder(items);
    SortSorts(JsBefore, items);
    SortSorts(SqlBefore, items);
    SameMembers(created, items);
    SameMembers(read, items);
    var i :| 0 <= i < |created| && created[i] == x;
    var j :| 0 <= j < |created| && created[j] == y;
    assert !JsBefore(y, x) && !SqlBefore(x, y);
    Position(JsBefore, created, i, j);
    TargetDetermines(items, read[i], x);
    TargetDetermines(items, read[j], y);
    assert SqlBefore(read[i], read[j]);
    assert PayloadOf(read[i]) != PayloadOf(x) || PayloadOf(read[j]) != PayloadOf(y);
  }

  /**
    Hashing the rows as they are read back gives the payload that `create`
    hashed exactly when no two targets are ordered differently by JavaScript
    and by SQLite. Then the hashes agree whatever the hash function.
   */
  lemma RehashMatchesIff(items: seq<Item>)
    requires DistinctTargets(items)
    ensures Payloads(ReadOrder(items)) == Payloads(CreateOrder(items)) <==> !HasInvertedPair(items)
  {
    if HasInvertedPair(items) {
      var i, j :| 0 <= i < |items| && 0 <= j < |items| && Inverted(items[i].target, items[j].target);
      var x, y := items[i], items[j];
      CharsAgreeIff(x.target, y.target);
      OrdersAgreeIff(x.target, y.target);
      JsTotal(x.target, y.target, x.target);
      SqlTotal(x.target, y.target, x.target);
      if JsBefore(x, y) {
        OrdersPart(items, x, y);
      } else {
        JsTotal(y.target, x.target, y.target);
        SqlTotal(y.target, x.target, y.target);
        OrdersPart(items, y, x);
      }
    } else {
      OrdersMeet(items);
    }
  }

  /** Ids of characters below U+E000, so all of ASCII, never drift on their own. */
  lemma PlainIdsRehash(items: seq<Item>, sha: Sha)
    requires DistinctTargets(items)
    requires forall x | x in items :: forall i | 0 <= i < |x.target| :: x.target[i] as int < 0xE000
    ensures sha(Payloads(ReadOrder(items))) == sha(Payloads(CreateOrder(items)))
  {
    forall x, y | x in items && y in items
      ensures !Inverted(x.target, y.target)
    {
      NeverInverted(x.target, y.target);
    }
    assert !HasInvertedPair(items);
    RehashMatchesIff(items);
  }

  lemma SortOfTwo<T>(less: (T, T) -> bool, a: T, b: T)
    requires less(a, b) && !less(b, a)
    ensures Sort(less, [a, b]) == [a, b] && Sort(less, [b, a]) == [a, b]
  {
    assert [a, b][1..] == [b] && [b, a][1..] == [a] && [a][1..] == [] && [b][1..] == [];
    assert Sort(less, [b]) == [b] && Sort(less, [a]) == [a];
    assert Inserted(less, b, [a]) == [a] + Inserted(less, b, []);
  }

  /** An untampered plan over a fullwidth letter and an emoji: its rows are read back in the other order. */
  lemma DriftWithoutTampering()
    ensures var a := Item("\U{FF21}", Some(1), Retain, None, Low);
            var b := Item("\U{1F600}", Some(1), Retain, None, Low);
            CreateOrder([a, b]) == [b, a] && ReadOrder([a, b]) == [a, b]
  {
    var a := Item("\U{FF21}", Some(1), Retain, None, Low);
    var b := Item("\U{1F600}", Some(1), Retain, None, Low);
    LetterBeforeEmoji(a.target, b.target);
    SortOfTwo(JsBefore, b, a);
    SortOfTwo(SqlBefore, a, b);
  }

  lemma LetterBeforeEmoji(a: string, b: string)
    requires |a| == |b| == 1 && a[0] as int == 0xFF21 && b[0] as int == 0x1F600
    ensures SqlLess(a, b) && !SqlLess(b, a) && JsLess(b, a) && !JsLess(a, b)
  {
    EncodingsPrefixFree();
    Utf8Order(a[0], b[0]);
    Utf8Order(b[0], a[0]);
    LessByChars(Utf8, a, b);
    LessByChars(Utf8, b, a);
    CharsAgreeIff(a, b);
    OrdersAgreeIff(a, b);
    JsTotal(a, b, a);
  }

  // ---------- grouping by fingerprint ----------

  /** `proposed_actions.filter((a) => a.kind !== "retain")` */
  function Destructive(items: seq<Item>): (r: seq<Item>)
    ensures forall x :: x in r <==> x in items && x.action != Retain
    ensures |r| <= |items|
  {
    if items == [] then []
    else if items[0].action == Retain then Destructive(items[1..])
    else [items[0]] + Destructive(items[1..])
  }

  lemma {:induction false} DestructiveDistinct(items: seq<Item>)
    requires DistinctTargets(items)
    ensures DistinctTargets(Destructive(items))
  {
    if items != [] {
      DestructiveDistinct(items[1..]);
      forall x | x in Destructive(items[1..])
        ensures items[0].target != x.target
      {
        var k :| 0 <= k < |items[1..]| && items[1..][k] == x;
        assert items[k + 1] == x;
      }
    }
  }

  predicate Structured(items: seq<Item>) {
    forall i | 0 <= i < |items| :: items[i].fingerprint.Some?
  }

  /** The fingerprints in order of first appearance. */
  function Fingerprints(items: seq<Item>): seq<string>
    requires Structured(items)
  {
    if items == [] then []
    else
      var before, last := Fingerprints(items[..|items| - 1]), items[|items| - 1].fingerprint.value;
      if last in before then before else before + [last]
  }

  function GroupOf(items: seq<Item>, fingerprint: string): seq<Item> {
    if items == [] then []
    else
      var before, last := GroupOf(items[..|items| - 1], fingerprint), items[|items| - 1];
      if last.fingerprint == Some(fingerprint) then before + [last] else before
  }

  lemma {:induction false} GroupMembers(items: seq<Item>, fingerprint: string)
    ensures forall x :: x in GroupOf(items, fingerprint) <==> x in items && x.fingerprint == Some(fingerprint)
  {
    if items != [] {
      GroupMembers(items[..|items| - 1], fingerprint);
      assert items == items[..|items| - 1] + [items[|items| - 1]];
    }
  }

  lemma GroupOfNext(items: seq<Item>, item: Item, fingerprint: string)
    ensures GroupOf(items + [item], fingerprint)
         == GroupOf(items, fingerprint) + if item.fingerprint == Some(fingerprint) then [item] else []
  {
    assert (items + [item])[..|items|] == items;
  }

  lemma FingerprintsNext(items: seq<Item>, item: Item)
    requires Structured(items) && item.fingerprint.Some?
    ensures Fingerprints(items + [item])
         == Fingerprints(items) + if item.fingerprint.value in Fingerprints(items) then [] else [item.fingerprint.value]
  {
    assert (items + [item])[..|items|] == items;
  }

  /** `groupsByFingerprint`: the keys in insertion order and the list under each key. */
  datatype Groups = Groups(keys: seq<string>, lists: map<string, seq<Item>>)

  ghost predicate Grouped(groups: Groups, items: seq<Item>)
    requires Structured(items)
  {
    && groups.keys == Fingerprints(items)
    && (forall f :: f in groups.lists <==> f in groups.keys)
    && (forall f | f in groups.lists :: groups.lists[f] == GroupOf(items, f))
    && (forall f | f !in groups.lists :: GroupOf(items, f) == [])
  }

  /** `(groups.get(fingerprint) ?? []).push(item)` */
  function Added(groups: Groups, fingerprint: string, item: Item): Groups {
    if fingerprint in groups.lists
    then Groups(groups.keys, groups.lists[fingerprint := groups.lists[fingerprint] + [item]])
    else Groups(groups.keys + [fingerprint], groups.lists[fingerprint := [item]])
  }

  /** What the map holds under one fingerprint after the push. */
  lemma AddedAt(groups: Groups, items: seq<Item>, item: Item, f: string)
    requires Structured(items) && Grouped(groups, items) && item.fingerprint.Some?
    ensures var added := Added(groups, item.fingerprint.value, item);
            && (f in added.lists <==> f in added.keys)
            && (f in added.lists ==> added.lists[f] == GroupOf(items + [item], f))
            && (f !in added.lists ==> GroupOf(items + [item], f) == [])
  {
    GroupOfNext(items, item, f);
    assert f in groups.lists <==> f in groups.keys;
    assert f !in groups.lists ==> GroupOf(items, f) == [];
  }

  lemma AddedKeepsGrouped(groups: Groups, items: seq<Item>, item: Item)
    requires Structured(items) && Grouped(groups, items) && item.fingerprint.Some?
    ensures Structured(items + [item]) && Grouped(Added(groups, item.fingerprint.value, item), items + [item])
  {
    FingerprintsNext(items, item);
    forall f: string
      ensures var added := Added(groups, item.fingerprint.value, item);
              && (f in added.lists <==> f in added.keys)
              && (f in added.lists ==> added.lists[f] == GroupOf(items + [item], f))
              && (f !in added.lists ==> GroupOf(items + [item], f) == [])
    {
      AddedAt(groups, items, item, f);
    }
  }

  /** Stopping at the first item without a fingerprint. */
  predicate Broken(items: seq<Item>, at: Item) {
    at in items && at.fingerprint.None?
  }

  lemma NextPrefix(groups: Groups, items: seq<Item>, i: nat)
    requires i < |items| && items[i].fingerprint.Some?
    requires Structured(items[..i]) && Grouped(groups, items[..i])
    ensures Structured(items[..i + 1])
    ensures Grouped(Added(groups, items[i].fingerprint.value, items[i]), items[..i + 1])
  {
    var before := items[..i];
    assert items[..i + 1] == before + [items[i]];
    AddedKeepsGrouped(groups, before, items[i]);
  }

  /** The grouping loop, or the first item without a fingerprint. */
  method GroupByFingerprint(items: seq<Item>) returns (groups: Groups, unstructured: Option<Item>)
    ensures unstructured.None? ==> Structured(items) && Grouped(groups, items)
    ensures unstructured.Some? ==> Broken(items, unstructured.value)
  {
    groups := Groups([], map[]);
    unstructured := None;
    for i := 0 to |items|
      invariant Structured(items[..i]) && Grouped(groups, items[..i])
    {
      if items[i].fingerprint.None? {
        unstructured := Some(items[i]);
        return;
      }
      NextPrefix(groups, items, i);
      groups := Added(groups, items[i].fingerprint.value, items[i]);
    }
    assert items[..|items|] == items;
  }

  lemma {:induction false} FingerprintsComplete(items: seq<Item>)
    requires Structured(items)
    ensures Distinct(Fingerprints(items))
    ensures forall x | x in items :: x.fingerprint.value in Fingerprints(items)
    ensures forall f | f in Fingerprints(items) :: GroupOf(items, f) != []
    ensures forall f | f !in Fingerprints(items) :: GroupOf(items, f) == []
  {
    if items != [] {
      var before, last := items[..|items| - 1], items[|items| - 1];
      FingerprintsComplete(before);
      assert items == before + [last];
      FingerprintsNext(before, last);
      forall f: string
        ensures GroupOf(items, f) == GroupOf(before, f) + if last.fingerprint == Some(f) then [last] else []
      {
        GroupOfNext(before, last, f);
      }
    }
  }

  function Sizes(items: seq<Item>, keys: seq<string>): nat {
    if keys == [] then 0 else |GroupOf(items, keys[0])| + Sizes(items, keys[1..])
  }

  lemma {:induction false} SizesAfter(items: seq<Item>, item: Item, keys: seq<string>)
    requires Distinct(keys) && item.fingerprint.Some?
    ensures Sizes(items + [item], keys) == Sizes(items, keys) + if item.fingerprint.value in keys then 1 else 0
  {
    if keys != [] {
      SizesAfter(items, item, keys[1..]);
      GroupOfNext(items, item, keys[0]);
      assert keys == [keys[0]] + keys[1..] && keys[0] !in keys[1..];
    }
  }

  lemma {:induction false} SizesMore(items: seq<Item>, keys: seq<string>, key: string)
    ensures Sizes(items, keys + [key]) == Sizes(items, keys) + |GroupOf(items, key)|
  {
    if keys == [] {
      assert (keys + [key])[1..] == keys;
    } else {
      SizesMore(items, keys[1..], key);
      assert (keys + [key])[1..] == keys[1..] + [key];
    }
  }

  /** The groups hold every item exactly once: their sizes add up. */
  lemma {:induction false} GroupsPartition(items: seq<Item>)
    requires Structured(items)
    ensures Sizes(items, Fingerprints(items)) == |items|
  {
    if items != [] {
      var before, last := items[..|items| - 1], items[|items| - 1];
      var keys, f := Fingerprints(before), last.fingerprint.value;
      GroupsPartition(before);
      FingerprintsComplete(before);
      assert items == before + [last];
      FingerprintsNext(before, last);
      SizesAfter(before, last, keys);
      if f !in keys {
        SizesMore(items, keys, f);
        GroupOfNext(before, last, f);
      }
    }
  }
}
