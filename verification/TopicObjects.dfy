/**
  A JavaScript object used as a table from topics to numbers: its own
  properties in the order they are enumerated, over the names that every plain
  object inherits from Object.prototype.
 */
module TopicObjects {
  import opened Common

  /** A number, or what adding a number to an inherited property gives: a text or NaN, no number compares with it. */
  datatype Chars = Number(n: int) | NotNumber

  datatype Prop = Prop(key: string, value: Chars)

  type TopicObject = seq<Prop>

  /** The names on Object.prototype. What follows holds for any such set, since a platform may add to it. */
  const INHERITED: set<string> := {
    "constructor", "hasOwnProperty", "isPrototypeOf", "propertyIsEnumerable", "toLocaleString", "toString", "valueOf",
    "__defineGetter__", "__defineSetter__", "__lookupGetter__", "__lookupSetter__", PROTO}

  // ---------- array indices, which are enumerated first ----------

  predicate IsDigit(c: char) {
    '0' <= c <= '9'
  }

  function DigitsValue(s: string): nat
    requires forall i | 0 <= i < |s| :: IsDigit(s[i])
  {
    if s == "" then 0
    else
      assert IsDigit(s[|s| - 1]);
      10 * DigitsValue(s[..|s| - 1]) + (s[|s| - 1] as int - '0' as int)
  }

  predicate IsIndex(s: string) {
    && s != "" && (forall i | 0 <= i < |s| :: IsDigit(s[i]))
    && (s == "0" || s[0] != '0') && DigitsValue(s) < 0xFFFF_FFFF
  }

  lemma {:induction false} DecimalIsIndexText(n: nat)
    ensures var s := Decimal(n);
            && (forall i | 0 <= i < |s| :: IsDigit(s[i])) && DigitsValue(s) == n && (n == 0 <==> s[0] == '0')
            && (s[0] == '0' ==> s == "0")
  {
    var s := Decimal(n);
    if n < 10 {
      assert s[..0] == "" && s == [(48 + n) as char];
    } else {
      DecimalIsIndexText(n / 10);
      assert s[..|s| - 1] == Decimal(n / 10);
    }
  }

  lemma {:induction false} DigitsAreDecimal(s: string)
    requires s != "" && (forall i | 0 <= i < |s| :: IsDigit(s[i])) && (s == "0" || s[0] != '0')
    ensures s == Decimal(DigitsValue(s)) && (DigitsValue(s) == 0 ==> s == "0")
  {
    var before, last := s[..|s| - 1], s[|s| - 1];
    assert s == before + [last] && IsDigit(last);
    if before == "" {
      assert DigitsValue(s) == last as int - '0' as int;
    } else {
      assert before[0] == s[0];
      DigitsAreDecimal(before);
      assert DigitsValue(before) > 0;
      assert DigitsValue(s) == 10 * DigitsValue(before) + (last as int - '0' as int);
    }
  }

  /** The array indices are the numbers below 4294967295 in decimal. */
  lemma IndexIff(s: string)
    ensures IsIndex(s) <==> exists n: nat :: n < 4294967295 && s == Decimal(n)
  {
    if IsIndex(s) {
      DigitsAreDecimal(s);
    }
    if n: nat :| n < 4294967295 && s == Decimal(n) {
      DecimalIsIndexText(n);
    }
  }

  /** `__proto__` is among the inherited names, and no array index is. */
  ghost predicate InheritedNames(names: set<string>) {
    PROTO in names && forall k | k in names :: !IsIndex(k)
  }

  lemma InheritedIsSuch()
    ensures InheritedNames(INHERITED)
  {
    forall k | k in INHERITED
      ensures !IsIndex(k)
    {
      assert !IsDigit(k[0]);
    }
  }

  // ---------- reading and writing ----------

  /** The own property. */
  function Get(o: TopicObject, key: string): Option<Chars> {
    if o == [] then None else if o[0].key == key then Some(o[0].value) else Get(o[1..], key)
  }

  /** `o[key] ?? 0`: an inherited name yields a function, or Object.prototype itself. */
  function ReadOr0(names: set<string>, o: TopicObject, key: string): Chars {
    if Get(o, key).Some? then Get(o, key).value else if key in names then NotNumber else Number(0)
  }

  function Plus(a: Chars, b: Chars): Chars {
    if a.Number? && b.Number? then Number(a.n + b.n) else NotNumber
  }

  function Replaced(o: TopicObject, key: string, v: Chars): TopicObject {
    if o == [] then [] else if o[0].key == key then [Prop(key, v)] + o[1..] else [o[0]] + Replaced(o[1..], key, v)
  }

  /** Array indices go before the first greater index and before all other keys; other keys go last. */
  function Inserted(o: TopicObject, p: Prop): TopicObject {
    if o == [] then [p]
    else if IsIndex(p.key) && !(IsIndex(o[0].key) && DigitsValue(o[0].key) < DigitsValue(p.key)) then [p] + o
    else [o[0]] + Inserted(o[1..], p)
  }

  /**
    `o[key] = v` for a value that is no object: the setter of `__proto__` ignores it
    unless the object owns the key.
   */
  function Assign(o: TopicObject, key: string, v: Chars): TopicObject {
    if Get(o, key).Some? then Replaced(o, key, v) else if key == PROTO then o else Inserted(o, Prop(key, v))
  }

  /** `delete o[key]` */
  function Removed(o: TopicObject, key: string): TopicObject {
    if o == [] then [] else if o[0].key == key then Removed(o[1..], key) else [o[0]] + Removed(o[1..], key)
  }

  lemma {:induction false} GetReplaced(o: TopicObject, key: string, v: Chars, k: string)
    requires Get(o, key).Some?
    ensures Get(Replaced(o, key, v), k) == if k == key then Some(v) else Get(o, k)
  {
    if o[0].key == key {
      assert Replaced(o, key, v)[1..] == o[1..];
    } else {
      GetReplaced(o[1..], key, v, k);
      assert Replaced(o, key, v)[1..] == Replaced(o[1..], key, v);
    }
  }

  lemma {:induction false} GetInserted(o: TopicObject, p: Prop, k: string)
    requires Get(o, p.key).None?
    ensures Get(Inserted(o, p), k) == if k == p.key then Some(p.value) else Get(o, k)
  {
    if o == [] {
      assert [p][1..] == [];
    } else if Inserted(o, p)[0] == p && Inserted(o, p)[1..] == o {
    } else {
      GetInserted(o[1..], p, k);
      assert Inserted(o, p)[1..] == Inserted(o[1..], p);
    }
  }

  lemma GetAssigned(o: TopicObject, key: string, v: Chars, k: string)
    ensures Get(Assign(o, key, v), k)
         == if k == key && (Get(o, key).Some? || key != PROTO) then Some(v) else Get(o, k)
  {
    if Get(o, key).Some? {
      GetReplaced(o, key, v, k);
    } else if key != PROTO {
      GetInserted(o, Prop(key, v), k);
    }
  }

  lemma {:induction false} GetRemoved(o: TopicObject, key: string, k: string)
    ensures Get(Removed(o, key), k) == if k == key then None else Get(o, k)
  {
    if o != [] {
      GetRemoved(o[1..], key, k);
      if o[0].key != key {
        assert Removed(o, key)[1..] == Removed(o[1..], key);
      }
    }
  }

  // ---------- the keys that are no index ----------

  /** In order of enumeration, which for these is the order in which they were created. */
  function PlainKeys(o: TopicObject): seq<string> {
    if o == [] then [] else if IsIndex(o[0].key) then PlainKeys(o[1..]) else [o[0].key] + PlainKeys(o[1..])
  }

  function Without(keys: seq<string>, key: string): seq<string> {
    if keys == [] then []
    else if keys[0] == key then Without(keys[1..], key)
    else [keys[0]] + Without(keys[1..], key)
  }

  lemma {:induction false} PlainReplaced(o: TopicObject, key: string, v: Chars)
    ensures PlainKeys(Replaced(o, key, v)) == PlainKeys(o)
  {
    if o != [] {
      if o[0].key == key {
        assert Replaced(o, key, v)[1..] == o[1..];
      } else {
        PlainReplaced(o[1..], key, v);
        assert Replaced(o, key, v)[1..] == Replaced(o[1..], key, v);
      }
    }
  }

  lemma {:induction false} PlainInserted(o: TopicObject, p: Prop)
    ensures PlainKeys(Inserted(o, p)) == PlainKeys(o) + if IsIndex(p.key) then [] else [p.key]
  {
    if o == [] {
      assert [p][1..] == [];
    } else if IsIndex(p.key) && !(IsIndex(o[0].key) && DigitsValue(o[0].key) < DigitsValue(p.key)) {
      assert Inserted(o, p)[1..] == o;
    } else {
      PlainInserted(o[1..], p);
      assert Inserted(o, p)[1..] == Inserted(o[1..], p);
    }
  }

  lemma PlainAssigned(o: TopicObject, key: string, v: Chars)
    ensures PlainKeys(Assign(o, key, v))
         == PlainKeys(o) + if Get(o, key).Some? || key == PROTO || IsIndex(key) then [] else [key]
  {
    if Get(o, key).Some? {
      PlainReplaced(o, key, v);
    } else if key != PROTO {
      PlainInserted(o, Prop(key, v));
    }
  }

  lemma {:induction false} PlainRemoved(o: TopicObject, key: string)
    ensures PlainKeys(Removed(o, key)) == Without(PlainKeys(o), key)
  {
    if o != [] {
      PlainRemoved(o[1..], key);
      if o[0].key != key {
        assert Removed(o, key)[1..] == Removed(o[1..], key);
      }
      if !IsIndex(o[0].key) {
        assert PlainKeys(o)[1..] == PlainKeys(o[1..]);
      }
    }
  }

  lemma {:induction false} PlainKeysMembers(o: TopicObject, k: string)
    ensures k in PlainKeys(o) <==> !IsIndex(k) && Get(o, k).Some?
  {
    if o != [] {
      PlainKeysMembers(o[1..], k);
    }
  }

  // ---------- well-formed objects ----------

  /** Array indices come before all other keys. */
  predicate IndicesFirst(o: TopicObject) {
    forall i, j | 0 <= i < j < |o| && IsIndex(o[j].key) :: IsIndex(o[i].key)
  }

  predicate UniqueKeys(o: TopicObject) {
    forall i, j | 0 <= i < j < |o| :: o[i].key != o[j].key
  }

  lemma {:induction false} HasProp(o: TopicObject, k: string)
    ensures Get(o, k).Some? <==> exists i | 0 <= i < |o| :: o[i].key == k
    ensures Get(o, k).Some? ==> exists i | 0 <= i < |o| :: o[i] == Prop(k, Get(o, k).value)
  {
    if o != [] {
      HasProp(o[1..], k);
      if Get(o[1..], k).Some? {
        var i :| 0 <= i < |o[1..]| && o[1..][i] == Prop(k, Get(o[1..], k).value);
        assert o[i + 1] == o[1..][i];
      }
      if exists i | 0 <= i < |o| :: o[i].key == k {
        var i :| 0 <= i < |o| && o[i].key == k;
        assert i > 0 ==> o[1..][i - 1].key == k;
      }
    }
  }

  lemma {:induction false} GetAt(o: TopicObject, i: nat)
    requires UniqueKeys(o) && i < |o|
    ensures Get(o, o[i].key) == Some(o[i].value)
  {
    if i > 0 {
      assert o[0].key != o[i].key;
      GetAt(o[1..], i - 1);
    }
  }

  predicate NoIndices(o: TopicObject) {
    forall i | 0 <= i < |o| :: !IsIndex(o[i].key)
  }

  lemma IndicesFirstCons(p: Prop, o: TopicObject)
    ensures IndicesFirst([p] + o) <==> IndicesFirst(o) && (IsIndex(p.key) || NoIndices(o))
  {
    var all := [p] + o;
    if IndicesFirst(all) {
      forall i, j | 0 <= i < j < |o| && IsIndex(o[j].key)
        ensures IsIndex(o[i].key)
      {
        assert all[i + 1] == o[i] && all[j + 1] == o[j];
      }
      forall i | 0 <= i < |o| && IsIndex(o[i].key)
        ensures IsIndex(p.key)
      {
        assert all[0] == p && all[i + 1] == o[i];
      }
    }
  }

  lemma UniqueKeysCons(p: Prop, o: TopicObject)
    ensures UniqueKeys([p] + o) <==> UniqueKeys(o) && Get(o, p.key).None?
  {
    var all := [p] + o;
    HasProp(o, p.key);
    if UniqueKeys(all) {
      forall i, j | 0 <= i < j < |o|
        ensures o[i].key != o[j].key
      {
        assert all[i + 1] == o[i] && all[j + 1] == o[j];
      }
      forall i | 0 <= i < |o|
        ensures o[i].key != p.key
      {
        assert all[0] == p && all[i + 1] == o[i];
      }
    }
  }

  lemma NoIndicesCons(p: Prop, o: TopicObject)
    ensures NoIndices([p] + o) <==> !IsIndex(p.key) && NoIndices(o)
  {
    var all := [p] + o;
    if NoIndices(all) {
      forall i | 0 <= i < |o|
        ensures !IsIndex(o[i].key)
      {
        assert all[i + 1] == o[i];
      }
      assert all[0] == p;
    }
  }

  lemma {:induction false} RemovedNoIndices(o: TopicObject, key: string)
    requires NoIndices(o)
    ensures NoIndices(Removed(o, key))
  {
    if o != [] {
      assert o == [o[0]] + o[1..];
      NoIndicesCons(o[0], o[1..]);
      RemovedNoIndices(o[1..], key);
      NoIndicesCons(o[0], Removed(o[1..], key));
    }
  }

  lemma {:induction false} ReplacedKeeps(o: TopicObject, key: string, v: Chars)
    ensures |Replaced(o, key, v)| == |o| && forall i | 0 <= i < |o| :: Replaced(o, key, v)[i].key == o[i].key
  {
    if o != [] {
      ReplacedKeeps(o[1..], key, v);
    }
  }

  lemma {:induction false} RemovedKeeps(o: TopicObject, key: string)
    requires IndicesFirst(o) && UniqueKeys(o)
    ensures IndicesFirst(Removed(o, key)) && UniqueKeys(Removed(o, key))
  {
    if o != [] {
      assert o == [o[0]] + o[1..];
      IndicesFirstCons(o[0], o[1..]);
      UniqueKeysCons(o[0], o[1..]);
      RemovedKeeps(o[1..], key);
      if NoIndices(o[1..]) {
        RemovedNoIndices(o[1..], key);
      }
      GetRemoved(o[1..], key, o[0].key);
      IndicesFirstCons(o[0], Removed(o[1..], key));
      UniqueKeysCons(o[0], Removed(o[1..], key));
    }
  }

  lemma {:induction false} InsertedNoIndices(o: TopicObject, p: Prop)
    requires NoIndices(o) && !IsIndex(p.key)
    ensures NoIndices(Inserted(o, p))
  {
    if o != [] {
      InsertedNoIndices(o[1..], p);
    }
  }

  lemma {:induction false} InsertedKeeps(o: TopicObject, p: Prop)
    requires IndicesFirst(o) && UniqueKeys(o) && Get(o, p.key).None?
    ensures IndicesFirst(Inserted(o, p)) && UniqueKeys(Inserted(o, p))
  {
    if o == [] {
    } else if IsIndex(p.key) && !(IsIndex(o[0].key) && DigitsValue(o[0].key) < DigitsValue(p.key)) {
      IndicesFirstCons(p, o);
      UniqueKeysCons(p, o);
    } else {
      assert o == [o[0]] + o[1..];
      IndicesFirstCons(o[0], o[1..]);
      UniqueKeysCons(o[0], o[1..]);
      InsertedKeeps(o[1..], p);
      GetInserted(o[1..], p, o[0].key);
      if !IsIndex(o[0].key) {
        InsertedNoIndices(o[1..], p);
      }
      IndicesFirstCons(o[0], Inserted(o[1..], p));
      UniqueKeysCons(o[0], Inserted(o[1..], p));
    }
  }

  /** Assigning keeps the order of enumeration and the keys distinct. */
  lemma AssignKeeps(o: TopicObject, key: string, v: Chars)
    requires IndicesFirst(o) && UniqueKeys(o)
    ensures IndicesFirst(Assign(o, key, v)) && UniqueKeys(Assign(o, key, v))
  {
    if Get(o, key).Some? {
      ReplacedKeeps(o, key, v);
    } else if key != PROTO {
      InsertedKeeps(o, Prop(key, v));
    }
  }

  /** With no index among its keys, the first property is the first plain key. */
  lemma {:induction false} PlainKeysAll(o: TopicObject)
    requires NoIndices(o)
    ensures |PlainKeys(o)| == |o| && forall i | 0 <= i < |o| :: PlainKeys(o)[i] == o[i].key
  {
    if o != [] {
      assert forall i | 0 <= i < |o[1..]| :: o[1..][i] == o[i + 1];
      PlainKeysAll(o[1..]);
    }
  }
}
