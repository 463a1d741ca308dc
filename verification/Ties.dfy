/**
  Entries that tie in the candidate order: exactly when the assembler selects
  the same ones whatever the order of the tied ones.
 */
module AssemblyTies {
  import opened Common
  import opened Sorting
  import opened ContextAssembly

  // ---------- the selection loop from any state ----------

  /** The loop goes on over `entries`. */
  function Continue(s: Selection, entries: seq<Entry>, rule: Option<Rule>): Selection {
    if entries == [] then s
    else
      var before := Continue(s, entries[..|entries| - 1], rule);
      if before.items >= MaxItems(rule) then before else Consider(before, entries[|entries| - 1], rule)
  }

  lemma SelectedMore(entries: seq<Entry>, e: Entry, rule: Option<Rule>)
    ensures var before := Selected(entries, rule);
            Selected(entries + [e], rule)
            == if before.items >= MaxItems(rule) then before else Consider(before, e, rule)
  {
    assert (entries + [e])[..|entries|] == entries;
  }

  lemma {:induction false} SelectedSplit(a: seq<Entry>, b: seq<Entry>, rule: Option<Rule>)
    ensures Selected(a + b, rule) == Continue(Selected(a, rule), b, rule)
  {
    if b == [] {
      assert a + b == a;
    } else {
      var front, last := b[..|b| - 1], b[|b| - 1];
      SelectedSplit(a, front, rule);
      SelectedMore(a + front, last, rule);
      ContinueMore(Selected(a, rule), front, last, rule);
      assert b == front + [last];
      Assoc(a, front, [last]);
    }
  }

  lemma ContinueMore(s: Selection, entries: seq<Entry>, e: Entry, rule: Option<Rule>)
    ensures var before := Continue(s, entries, rule);
            Continue(s, entries + [e], rule)
            == if before.items >= MaxItems(rule) then before else Consider(before, e, rule)
  {
    assert (entries + [e])[..|entries|] == entries;
  }

  predicate IsRequired(e: Entry, rule: Option<Rule>) {
    e.id in Required(rule)
  }

  /** The entry would be taken if it came next. */
  predicate Leads(s: Selection, e: Entry, rule: Option<Rule>) {
    && s.items < MaxItems(rule) && PassesFilters(e, rule) && !(IsRequired(e, rule) && e.id == "")
    && (s.items > 0 && s.chars + Cost(e) > MaxChars(rule) ==> IsRequired(e, rule))
  }

  /** Those of the group that would be taken if they came first. */
  function Leading(s: Selection, entries: seq<Entry>, rule: Option<Rule>): seq<Entry> {
    if entries == [] then []
    else
      var before, last := Leading(s, entries[..|entries| - 1], rule), entries[|entries| - 1];
      if Leads(s, last, rule) then before + [last] else before
  }

  lemma {:induction false} LeadingMembers(s: Selection, entries: seq<Entry>, rule: Option<Rule>)
    ensures forall e :: e in Leading(s, entries, rule) <==> e in entries && Leads(s, e, rule)
    ensures DistinctIds(entries) ==> DistinctIds(Leading(s, entries, rule))
  {
    if entries != [] {
      var before, last := entries[..|entries| - 1], entries[|entries| - 1];
      LeadingMembers(s, before, rule);
      assert entries == before + [last];
      if DistinctIds(entries) {
        LastApart(before, last);
      }
    }
  }

  lemma LastApart(before: seq<Entry>, last: Entry)
    requires DistinctIds(before + [last])
    ensures DistinctIds(before) && forall e | e in before :: e.id != last.id
  {
    var all := before + [last];
    forall i, j | 0 <= i < j < |before|
      ensures before[i].id != before[j].id
    {
      assert all[i] == before[i] && all[j] == before[j];
    }
    forall e | e in before
      ensures e.id != last.id
    {
      var i :| 0 <= i < |before| && before[i] == e;
      assert all[i] == e && all[|before|] == last;
    }
  }

  /** They fit together: within the item cap, and within the character cap unless all are required or there is one. */
  ghost predicate FitTogether(s: Selection, leading: seq<Entry>, rule: Option<Rule>) {
    leading == [] ||
    (&& s.items + |leading| <= MaxItems(rule)
     && (|| (forall e | e in leading :: IsRequired(e, rule))
         || s.chars + CostOf(leading) <= MaxChars(rule)
         || (s.items == 0 && |leading| == 1)))
  }

  lemma FitWithout(s: Selection, leading: seq<Entry>, e: Entry, rule: Option<Rule>)
    requires FitTogether(s, leading + [e], rule)
    ensures FitTogether(s, leading, rule)
  {
    CostNext(leading, e);
    assert forall x | x in leading :: x in leading + [e];
  }

  /** What the loop has taken, as an account. */
  ghost predicate Took(s: Selection, after: Selection, taken: seq<Entry>) {
    && after.included == s.included + taken
    && after.items == s.items + |taken| && after.chars == s.chars + CostOf(taken)
  }

  lemma TakeOne(s: Selection, before: Selection, taken: seq<Entry>, e: Entry, rule: Option<Rule>)
    requires Took(s, before, taken) && Leads(s, e, rule) && FitTogether(s, taken + [e], rule)
    ensures before.items < MaxItems(rule) && Took(s, Consider(before, e, rule), taken + [e])
  {
    CostNext(taken, e);
    assert e in taken + [e];
    assert (s.included + taken) + [e] == s.included + (taken + [e]);
  }

  lemma SkipOne(s: Selection, before: Selection, taken: seq<Entry>, e: Entry, rule: Option<Rule>)
    requires Took(s, before, taken) && !Leads(s, e, rule) && before.items < MaxItems(rule)
    ensures Took(s, Consider(before, e, rule), taken)
  {
  }

  /** If the leading ones fit together, exactly these are taken, in whatever order the group comes. */
  lemma {:induction false} TakesLeading(s: Selection, entries: seq<Entry>, rule: Option<Rule>)
    requires FitTogether(s, Leading(s, entries, rule), rule)
    ensures Took(s, Continue(s, entries, rule), Leading(s, entries, rule))
  {
    if entries == [] {
      assert s.included + [] == s.included;
    } else {
      var prefix, last := entries[..|entries| - 1], entries[|entries| - 1];
      var before, taken := Continue(s, prefix, rule), Leading(s, prefix, rule);
      if Leads(s, last, rule) {
        FitWithout(s, taken, last, rule);
        TakesLeading(s, prefix, rule);
        TakeOne(s, before, taken, last, rule);
      } else {
        TakesLeading(s, prefix, rule);
        if before.items < MaxItems(rule) {
          SkipOne(s, before, taken, last, rule);
        }
      }
    }
  }

  // ---------- what any order takes ----------

  /** Only leading ones have been taken, and only up to the item cap. */
  ghost predicate OnlyLeading(s: Selection, entries: seq<Entry>, rule: Option<Rule>, taken: seq<Entry>) {
    && (forall e | e in taken :: e in entries && Leads(s, e, rule))
    && (DistinctIds(entries) ==> DistinctIds(taken))
    && (taken != [] ==> s.items + |taken| <= MaxItems(rule))
  }

  /** One turn takes nothing, or a leading entry. */
  lemma OneTurn(s: Selection, before: Selection, taken: seq<Entry>, e: Entry, rule: Option<Rule>)
    requires Took(s, before, taken) && before.items < MaxItems(rule)
    ensures Took(s, Consider(before, e, rule), taken)
            || (Leads(s, e, rule) && Took(s, Consider(before, e, rule), taken + [e]))
  {
    CostNext(taken, e);
    assert (s.included + taken) + [e] == s.included + (taken + [e]);
  }

  lemma OnlyLeadingMore(s: Selection, prefix: seq<Entry>, last: Entry, rule: Option<Rule>, taken: seq<Entry>)
    requires OnlyLeading(s, prefix, rule, taken)
    ensures OnlyLeading(s, prefix + [last], rule, taken)
    ensures Leads(s, last, rule) && s.items + |taken| < MaxItems(rule) ==>
              OnlyLeading(s, prefix + [last], rule, taken + [last])
  {
    assert forall e :: e in prefix + [last] <==> e in prefix || e == last;
    assert forall e :: e in taken + [last] <==> e in taken || e == last;
    if DistinctIds(prefix + [last]) {
      LastApart(prefix, last);
    }
  }

  lemma {:induction false} TakesOnlyLeading(s: Selection, entries: seq<Entry>, rule: Option<Rule>)
    returns (taken: seq<Entry>)
    ensures Took(s, Continue(s, entries, rule), taken) && OnlyLeading(s, entries, rule, taken)
  {
    if entries == [] {
      taken := [];
      assert s.included + [] == s.included;
    } else {
      var prefix, last := entries[..|entries| - 1], entries[|entries| - 1];
      taken := TakesOnlyLeading(s, prefix, rule);
      assert entries == prefix + [last];
      OnlyLeadingMore(s, prefix, last, rule, taken);
      var before := Continue(s, prefix, rule);
      if before.items < MaxItems(rule) {
        OneTurn(s, before, taken, last, rule);
        if !Took(s, Continue(s, entries, rule), taken) {
          taken := taken + [last];
        }
      }
    }
  }

  lemma {:induction false} IncludedStays(s: Selection, a: seq<Entry>, b: seq<Entry>, rule: Option<Rule>, e: Entry)
    requires e in Continue(s, a, rule).included
    ensures e in Continue(s, a + b, rule).included
  {
    if b == [] {
      assert a + b == a;
    } else {
      IncludedStays(s, a, b[..|b| - 1], rule, e);
      assert a + b == (a + b[..|b| - 1]) + [b[|b| - 1]];
      ContinueMore(s, a + b[..|b| - 1], b[|b| - 1], rule);
    }
  }

  /** A leading entry that comes first is taken. */
  lemma FirstIsTaken(s: Selection, e: Entry, rest: seq<Entry>, rule: Option<Rule>)
    requires Leads(s, e, rule)
    ensures e in Continue(s, [e] + rest, rule).included
  {
    assert [e][..0] == [];
    assert Continue(s, [e], rule) == Consider(s, e, rule);
    IncludedStays(s, [e], rest, rule, e);
  }

  /** The same members are taken in this order of the group as in that. */
  ghost predicate TakesSame(s: Selection, g: seq<Entry>, g': seq<Entry>, rule: Option<Rule>) {
    forall e :: e in Continue(s, g, rule).included <==> e in Continue(s, g', rule).included
  }

  ghost predicate GroupFixed(s: Selection, g: seq<Entry>, rule: Option<Rule>) {
    forall g' | SameSet(g, g') :: TakesSame(s, g, g', rule)
  }

  /** Nothing of the group has been taken before. */
  ghost predicate Apart(s: Selection, g: seq<Entry>) {
    forall e | e in g :: e !in s.included
  }

  function Removed(g: seq<Entry>, i: nat): seq<Entry>
    requires i < |g|
  {
    g[..i] + g[i + 1..]
  }

  lemma MovedSame(g: seq<Entry>, i: nat)
    requires DistinctIds(g) && i < |g|
    ensures SameSet(g, [g[i]] + Removed(g, i)) && SameSet(g, Removed(g, i) + [g[i]])
    ensures DistinctIds(Removed(g, i)) && forall e :: e in Removed(g, i) <==> e in g && e != g[i]
  {
    var rest := Removed(g, i);
    forall j | 0 <= j < |rest|
      ensures rest[j] == g[if j < i then j else j + 1]
    {
    }
    forall j | 0 <= j < |g| && j != i
      ensures g[j] in rest
    {
      assert rest[if j < i then j else j - 1] == g[j];
    }
  }

  /** If every order takes the same, each takes all leading ones. */
  lemma FixedTakesAll(s: Selection, g: seq<Entry>, rule: Option<Rule>, e: Entry)
    requires DistinctIds(g) && GroupFixed(s, g, rule) && e in g && Leads(s, e, rule)
    ensures e in Continue(s, g, rule).included
  {
    var i :| 0 <= i < |g| && g[i] == e;
    MovedSame(g, i);
    FirstIsTaken(s, e, Removed(g, i), rule);
    assert TakesSame(s, g, [e] + Removed(g, i), rule);
  }

  lemma SameLength(a: seq<Entry>, b: seq<Entry>)
    requires DistinctIds(a) && DistinctIds(b) && forall e :: e in a <==> e in b
    ensures |a| == |b| && CostOf(a) == CostOf(b)
  {
    CostIgnoresOrder(a, b);
  }

  /** Then what an order takes is the leading ones. */
  lemma FixedTakesLeading(s: Selection, g: seq<Entry>, g': seq<Entry>, rule: Option<Rule>) returns (taken: seq<Entry>)
    requires GroupFixed(s, g, rule) && SameSet(g, g') && Apart(s, g)
    ensures Took(s, Continue(s, g', rule), taken) && SameSet(taken, Leading(s, g, rule))
    ensures |taken| == |Leading(s, g, rule)| && CostOf(taken) == CostOf(Leading(s, g, rule))
    ensures taken != [] ==> s.items + |taken| <= MaxItems(rule)
  {
    taken := TakesOnlyLeading(s, g', rule);
    LeadingMembers(s, g, rule);
    forall e | e in Leading(s, g, rule)
      ensures e in taken
    {
      FixedTakesAll(s, g, rule, e);
      assert TakesSame(s, g, g', rule);
      assert e !in s.included;
    }
    SameLength(taken, Leading(s, g, rule));
  }

  lemma SameTail(base: seq<Entry>, a: seq<Entry>, b: seq<Entry>)
    ensures base + a == base + b <==> a == b
  {
    assert (base + a)[|base|..] == a && (base + b)[|base|..] == b;
  }

  /** An entry taken in the last turn fitted then. */
  lemma LastTurn(s: Selection, before: Selection, some: seq<Entry>, after: Selection, taken: seq<Entry>, e: Entry,
                 rule: Option<Rule>)
    requires Took(s, before, some) && Took(s, after, taken)
    requires after == if before.items >= MaxItems(rule) then before else Consider(before, e, rule)
    requires e in taken && e !in some && !IsRequired(e, rule)
    ensures taken == some + [e]
    ensures s.items + |some| > 0 ==> s.chars + CostOf(taken) <= MaxChars(rule)
  {
    CostNext(some, e);
    SameTail(s.included, taken, some);
    assert after.included == (s.included + some) + [e];
    Assoc(s.included, some, [e]);
    SameTail(s.included, taken, some + [e]);
  }

  /** And one that is not required, put last, is taken too, so all fit. */
  lemma LastFits(s: Selection, g: seq<Entry>, rule: Option<Rule>, e: Entry)
    requires GroupFixed(s, g, rule) && DistinctIds(g) && Apart(s, g)
    requires e in Leading(s, g, rule) && !IsRequired(e, rule) && (s.items > 0 || |Leading(s, g, rule)| > 1)
    ensures s.chars + CostOf(Leading(s, g, rule)) <= MaxChars(rule)
  {
    LeadingMembers(s, g, rule);
    var i :| 0 <= i < |g| && g[i] == e;
    var rest := Removed(g, i);
    MovedSame(g, i);
    var taken := FixedTakesLeading(s, g, rest + [e], rule);
    var some := TakesOnlyLeading(s, rest, rule);
    ContinueMore(s, rest, e, rule);
    assert e !in some;
    LastTurn(s, Continue(s, rest, rule), some, Continue(s, rest + [e], rule), taken, e, rule);
  }

  /** Every order of a group takes the same exactly when its leading entries fit together. */
  lemma GroupFixedIff(s: Selection, g: seq<Entry>, rule: Option<Rule>)
    requires DistinctIds(g) && Apart(s, g)
    ensures GroupFixed(s, g, rule) <==> FitTogether(s, Leading(s, g, rule), rule)
  {
    var leading := Leading(s, g, rule);
    if FitTogether(s, leading, rule) {
      forall g' | SameSet(g, g')
        ensures TakesSame(s, g, g', rule)
      {
        OtherOrderFits(s, g, g', rule);
        TakesLeading(s, g, rule);
        TakesLeading(s, g', rule);
        LeadingMembers(s, g, rule);
        LeadingMembers(s, g', rule);
      }
    }
    if GroupFixed(s, g, rule) && leading != [] {
      var taken := FixedTakesLeading(s, g, g, rule);
      if !(forall e | e in leading :: IsRequired(e, rule)) && !(s.items == 0 && |leading| == 1) {
        var e :| e in leading && !IsRequired(e, rule);
        LastFits(s, g, rule, e);
      }
    }
  }

  lemma OtherOrderFits(s: Selection, g: seq<Entry>, g': seq<Entry>, rule: Option<Rule>)
    requires SameSet(g, g') && FitTogether(s, Leading(s, g, rule), rule)
    ensures FitTogether(s, Leading(s, g', rule), rule)
    ensures |Leading(s, g, rule)| == |Leading(s, g', rule)|
    ensures CostOf(Leading(s, g, rule)) == CostOf(Leading(s, g', rule))
  {
    LeadingMembers(s, g, rule);
    LeadingMembers(s, g', rule);
    SameLength(Leading(s, g, rule), Leading(s, g', rule));
  }

  // ---------- the whole list of candidates ----------

  /** No entry comes after one that the comparison puts behind it. */
  ghost predicate Arranged(p: seq<Entry>) {
    forall i, j | 0 <= i < j < |p| :: !Before(p[j], p[i])
  }

  /** How many entries at the end tie with the last. */
  function RunLength(p: seq<Entry>): (n: nat)
    requires p != []
    ensures 1 <= n <= |p|
  {
    if |p| > 1 && SameKey(p[|p| - 2], p[|p| - 1]) then 1 + RunLength(p[..|p| - 1]) else 1
  }

  function Front(p: seq<Entry>): (r: seq<Entry>)
    requires p != []
    ensures |r| < |p|
  {
    p[..|p| - RunLength(p)]
  }

  function Back(p: seq<Entry>): seq<Entry>
    requires p != []
  {
    p[|p| - RunLength(p)..]
  }

  lemma {:induction false} BackTies(p: seq<Entry>, i: nat)
    requires Arranged(p) && i < |p|
    ensures SameKey(p[i], p[|p| - 1]) <==> i >= |p| - RunLength(p)
  {
    if i < |p| - 1 {
      var shorter := p[..|p| - 1];
      assert Arranged(shorter);
      BackTies(shorter, i);
      if !SameKey(p[|p| - 2], p[|p| - 1]) {
        BeforeLast(p, i);
      }
    }
  }

  /** With a gap before the last entry, no earlier one ties with it. */
  lemma BeforeLast(p: seq<Entry>, i: nat)
    requires Arranged(p) && i < |p| - 1 && !SameKey(p[|p| - 2], p[|p| - 1])
    ensures !SameKey(p[i], p[|p| - 1])
  {
    assert !Before(p[|p| - 1], p[|p| - 2]) && !Before(p[|p| - 1], p[i]);
    assert i < |p| - 2 ==> !Before(p[|p| - 2], p[i]);
  }

  /** Wherever a group of ties begins, its leading entries fit together with what has been taken. */
  ghost predicate Stable(p: seq<Entry>, rule: Option<Rule>)
    decreases |p|
  {
    p == [] ||
    (&& Stable(Front(p), rule)
     && var s := Selected(Front(p), rule);
        FitTogether(s, Leading(s, Back(p), rule), rule))
  }

  lemma HalvesDistinct(p: seq<Entry>, n: nat)
    requires Arranged(p) && DistinctIds(p) && n <= |p|
    ensures Arranged(p[..n]) && DistinctIds(p[..n]) && DistinctIds(p[n..])
  {
    assert forall i | 0 <= i < |p[n..]| :: p[n..][i] == p[n + i];
  }

  lemma HalfMember(p: seq<Entry>, e: Entry)
    requires p != [] && Arranged(p)
    ensures e in Back(p) <==> e in p && SameKey(e, p[|p| - 1])
    ensures e in Front(p) <==> e in p && !SameKey(e, p[|p| - 1])
  {
    var n := |p| - RunLength(p);
    if e in p {
      var i :| 0 <= i < |p| && p[i] == e;
      BackTies(p, i);
      if i >= n {
        assert Back(p)[i - n] == e;
      } else {
        assert Front(p)[i] == e;
      }
    }
    if e in Back(p) {
      var i :| 0 <= i < |Back(p)| && Back(p)[i] == e;
      BackTies(p, n + i);
    }
    if e in Front(p) {
      var i :| 0 <= i < |Front(p)| && Front(p)[i] == e;
      BackTies(p, i);
    }
  }

  lemma Halves(p: seq<Entry>)
    requires p != [] && Arranged(p) && DistinctIds(p)
    ensures p == Front(p) + Back(p) && Back(p) != []
    ensures Arranged(Front(p)) && DistinctIds(Front(p)) && DistinctIds(Back(p))
    ensures forall e :: e in Back(p) <==> e in p && SameKey(e, p[|p| - 1])
    ensures forall e :: e in Front(p) <==> e in p && !SameKey(e, p[|p| - 1])
  {
    HalvesDistinct(p, |p| - RunLength(p));
    forall e
      ensures e in Back(p) <==> e in p && SameKey(e, p[|p| - 1])
      ensures e in Front(p) <==> e in p && !SameKey(e, p[|p| - 1])
    {
      HalfMember(p, e);
    }
  }

  /** Two arrangements of the same entries end with the same group. */
  lemma SameHalves(p: seq<Entry>, q: seq<Entry>)
    requires p != [] && q != [] && Arranged(p) && Arranged(q) && SameSet(p, q)
    ensures SameSet(Front(p), Front(q)) && SameSet(Back(p), Back(q))
  {
    Halves(p);
    Halves(q);
    var x, y := p[|p| - 1], q[|q| - 1];
    assert x in q && y in p;
    LastIsLeast(p, y);
    LastIsLeast(q, x);
    assert SameKey(x, y);
  }

  lemma LastIsLeast(p: seq<Entry>, e: Entry)
    requires p != [] && Arranged(p) && e in p
    ensures !Before(p[|p| - 1], e)
  {
    var i :| 0 <= i < |p| && p[i] == e;
  }

  /** The two arrangements leave the same account, with the same entries taken. */
  ghost predicate SameAccount(s: Selection, t: Selection) {
    && s.items == t.items && s.chars == t.chars
    && forall e :: e in s.included <==> e in t.included
  }

  lemma SameLeading(s: Selection, t: Selection, g: seq<Entry>, rule: Option<Rule>)
    requires SameAccount(s, t)
    ensures Leading(s, g, rule) == Leading(t, g, rule)
    decreases |g|
  {
    if g != [] {
      SameLeading(s, t, g[..|g| - 1], rule);
    }
  }

  lemma GroupAccount(s: Selection, t: Selection, g: seq<Entry>, g': seq<Entry>, rule: Option<Rule>)
    requires SameAccount(s, t) && SameSet(g, g') && FitTogether(s, Leading(s, g, rule), rule)
    ensures SameAccount(Continue(s, g, rule), Continue(t, g', rule))
  {
    SameLeading(s, t, g', rule);
    OtherOrderFits(s, g, g', rule);
    TakesLeading(s, g, rule);
    TakesLeading(t, g', rule);
    LeadingMembers(s, g, rule);
    LeadingMembers(s, g', rule);
  }

  /** In a stable list the order of the ties changes nothing. */
  lemma {:induction false} StableTakesSame(p: seq<Entry>, q: seq<Entry>, rule: Option<Rule>)
    requires Arranged(p) && Arranged(q) && SameSet(p, q) && Stable(p, rule)
    ensures SameAccount(Selected(p, rule), Selected(q, rule))
    decreases |p|
  {
    SameLength(p, q);
    if p != [] {
      Halves(p);
      Halves(q);
      SameHalves(p, q);
      StableTakesSame(Front(p), Front(q), rule);
      SelectedSplit(Front(p), Back(p), rule);
      SelectedSplit(Front(q), Back(q), rule);
      GroupAccount(Selected(Front(p), rule), Selected(Front(q), rule), Back(p), Back(q), rule);
    }
  }

  /** The same entries are selected from these two lists. */
  ghost predicate SelectsSame(p: seq<Entry>, q: seq<Entry>, rule: Option<Rule>) {
    forall e :: e in Selected(p, rule).included <==> e in Selected(q, rule).included
  }

  /** Every arrangement of these entries selects the same ones. */
  ghost predicate SelectionFixed(p: seq<Entry>, rule: Option<Rule>) {
    forall q | Arranged(q) && SameSet(p, q) :: SelectsSame(p, q, rule)
  }

  lemma IncludedListed(p: seq<Entry>, rule: Option<Rule>)
    ensures forall e | e in Selected(p, rule).included :: e in p
  {
    SelectionIsContinue(p, rule);
    var taken := TakesOnlyLeading(NOTHING, p, rule);
    assert NOTHING.included + taken == taken;
  }

  lemma SelectionIsContinue(p: seq<Entry>, rule: Option<Rule>)
    ensures Selected(p, rule) == Continue(NOTHING, p, rule)
  {
    SelectedSplit([], p, rule);
    assert [] + p == p;
  }

  lemma JoinArranged(front: seq<Entry>, back: seq<Entry>, p: seq<Entry>)
    requires p != [] && Arranged(p) && DistinctIds(p) && Arranged(front)
    requires SameSet(front, Front(p)) && SameSet(back, Back(p))
    ensures Arranged(front + back) && SameSet(p, front + back)
  {
    Halves(p);
    var q, x := front + back, p[|p| - 1];
    forall i, j | 0 <= i < j < |q|
      ensures !Before(q[j], q[i])
    {
      if j >= |front| {
        assert q[j] in back && SameKey(q[j], x);
        assert q[i] in p by {
          assert i < |front| ==> q[i] in front;
          assert i >= |front| ==> q[i] in back;
        }
        LastIsLeast(p, q[i]);
      }
    }
    DistinctJoin(front, back, p);
  }

  lemma DistinctJoin(front: seq<Entry>, back: seq<Entry>, p: seq<Entry>)
    requires p != [] && Arranged(p) && DistinctIds(p)
    requires SameSet(front, Front(p)) && SameSet(back, Back(p))
    ensures SameSet(p, front + back)
  {
    Halves(p);
    var q, x := front + back, p[|p| - 1];
    forall i, j | 0 <= i < j < |q|
      ensures q[i].id != q[j].id
    {
      if i < |front| && j >= |front| {
        assert q[i] in front && q[j] in back;
        assert q[i] in p && q[j] in p && q[i] != q[j];
      }
    }
  }

  /** If the selection is fixed, so is that from the front. */
  lemma FrontFixed(p: seq<Entry>, rule: Option<Rule>)
    requires p != [] && Arranged(p) && DistinctIds(p) && SelectionFixed(p, rule)
    ensures SelectionFixed(Front(p), rule)
  {
    Halves(p);
    forall f | Arranged(f) && SameSet(Front(p), f)
      ensures SelectsSame(Front(p), f, rule)
    {
      FrontSame(p, f, rule);
    }
  }

  lemma FrontSame(p: seq<Entry>, f: seq<Entry>, rule: Option<Rule>)
    requires p != [] && Arranged(p) && DistinctIds(p) && SelectionFixed(p, rule)
    requires Arranged(f) && SameSet(Front(p), f)
    ensures SelectsSame(Front(p), f, rule)
  {
    Halves(p);
    var q := f + Back(p);
    JoinArranged(f, Back(p), p);
    assert SelectsSame(p, q, rule);
    SelectedSplit(Front(p), Back(p), rule);
    SelectedSplit(f, Back(p), rule);
    var one := TakesOnlyLeading(Selected(Front(p), rule), Back(p), rule);
    var two := TakesOnlyLeading(Selected(f, rule), Back(p), rule);
    IncludedListed(Front(p), rule);
    IncludedListed(f, rule);
    forall e: Entry
      ensures e in Selected(Front(p), rule).included <==> e in Selected(f, rule).included
    {
      assert e in Selected(p, rule).included <==> e in Selected(q, rule).included;
      assert e in one ==> e in Back(p);
      assert e in two ==> e in Back(p);
    }
  }

  /** And the last group is fixed where it begins. */
  lemma BackFixed(p: seq<Entry>, rule: Option<Rule>)
    requires p != [] && Arranged(p) && DistinctIds(p) && SelectionFixed(p, rule)
    ensures GroupFixed(Selected(Front(p), rule), Back(p), rule)
    ensures Apart(Selected(Front(p), rule), Back(p))
  {
    Halves(p);
    var s := Selected(Front(p), rule);
    IncludedListed(Front(p), rule);
    SelectedSplit(Front(p), Back(p), rule);
    forall g | SameSet(Back(p), g)
      ensures TakesSame(s, Back(p), g, rule)
    {
      JoinArranged(Front(p), g, p);
      assert SelectsSame(p, Front(p) + g, rule);
      SelectedSplit(Front(p), g, rule);
    }
  }

  /** Over all orders of the tied entries the same ones are selected exactly when the list is stable. */
  lemma {:induction false} SelectionFixedIff(p: seq<Entry>, rule: Option<Rule>)
    requires Arranged(p) && DistinctIds(p)
    ensures SelectionFixed(p, rule) <==> Stable(p, rule)
    decreases |p|
  {
    if Stable(p, rule) {
      forall q | Arranged(q) && SameSet(p, q)
        ensures SelectsSame(p, q, rule)
      {
        StableTakesSame(p, q, rule);
      }
    }
    if SelectionFixed(p, rule) && p != [] {
      Halves(p);
      FrontFixed(p, rule);
      SelectionFixedIff(Front(p), rule);
      BackFixed(p, rule);
      GroupFixedIff(Selected(Front(p), rule), Back(p), rule);
    }
  }

  // ---------- the listing behind the candidates ----------

  lemma ArrangedCons(y: Entry, t: seq<Entry>)
    ensures Arranged([y] + t) <==> Arranged(t) && forall e | e in t :: !Before(e, y)
  {
    var all := [y] + t;
    if Arranged(all) {
      forall i, j | 0 <= i < j < |t|
        ensures !Before(t[j], t[i])
      {
        assert all[i + 1] == t[i] && all[j + 1] == t[j];
      }
      forall e | e in t
        ensures !Before(e, y)
      {
        var j :| 0 <= j < |t| && t[j] == e;
        assert all[0] == y && all[j + 1] == e;
      }
    }
    if Arranged(t) && forall e | e in t :: !Before(e, y) {
      forall i, j | 0 <= i < j < |all|
        ensures !Before(all[j], all[i])
      {
        assert all[j] == t[j - 1] && all[j] in t;
      }
    }
  }

  lemma {:induction false} InsertedArranged(x: Entry, s: seq<Entry>)
    requires Arranged(s)
    ensures Arranged(Inserted(ComesFirst, x, s))
  {
    if s == [] {
    } else {
      assert s == [s[0]] + s[1..];
      ArrangedCons(s[0], s[1..]);
      if ComesFirst(s[0], x) {
        InsertedArranged(x, s[1..]);
        var rest := Inserted(ComesFirst, x, s[1..]);
        forall e | e in rest
          ensures !Before(e, s[0])
        {
          assert e in multiset(rest) && (e == x || e in multiset(s[1..]));
        }
        ArrangedCons(s[0], rest);
      } else {
        assert Before(x, s[0]);
        forall e | e in s
          ensures !Before(e, x)
        {
        }
        ArrangedCons(x, s);
      }
    }
  }

  lemma {:induction false} SortArranged(x: seq<Entry>)
    ensures Arranged(Sort(ComesFirst, x))
  {
    if x != [] {
      SortArranged(x[1..]);
      InsertedArranged(x[0], Sort(ComesFirst, x[1..]));
    }
  }

  lemma {:induction false} InsertedLast(x: Entry, s: seq<Entry>)
    requires forall y | y in s :: ComesFirst(y, x)
    ensures Inserted(ComesFirst, x, s) == s + [x]
  {
    if s != [] {
      InsertedLast(x, s[1..]);
    }
  }

  function Reversed(q: seq<Entry>): (r: seq<Entry>)
    ensures |r| == |q| && forall e :: e in r <==> e in q
  {
    if q == [] then []
    else
      assert q == q[..|q| - 1] + [q[|q| - 1]];
      [q[|q| - 1]] + Reversed(q[..|q| - 1])
  }

  lemma LastComesLast(front: seq<Entry>, last: Entry)
    requires Arranged(front + [last])
    ensures Arranged(front) && forall y | y in front :: ComesFirst(y, last)
  {
    var q := front + [last];
    forall i, j | 0 <= i < j < |front|
      ensures !Before(front[j], front[i])
    {
      assert q[i] == front[i] && q[j] == front[j];
    }
    forall y | y in front
      ensures ComesFirst(y, last)
    {
      var i :| 0 <= i < |front| && front[i] == y;
      assert q[i] == y && q[|front|] == last;
    }
  }

  lemma SortCons(x: Entry, s: seq<Entry>)
    ensures Sort(ComesFirst, [x] + s) == Inserted(ComesFirst, x, Sort(ComesFirst, s))
  {
    assert ([x] + s)[1..] == s;
  }

  /** Any arrangement comes out if the entries are listed in reverse. */
  lemma {:induction false} ReverseSorts(q: seq<Entry>)
    requires Arranged(q)
    ensures Sort(ComesFirst, Reversed(q)) == q
  {
    if q != [] {
      var front, last := q[..|q| - 1], q[|q| - 1];
      assert q == front + [last];
      LastComesLast(front, last);
      ReverseSorts(front);
      SortCons(last, Reversed(front));
      InsertedLast(last, front);
    }
  }

  lemma {:induction false} ReversedDistinct(q: seq<Entry>)
    requires DistinctIds(q)
    ensures DistinctIds(Reversed(q))
  {
    if q != [] {
      var front, last := q[..|q| - 1], q[|q| - 1];
      assert q == front + [last];
      LastApart(front, last);
      ReversedDistinct(front);
    }
  }

  lemma EligibleLast(before: seq<Entry>, last: Entry, loadout: Loadout, rule: Option<Rule>, clearance: Sensitivity)
    ensures EligibleOf(before + [last], loadout, rule, clearance)
         == EligibleOf(before, loadout, rule, clearance)
            + if Eligible(last, loadout, rule, clearance) then [last] else []
  {
    assert (before + [last])[..|before|] == before;
  }

  lemma {:induction false} EligibleJoin(a: seq<Entry>, b: seq<Entry>, loadout: Loadout, rule: Option<Rule>,
                                        clearance: Sensitivity)
    ensures EligibleOf(a + b, loadout, rule, clearance)
         == EligibleOf(a, loadout, rule, clearance) + EligibleOf(b, loadout, rule, clearance)
  {
    if b == [] {
      assert a + b == a;
    } else {
      EligibleJoin(a, b[..|b| - 1], loadout, rule, clearance);
      assert (a + b)[..|a + b| - 1] == a + b[..|b| - 1];
    }
  }

  lemma {:induction false} AllEligible(a: seq<Entry>, loadout: Loadout, rule: Option<Rule>, clearance: Sensitivity)
    requires forall e | e in a :: Eligible(e, loadout, rule, clearance)
    ensures EligibleOf(a, loadout, rule, clearance) == a
  {
    if a != [] {
      var before, last := a[..|a| - 1], a[|a| - 1];
      assert a == before + [last];
      AllEligible(before, loadout, rule, clearance);
      EligibleLast(before, last, loadout, rule, clearance);
    }
  }

  function Ineligible(a: seq<Entry>, loadout: Loadout, rule: Option<Rule>, clearance: Sensitivity): seq<Entry> {
    if a == [] then []
    else
      var before, last := Ineligible(a[..|a| - 1], loadout, rule, clearance), a[|a| - 1];
      if Eligible(last, loadout, rule, clearance) then before else before + [last]
  }

  lemma {:induction false} IneligibleMembers(a: seq<Entry>, loadout: Loadout, rule: Option<Rule>,
                                             clearance: Sensitivity)
    ensures forall e :: e in Ineligible(a, loadout, rule, clearance) <==>
              e in a && !Eligible(e, loadout, rule, clearance)
  {
    if a != [] {
      IneligibleMembers(a[..|a| - 1], loadout, rule, clearance);
      assert a == a[..|a| - 1] + [a[|a| - 1]];
    }
  }

  lemma {:induction false} IneligibleDistinct(a: seq<Entry>, loadout: Loadout, rule: Option<Rule>,
                                              clearance: Sensitivity)
    requires DistinctIds(a)
    ensures DistinctIds(Ineligible(a, loadout, rule, clearance))
  {
    if a != [] {
      var before, last := a[..|a| - 1], a[|a| - 1];
      assert a == before + [last];
      LastApart(before, last);
      IneligibleDistinct(before, loadout, rule, clearance);
      IneligibleMembers(before, loadout, rule, clearance);
    }
  }

  lemma {:induction false} NoneEligible(a: seq<Entry>, loadout: Loadout, rule: Option<Rule>, clearance: Sensitivity)
    requires forall e | e in a :: !Eligible(e, loadout, rule, clearance)
    ensures EligibleOf(a, loadout, rule, clearance) == []
  {
    if a != [] {
      var before, last := a[..|a| - 1], a[|a| - 1];
      assert a == before + [last];
      NoneEligible(before, loadout, rule, clearance);
      EligibleLast(before, last, loadout, rule, clearance);
    }
  }

  lemma CandidatesArranged(active: seq<Entry>, loadout: Loadout, rule: Option<Rule>, clearance: Sensitivity)
    requires DistinctIds(active)
    ensures var p := Candidates(active, loadout, rule, clearance);
            && Arranged(p) && DistinctIds(p)
            && forall e :: e in p <==> e in active && Eligible(e, loadout, rule, clearance)
  {
    var x := EligibleOf(active, loadout, rule, clearance);
    EligibleMembers(active, loadout, rule, clearance);
    SortArranged(x);
    SameMembers(Sort(ComesFirst, x), x);
    IdsKept(x, Sort(ComesFirst, x));
  }

  /** A listing of the same entries from which the candidates come out in this arrangement. */
  lemma ListedSo(active: seq<Entry>, q: seq<Entry>, loadout: Loadout, rule: Option<Rule>, clearance: Sensitivity)
    returns (b: seq<Entry>)
    requires DistinctIds(active) && Arranged(q) && SameSet(Candidates(active, loadout, rule, clearance), q)
    ensures SameSet(active, b) && Candidates(b, loadout, rule, clearance) == q
  {
    CandidatesArranged(active, loadout, rule, clearance);
    var rest := Ineligible(active, loadout, rule, clearance);
    b := Reversed(q) + rest;
    IneligibleMembers(active, loadout, rule, clearance);
    IneligibleDistinct(active, loadout, rule, clearance);
    NoneEligible(rest, loadout, rule, clearance);
    AllEligible(Reversed(q), loadout, rule, clearance);
    EligibleJoin(Reversed(q), rest, loadout, rule, clearance);
    assert Reversed(q) + [] == Reversed(q);
    ReverseSorts(q);
    ReversedDistinct(q);
    JoinedDistinct(Reversed(q), rest, active);
  }

  lemma JoinedDistinct(a: seq<Entry>, b: seq<Entry>, all: seq<Entry>)
    requires DistinctIds(a) && DistinctIds(b) && DistinctIds(all)
    requires forall e | e in a :: e in all && e !in b
    requires forall e | e in b :: e in all
    ensures DistinctIds(a + b)
  {
    forall i, j | 0 <= i < j < |a + b|
      ensures (a + b)[i].id != (a + b)[j].id
    {
      if i < |a| && j >= |a| {
        assert (a + b)[i] in a && (a + b)[j] in b;
      }
    }
  }

  /**
    Every order in which the same rows are listed gives the same selection
    exactly when, wherever a group of tied candidates begins, those of its
    entries that would be taken first all fit together.
   */
  lemma TiesHarmlessIff(active: seq<Entry>, loadout: Loadout, rule: Option<Rule>, clearance: Sensitivity)
    requires DistinctIds(active)
    ensures var p := Candidates(active, loadout, rule, clearance);
            (forall b | SameSet(active, b) :: SelectsSame(p, Candidates(b, loadout, rule, clearance), rule))
            <==> Stable(p, rule)
  {
    var p := Candidates(active, loadout, rule, clearance);
    CandidatesArranged(active, loadout, rule, clearance);
    SelectionFixedIff(p, rule);
    if Stable(p, rule) {
      forall b | SameSet(active, b)
        ensures SelectsSame(p, Candidates(b, loadout, rule, clearance), rule)
      {
        CandidatesArranged(b, loadout, rule, clearance);
      }
    }
    if forall b | SameSet(active, b) :: SelectsSame(p, Candidates(b, loadout, rule, clearance), rule) {
      forall q | Arranged(q) && SameSet(p, q)
        ensures SelectsSame(p, q, rule)
      {
        var b := ListedSo(active, q, loadout, rule, clearance);
      }
    }
  }

  /** And then the text depends on the set of eligible entries only, not on their order nor on other rows. */
  lemma StableText(active: seq<Entry>, b: seq<Entry>, loadout: Loadout, rule: Option<Rule>, clearance: Sensitivity)
    requires DistinctIds(active) && DistinctIds(b) && SameEligible(active, b, loadout, rule, clearance)
    requires Stable(Candidates(active, loadout, rule, clearance), rule)
    ensures BootstrapText(active, loadout, rule, clearance) == BootstrapText(b, loadout, rule, clearance)
  {
    var p, q := Candidates(active, loadout, rule, clearance), Candidates(b, loadout, rule, clearance);
    CandidatesArranged(active, loadout, rule, clearance);
    CandidatesArranged(b, loadout, rule, clearance);
    StableTakesSame(p, q, rule);
    IncludedDistinct(p, rule);
    IncludedDistinct(q, rule);
    TextIgnoresOrder(Selected(p, rule).included, Selected(q, rule).included);
  }

  lemma IncludedDistinct(p: seq<Entry>, rule: Option<Rule>)
    requires DistinctIds(p)
    ensures DistinctIds(Selected(p, rule).included)
  {
    SelectionIsContinue(p, rule);
    var taken := TakesOnlyLeading(NOTHING, p, rule);
    assert NOTHING.included + taken == taken;
  }
}
