/**
  The bootstrap channel of the context assembler: which entries are
  candidates, which of them the budget selects, and the text that is hashed.
 */
module ContextAssembly {
  import opened Common
  import opened Sorting
  import opened TextOrder

  datatype Tier = Core | Working | Archival

  datatype Sensitivity = Normal | Private | Restricted

  datatype Scope = Global | Project

  datatype MemoryType = Constraint | Procedure | Fact | Preference | Decision | Debugging | Lesson

  datatype Entry = Entry(id: string, scope: Scope, project: Option<string>, typ: MemoryType, topic: string,
                         title: string, body: string, tags: seq<string>, importance: nat,
                         confidence: nat, tier: Tier, pinned: bool, sensitivity: Sensitivity, updatedAt: int)

  datatype Loadout = Loadout(id: string, version: nat, scope: Scope, project: Option<string>)

  datatype Rule = Rule(includeMemories: seq<string>, includeTypes: seq<MemoryType>, includeTiers: seq<Tier>,
                       includeTags: seq<string>, includeTopics: seq<string>, excludeMemories: seq<string>,
                       excludeTags: seq<string>, required: seq<string>, maxItems: int, maxChars: int)

  // ---------- candidates ----------

  predicate OtherProject(e: Entry, loadout: Loadout) {
    loadout.scope.Project? && loadout.project.Some? && e.scope.Project? && e.project != loadout.project
  }

  predicate TooSensitive(e: Entry, clearance: Sensitivity) {
    clearance.Normal? && !e.sensitivity.Normal?
  }

  function Explicit(rule: Option<Rule>): seq<string> {
    if rule.Some? then rule.value.includeMemories else []
  }

  /** Visible to this loadout and caller, and core, pinned working memory, or named by the rule. */
  predicate Eligible(e: Entry, loadout: Loadout, rule: Option<Rule>, clearance: Sensitivity) {
    && !OtherProject(e, loadout) && !TooSensitive(e, clearance)
    && (e.tier.Core? || (e.tier.Working? && e.pinned) || e.id in Explicit(rule))
  }

  function EligibleOf(active: seq<Entry>, loadout: Loadout, rule: Option<Rule>, clearance: Sensitivity): seq<Entry> {
    if active == [] then []
    else
      var before := EligibleOf(active[..|active| - 1], loadout, rule, clearance);
      var last := active[|active| - 1];
      if Eligible(last, loadout, rule, clearance) then before + [last] else before
  }

  function TierRank(e: Entry): nat {
    if e.tier.Core? then 0 else if e.tier.Working? then 1 else 2
  }

  /** Core first, then by importance, then the most recently updated. */
  predicate Before(a: Entry, b: Entry) {
    if TierRank(a) != TierRank(b) then TierRank(a) < TierRank(b)
    else if a.importance != b.importance then a.importance > b.importance
    else a.updatedAt > b.updatedAt
  }

  /** The comparison function as written: it never returns zero. */
  function Compare(a: Entry, b: Entry): int {
    if TierRank(a) != TierRank(b) then TierRank(a) - TierRank(b)
    else if a.importance != b.importance then b.importance - a.importance
    else if a.updatedAt < b.updatedAt then 1 else -1
  }

  predicate ComesFirst(a: Entry, b: Entry) {
    Compare(a, b) < 0
  }

  function Candidates(active: seq<Entry>, loadout: Loadout, rule: Option<Rule>, clearance: Sensitivity): seq<Entry> {
    Sort(ComesFirst, EligibleOf(active, loadout, rule, clearance))
  }

  predicate SameKey(a: Entry, b: Entry) {
    TierRank(a) == TierRank(b) && a.importance == b.importance && a.updatedAt == b.updatedAt
  }

  ghost predicate DistinctKeys(s: seq<Entry>) {
    forall i, j | 0 <= i < j < |s| :: !SameKey(s[i], s[j])
  }

  ghost predicate DistinctIds(s: seq<Entry>) {
    forall i, j | 0 <= i < j < |s| :: s[i].id != s[j].id
  }

  // ---------- filters and selection ----------

  predicate Shares(tags: seq<string>, listed: seq<string>) {
    exists t | t in tags :: t in listed
  }

  predicate PassesFilters(e: Entry, rule: Option<Rule>) {
    rule.Some? ==>
      var r := rule.value;
      && e.id !in r.excludeMemories && !Shares(e.tags, r.excludeTags)
      && (r.includeMemories == [] || e.id in r.includeMemories)
      && (r.includeTypes == [] || e.typ in r.includeTypes)
      && (r.includeTiers == [] || e.tier in r.includeTiers)
      && (r.includeTags == [] || Shares(e.tags, r.includeTags))
      && (r.includeTopics == [] || e.topic in r.includeTopics)
  }

  function MaxItems(rule: Option<Rule>): int {
    if rule.Some? then rule.value.maxItems else 32
  }

  function MaxChars(rule: Option<Rule>): int {
    if rule.Some? then rule.value.maxChars else 8000
  }

  function Required(rule: Option<Rule>): seq<string> {
    if rule.Some? then rule.value.required else []
  }

  /** `approxEntryChars`; a JavaScript length counts UTF-16 code units. */
  function Cost(e: Entry): nat {
    |Encode(Utf16, e.body)| + |Encode(Utf16, e.title)| + 64
  }

  datatype Selection = Selection(included: seq<Entry>, excluded: seq<string>, unavailable: seq<string>, items: nat,
                                 chars: nat)

  const NOTHING := Selection([], [], [], 0, 0)

  /** One turn of the selection loop. */
  function Consider(s: Selection, e: Entry, rule: Option<Rule>): Selection {
    if !PassesFilters(e, rule) then s.(excluded := s.excluded + [e.id])
    else if s.items > 0 && s.chars + Cost(e) > MaxChars(rule) && e.id !in Required(rule) then s
    else if e.id in Required(rule) && e.id == "" then s.(unavailable := s.unavailable + [e.id])
    else s.(included := s.included + [e], items := s.items + 1, chars := s.chars + Cost(e))
  }

  /** The loop over the candidates; it stops for good once the item cap is reached. */
  function Selected(candidates: seq<Entry>, rule: Option<Rule>): Selection {
    if candidates == [] then NOTHING
    else
      var before := Selected(candidates[..|candidates| - 1], rule);
      if before.items >= MaxItems(rule) then before else Consider(before, candidates[|candidates| - 1], rule)
  }

  predicate Present(id: string, entries: seq<Entry>) {
    exists e | e in entries :: e.id == id
  }

  // ---------- the text ----------

  function TypeName(t: MemoryType): string {
    match t
    case Constraint => "constraint"
    case Procedure => "procedure"
    case Fact => "fact"
    case Preference => "preference"
    case Decision => "decision"
    case Debugging => "debugging"
    case Lesson => "lesson"
  }

  const TYPE_ORDER := [Constraint, Procedure, Fact, Preference, Decision, Debugging, Lesson]

  function TierName(t: Tier): string {
    match t
    case Core => "core"
    case Working => "working"
    case Archival => "archival"
  }

  function HeaderLine(e: Entry): string {
    "- [" + (if e.scope.Global? then "global" else "project")
    + (if e.project.Some? && e.project.value != "" then ":" + e.project.value else "")
    + "] **" + e.title + "** (tier=" + TierName(e.tier) + ", importance=" + Decimal(e.importance) + "/"
    + Decimal(e.confidence) + ", id=" + e.id + ")"
  }

  function UnixLines(body: string): string {
    if body == "" then ""
    else if |body| >= 2 && body[0] == '\r' && body[1] == '\n' then "\n" + UnixLines(body[2..])
    else [body[0]] + UnixLines(body[1..])
  }

  function TrimNewlines(body: string): string {
    if body != "" && body[|body| - 1] == '\n' then TrimNewlines(body[..|body| - 1]) else body
  }

  predicate IdBefore(a: Entry, b: Entry) {
    JsLess(a.id, b.id)
  }

  function OfType(entries: seq<Entry>, t: MemoryType): seq<Entry> {
    if entries == [] then []
    else
      var before, last := OfType(entries[..|entries| - 1], t), entries[|entries| - 1];
      if last.typ == t then before + [last] else before
  }

  function EntryLines(entries: seq<Entry>): seq<string> {
    if entries == [] then []
    else
      var last := entries[|entries| - 1];
      EntryLines(entries[..|entries| - 1]) + [HeaderLine(last), TrimNewlines(UnixLines(last.body))]
  }

  function Section(entries: seq<Entry>, t: MemoryType): seq<string> {
    var list := OfType(entries, t);
    if list == [] then [] else ["\n## " + TypeName(t)] + EntryLines(Sort(IdBefore, list))
  }

  function Sections(entries: seq<Entry>, types: seq<MemoryType>): seq<string> {
    if types == [] then []
    else Sections(entries, types[..|types| - 1]) + Section(entries, types[|types| - 1])
  }

  const TITLE := "# bootstrap channel"

  function TextOf(entries: seq<Entry>, types: seq<MemoryType>): string {
    Join([TITLE] + Sections(entries, types), "\n") + "\n"
  }

  function ChannelText(entries: seq<Entry>): string {
    TextOf(entries, TYPE_ORDER)
  }

  function BootstrapText(active: seq<Entry>, loadout: Loadout, rule: Option<Rule>, clearance: Sensitivity): string {
    ChannelText(Selected(Candidates(active, loadout, rule, clearance), rule).included)
  }

  /** The string whose SHA-256 is `bootstrap_hash`. */
  function Canonical(loadout: Loadout, policy: string, actor: string, project: string, text: string): string {
    loadout.id + "\n" + (Decimal(loadout.version) + "\n" + (policy + "\n" + (actor + "\n" + (project + "\n" + text))))
  }

  // ---------- stability ----------

  lemma {:induction false} EligibleMembers(active: seq<Entry>, loadout: Loadout, rule: Option<Rule>,
                                           clearance: Sensitivity)
    ensures forall e :: e in EligibleOf(active, loadout, rule, clearance) <==>
        e in active && Eligible(e, loadout, rule, clearance)
    ensures DistinctIds(active) ==> DistinctIds(EligibleOf(active, loadout, rule, clearance))
  {
    if active != [] {
      var before, last := active[..|active| - 1], active[|active| - 1];
      EligibleMembers(before, loadout, rule, clearance);
      assert active == before + [last];
      if DistinctIds(active) {
        forall e | e in before
          ensures e.id != last.id
        {
          var k :| 0 <= k < |before| && before[k] == e;
          assert active[k] == e;
        }
      }
    }
  }

  lemma KeysOrder(s: seq<Entry>)
    requires DistinctKeys(s)
    ensures Orders(Before, s) && Distinct(s)
  {
    forall a, b | a in s && b in s
      ensures a == b || !SameKey(a, b)
    {
    }
  }

  /** Sorting only ever compares different elements. */
  lemma {:induction false} SortAgrees<T(!new)>(less: (T, T) -> bool, other: (T, T) -> bool, s: seq<T>)
    requires Distinct(s) && forall x, y | x in s && y in s && x != y :: less(x, y) == other(x, y)
    ensures Sort(less, s) == Sort(other, s)
  {
    if s != [] {
      assert s == [s[0]] + s[1..] && s[0] !in s[1..];
      assert forall x | x in s[1..] :: x in s;
      SortAgrees(less, other, s[1..]);
      var rest := Sort(less, s[1..]);
      SameMembers(rest, s[1..]);
      InsertAgrees(less, other, s[0], rest);
    }
  }

  lemma {:induction false} InsertAgrees<T(!new)>(less: (T, T) -> bool, other: (T, T) -> bool, x: T, s: seq<T>)
    requires forall y | y in s :: less(y, x) == other(y, x)
    ensures Inserted(less, x, s) == Inserted(other, x, s)
  {
    if s != [] {
      assert s[0] in s && forall y | y in s[1..] :: y in s;
      InsertAgrees(less, other, x, s[1..]);
    }
  }

  /** With distinct keys the comparison that never returns zero sorts as the order it stands for. */
  lemma CompareSorts(s: seq<Entry>)
    requires DistinctKeys(s)
    ensures Sort(ComesFirst, s) == Sort(Before, s)
  {
    KeysOrder(s);
    forall a, b | a in s && b in s && a != b
      ensures ComesFirst(a, b) == Before(a, b)
    {
    }
    SortAgrees(ComesFirst, Before, s);
  }

  /** Without: two entries that tie come out in the reverse of the order they were listed in. */
  lemma TiesFollowTheListing(a: Entry, b: Entry)
    requires SameKey(a, b)
    ensures Sort(ComesFirst, [a, b]) == [b, a]
  {
    assert [a, b][1..] == [b] && [b][1..] == [];
    assert Sort(ComesFirst, [b]) == [b];
    assert Inserted(ComesFirst, a, [b]) == [b] + Inserted(ComesFirst, a, []);
  }

  lemma {:induction false} SameElements<T>(a: seq<T>, b: seq<T>)
    requires Distinct(a) && Distinct(b) && forall x :: x in a <==> x in b
    ensures multiset(a) == multiset(b)
  {
    forall x: T
      ensures multiset(a)[x] == multiset(b)[x]
    {
      Once(a, x);
      Once(b, x);
      assert x in multiset(a) <==> x in a;
      assert x in multiset(b) <==> x in b;
    }
  }

  /** The two listings hold the same eligible entries. */
  ghost predicate SameEligible(a: seq<Entry>, b: seq<Entry>, loadout: Loadout, rule: Option<Rule>,
                               clearance: Sensitivity) {
    forall e | Eligible(e, loadout, rule, clearance) :: e in a <==> e in b
  }

  /**
    The candidates are a function of the set of eligible entries: other entries
    may be added, removed, edited and reordered at will.
   */
  lemma CandidatesDependOnEligible(a: seq<Entry>, b: seq<Entry>, loadout: Loadout, rule: Option<Rule>,
                                   clearance: Sensitivity)
    requires DistinctIds(a) && DistinctIds(b) && SameEligible(a, b, loadout, rule, clearance)
    requires DistinctKeys(EligibleOf(a, loadout, rule, clearance))
        && DistinctKeys(EligibleOf(b, loadout, rule, clearance))
    ensures Candidates(a, loadout, rule, clearance) == Candidates(b, loadout, rule, clearance)
  {
    var x, y := EligibleOf(a, loadout, rule, clearance), EligibleOf(b, loadout, rule, clearance);
    EligibleMembers(a, loadout, rule, clearance);
    EligibleMembers(b, loadout, rule, clearance);
    KeysOrder(x);
    KeysOrder(y);
    SameElements(x, y);
    SortIgnoresOrder(Before, x, y);
    CompareSorts(x);
    CompareSorts(y);
  }

  /** So are the text and the string that is hashed. */
  lemma HashIgnoresOtherEntries(a: seq<Entry>, b: seq<Entry>, loadout: Loadout, rule: Option<Rule>,
                                clearance: Sensitivity,
                                policy: string, actor: string, project: string)
    requires DistinctIds(a) && DistinctIds(b) && SameEligible(a, b, loadout, rule, clearance)
    requires DistinctKeys(EligibleOf(a, loadout, rule, clearance))
        && DistinctKeys(EligibleOf(b, loadout, rule, clearance))
    ensures BootstrapText(a, loadout, rule, clearance) == BootstrapText(b, loadout, rule, clearance)
    ensures Canonical(loadout, policy, actor, project, BootstrapText(a, loadout, rule, clearance))
         == Canonical(loadout, policy, actor, project, BootstrapText(b, loadout, rule, clearance))
  {
    CandidatesDependOnEligible(a, b, loadout, rule, clearance);
  }

  /** One write that turns an ineligible entry into another ineligible one, or adds or removes one, is invisible. */
  lemma UnrelatedWrite(active: seq<Entry>, i: nat, written: seq<Entry>, loadout: Loadout, rule: Option<Rule>,
                       clearance: Sensitivity)
    requires i < |active| && DistinctIds(active) && DistinctIds(active[..i] + written + active[i + 1..])
    requires !Eligible(active[i], loadout, rule, clearance)
    requires forall e | e in written :: !Eligible(e, loadout, rule, clearance)
    requires DistinctKeys(EligibleOf(active, loadout, rule, clearance))
    requires DistinctKeys(EligibleOf(active[..i] + written + active[i + 1..], loadout, rule, clearance))
    ensures BootstrapText(active[..i] + written + active[i + 1..], loadout, rule, clearance)
         == BootstrapText(active, loadout, rule, clearance)
  {
    var after := active[..i] + written + active[i + 1..];
    assert active == active[..i] + [active[i]] + active[i + 1..];
    CandidatesDependOnEligible(active, after, loadout, rule, clearance);
  }

  // ---------- what is hashed, field by field ----------

  predicate OneLine(s: string) {
    forall i | 0 <= i < |s| :: s[i] != '\n'
  }

  lemma {:induction false} FirstLine(a: string, x: string, b: string, y: string)
    requires OneLine(a) && OneLine(b) && a + "\n" + x == b + "\n" + y
    ensures a == b && x == y
  {
    var left, right := a + "\n" + x, b + "\n" + y;
    if a == "" || b == "" {
      assert left[0] == right[0];
      assert a == "" && b == "" by {
        assert left[|a|] == '\n' && right[|b|] == '\n';
      }
      assert left[1..] == x && right[1..] == y;
    } else {
      assert left[0] == right[0];
      assert left[1..] == a[1..] + "\n" + x && right[1..] == b[1..] + "\n" + y;
      FirstLine(a[1..], x, b[1..], y);
      assert a == [a[0]] + a[1..] && b == [b[0]] + b[1..];
    }
  }

  lemma {:induction false} DecimalOneLine(n: nat)
    ensures OneLine(Decimal(n))
  {
    if n >= 10 {
      DecimalOneLine(n / 10);
    }
  }

  lemma {:induction false} DecimalInjective(n: nat, m: nat)
    requires Decimal(n) == Decimal(m)
    ensures n == m
  {
    var a, b := Decimal(n), Decimal(m);
    assert |a| == 1 <==> n < 10;
    assert |b| == 1 <==> m < 10;
    assert a[|a| - 1] == b[|b| - 1];
    assert n % 10 == m % 10;
    if n >= 10 {
      assert a[..|a| - 1] == Decimal(n / 10) && b[..|b| - 1] == Decimal(m / 10);
      DecimalInjective(n / 10, m / 10);
    }
  }

  /** Two hashed strings are equal only if every field is, as long as no identifier holds a line break. */
  lemma CanonicalSeparates(l: Loadout, policy: string, actor: string, project: string, text: string,
                           l': Loadout, actor': string, project': string, text': string)
    requires OneLine(l.id) && OneLine(actor) && OneLine(project) && OneLine(policy)
    requires OneLine(l'.id) && OneLine(actor') && OneLine(project')
    requires Canonical(l, policy, actor, project, text) == Canonical(l', policy, actor', project', text')
    ensures l.id == l'.id && l.version == l'.version && actor == actor' && project == project' && text == text'
  {
    var four, four' := project + "\n" + text, project' + "\n" + text';
    var three, three' := actor + "\n" + four, actor' + "\n" + four';
    var two, two' := policy + "\n" + three, policy + "\n" + three';
    FirstLine(l.id, Decimal(l.version) + "\n" + two, l'.id, Decimal(l'.version) + "\n" + two');
    DecimalOneLine(l.version);
    DecimalOneLine(l'.version);
    FirstLine(Decimal(l.version), two, Decimal(l'.version), two');
    DecimalInjective(l.version, l'.version);
    FirstLine(policy, three, policy, three');
    FirstLine(actor, four, actor', four');
    FirstLine(project, text, project', text');
  }

  /** Two callers of one loadout over the same channel text: only where the line breaks fall tells them apart. */
  lemma LineBreakCollides(l: Loadout, policy: string, entries: seq<Entry>)
    ensures Canonical(l, policy, "a\nb", "c", ChannelText(entries))
        == Canonical(l, policy, "a", "b\nc", ChannelText(entries))
  {
    var text := ChannelText(entries);
    assert "a\nb" + "\n" + ("c" + "\n" + text) == "a" + "\n" + ("b\nc" + "\n" + text);
  }

  /** The second head is the first plus the start of the first text, up to a line break; the rest is the second text. */
  predicate Continues(head: string, text: string, head': string, text': string) {
    var n := |head'| - |head| - 1;
    && 0 <= n < |text| && text[n] == '\n'
    && head' == head + "\n" + text[..n] && text' == text[n + 1..]
  }

  lemma ContinuedIsSame(head: string, text: string, head': string, text': string)
    requires Continues(head, text, head', text')
    ensures head + "\n" + text == head' + "\n" + text'
  {
    var n := |head'| - |head| - 1;
    assert text == text[..n] + "\n" + text[n + 1..];
  }

  lemma SameThenContinued(head: string, text: string, head': string, text': string)
    requires head + "\n" + text == head' + "\n" + text' && |head| < |head'|
    ensures Continues(head, text, head', text')
  {
    var all, n := head + "\n" + text, |head'| - |head| - 1;
    assert all == head' + "\n" + text';
    assert all[|head'|] == '\n' && text[n] == all[|head'|];
    assert head' == all[..|head'|] == head + "\n" + text[..n];
    assert text' == all[|head'| + 1..] == text[n + 1..];
  }

  /** When a head and a text read the same as another head and text. */
  lemma SplitIff(head: string, text: string, head': string, text': string)
    ensures head + "\n" + text == head' + "\n" + text' <==>
              || (head == head' && text == text')
              || Continues(head, text, head', text') || Continues(head', text', head, text)
  {
    if Continues(head, text, head', text') {
      ContinuedIsSame(head, text, head', text');
    } else if Continues(head', text', head, text) {
      ContinuedIsSame(head', text', head, text);
    } else if head + "\n" + text == head' + "\n" + text' {
      var all := head + "\n" + text;
      if |head| < |head'| {
        SameThenContinued(head, text, head', text');
      } else if |head'| < |head| {
        SameThenContinued(head', text', head, text);
      } else {
        assert head == all[..|head|] && head' == all[..|head|];
        assert text == all[|head| + 1..] && text' == all[|head| + 1..];
      }
    }
  }

  /** The five fields before the text. */
  function Head(l: Loadout, policy: string, actor: string, project: string): string {
    l.id + "\n" + (Decimal(l.version) + "\n" + (policy + "\n" + (actor + "\n" + project)))
  }

  lemma CanonicalIsHead(l: Loadout, policy: string, actor: string, project: string, text: string)
    ensures Canonical(l, policy, actor, project, text) == Head(l, policy, actor, project) + "\n" + text
  {
    var a, b := actor + "\n", project + "\n" + text;
    assert actor + "\n" + (project + "\n" + text) == (actor + "\n" + project) + "\n" + text;
    PushIn(policy, actor + "\n" + project, text);
    PushIn(Decimal(l.version), policy + "\n" + (actor + "\n" + project), text);
    PushIn(l.id, Decimal(l.version) + "\n" + (policy + "\n" + (actor + "\n" + project)), text);
  }

  lemma PushIn(first: string, middle: string, text: string)
    ensures first + "\n" + (middle + "\n" + text) == (first + "\n" + middle) + "\n" + text
  {
  }

  /** One of its lines begins with the title of the channel. */
  predicate NamesTitle(head: string) {
    exists i | 0 <= i && i + 1 + |TITLE| <= |head| :: head[i] == '\n' && head[i + 1..i + 1 + |TITLE|] == TITLE
  }

  lemma TitleComesFirst(entries: seq<Entry>)
    ensures |ChannelText(entries)| > |TITLE| && ChannelText(entries)[..|TITLE|] == TITLE
    ensures ChannelText(entries)[|TITLE|] == '\n'
  {
    TextStarts(Sections(entries, TYPE_ORDER));
  }

  lemma TextStarts(rest: seq<string>)
    ensures var text := Join([TITLE] + rest, "\n") + "\n";
            |text| > |TITLE| && text[..|TITLE|] == TITLE && text[|TITLE|] == '\n'
  {
    var parts := [TITLE] + rest;
    assert parts[0] == TITLE;
    if |parts| > 1 {
      assert Join(parts, "\n") == TITLE + "\n" + Join(parts[1..], "\n");
    }
  }

  lemma ContinuingNamesTitle(head: string, entries: seq<Entry>, head': string, text': string)
    requires Continues(head, ChannelText(entries), head', text')
    ensures NamesTitle(head')
  {
    var text, n := ChannelText(entries), |head'| - |head| - 1;
    TitleComesFirst(entries);
    assert forall i | 0 <= i < |TITLE| :: text[i] == text[..|TITLE|][i] == TITLE[i] != '\n';
    assert n >= |TITLE|;
    assert head'[|head|] == '\n';
    assert head'[|head| + 1..|head| + 1 + |TITLE|] == text[..n][..|TITLE|] == TITLE;
  }

  /**
    Two callers over channel texts hash the same string exactly when their five
    fields, joined, and their texts are the same, or the joined fields of one
    go on into what the other has as its text.
   */
  lemma SharedHashIff(l: Loadout, policy: string, actor: string, project: string, entries: seq<Entry>,
                      l': Loadout, actor': string, project': string, entries': seq<Entry>)
    ensures var head, head' := Head(l, policy, actor, project), Head(l', policy, actor', project');
            var text, text' := ChannelText(entries), ChannelText(entries');
            Canonical(l, policy, actor, project, text) == Canonical(l', policy, actor', project', text') <==>
              || (head == head' && text == text')
              || Continues(head, text, head', text') || Continues(head', text', head, text)
  {
    CanonicalIsHead(l, policy, actor, project, ChannelText(entries));
    CanonicalIsHead(l', policy, actor', project', ChannelText(entries'));
    SplitIff(Head(l, policy, actor, project), ChannelText(entries),
             Head(l', policy, actor', project'), ChannelText(entries'));
  }

  /** The second way needs a field with a line that begins with the channel's title. */
  lemma SharedHashOfPlainCallersIff(l: Loadout, policy: string, actor: string, project: string, entries: seq<Entry>,
                                    l': Loadout, actor': string, project': string, entries': seq<Entry>)
    requires !NamesTitle(Head(l, policy, actor, project)) && !NamesTitle(Head(l', policy, actor', project'))
    ensures Canonical(l, policy, actor, project, ChannelText(entries))
            == Canonical(l', policy, actor', project', ChannelText(entries')) <==>
              && Head(l, policy, actor, project) == Head(l', policy, actor', project')
              && ChannelText(entries) == ChannelText(entries')
  {
    var head, head' := Head(l, policy, actor, project), Head(l', policy, actor', project');
    var text, text' := ChannelText(entries), ChannelText(entries');
    SharedHashIff(l, policy, actor, project, entries, l', actor', project', entries');
    if Continues(head, text, head', text') {
      ContinuingNamesTitle(head, entries, head', text');
    }
    if Continues(head', text', head, text) {
      ContinuingNamesTitle(head', entries', head, text);
    }
  }

  /**
    With one-line loadout ids the joined fields are the same exactly when the
    loadouts are and the callers are, or one caller's actor is the other's with
    the first lines of the other's project.
   */
  lemma SameHeadIff(l: Loadout, policy: string, actor: string, project: string,
                    l': Loadout, actor': string, project': string)
    requires OneLine(l.id) && OneLine(l'.id) && OneLine(policy)
    ensures Head(l, policy, actor, project) == Head(l', policy, actor', project') <==>
              && l.id == l'.id && l.version == l'.version
              && (|| (actor == actor' && project == project')
                  || Continues(actor, project, actor', project') || Continues(actor', project', actor, project))
  {
    var one, one' := actor + "\n" + project, actor' + "\n" + project';
    SplitIff(actor, project, actor', project');
    if Head(l, policy, actor, project) == Head(l', policy, actor', project') {
      FirstLine(l.id, Decimal(l.version) + "\n" + (policy + "\n" + one),
                l'.id, Decimal(l'.version) + "\n" + (policy + "\n" + one'));
      DecimalOneLine(l.version);
      DecimalOneLine(l'.version);
      FirstLine(Decimal(l.version), policy + "\n" + one, Decimal(l'.version), policy + "\n" + one');
      DecimalInjective(l.version, l'.version);
      FirstLine(policy, one, policy, one');
    }
  }

  // ---------- selection accounting ----------

  function CostOf(entries: seq<Entry>): nat {
    if entries == [] then 0 else Cost(entries[0]) + CostOf(entries[1..])
  }

  lemma {:induction false} CostNext(entries: seq<Entry>, e: Entry)
    ensures CostOf(entries + [e]) == CostOf(entries) + Cost(e)
  {
    if entries == [] {
      assert (entries + [e])[1..] == [];
    } else {
      CostNext(entries[1..], e);
      assert (entries + [e])[1..] == entries[1..] + [e];
    }
  }

  /** The counters count what is included, and the item cap holds. */
  lemma {:induction false} Accounting(candidates: seq<Entry>, rule: Option<Rule>)
    ensures var s := Selected(candidates, rule);
            && s.items == |s.included| && s.chars == CostOf(s.included)
            && (s.items > 0 ==> s.items <= MaxItems(rule))
            && |s.included| <= |candidates|
  {
    if candidates != [] {
      var before, last := candidates[..|candidates| - 1], candidates[|candidates| - 1];
      Accounting(before, rule);
      CostNext(Selected(before, rule).included, last);
    }
  }

  /** Without required refs the character cap holds as soon as the first selected entry fits. */
  lemma {:induction false} CharsWithinCap(candidates: seq<Entry>, rule: Option<Rule>)
    requires Required(rule) == []
    ensures var s := Selected(candidates, rule);
            s.included != [] && Cost(s.included[0]) <= MaxChars(rule) ==> s.chars <= MaxChars(rule)
  {
    if candidates != [] {
      var before := candidates[..|candidates| - 1];
      CharsWithinCap(before, rule);
      Accounting(before, rule);
    }
  }

  lemma PresentMore(id: string, entries: seq<Entry>, e: Entry)
    ensures Present(id, entries + [e]) <==> Present(id, entries) || e.id == id
  {
    if Present(id, entries) {
      var x :| x in entries && x.id == id;
      assert x in entries + [e];
    }
    assert e in entries + [e];
  }

  /** Only candidates are included or excluded, the first when they pass the filters, the second when they do not. */
  lemma {:induction false} SelectionMembers(candidates: seq<Entry>, rule: Option<Rule>)
    ensures var s := Selected(candidates, rule);
            && (forall e | e in s.included :: e in candidates && PassesFilters(e, rule))
            && (forall id | id in s.excluded :: exists e :: e in candidates && e.id == id && !PassesFilters(e, rule))
            && (forall id | id in s.unavailable :: id == "" && id in Required(rule) && Present("", candidates))
  {
    if candidates != [] {
      var before, last := candidates[..|candidates| - 1], candidates[|candidates| - 1];
      SelectionMembers(before, rule);
      assert candidates == before + [last];
      var s := Selected(candidates, rule);
      forall id | id in s.excluded
        ensures exists e :: e in candidates && e.id == id && !PassesFilters(e, rule)
      {
        if id in Selected(before, rule).excluded {
          var e :| e in before && e.id == id && !PassesFilters(e, rule);
          assert e in candidates;
        } else {
          assert last in candidates && last.id == id;
        }
      }
      forall id | id in s.unavailable
        ensures id == "" && id in Required(rule) && Present("", candidates)
      {
        PresentMore("", before, last);
      }
    }
  }

  /** No id is both selected and excluded. */
  lemma SelectedNotExcluded(candidates: seq<Entry>, rule: Option<Rule>, e: Entry)
    requires DistinctIds(candidates) && e in Selected(candidates, rule).included
    ensures e.id !in Selected(candidates, rule).excluded
  {
    SelectionMembers(candidates, rule);
  }

  lemma {:induction false} IncludedStays(candidates: seq<Entry>, n: nat, rule: Option<Rule>, e: Entry)
    requires n <= |candidates| && e in Selected(candidates[..n], rule).included
    ensures e in Selected(candidates, rule).included
    decreases |candidates|
  {
    if n == |candidates| {
      assert candidates[..n] == candidates;
    } else {
      var before := candidates[..|candidates| - 1];
      assert before[..n] == candidates[..n];
      IncludedStays(before, n, rule, e);
    }
  }

  /** A required candidate that passes the filters and is reached before the item cap is always selected. */
  lemma RequiredIsSelected(candidates: seq<Entry>, n: nat, rule: Option<Rule>)
    requires n < |candidates| && candidates[n].id in Required(rule) && candidates[n].id != ""
    requires PassesFilters(candidates[n], rule)
    requires Selected(candidates[..n], rule).items < MaxItems(rule)
    ensures candidates[n] in Selected(candidates, rule).included
  {
    assert candidates[..n + 1][..n] == candidates[..n];
    IncludedStays(candidates, n + 1, rule, candidates[n]);
  }

  /** `new Set(refs)` in insertion order. */
  function SetOf(refs: seq<string>): (r: seq<string>)
    ensures forall id :: id in r <==> id in refs
  {
    if refs == [] then []
    else
      var before, last := SetOf(refs[..|refs| - 1]), refs[|refs| - 1];
      assert refs == refs[..|refs| - 1] + [last];
      if last in before then before else before + [last]
  }

  /** What the caller is told is unavailable, the loop's own findings first. */
  function Unavailable(candidates: seq<Entry>, rule: Option<Rule>, refs: seq<string>): seq<string> {
    if refs == [] then Selected(candidates, rule).unavailable
    else
      var before, last := Unavailable(candidates, rule, refs[..|refs| - 1]), refs[|refs| - 1];
      if Present(last, Selected(candidates, rule).included) || Present(last, candidates) then before
      else before + [last]
  }

  lemma {:induction false} UnavailableMembers(candidates: seq<Entry>, rule: Option<Rule>, refs: seq<string>)
    ensures forall id :: id in Unavailable(candidates, rule, refs) <==>
              id in Selected(candidates, rule).unavailable || (id in refs && !Present(id, candidates))
  {
    SelectionMembers(candidates, rule);
    if refs != [] {
      UnavailableMembers(candidates, rule, refs[..|refs| - 1]);
      assert refs == refs[..|refs| - 1] + [refs[|refs| - 1]];
    }
  }

  /** Unavailable are exactly the required ids that no candidate has; entries have ids. */
  lemma UnavailableIff(candidates: seq<Entry>, rule: Option<Rule>, id: string)
    requires !Present("", candidates)
    ensures id in Unavailable(candidates, rule, SetOf(Required(rule))) <==>
        id in Required(rule) && !Present(id, candidates)
  {
    UnavailableMembers(candidates, rule, SetOf(Required(rule)));
    SelectionMembers(candidates, rule);
  }

  // ---------- nothing cut: ties do not matter ----------

  function PassingOf(entries: seq<Entry>, rule: Option<Rule>): seq<Entry> {
    if entries == [] then []
    else
      var before, last := PassingOf(entries[..|entries| - 1], rule), entries[|entries| - 1];
      if PassesFilters(last, rule) then before + [last] else before
  }

  lemma {:induction false} PassingMembers(entries: seq<Entry>, rule: Option<Rule>)
    ensures forall e :: e in PassingOf(entries, rule) <==> e in entries && PassesFilters(e, rule)
    ensures DistinctIds(entries) ==> DistinctIds(PassingOf(entries, rule))
  {
    if entries != [] {
      var before, last := entries[..|entries| - 1], entries[|entries| - 1];
      PassingMembers(before, rule);
      assert entries == before + [last];
      if DistinctIds(entries) {
        IdNotBefore(entries);
      }
    }
  }

  lemma IdNotBefore(entries: seq<Entry>)
    requires DistinctIds(entries) && entries != []
    ensures DistinctIds(entries[..|entries| - 1])
    ensures forall e | e in entries[..|entries| - 1] :: e.id != entries[|entries| - 1].id
  {
  }

  lemma {:induction false} OfTypeMembers(entries: seq<Entry>, t: MemoryType)
    ensures forall e :: e in OfType(entries, t) <==> e in entries && e.typ == t
    ensures DistinctIds(entries) ==> DistinctIds(OfType(entries, t))
  {
    if entries != [] {
      var before, last := entries[..|entries| - 1], entries[|entries| - 1];
      OfTypeMembers(before, t);
      assert entries == before + [last];
      if DistinctIds(entries) {
        IdNotBefore(entries);
      }
    }
  }

  lemma IdsOrder(s: seq<Entry>)
    requires DistinctIds(s)
    ensures Orders(IdBefore, s) && Distinct(s)
  {
    forall a, b, c | a in s && b in s && c in s
      ensures !IdBefore(a, a) && (a == b || IdBefore(a, b) || IdBefore(b, a))
      ensures IdBefore(a, b) && IdBefore(b, c) ==> IdBefore(a, c)
    {
      JsTotal(a.id, b.id, c.id);
    }
  }

  ghost predicate SameSet(a: seq<Entry>, b: seq<Entry>) {
    DistinctIds(a) && DistinctIds(b) && forall e :: e in a <==> e in b
  }

  lemma SectionIgnoresOrder(a: seq<Entry>, b: seq<Entry>, t: MemoryType)
    requires SameSet(a, b)
    ensures Section(a, t) == Section(b, t)
  {
    var x, y := OfType(a, t), OfType(b, t);
    OfTypeMembers(a, t);
    OfTypeMembers(b, t);
    IdsOrder(x);
    IdsOrder(y);
    SameElements(x, y);
    SortIgnoresOrder(IdBefore, x, y);
    SameMembers(x, y);
  }

  lemma {:induction false} SectionsIgnoreOrder(a: seq<Entry>, b: seq<Entry>, types: seq<MemoryType>)
    requires SameSet(a, b)
    ensures Sections(a, types) == Sections(b, types)
  {
    if types != [] {
      SectionsIgnoreOrder(a, b, types[..|types| - 1]);
      SectionIgnoresOrder(a, b, types[|types| - 1]);
    }
  }

  /** The text depends only on which entries are included. */
  lemma TextIgnoresOrder(a: seq<Entry>, b: seq<Entry>)
    requires SameSet(a, b)
    ensures ChannelText(a) == ChannelText(b)
  {
    SectionsIgnoreOrder(a, b, TYPE_ORDER);
  }

  lemma {:induction false} CostInserted(less: (Entry, Entry) -> bool, x: Entry, s: seq<Entry>)
    ensures CostOf(Inserted(less, x, s)) == Cost(x) + CostOf(s)
  {
    if s != [] && less(s[0], x) {
      CostInserted(less, x, s[1..]);
      assert Inserted(less, x, s)[1..] == Inserted(less, x, s[1..]);
    } else {
      assert Inserted(less, x, s)[1..] == s;
    }
  }

  lemma {:induction false} CostSorted(less: (Entry, Entry) -> bool, s: seq<Entry>)
    ensures CostOf(Sort(less, s)) == CostOf(s)
  {
    if s != [] {
      CostSorted(less, s[1..]);
      CostInserted(less, s[0], Sort(less, s[1..]));
    }
  }

  lemma CostIgnoresOrder(a: seq<Entry>, b: seq<Entry>)
    requires SameSet(a, b)
    ensures CostOf(a) == CostOf(b) && |a| == |b|
  {
    IdsOrder(a);
    IdsOrder(b);
    SameElements(a, b);
    SortIgnoresOrder(IdBefore, a, b);
    CostSorted(IdBefore, a);
    CostSorted(IdBefore, b);
    SameMembers(a, b);
  }

  /** All that passes the filters fits both caps. */
  ghost predicate AllFits(entries: seq<Entry>, rule: Option<Rule>) {
    |PassingOf(entries, rule)| <= MaxItems(rule) && CostOf(PassingOf(entries, rule)) <= MaxChars(rule)
  }

  lemma FitsNext(s: Selection, e: Entry, rule: Option<Rule>)
    requires s.items == |s.included| && s.chars == CostOf(s.included) && e.id != ""
    requires PassesFilters(e, rule)
    requires |s.included + [e]| <= MaxItems(rule) && CostOf(s.included + [e]) <= MaxChars(rule)
    ensures s.items < MaxItems(rule) && Consider(s, e, rule).included == s.included + [e]
  {
    CostNext(s.included, e);
  }

  lemma {:induction false} NothingCut(candidates: seq<Entry>, rule: Option<Rule>)
    requires AllFits(candidates, rule) && forall e | e in candidates :: e.id != ""
    ensures Selected(candidates, rule).included == PassingOf(candidates, rule)
  {
    if candidates != [] {
      var before, last := candidates[..|candidates| - 1], candidates[|candidates| - 1];
      CostNext(PassingOf(before, rule), last);
      NothingCut(before, rule);
      Accounting(before, rule);
      if PassesFilters(last, rule) {
        FitsNext(Selected(before, rule), last, rule);
      }
    }
  }

  /** When everything fits, even tied entries leave the text a function of the set of eligible ones. */
  lemma TiesHarmlessWhenAllFits(a: seq<Entry>, b: seq<Entry>, loadout: Loadout, rule: Option<Rule>,
                                clearance: Sensitivity)
    requires DistinctIds(a) && DistinctIds(b) && SameEligible(a, b, loadout, rule, clearance)
    requires !Present("", a) && !Present("", b)
    requires AllFits(EligibleOf(a, loadout, rule, clearance), rule)
    ensures BootstrapText(a, loadout, rule, clearance) == BootstrapText(b, loadout, rule, clearance)
  {
    EligibleMembers(a, loadout, rule, clearance);
    EligibleMembers(b, loadout, rule, clearance);
    var x, y := EligibleOf(a, loadout, rule, clearance), EligibleOf(b, loadout, rule, clearance);
    var p, q := Candidates(a, loadout, rule, clearance), Candidates(b, loadout, rule, clearance);
    SelectsAll(x, x, p, rule);
    SelectsAll(x, y, q, rule);
    TextIgnoresOrder(PassingOf(x, rule), PassingOf(p, rule));
    TextIgnoresOrder(PassingOf(x, rule), PassingOf(q, rule));
  }

  lemma SelectsAll(x: seq<Entry>, y: seq<Entry>, candidates: seq<Entry>, rule: Option<Rule>)
    requires SameSet(x, y) && multiset(candidates) == multiset(y)
    requires AllFits(x, rule) && !Present("", x)
    ensures Selected(candidates, rule).included == PassingOf(candidates, rule)
    ensures SameSet(PassingOf(x, rule), PassingOf(candidates, rule))
  {
    SameMembers(candidates, y);
    IdsKept(y, candidates);
    PassingMembers(x, rule);
    PassingMembers(candidates, rule);
    CostIgnoresOrder(PassingOf(x, rule), PassingOf(candidates, rule));
    NothingCut(candidates, rule);
  }

  lemma IdsKept(a: seq<Entry>, b: seq<Entry>)
    requires multiset(a) == multiset(b) && DistinctIds(a)
    ensures DistinctIds(b)
  {
    IdsOrder(a);
    DistinctKept(a, b);
    SameMembers(a, b);
    forall i, j | 0 <= i < j < |b|
      ensures b[i].id != b[j].id
    {
      assert b[i] in a && b[j] in a && b[i] != b[j];
    }
  }

  // ---------- a tie at the cap ----------

  lemma SectionOfOne(e: Entry, t: MemoryType)
    ensures Section([e], t) == if e.typ == t then ["\n## " + TypeName(t)] + EntryLines([e]) else []
  {
    assert [e][..0] == [];
    assert OfType([e], t) == if e.typ == t then [e] else [];
    assert [e][1..] == [];
    assert Sort(IdBefore, [e]) == [e];
  }

  lemma {:induction false} SectionsOfOne(e: Entry, types: seq<MemoryType>)
    requires forall i, j | 0 <= i < j < |types| :: types[i] != types[j]
    ensures Sections([e], types) == if e.typ in types then ["\n## " + TypeName(e.typ)] + EntryLines([e]) else []
  {
    if types != [] {
      var before, last := types[..|types| - 1], types[|types| - 1];
      SectionsOfOne(e, before);
      SectionOfOne(e, last);
      AmongTypes(types, e.typ);
      assert [] + Section([e], last) == Section([e], last);
    }
  }

  lemma AmongTypes(types: seq<MemoryType>, t: MemoryType)
    requires types != [] && forall i, j | 0 <= i < j < |types| :: types[i] != types[j]
    ensures t in types <==> t in types[..|types| - 1] || t == types[|types| - 1]
    ensures !(t in types[..|types| - 1] && t == types[|types| - 1])
  {
    var before, last := types[..|types| - 1], types[|types| - 1];
    if t in before {
      var i :| 0 <= i < |before| && before[i] == t;
      assert types[i] == t;
    }
    if t in types && t != last {
      var i :| 0 <= i < |types| && types[i] == t;
      assert before[i] == t;
    }
  }

  /** A title, an empty line, a heading, and the rest. */
  function PageOf(title: string, heading: string, lines: seq<string>): string {
    title + "\n" + ("" + "\n" + ("## " + heading + "\n" + (Join(lines, "\n") + "\n")))
  }

  lemma JoinedPage(title: string, heading: string, lines: seq<string>)
    requires lines != []
    ensures Join([title] + (["\n## " + heading] + lines), "\n") + "\n" == PageOf(title, heading, lines)
  {
    var tail := ["\n## " + heading] + lines;
    assert ([title] + tail)[1..] == tail && tail[1..] == lines;
    assert Join(tail, "\n") == ("\n## " + heading) + "\n" + Join(lines, "\n");
    assert "\n## " + heading == "" + "\n" + ("## " + heading);
  }

  lemma SomeLines(e: Entry)
    ensures EntryLines([e]) != []
  {
  }

  /** The text of one entry is a page headed by its type. */
  lemma TextOfOne(e: Entry)
    ensures ChannelText([e]) == PageOf(TITLE, TypeName(e.typ), EntryLines([e]))
  {
    TypesCovered(e.typ);
    SectionsOfOne(e, TYPE_ORDER);
    SomeLines(e);
    JoinedPage(TITLE, TypeName(e.typ), EntryLines([e]));
  }

  lemma TypesCovered(t: MemoryType)
    ensures t in TYPE_ORDER
    ensures forall i, j | 0 <= i < j < |TYPE_ORDER| :: TYPE_ORDER[i] != TYPE_ORDER[j]
  {
  }

  lemma NamesAreLines(t: MemoryType)
    ensures OneLine(TypeName(t))
  {
  }

  lemma NamesDiffer(t: MemoryType, u: MemoryType)
    requires TypeName(t) == TypeName(u)
    ensures t == u
  {
  }

  lemma HeadingOfPage(title: string, x: string, linesX: seq<string>, y: string, linesY: seq<string>)
    requires OneLine(title) && OneLine(x) && OneLine(y)
    requires PageOf(title, x, linesX) == PageOf(title, y, linesY)
    ensures x == y
  {
    var restX, restY := Join(linesX, "\n") + "\n", Join(linesY, "\n") + "\n";
    FirstLine(title, "" + "\n" + ("## " + x + "\n" + restX), title, "" + "\n" + ("## " + y + "\n" + restY));
    FirstLine("", "## " + x + "\n" + restX, "", "## " + y + "\n" + restY);
    FirstLine("## " + x, restX, "## " + y, restY);
    assert x == ("## " + x)[3..] && y == ("## " + y)[3..];
  }

  lemma TitleIsLine()
    ensures OneLine(TITLE)
  {
  }

  /** The text of one entry tells its type. */
  lemma TextTellsType(a: Entry, b: Entry)
    requires ChannelText([a]) == ChannelText([b])
    ensures a.typ == b.typ
  {
    TextOfOne(a);
    TextOfOne(b);
    TellsType(TITLE, a.typ, EntryLines([a]), b.typ, EntryLines([b]));
  }

  lemma TellsType(title: string, t: MemoryType, linesT: seq<string>, u: MemoryType, linesU: seq<string>)
    requires title == TITLE && PageOf(title, TypeName(t), linesT) == PageOf(title, TypeName(u), linesU)
    ensures t == u
  {
    TitleIsLine();
    NamesAreLines(t);
    NamesAreLines(u);
    HeadingOfPage(title, TypeName(t), linesT, TypeName(u), linesU);
    NamesDiffer(t, u);
  }

  lemma SelectedFirst(first: Entry, second: Entry, rule: Option<Rule>)
    requires MaxItems(rule) == 1 && PassesFilters(first, rule) && first.id != ""
    ensures Selected([first, second], rule).included == [first]
  {
    assert [first, second][..1] == [first] && [first][..0] == [];
    assert Selected([first], rule) == Consider(NOTHING, first, rule);
  }

  lemma BothEligible(a: Entry, b: Entry, loadout: Loadout, rule: Option<Rule>, clearance: Sensitivity)
    requires Eligible(a, loadout, rule, clearance) && Eligible(b, loadout, rule, clearance)
    ensures EligibleOf([a, b], loadout, rule, clearance) == [a, b]
  {
    assert [a, b][..1] == [a] && [a][..0] == [];
    assert EligibleOf([a], loadout, rule, clearance) == [a];
  }

  /** With room for one, two tied entries of different types give different texts in the two listing orders. */
  lemma TieAtTheCapChangesText(a: Entry, b: Entry, loadout: Loadout, rule: Option<Rule>, clearance: Sensitivity)
    requires SameKey(a, b) && a.typ != b.typ && a.id != "" && b.id != ""
    requires Eligible(a, loadout, rule, clearance) && Eligible(b, loadout, rule, clearance)
    requires PassesFilters(a, rule) && PassesFilters(b, rule) && MaxItems(rule) == 1
    ensures BootstrapText([a, b], loadout, rule, clearance) != BootstrapText([b, a], loadout, rule, clearance)
  {
    BothEligible(a, b, loadout, rule, clearance);
    BothEligible(b, a, loadout, rule, clearance);
    TiesFollowTheListing(a, b);
    TiesFollowTheListing(b, a);
    SelectedFirst(b, a, rule);
    SelectedFirst(a, b, rule);
    if ChannelText([a]) == ChannelText([b]) {
      TextTellsType(a, b);
    }
  }

  // ---------- the listing behind the channel ----------

  predicate NewerFirst(a: Entry, b: Entry) {
    a.updatedAt > b.updatedAt
  }

  ghost predicate DistinctTimes(s: seq<Entry>) {
    forall i, j | 0 <= i < j < |s| :: s[i].updatedAt != s[j].updatedAt
  }

  const PAGE := 100

  /** What the listing returns of the visible active rows when it is given no limit: the newest hundred. */
  function Page(visible: seq<Entry>): seq<Entry> {
    var sorted := Sort(NewerFirst, visible);
    if |sorted| <= PAGE then sorted else sorted[..PAGE]
  }

  /** How many of them are newer than `e`. */
  function Newer(visible: seq<Entry>, e: Entry): nat {
    if visible == [] then 0 else (if NewerFirst(visible[0], e) then 1 else 0) + Newer(visible[1..], e)
  }

  lemma {:induction false} NewerInserted(x: Entry, s: seq<Entry>, e: Entry)
    ensures Newer(Inserted(NewerFirst, x, s), e) == Newer([x] + s, e)
  {
    assert ([x] + s)[1..] == s;
    if s != [] && NewerFirst(s[0], x) {
      NewerInserted(x, s[1..], e);
      assert ([x] + s[1..])[1..] == s[1..];
      assert Inserted(NewerFirst, x, s)[1..] == Inserted(NewerFirst, x, s[1..]);
    }
  }

  lemma {:induction false} NewerSorted(s: seq<Entry>, e: Entry)
    ensures Newer(Sort(NewerFirst, s), e) == Newer(s, e)
  {
    if s != [] {
      var rest := Sort(NewerFirst, s[1..]);
      NewerSorted(s[1..], e);
      NewerInserted(s[0], rest, e);
      assert ([s[0]] + rest)[1..] == rest;
    }
  }

  lemma {:induction false} NoneNewer(s: seq<Entry>, e: Entry)
    requires forall i | 0 <= i < |s| :: !NewerFirst(s[i], e)
    ensures Newer(s, e) == 0
  {
    if s != [] {
      NoneNewer(s[1..], e);
    }
  }

  lemma {:induction false} PositionIsNewer(s: seq<Entry>, k: nat)
    requires Sorted(NewerFirst, s) && k < |s|
    ensures Newer(s, s[k]) == k
  {
    if k == 0 {
      NoneNewer(s, s[0]);
    } else {
      PositionIsNewer(s[1..], k - 1);
    }
  }

  lemma TimesOrder(s: seq<Entry>)
    requires DistinctTimes(s)
    ensures Orders(NewerFirst, s) && Distinct(s)
  {
    forall a, b | a in s && b in s
      ensures a == b || a.updatedAt != b.updatedAt
    {
    }
  }

  lemma AmongFirst(sorted: seq<Entry>, k: nat, n: nat)
    requires Sorted(NewerFirst, sorted) && k < |sorted| && n <= |sorted|
    ensures sorted[k] in sorted[..n] <==> k < n
  {
    if k < n {
      assert sorted[..n][k] == sorted[k];
    }
    forall j | 0 <= j < n && sorted[j] == sorted[k]
      ensures j == k
    {
      assert j < k ==> NewerFirst(sorted[j], sorted[k]);
      assert k < j ==> NewerFirst(sorted[k], sorted[j]);
    }
  }

  lemma NewerIsIndex(visible: seq<Entry>, e: Entry) returns (k: nat)
    requires DistinctTimes(visible) && e in visible
    ensures Sorted(NewerFirst, Sort(NewerFirst, visible))
    ensures k < |Sort(NewerFirst, visible)| && Sort(NewerFirst, visible)[k] == e && Newer(visible, e) == k
  {
    var sorted := Sort(NewerFirst, visible);
    TimesOrder(visible);
    SortSorts(NewerFirst, visible);
    SameMembers(sorted, visible);
    k :| 0 <= k < |sorted| && sorted[k] == e;
    NewerSorted(visible, e);
    PositionIsNewer(sorted, k);
  }

  /** An entry is on the page exactly when fewer than a hundred visible entries are newer. */
  lemma OnPageIff(visible: seq<Entry>, e: Entry)
    requires DistinctTimes(visible) && e in visible
    ensures e in Page(visible) <==> Newer(visible, e) < PAGE
  {
    var k := NewerIsIndex(visible, e);
    var sorted := Sort(NewerFirst, visible);
    if |sorted| > PAGE {
      AmongFirst(sorted, k, PAGE);
    }
  }

  lemma PageMembers(visible: seq<Entry>)
    requires DistinctIds(visible)
    ensures forall e | e in Page(visible) :: e in visible
    ensures DistinctIds(Page(visible))
  {
    SameMembers(Sort(NewerFirst, visible), visible);
    IdsKept(visible, Sort(NewerFirst, visible));
  }

  lemma TimesAreKeys(s: seq<Entry>, visible: seq<Entry>)
    requires DistinctTimes(visible) && DistinctIds(s) && forall e | e in s :: e in visible
    ensures DistinctKeys(s)
  {
    forall i, j | 0 <= i < j < |s|
      ensures !SameKey(s[i], s[j])
    {
      assert s[i] in visible && s[j] in visible && s[i] != s[j];
    }
  }

  /** The channel sees all its candidates exactly when each has fewer than a hundred newer visible entries. */
  lemma PageShowsAllIff(visible: seq<Entry>, loadout: Loadout, rule: Option<Rule>, clearance: Sensitivity)
    requires DistinctIds(visible) && DistinctTimes(visible)
    ensures Candidates(Page(visible), loadout, rule, clearance) == Candidates(visible, loadout, rule, clearance) <==>
              forall e | e in visible && Eligible(e, loadout, rule, clearance) :: Newer(visible, e) < PAGE
  {
    var page := Page(visible);
    var x, y := EligibleOf(page, loadout, rule, clearance), EligibleOf(visible, loadout, rule, clearance);
    PageMembers(visible);
    EligibleMembers(page, loadout, rule, clearance);
    EligibleMembers(visible, loadout, rule, clearance);
    TimesAreKeys(x, visible);
    TimesAreKeys(y, visible);
    SameMembers(Candidates(page, loadout, rule, clearance), x);
    SameMembers(Candidates(visible, loadout, rule, clearance), y);
    forall e | e in visible
      ensures e in page <==> Newer(visible, e) < PAGE
    {
      OnPageIff(visible, e);
    }
    if forall e | e in visible && Eligible(e, loadout, rule, clearance) :: Newer(visible, e) < PAGE {
      CandidatesDependOnEligible(page, visible, loadout, rule, clearance);
    } else {
      var e :| e in visible && Eligible(e, loadout, rule, clearance) && Newer(visible, e) >= PAGE;
      assert e in y && e !in x;
    }
  }

  lemma {:induction false} NoSections(types: seq<MemoryType>)
    ensures Sections([], types) == []
  {
    if types != [] {
      NoSections(types[..|types| - 1]);
    }
  }

  lemma EmptyText(types: seq<MemoryType>)
    ensures TextOf([], types) == "# bootstrap channel\n"
  {
    NoSections(types);
    assert [TITLE] + [] == [TITLE];
  }

  lemma NoCandidates(active: seq<Entry>, loadout: Loadout, rule: Option<Rule>, clearance: Sensitivity)
    requires EligibleOf(active, loadout, rule, clearance) == []
    ensures Selected(Candidates(active, loadout, rule, clearance), rule).included == []
  {
  }

  lemma NothingEligibleOnPage(visible: seq<Entry>, loadout: Loadout, rule: Option<Rule>, clearance: Sensitivity)
    requires DistinctIds(visible) && DistinctTimes(visible)
    requires forall e | e in visible && Eligible(e, loadout, rule, clearance) :: Newer(visible, e) >= PAGE
    ensures EligibleOf(Page(visible), loadout, rule, clearance) == []
  {
    var listed := EligibleOf(Page(visible), loadout, rule, clearance);
    PageMembers(visible);
    EligibleMembers(Page(visible), loadout, rule, clearance);
    if listed != [] {
      assert listed[0] in listed;
      OnPageIff(visible, listed[0]);
      assert false;
    }
  }

  /** A hundred newer entries of any kind push every older one out: what is left of the channel is its title. */
  lemma UnrelatedWritesCanEmptyTheChannel(visible: seq<Entry>, loadout: Loadout, rule: Option<Rule>,
                                          clearance: Sensitivity)
    requires DistinctIds(visible) && DistinctTimes(visible)
    requires forall e | e in visible && Eligible(e, loadout, rule, clearance) :: Newer(visible, e) >= PAGE
    ensures BootstrapText(Page(visible), loadout, rule, clearance) == "# bootstrap channel\n"
  {
    NothingEligibleOnPage(visible, loadout, rule, clearance);
    NoCandidates(Page(visible), loadout, rule, clearance);
    EmptyText(TYPE_ORDER);
  }

  // ---------- the assembler ----------

  datatype Channel = Channel(text: string, selectedIds: seq<string>, excludedIds: seq<string>, unavailable: seq<string>,
                             usedItems: nat, usedChars: nat)

  function Ids(entries: seq<Entry>): seq<string> {
    if entries == [] then [] else Ids(entries[..|entries| - 1]) + [entries[|entries| - 1].id]
  }

  function CountOther(active: seq<Entry>, loadout: Loadout): nat {
    if active == [] then 0
    else CountOther(active[..|active| - 1], loadout) + if OtherProject(active[|active| - 1], loadout) then 1 else 0
  }

  function CountSensitive(active: seq<Entry>, loadout: Loadout, clearance: Sensitivity): nat {
    if active == [] then 0
    else
      var last := active[|active| - 1];
      CountSensitive(active[..|active| - 1], loadout, clearance)
      + if !OtherProject(last, loadout) && TooSensitive(last, clearance) then 1 else 0
  }

  /** The loop appends an id once the candidates before it are done; the cap ends it. */
  lemma {:induction false} CapEnds(candidates: seq<Entry>, n: nat, rule: Option<Rule>)
    requires n <= |candidates| && Selected(candidates[..n], rule).items >= MaxItems(rule)
    ensures Selected(candidates, rule) == Selected(candidates[..n], rule)
    decreases |candidates|
  {
    if n == |candidates| {
      assert candidates[..n] == candidates;
    } else {
      var before := candidates[..|candidates| - 1];
      assert before[..n] == candidates[..n];
      CapEnds(before, n, rule);
    }
  }

  lemma SectionsNext(entries: seq<Entry>, types: seq<MemoryType>, i: nat)
    requires i < |types|
    ensures Sections(entries, types[..i + 1]) == Sections(entries, types[..i]) + Section(entries, types[i])
  {
    assert types[..i + 1][..i] == types[..i];
  }

  class ContextAssembler {
    var crossProjectLeaks: nat
    var sensitivityLeaks: nat

    constructor ()
      ensures crossProjectLeaks == 0 && sensitivityLeaks == 0
    {
      crossProjectLeaks, sensitivityLeaks := 0, 0;
    }

    /** `bootstrapCandidates`: the guards count what they turn away. */
    method BootstrapCandidates(active: seq<Entry>, loadout: Loadout, rule: Option<Rule>, clearance: Sensitivity)
      returns (allowed: seq<Entry>)
      modifies this
      ensures allowed == Candidates(active, loadout, rule, clearance)
      ensures crossProjectLeaks == old(crossProjectLeaks) + CountOther(active, loadout)
      ensures sensitivityLeaks == old(sensitivityLeaks) + CountSensitive(active, loadout, clearance)
    {
      var listed: seq<Entry> := [];
      for i := 0 to |active|
        invariant listed == EligibleOf(active[..i], loadout, rule, clearance)
        invariant crossProjectLeaks == old(crossProjectLeaks) + CountOther(active[..i], loadout)
        invariant sensitivityLeaks == old(sensitivityLeaks) + CountSensitive(active[..i], loadout, clearance)
      {
        var e := active[i];
        assert active[..i + 1][..i] == active[..i] && active[..i + 1][i] == e;
        if OtherProject(e, loadout) {
          crossProjectLeaks := crossProjectLeaks + 1;
        } else if TooSensitive(e, clearance) {
          sensitivityLeaks := sensitivityLeaks + 1;
        } else if e.tier.Core? {
          listed := listed + [e];
        } else if e.tier.Working? && e.pinned {
          listed := listed + [e];
        } else if e.id in Explicit(rule) {
          listed := listed + [e];
        }
      }
      assert active[..|active|] == active;
      allowed := Sort(ComesFirst, listed);
    }

    /** The selection loop of `assembleBootstrap`. */
    static method Select(candidates: seq<Entry>, rule: Option<Rule>) returns (s: Selection)
      ensures s == Selected(candidates, rule)
    {
      var included: seq<Entry>, excluded: seq<string>, unavailable: seq<string> := [], [], [];
      var usedItems, usedChars: nat := 0, 0;
      s := NOTHING;
      for i := 0 to |candidates|
        invariant s == Selection(included, excluded, unavailable, usedItems, usedChars)
            == Selected(candidates[..i], rule)
      {
        var e := candidates[i];
        assert candidates[..i + 1][..i] == candidates[..i] && candidates[..i + 1][i] == e;
        if usedItems >= MaxItems(rule) {
          CapEnds(candidates, i, rule);
          return;
        }
        var cost := Cost(e);
        if !PassesFilters(e, rule) {
          excluded := excluded + [e.id];
        } else if usedItems > 0 && usedChars + cost > MaxChars(rule) && e.id !in Required(rule) {
        } else if e.id in Required(rule) && |e.id| == 0 {
          unavailable := unavailable + [e.id];
        } else {
          included := included + [e];
          usedItems := usedItems + 1;
          usedChars := usedChars + cost;
        }
        s := Selection(included, excluded, unavailable, usedItems, usedChars);
      }
      assert candidates[..|candidates|] == candidates;
    }

    /** The second loop: required refs that no candidate has. */
    static method FindUnavailable(candidates: seq<Entry>, rule: Option<Rule>, s: Selection)
        returns (missing: seq<string>)
      requires s == Selected(candidates, rule)
      ensures missing == Unavailable(candidates, rule, SetOf(Required(rule)))
    {
      var refs := SetOf(Required(rule));
      missing := s.unavailable;
      for i := 0 to |refs|
        invariant missing == Unavailable(candidates, rule, refs[..i])
      {
        assert refs[..i + 1][..i] == refs[..i] && refs[..i + 1][i] == refs[i];
        if Present(refs[i], s.included) {
          continue;
        }
        if Present(refs[i], candidates) {
          continue;
        }
        missing := missing + [refs[i]];
      }
      assert refs[..|refs|] == refs;
    }

    /** The lines of one section. */
    static method PushEntries(lines: seq<string>, list: seq<Entry>) returns (more: seq<string>)
      ensures more == lines + EntryLines(list)
    {
      more := lines;
      for i := 0 to |list|
        invariant more == lines + EntryLines(list[..i])
      {
        assert list[..i + 1][..i] == list[..i] && list[..i + 1][i] == list[i];
        more := more + [HeaderLine(list[i])];
        more := more + [TrimNewlines(UnixLines(list[i].body))];
      }
      assert list[..|list|] == list;
    }

    ghost static predicate GroupedByType(grouped: map<MemoryType, seq<Entry>>, entries: seq<Entry>) {
      && (forall t | t in grouped :: grouped[t] == OfType(entries, t))
      && (forall t | t !in grouped :: OfType(entries, t) == [])
    }

    /** The grouping loop. */
    static method GroupByType(entries: seq<Entry>) returns (grouped: map<MemoryType, seq<Entry>>)
      ensures GroupedByType(grouped, entries)
    {
      grouped := map[];
      for i := 0 to |entries|
        invariant GroupedByType(grouped, entries[..i])
      {
        assert entries[..i + 1][..i] == entries[..i] && entries[..i + 1][i] == entries[i];
        var list := if entries[i].typ in grouped then grouped[entries[i].typ] else [];
        grouped := grouped[entries[i].typ := list + [entries[i]]];
      }
      assert entries[..|entries|] == entries;
    }

    /** One section, its entries sorted by id; nothing when no entry has the type. */
    static method PushSection(lines: seq<string>, entries: seq<Entry>, t: MemoryType,
                              grouped: map<MemoryType, seq<Entry>>)
      returns (more: seq<string>)
      requires GroupedByType(grouped, entries)
      ensures more == lines + Section(entries, t)
    {
      more := lines;
      if t in grouped && |grouped[t]| > 0 {
        Assoc(lines, ["\n## " + TypeName(t)], EntryLines(Sort(IdBefore, grouped[t])));
        more := more + ["\n## " + TypeName(t)];
        more := PushEntries(more, Sort(IdBefore, grouped[t]));
      } else {
        assert lines + [] == lines;
      }
    }

    /** The sections in the given order of types. */
    static method PushSections(entries: seq<Entry>, types: seq<MemoryType>, grouped: map<MemoryType, seq<Entry>>)
      returns (lines: seq<string>)
      requires GroupedByType(grouped, entries)
      ensures lines == [TITLE] + Sections(entries, types)
    {
      lines := [TITLE];
      for i := 0 to |types|
        invariant lines == [TITLE] + Sections(entries, types[..i])
      {
        SectionsNext(entries, types, i);
        Assoc([TITLE], Sections(entries, types[..i]), Section(entries, types[i]));
        lines := PushSection(lines, entries, types[i], grouped);
      }
      assert types[..|types|] == types;
    }

    /** `formatChannelText` */
    static method FormatChannelText(entries: seq<Entry>) returns (text: string)
      ensures text == ChannelText(entries)
    {
      var grouped := GroupByType(entries);
      var lines := PushSections(entries, TYPE_ORDER, grouped);
      text := Join(lines, "\n") + "\n";
    }

    /** `assembleBootstrap` */
    method AssembleBootstrap(active: seq<Entry>, loadout: Loadout, rule: Option<Rule>, clearance: Sensitivity)
      returns (channel: Channel)
      modifies this
      ensures channel.text == BootstrapText(active, loadout, rule, clearance)
      ensures var candidates := Candidates(active, loadout, rule, clearance);
              var s := Selected(candidates, rule);
              && channel.selectedIds == Sort(JsLess, Ids(s.included))
              && channel.excludedIds == SetOf(Sort(JsLess, s.excluded))
              && channel.unavailable == Sort(JsLess, Unavailable(candidates, rule, SetOf(Required(rule))))
              && channel.usedItems == s.items && channel.usedChars == s.chars
    {
      var candidates := BootstrapCandidates(active, loadout, rule, clearance);
      var s := Select(candidates, rule);
      var missing := FindUnavailable(candidates, rule, s);
      var text := FormatChannelText(s.included);
      channel := Channel(text, Sort(JsLess, Ids(s.included)), SetOf(Sort(JsLess, s.excluded)), Sort(JsLess, missing),
                         s.items, s.chars);
    }
  }
}
