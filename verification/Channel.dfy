/**
  What the bootstrap channel promises in terms of the entries alone: who is a
  candidate, in which order they come, which ones the caps leave out, what the
  rule's filters mean for the selection, and what one entry's text reads like.
 */
module BootstrapChannel {
  import opened Common
  import opened Sorting
  import opened TextOrder
  import opened ContextAssembly
  import T = AssemblyTies

  // ---------- candidates ----------

  /** Who is a candidate. */
  lemma CandidateIff(active: seq<Entry>, loadout: Loadout, rule: Option<Rule>, clearance: Sensitivity, e: Entry)
    ensures e in Candidates(active, loadout, rule, clearance) <==>
              && e in active
              && (loadout.scope == Project && loadout.project != None && e.scope == Project ==>
                    e.project == loadout.project)
              && (clearance == Normal ==> e.sensitivity == Normal)
              && (|| e.tier == Core || (e.tier == Working && e.pinned)
                  || (rule != None && e.id in rule.value.includeMemories))
  {
    EligibleMembers(active, loadout, rule, clearance);
    SameMembers(Candidates(active, loadout, rule, clearance), EligibleOf(active, loadout, rule, clearance));
  }

  /** A better tier, or a higher importance within the tier. */
  predicate Better(a: Entry, b: Entry) {
    || (a.tier == Core && b.tier != Core)
    || (a.tier == Working && b.tier == Archival)
    || (a.tier == b.tier && a.importance > b.importance)
  }

  /**
    Core candidates come before working ones and those before archival ones;
    within a tier importance never increases, and within equal importance the
    time of the last update never does.
   */
  lemma CandidatesInOrder(active: seq<Entry>, loadout: Loadout, rule: Option<Rule>, clearance: Sensitivity, i: nat,
                          j: nat)
    requires i < j < |Candidates(active, loadout, rule, clearance)|
    ensures var p := Candidates(active, loadout, rule, clearance);
            var a, b := p[i], p[j];
            && (b.tier == Core ==> a.tier == Core) && (b.tier == Working ==> a.tier != Archival)
            && (a.tier == b.tier ==> a.importance >= b.importance)
            && (a.tier == b.tier && a.importance == b.importance ==> a.updatedAt >= b.updatedAt)
  {
    T.SortArranged(EligibleOf(active, loadout, rule, clearance));
  }

  // ---------- what the caps leave out ----------

  function ItemCap(rule: Option<Rule>): int {
    match rule
    case None => 32
    case Some(r) => r.maxItems
  }

  function CharCap(rule: Option<Rule>): int {
    match rule
    case None => 8000
    case Some(r) => r.maxChars
  }

  predicate Demanded(rule: Option<Rule>, id: string) {
    rule != None && id in rule.value.required
  }

  /** The candidate did not fit when its turn came, after the ones taken before it. */
  ghost predicate DidNotFit(p: seq<Entry>, n: nat, rule: Option<Rule>)
    requires n < |p|
  {
    var taken := Selected(p[..n], rule).included;
    taken != [] && CostOf(taken) + Cost(p[n]) > CharCap(rule) && !Demanded(rule, p[n].id)
  }

  /** A candidate that passes is left out for one of two reasons: the item cap, or that it did not fit. */
  lemma LeftOutWhy(p: seq<Entry>, n: nat, rule: Option<Rule>)
    requires n < |p| && PassesFilters(p[n], rule) && p[n].id != "" && p[n] !in Selected(p, rule).included
    ensures || DidNotFit(p, n, rule)
            || (|Selected(p, rule).included| >= ItemCap(rule)
                && forall e | e in Selected(p, rule).included :: e in p[..n])
  {
    Accounting(p[..n], rule);
    if Selected(p[..n], rule).items >= MaxItems(rule) {
      CapEnds(p, n, rule);
      SelectionMembers(p[..n], rule);
    } else {
      assert p[..n + 1][..n] == p[..n];
      if p[n] in Selected(p[..n + 1], rule).included {
        IncludedStays(p, n + 1, rule, p[n]);
      }
    }
  }

  /** An entry that is left out in favour of one it is better than is one that did not fit. */
  lemma BetterLeftOut(active: seq<Entry>, loadout: Loadout, rule: Option<Rule>, clearance: Sensitivity, n: nat,
                      taken: Entry)
    requires DistinctIds(active)
    requires var p := Candidates(active, loadout, rule, clearance);
             && n < |p| && PassesFilters(p[n], rule) && p[n].id != ""
             && p[n] !in Selected(p, rule).included && taken in Selected(p, rule).included && Better(p[n], taken)
    ensures DidNotFit(Candidates(active, loadout, rule, clearance), n, rule)
  {
    var p := Candidates(active, loadout, rule, clearance);
    T.CandidatesArranged(active, loadout, rule, clearance);
    LeftOutWhy(p, n, rule);
    if taken in p[..n] {
      var m :| 0 <= m < n && p[m] == taken;
      CandidatesInOrder(active, loadout, rule, clearance, m, n);
    }
  }

  lemma {:induction false} CostSplits(a: seq<Entry>, b: seq<Entry>)
    ensures CostOf(a + b) == CostOf(a) + CostOf(b)
  {
    if a == [] {
      assert a + b == b;
    } else {
      CostSplits(a[1..], b);
      assert (a + b)[1..] == a[1..] + b;
    }
  }

  /** The first `n` of a list, or all of it; none for a negative number. */
  function First(s: seq<Entry>, n: int): seq<Entry> {
    if n <= 0 then [] else if n < |s| then s[..n] else s
  }

  lemma PassingNext(before: seq<Entry>, last: Entry, rule: Option<Rule>)
    ensures PassingOf(before + [last], rule)
         == PassingOf(before, rule) + if PassesFilters(last, rule) then [last] else []
  {
    assert (before + [last])[..|before|] == before;
  }

  /**
    When everything that passes fits the character cap, the selection is the
    first of the passing candidates, as many as the item cap allows.
   */
  lemma {:induction false} SelectsFirst(p: seq<Entry>, rule: Option<Rule>)
    requires CostOf(PassingOf(p, rule)) <= CharCap(rule) && forall e | e in p :: e.id != ""
    ensures Selected(p, rule).included == First(PassingOf(p, rule), ItemCap(rule))
  {
    if p != [] {
      var before, last := p[..|p| - 1], p[|p| - 1];
      var passing := PassingOf(before, rule);
      assert p == before + [last];
      PassingNext(before, last, rule);
      if PassesFilters(last, rule) {
        CostNext(passing, last);
        FirstNext(passing, last, ItemCap(rule));
      }
      SelectsFirst(before, rule);
      Accounting(before, rule);
      SelectsNext(before, last, rule);
    }
  }

  lemma FirstNext(s: seq<Entry>, e: Entry, n: int)
    ensures First(s + [e], n) == First(s, n) + if |s| < n then [e] else []
    ensures |First(s, n)| < n <==> |s| < n
  {
  }

  lemma SelectsNext(before: seq<Entry>, last: Entry, rule: Option<Rule>)
    requires last.id != ""
    ensures var s := Selected(before, rule);
            Selected(before + [last], rule).included
            == s.included + if s.items < MaxItems(rule) && PassesFilters(last, rule)
                               && !(s.items > 0 && s.chars + Cost(last) > MaxChars(rule) && last.id !in Required(rule))
                            then [last] else []
  {
    assert (before + [last])[..|before|] == before;
  }

  /** So nothing left out is better than anything taken. */
  lemma BestAreTaken(active: seq<Entry>, loadout: Loadout, rule: Option<Rule>, clearance: Sensitivity, left: Entry,
                     taken: Entry)
    requires var p := Candidates(active, loadout, rule, clearance);
             && CostOf(PassingOf(p, rule)) <= CharCap(rule) && (forall e | e in p :: e.id != "")
             && left in p && PassesFilters(left, rule) && left !in Selected(p, rule).included
             && taken in Selected(p, rule).included
    ensures !Better(left, taken)
    ensures |Selected(Candidates(active, loadout, rule, clearance), rule).included| >= ItemCap(rule)
  {
    var p := Candidates(active, loadout, rule, clearance);
    SelectsFirst(p, rule);
    PassingMembers(p, rule);
    T.SortArranged(EligibleOf(active, loadout, rule, clearance));
    PassingArranged(p, rule);
    var i, j := NotAmongFirst(PassingOf(p, rule), ItemCap(rule), taken, left);
  }

  lemma NotAmongFirst(s: seq<Entry>, n: int, taken: Entry, left: Entry) returns (i: nat, j: nat)
    requires taken in First(s, n) && left in s && left !in First(s, n)
    ensures i < j < |s| && s[i] == taken && s[j] == left && |First(s, n)| >= n
  {
    j :| 0 <= j < |s| && s[j] == left;
    i :| 0 <= i < |First(s, n)| && First(s, n)[i] == taken;
    forall k | 0 <= k < |First(s, n)|
      ensures s[k] in First(s, n)
    {
      assert First(s, n)[k] == s[k];
    }
  }

  lemma {:induction false} PassingArranged(p: seq<Entry>, rule: Option<Rule>)
    requires T.Arranged(p)
    ensures T.Arranged(PassingOf(p, rule))
  {
    if p != [] {
      var before, last := p[..|p| - 1], p[|p| - 1];
      assert p == before + [last];
      PassingArranged(before, rule);
      PassingMembers(before, rule);
      forall e | e in PassingOf(before, rule)
        ensures !Before(last, e)
      {
        var k :| 0 <= k < |before| && before[k] == e;
        assert p[k] == e && p[|p| - 1] == last;
      }
    }
  }

  // ---------- what the filters mean ----------

  /** A selected entry breaks no exclusion of the rule and meets each of its inclusions that lists anything. */
  lemma SelectedObeysRule(p: seq<Entry>, r: Rule, e: Entry)
    requires e in Selected(p, Some(r)).included
    ensures e in p && e.id !in r.excludeMemories && forall t | t in e.tags :: t !in r.excludeTags
    ensures r.includeMemories != [] ==> e.id in r.includeMemories
    ensures r.includeTypes != [] ==> e.typ in r.includeTypes
    ensures r.includeTiers != [] ==> e.tier in r.includeTiers
    ensures r.includeTags != [] ==> exists t :: t in e.tags && t in r.includeTags
    ensures r.includeTopics != [] ==> e.topic in r.includeTopics
  {
    SelectionMembers(p, Some(r));
  }

  /** An entry reported as excluded breaks one of them; without a rule none is. */
  lemma ExcludedBreaksRule(p: seq<Entry>, rule: Option<Rule>, id: string)
    requires id in Selected(p, rule).excluded
    ensures rule != None
    ensures exists e | e in p && e.id == id ::
              || id in rule.value.excludeMemories || (exists t :: t in e.tags && t in rule.value.excludeTags)
              || (rule.value.includeMemories != [] && id !in rule.value.includeMemories)
              || (rule.value.includeTypes != [] && e.typ !in rule.value.includeTypes)
              || (rule.value.includeTiers != [] && e.tier !in rule.value.includeTiers)
              || (rule.value.includeTags != [] && forall t | t in e.tags :: t !in rule.value.includeTags)
              || (rule.value.includeTopics != [] && e.topic !in rule.value.includeTopics)
  {
    SelectionMembers(p, rule);
    var e :| e in p && e.id == id && !PassesFilters(e, rule);
  }

  /** A candidate that the rule filters out is reported, unless the item cap was reached before it. */
  lemma FailingIsReported(p: seq<Entry>, n: nat, rule: Option<Rule>)
    requires n < |p| && !PassesFilters(p[n], rule) && |Selected(p[..n], rule).included| < ItemCap(rule)
    ensures p[n].id in Selected(p, rule).excluded
  {
    Accounting(p[..n], rule);
    assert p[..n + 1][..n] == p[..n];
    ExcludedStays(p, n + 1, rule, p[n].id);
  }

  lemma {:induction false} ExcludedStays(p: seq<Entry>, n: nat, rule: Option<Rule>, id: string)
    requires n <= |p| && id in Selected(p[..n], rule).excluded
    ensures id in Selected(p, rule).excluded
    decreases |p|
  {
    if n == |p| {
      assert p[..n] == p;
    } else {
      var before := p[..|p| - 1];
      assert before[..n] == p[..n];
      ExcludedStays(before, n, rule, id);
    }
  }

  // ---------- lengths ----------

  /** An entry of characters below U+10000 costs its body and title, and 64. */
  lemma CostOfPlain(e: Entry)
    requires forall i | 0 <= i < |e.body| :: e.body[i] as int < 0x10000
    requires forall i | 0 <= i < |e.title| :: e.title[i] as int < 0x10000
    ensures Cost(e) == |e.body| + |e.title| + 64
  {
    PlainUnits(e.body);
    PlainUnits(e.title);
  }

  lemma {:induction false} PlainUnits(s: string)
    requires forall i | 0 <= i < |s| :: s[i] as int < 0x10000
    ensures |Encode(Utf16, s)| == |s|
  {
    if s != "" {
      assert forall i | 0 <= i < |s[1..]| :: s[1..][i] == s[i + 1];
      PlainUnits(s[1..]);
    }
  }

  // ---------- the text ----------

  /** What is hashed: six fields, a line break between each two. */
  lemma CanonicalIsJoined(l: Loadout, policy: string, actor: string, project: string, text: string)
    ensures Canonical(l, policy, actor, project, text)
         == Join([l.id, Decimal(l.version), policy, actor, project, text], "\n")
  {
    JoinMore(l.id, [Decimal(l.version), policy, actor, project, text]);
    JoinMore(Decimal(l.version), [policy, actor, project, text]);
    JoinMore(policy, [actor, project, text]);
    JoinMore(actor, [project, text]);
    JoinMore(project, [text]);
  }

  lemma JoinMore(first: string, rest: seq<string>)
    requires rest != []
    ensures Join([first] + rest, "\n") == first + "\n" + Join(rest, "\n")
  {
    assert ([first] + rest)[1..] == rest;
  }

  /** The number that a text of decimal digits stands for. */
  function NumberOf(s: string): int {
    if s == "" then 0 else 10 * NumberOf(s[..|s| - 1]) + s[|s| - 1] as int - '0' as int
  }

  /** Numbers are written in decimal digits, without a leading zero. */
  lemma {:induction false} DecimalReadsBack(n: nat)
    ensures NumberOf(Decimal(n)) == n
    ensures forall i | 0 <= i < |Decimal(n)| :: '0' <= Decimal(n)[i] <= '9'
    ensures n > 0 ==> Decimal(n)[0] != '0'
  {
    if n >= 10 {
      var d := Decimal(n);
      DecimalReadsBack(n / 10);
      assert d[..|d| - 1] == Decimal(n / 10);
    } else {
      assert Decimal(n)[..0] == "";
    }
  }

  function LineBreaks(n: nat): string {
    if n == 0 then "" else LineBreaks(n - 1) + "\n"
  }

  /** Trimming takes off the line breaks at the end and nothing else. */
  lemma {:induction false} TrimTakesLineBreaks(body: string) returns (n: nat)
    ensures body == TrimNewlines(body) + LineBreaks(n)
    ensures TrimNewlines(body) == "" || TrimNewlines(body)[|TrimNewlines(body)| - 1] != '\n'
  {
    if body != "" && body[|body| - 1] == '\n' {
      var m := TrimTakesLineBreaks(body[..|body| - 1]);
      n := m + 1;
      assert body == body[..|body| - 1] + "\n";
      assert TrimNewlines(body) + LineBreaks(n) == (TrimNewlines(body) + LineBreaks(m)) + "\n";
    } else {
      n := 0;
      assert body + "" == body;
    }
  }

  predicate HasPair(s: string) {
    exists i | 0 <= i < |s| - 1 :: s[i] == '\r' && s[i + 1] == '\n'
  }

  /** A body without a carriage return before a line feed is left as it is. */
  lemma {:induction false} UnixLinesKeeps(body: string)
    requires !HasPair(body)
    ensures UnixLines(body) == body
  {
    if body != "" {
      assert !HasPair(body[1..]) by {
        forall i | 0 <= i < |body[1..]| - 1
          ensures !(body[1..][i] == '\r' && body[1..][i + 1] == '\n')
        {
          assert body[1..][i] == body[i + 1] && body[1..][i + 1] == body[i + 2];
        }
      }
      UnixLinesKeeps(body[1..]);
      assert body == [body[0]] + body[1..];
    }
  }

  /** And each such pair becomes a line feed. */
  lemma {:induction false} UnixLinesReplaces(front: string, rest: string)
    requires !HasPair(front + "\r")
    ensures UnixLines(front + "\r\n" + rest) == front + "\n" + UnixLines(rest)
  {
    var all := front + "\r\n" + rest;
    if front == "" {
      assert all == "\r\n" + rest && all[2..] == rest;
    } else {
      assert all[0] == front[0] && all[1..] == front[1..] + "\r\n" + rest;
      assert all[0] == (front + "\r")[0] && all[1] == (front + "\r")[1];
      assert !HasPair(front[1..] + "\r") by {
        assert forall i | 0 <= i < |front| :: (front[1..] + "\r")[i] == (front + "\r")[i + 1];
      }
      UnixLinesReplaces(front[1..], rest);
      assert front == [front[0]] + front[1..];
    }
  }

  // ---------- the text of the channel ----------

  function NameOf(t: MemoryType): string {
    match t
    case Constraint => "constraint" case Procedure => "procedure" case Fact => "fact" case Preference => "preference"
    case Decision => "decision" case Debugging => "debugging" case Lesson => "lesson"
  }

  /** The line that introduces an entry, piece by piece. */
  lemma HeaderPieces(e: Entry)
    ensures HeaderLine(e)
         == Join(["- [", if e.scope == Global then "global" else "project",
                  if e.project == None || e.project == Some("") then "" else ":" + e.project.value,
                  "] **", e.title, "** (tier=",
                  match e.tier case Core => "core" case Working => "working" case Archival => "archival",
                  ", importance=", Decimal(e.importance), "/", Decimal(e.confidence), ", id=", e.id, ")"], "")
  {
    GluePieces("- [", if e.scope == Global then "global" else "project",
               if e.project == None || e.project == Some("") then "" else ":" + e.project.value,
               "] **", e.title, "** (tier=", TierName(e.tier), ", importance=", Decimal(e.importance), "/",
               Decimal(e.confidence), ", id=", e.id, ")");
  }

  lemma {:induction false} GlueMore(parts: seq<string>, last: string)
    ensures Join(parts + [last], "") == Join(parts, "") + last
  {
    if parts == [] {
      assert [] + [last] == [last] && "" + last == last;
    } else if |parts| == 1 {
      assert (parts + [last])[1..] == [last];
      assert parts[0] + "" == parts[0];
    } else {
      GlueMore(parts[1..], last);
      assert (parts + [last])[1..] == parts[1..] + [last];
      assert parts[0] + "" == parts[0];
      Assoc(parts[0], Join(parts[1..], ""), last);
    }
  }

  lemma GlueFour(front: seq<string>, a: string, b: string, c: string, d: string)
    ensures Join(front + [a, b, c, d], "") == Join(front, "") + a + b + c + d
  {
    GlueMore(front, a);
    GlueMore(front + [a], b);
    GlueMore(front + [a] + [b], c);
    GlueMore(front + [a] + [b] + [c], d);
    assert front + [a] + [b] + [c] + [d] == front + [a, b, c, d];
  }

  lemma GluePieces(a: string, b: string, c: string, d: string, e: string, f: string, g: string, h: string, i: string,
                   j: string, k: string, l: string, m: string, n: string)
    ensures Join([a, b, c, d, e, f, g, h, i, j, k, l, m, n], "")
         == a + b + c + d + e + f + g + h + i + j + k + l + m + n
  {
    var one, two := [a, b] + [c, d, e, f], [a, b] + [c, d, e, f] + [g, h, i, j];
    GlueMore([a], b);
    assert [a] + [b] == [a, b];
    GlueFour([a, b], c, d, e, f);
    GlueFour(one, g, h, i, j);
    GlueFour(two, k, l, m, n);
    assert two + [k, l, m, n] == [a, b, c, d, e, f, g, h, i, j, k, l, m, n];
  }

  /** A channel of one entry is six lines, the last one empty. */
  lemma OneEntryReads(e: Entry)
    ensures ChannelText([e])
         == Join(["# bootstrap channel", "", "## " + NameOf(e.typ), HeaderLine(e), TrimNewlines(UnixLines(e.body)), ""],
                 "\n")
  {
    var body := TrimNewlines(UnixLines(e.body));
    TextOfOne(e);
    assert EntryLines([e]) == [HeaderLine(e), body] by {
      assert [e][..0] == [];
    }
    SixLines("# bootstrap channel", NameOf(e.typ), HeaderLine(e), body);
  }

  lemma SixLines(title: string, heading: string, header: string, body: string)
    ensures PageOf(title, heading, [header, body])
         == Join([title, "", "## " + heading, header, body, ""], "\n")
  {
    JoinMore(header, [body]);
    JoinMore(title, ["", "## " + heading, header, body, ""]);
    JoinMore("", ["## " + heading, header, body, ""]);
    JoinMore("## " + heading, [header, body, ""]);
    JoinMore(header, [body, ""]);
    JoinMore(body, [""]);
    assert header + "\n" + body + "\n" == header + "\n" + (body + "\n" + "");
  }

  lemma {:induction false} SectionsJoin(x: seq<Entry>, a: seq<MemoryType>, b: seq<MemoryType>)
    ensures Sections(x, a + b) == Sections(x, a) + Sections(x, b)
  {
    if b == [] {
      assert a + b == a && Sections(x, a) + [] == Sections(x, a);
    } else {
      var front, t := b[..|b| - 1], b[|b| - 1];
      SectionsJoin(x, a, front);
      assert (a + b)[..|a + b| - 1] == a + front;
      Assoc(Sections(x, a), Sections(x, front), Section(x, t));
    }
  }

  /** The sections follow the title in this order of types, whichever of them have entries. */
  lemma SectionPlaced(x: seq<Entry>, before: seq<MemoryType>, t: MemoryType, after: seq<MemoryType>)
    requires before + [t] + after == [Constraint, Procedure, Fact, Preference, Decision, Debugging, Lesson]
    ensures ChannelText(x)
         == Join(["# bootstrap channel"] + ((Sections(x, before) + Section(x, t)) + Sections(x, after)), "\n") + "\n"
  {
    assert (before + [t])[..|before|] == before;
    SectionsJoin(x, before + [t], after);
  }

  /**
    A section lists exactly the entries of its type, by ascending id, two lines
    for each; a type without entries has none.
   */
  lemma SectionReads(x: seq<Entry>, t: MemoryType) returns (listed: seq<Entry>)
    requires DistinctIds(x)
    ensures forall e :: e in listed <==> e in x && e.typ == t
    ensures forall i, j | 0 <= i < j < |listed| :: JsLess(listed[i].id, listed[j].id)
    ensures listed == [] ==> Section(x, t) == []
    ensures listed != [] ==> Section(x, t) == ["\n## " + NameOf(t)] + EntryLines(listed)
    ensures forall k | 0 <= k < |listed| ::
              && |EntryLines(listed)| == 2 * |listed|
              && EntryLines(listed)[2 * k] == HeaderLine(listed[k])
              && EntryLines(listed)[2 * k + 1] == TrimNewlines(UnixLines(listed[k].body))
  {
    var list := OfType(x, t);
    listed := Sort(IdBefore, list);
    OfTypeMembers(x, t);
    IdsOrder(list);
    SortSorts(IdBefore, list);
    SameMembers(listed, list);
    forall k | 0 <= k < |listed|
      ensures |EntryLines(listed)| == 2 * |listed|
      ensures EntryLines(listed)[2 * k] == HeaderLine(listed[k])
      ensures EntryLines(listed)[2 * k + 1] == TrimNewlines(UnixLines(listed[k].body))
    {
      TwoLinesEach(listed, k);
    }
    forall i, j | 0 <= i < j < |listed|
      ensures JsLess(listed[i].id, listed[j].id)
    {
      assert IdBefore(listed[i], listed[j]);
    }
  }

  lemma {:induction false} LinesLength(x: seq<Entry>)
    ensures |EntryLines(x)| == 2 * |x|
  {
    if x != [] {
      LinesLength(x[..|x| - 1]);
    }
  }

  /** Line `i` and the next of `front` followed by anything are those of `front`. */
  lemma LinesKept(front: seq<string>, more: seq<string>, i: nat)
    requires i + 1 < |front|
    ensures (front + more)[i] == front[i] && (front + more)[i + 1] == front[i + 1]
  {
  }

  lemma {:induction false} TwoLinesEach(x: seq<Entry>, k: nat)
    requires k < |x|
    ensures |EntryLines(x)| == 2 * |x|
    ensures EntryLines(x)[2 * k] == HeaderLine(x[k])
    ensures EntryLines(x)[2 * k + 1] == TrimNewlines(UnixLines(x[k].body))
  {
    var before, last := x[..|x| - 1], x[|x| - 1];
    LinesLength(x);
    LinesLength(before);
    if k < |before| {
      TwoLinesEach(before, k);
      LinesKept(EntryLines(before), [HeaderLine(last), TrimNewlines(UnixLines(last.body))], 2 * k);
    }
  }

  /** The answer names the selected entries, no others, as often as they are selected. */
  lemma {:induction false} IdsAre(x: seq<Entry>)
    ensures |Ids(x)| == |x| && forall i | 0 <= i < |x| :: Ids(x)[i] == x[i].id
  {
    if x != [] {
      IdsAre(x[..|x| - 1]);
    }
  }

  // ---------- the listing and the guards ----------

  /** The page is the newest hundred of what is visible, or all of it. */
  lemma PageIsNewest(visible: seq<Entry>, on: Entry, off: Entry)
    requires DistinctTimes(visible) && on in Page(visible) && off in visible && off !in Page(visible)
    ensures on in visible && on.updatedAt > off.updatedAt && |Page(visible)| == 100 && |visible| > 100
  {
    var sorted := Sort(NewerFirst, visible);
    TimesOrder(visible);
    SortSorts(NewerFirst, visible);
    SameMembers(sorted, visible);
    var i :| 0 <= i < |Page(visible)| && Page(visible)[i] == on;
    var j :| 0 <= j < |sorted| && sorted[j] == off;
    forall k | 0 <= k < |Page(visible)|
      ensures sorted[k] in Page(visible)
    {
      assert Page(visible)[k] == sorted[k];
    }
    assert NewerFirst(sorted[i], sorted[j]);
  }

  /** The positions of the entries that the project guard turns away. */
  function Foreign(active: seq<Entry>, loadout: Loadout): set<int> {
    set i | 0 <= i < |active| && loadout.scope == Project && loadout.project != None
            && active[i].scope == Project && active[i].project != loadout.project
  }

  /** Of the others, those that the sensitivity guard does. */
  function Secret(active: seq<Entry>, loadout: Loadout, clearance: Sensitivity): set<int> {
    set i | 0 <= i < |active| && i !in Foreign(active, loadout)
            && clearance == Normal && active[i].sensitivity != Normal
  }

  /** Each guard counts the entries it turns away, once each. */
  lemma {:induction false} GuardsCount(active: seq<Entry>, loadout: Loadout, clearance: Sensitivity)
    ensures CountOther(active, loadout) == |Foreign(active, loadout)|
    ensures CountSensitive(active, loadout, clearance) == |Secret(active, loadout, clearance)|
  {
    if active == [] {
      assert Foreign(active, loadout) == {} && Secret(active, loadout, clearance) == {};
    } else {
      var n := |active| - 1;
      var before := active[..n];
      GuardsCount(before, loadout, clearance);
      ForeignNext(active, loadout);
      SecretNext(active, loadout, clearance);
    }
  }

  lemma ForeignNext(active: seq<Entry>, loadout: Loadout)
    requires active != []
    ensures var n := |active| - 1;
            && n !in Foreign(active[..n], loadout)
            && Foreign(active, loadout)
               == Foreign(active[..n], loadout) + if OtherProject(active[n], loadout) then {n} else {}
  {
    var n := |active| - 1;
    assert forall i | 0 <= i < n :: active[..n][i] == active[i];
  }

  lemma SecretNext(active: seq<Entry>, loadout: Loadout, clearance: Sensitivity)
    requires active != []
    ensures var n := |active| - 1;
            && n !in Secret(active[..n], loadout, clearance)
            && Secret(active, loadout, clearance)
               == Secret(active[..n], loadout, clearance)
                  + if !OtherProject(active[n], loadout) && TooSensitive(active[n], clearance) then {n} else {}
  {
    var n := |active| - 1;
    ForeignNext(active, loadout);
    assert forall i | 0 <= i < n :: active[..n][i] == active[i];
  }
}
