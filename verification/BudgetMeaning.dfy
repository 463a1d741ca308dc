/**
  What the budget counts: the recount in terms of the rows alone, and a single
  write's verdict in terms of the four limits.
 */
module BudgetMeaning {
  import opened Common
  import opened BudgetGovernor

  // ---------- which rows count ----------

  /** The active rows of the scope, and of the project when the filter names one. */
  function Rows(t: Table, f: Filter): Table {
    map k | k in t && t[k].status == Active && t[k].scope == f.scope
            && (f.project == None || t[k].project == f.project) :: t[k]
  }

  lemma RowsWithout(t: Table, f: Filter, k: string)
    requires k in t
    ensures Rows(t - {k}, f) == Rows(t, f) - {k}
  {
  }

  /** A sum over the rows that count is a sum over the table. */
  lemma {:induction false} TotalOfRows(t: Table, f: Filter, part: Entry -> int)
    requires forall e: Entry | !(e.status == Active && e.scope == f.scope
                                 && (f.project == None || e.project == f.project)) :: part(e) == 0
    ensures Total(t, part) == Total(Rows(t, f), part)
    decreases |t|
  {
    if t == map[] {
      assert Rows(t, f) == map[];
    } else {
      var k :| k in t;
      TotalWithout(t, k, part);
      TotalOfRows(t - {k}, f, part);
      RowsWithout(t, f, k);
      if k in Rows(t, f) {
        TotalWithout(Rows(t, f), k, part);
      } else {
        assert Rows(t, f) - {k} == Rows(t, f);
      }
    }
  }

  lemma TopicsOfRows(t: Table, f: Filter)
    ensures TopicsOf(t, f) == TopicsOf(Rows(t, f), f)
    ensures TopicsOf(t, f) == set k | k in Rows(t, f) :: Rows(t, f)[k].topic
  {
    var rows := Rows(t, f);
    forall topic: string
      ensures topic in TopicsOf(t, f) <==> exists k :: k in rows && rows[k].topic == topic
    {
      if topic in TopicsOf(t, f) {
        var k :| k in t && Counted(t[k], f) && t[k].topic == topic;
        assert k in rows && rows[k].topic == topic;
      }
    }
  }

  /**
    Archived, superseded and forgotten entries and those of other scopes or
    projects leave every figure of the recount as it is without them.
   */
  lemma RecountOfRows(t: Table, f: Filter)
    ensures Recount(t, f) == Recount(Rows(t, f), f)
  {
    TotalOfRows(t, f, CountPart(f));
    TotalOfRows(t, f, CharPart(f));
    TotalOfRows(t, f, IndexPart(f));
    TopicsOfRows(t, f);
    forall topic: string
      ensures TopicTotal(t, f, topic) == TopicTotal(Rows(t, f), f, topic)
    {
      TotalOfRows(t, f, TopicPart(f, topic));
    }
    SameMap(Recount(t, f).topicChars, Recount(Rows(t, f), f).topicChars);
  }

  lemma OneLess(m: Table, k: string)
    requires k in m
    ensures |m| == |m - {k}| + 1
  {
    assert m.Keys == (m - {k}).Keys + {k};
    assert |m.Keys| == |(m - {k}).Keys| + 1;
  }

  lemma {:induction false} CountOfRows(t: Table, f: Filter)
    ensures Total(t, CountPart(f)) == |Rows(t, f)|
    decreases |t|
  {
    if t == map[] {
      assert Rows(t, f) == map[];
    } else {
      var k :| k in t;
      TotalWithout(t, k, CountPart(f));
      CountOfRows(t - {k}, f);
      RowsWithout(t, f, k);
      RowsLess(t, f, k);
    }
  }

  lemma RowsLess(t: Table, f: Filter, k: string)
    requires k in t
    ensures |Rows(t, f)| == |Rows(t, f) - {k}| + CountPart(f)(t[k])
  {
    if k in Rows(t, f) {
      OneLess(Rows(t, f), k);
    } else {
      assert Rows(t, f) - {k} == Rows(t, f);
    }
  }

  /** The entries counted are as many as there are such rows. */
  lemma CountIsRows(t: Table, f: Filter)
    ensures Recount(t, f).activeEntries == |Rows(t, f)|
  {
    CountOfRows(t, f);
  }

  /** One more row that counts adds itself to each figure; an empty table has none. */
  lemma RowAdds(t: Table, k: string, e: Entry, f: Filter)
    requires k !in t && e.status == Active && e.scope == f.scope && (f.project == None || e.project == f.project)
    ensures var u, v := Recount(t, f), Recount(t[k := e], f);
            && v.activeEntries == u.activeEntries + 1 && v.activeChars == u.activeChars + e.charCount
            && v.indexChars == u.indexChars + SqlIndexChars(e)
            && v.topicChars == u.topicChars[e.topic := (if e.topic in u.topicChars then u.topicChars[e.topic] else 0)
                                                       + e.charCount]
    ensures Recount(map[], f) == Usage(0, 0, map[], 0)
  {
    RecountAdd(t, k, e, f);
    assert TopicsOf(map[], f) == {};
  }

  // ---------- sizes ----------

  /** The index size is the lengths of title, topic and space-joined tags, and 16, for texts without NUL. */
  lemma IndexSizeIs(e: Entry)
    requires NulFree(e)
    ensures SqlIndexChars(e) == |e.title| + |e.topic| + |Join(e.tags, " ")| + 16
    ensures IndexOf(e) == |e.title| + |e.topic| + |Join(e.tags, " ")| + 16
  {
    IndexSizesAgreeIff(e);
  }

  /** SQL counts up to the first NUL. */
  lemma {:induction false} SqlLengthIs(s: string, i: nat)
    requires i < |s| && s[i] == '\0' && '\0' !in s[..i]
    ensures SqlLength(s) == i
  {
    if i > 0 {
      assert s[0] == s[..i][0] && s[0] in s[..i];
      assert s[1..][..i - 1] == s[..i][1..];
      assert forall c | c in s[..i][1..] :: c in s[..i];
      SqlLengthIs(s[1..], i - 1);
    }
  }

  // ---------- a single write ----------

  /** An active entry is accepted exactly when count, characters, its topic's characters and index size fit with it. */
  lemma ActiveWriteIff(b: Budget, u: Usage, e: Entry)
    requires e.status == Active && NulFree(e)
    ensures EvaluationAccepts(b, u, e) <==>
              && u.activeEntries + 1 <= b.maxActiveEntries && u.activeChars + e.charCount <= b.maxTotalChars
              && u.indexChars + |e.title| + |e.topic| + |Join(e.tags, " ")| + 16 <= b.maxIndexChars
              && (b.maxTopicChars != None ==>
                    (if e.topic in u.topicChars then u.topicChars[e.topic] else 0) + e.charCount
                    <= b.maxTopicChars.value)
  {
    IndexSizeIs(e);
  }

  /** Any other entry is judged by the usage as it is. */
  lemma InactiveWriteIff(b: Budget, u: Usage, e: Entry)
    requires e.status != Active
    ensures UsageWith(u, e) == u
    ensures EvaluationAccepts(b, u, e) <==>
              && u.activeEntries <= b.maxActiveEntries && u.activeChars <= b.maxTotalChars
              && u.indexChars <= b.maxIndexChars
              && (b.maxTopicChars != None && e.topic in u.topicChars ==>
                    u.topicChars[e.topic] <= b.maxTopicChars.value)
  {
  }
}
