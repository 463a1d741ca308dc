/**
  What the project identity resolver answers and writes in each mode, said of
  the tables; and which texts are project ids in normal form.
 */
module IdentityAnswers {
  import opened Common
  import opened ProjectIdentity

  // ---------- calls with a path ----------

  /** A call that reaches the tables, with the path, alias key and id that it does so with. */
  predicate Reaches(p: Platform, c: Call, path: string, key: string, id: string) {
    && c.input.scope == "project" && c.input.projectPath != None && c.input.projectPath != Some("")
    && path == p.canonicalize(c.input.projectPath.value) && key == p.aliasKey(path)
    && (if c.input.projectId == None then id == DerivedId(p, path)
        else NormalizeProjectId(c.input.projectId.value) == Some(id))
  }

  /** The path's alias belongs to another id than the one the caller named. */
  predicate Contradicts(t: Tables, c: Call, key: string, id: string) {
    c.input.projectId != None && key in t.aliases && t.aliases[key].projectId != id
  }

  lemma ReachesTables(t: Tables, p: Platform, c: Call, path: string, key: string, id: string)
    requires Reaches(p, c, path, key, id)
    ensures TakesPath(p, c.input) && RequestedId(p, c.input) == Some(id) && KeyOf(p, c.input) == key
    ensures AnswerOf(t, p, c) == AnswerPath(t, path, key, id, c.input.projectId.Some?, c)
    ensures After(t, p, c) == AfterPath(t, path, key, id, c.input.projectId.Some?, c)
  {
  }

  /**
    In strict mode, over any run: a call succeeds exactly when the path's alias
    is there and does not contradict the caller, or there is no alias and the id
    is registered; the answer is the alias's identity, else the id's, with the
    path it was registered with. An unregistered pair is a conflict.
   */
  lemma StrictAnswerIff(p: Platform, run: seq<Event>, c: Call, path: string, key: string, id: string)
    requires c.mode == StrictExisting && Reaches(p, c, path, key, id)
    ensures var t, a := Replay(p, run), AnswerOf(Replay(p, run), p, c);
            && After(t, p, c) == t
            && (key !in t.aliases && id !in t.identities ==> a == Err(IdentityConflict))
            && (key !in t.aliases && id in t.identities ==>
                  a == Ok(ProjectScope(id, Some(t.identities[id].canonicalPath), Bound)))
            && (Contradicts(t, c, key, id) ==> a == Err(IdentityConflict))
            && (key in t.aliases && !Contradicts(t, c, key, id) ==>
                  && t.aliases[key].projectId in t.identities
                  && a == Ok(ProjectScope(t.aliases[key].projectId,
                                          Some(t.identities[t.aliases[key].projectId].canonicalPath), Bound)))
  {
    AlwaysSound(p, run);
    ReachesTables(Replay(p, run), p, c, path, key, id);
  }

  /** In lookup mode a registered id is bound to its path, and an unknown one is absent with the path as given. */
  lemma LookupAnswerIs(t: Tables, p: Platform, c: Call, path: string, key: string, id: string)
    requires c.mode == Lookup && Reaches(p, c, path, key, id)
    ensures After(t, p, c) == t
    ensures AnswerOf(t, p, c)
         == Ok(if id in t.identities then ProjectScope(id, Some(t.identities[id].canonicalPath), Bound)
               else ProjectScope(id, Some(path), Absent))
  {
    ReachesTables(t, p, c, path, key, id);
  }

  /**
    In register mode, unless the alias contradicts the caller, the answer is the
    id bound to the path it was first registered with; a new id gets an identity
    row with this path, a new path an alias row with the id and that path.
   */
  lemma RegisterDoes(t: Tables, p: Platform, c: Call, path: string, key: string, id: string)
    requires c.mode == Register && Reaches(p, c, path, key, id)
    ensures var after, a := After(t, p, c), AnswerOf(t, p, c);
            if Contradicts(t, c, key, id) then after == t && a == Err(IdentityConflict)
            else
              && id in after.identities && key in after.aliases
              && a == Ok(ProjectScope(id, Some(after.identities[id].canonicalPath), Bound))
              && after.identities[id] == (if id in t.identities then t.identities[id] else Identity(path, c.recordedBy))
              && after.aliases[key] == (if key in t.aliases then t.aliases[key]
                                        else Alias(id, after.identities[id].canonicalPath, PathAlias, c.recordedBy))
              && after.identities == t.identities[id := after.identities[id]]
              && after.aliases == t.aliases[key := after.aliases[key]]
  {
    ReachesTables(t, p, c, path, key, id);
    if !Contradicts(t, c, key, id) {
      PathRegisters(t, c, path, key, id);
    }
  }

  lemma PathRegisters(t: Tables, c: Call, path: string, key: string, id: string)
    requires c.mode == Register && !Contradicts(t, c, key, id)
    ensures var after := AfterPath(t, path, key, id, c.input.projectId.Some?, c);
            && id in after.identities && key in after.aliases
            && after.identities[id] == (if id in t.identities then t.identities[id] else Identity(path, c.recordedBy))
            && after.aliases[key] == (if key in t.aliases then t.aliases[key]
                                      else Alias(id, after.identities[id].canonicalPath, PathAlias, c.recordedBy))
            && after.identities == t.identities[id := after.identities[id]]
            && after.aliases == t.aliases[key := after.aliases[key]]
  {
  }

  // ---------- the other calls ----------

  /** The global scope needs nothing; any other scope than these two, or no usable id, is an error. */
  lemma ScopeAnswers(t: Tables, p: Platform, c: Call)
    ensures c.input.scope == "global" ==> AnswerOf(t, p, c) == Ok(GlobalScope)
    ensures c.input.scope != "global" && c.input.scope != "project" ==> AnswerOf(t, p, c) == Err(InvalidScope)
    ensures c.input.scope == "project" && c.input.projectId == None
            && (c.input.projectPath == None || c.input.projectPath == Some("")) ==>
              AnswerOf(t, p, c) == Err(InvalidScope)
    ensures c.input.scope == "project" && c.input.projectPath != None && c.input.projectPath != Some("")
            && c.input.projectId != None && NormalizeProjectId(c.input.projectId.value) == None ==>
              AnswerOf(t, p, c) == Err(InvalidScope)
  {
  }

  /** An id without a path is looked up as it is and registers nothing. */
  lemma IdAloneAnswers(t: Tables, p: Platform, c: Call, id: string)
    requires c.input.scope == "project" && c.input.projectId == Some(id)
    requires c.input.projectPath == None || c.input.projectPath == Some("")
    ensures After(t, p, c) == t
    ensures AnswerOf(t, p, c)
         == if id in t.identities then Ok(ProjectScope(id, Some(t.identities[id].canonicalPath), Bound))
            else if c.mode == Lookup then Ok(ProjectScope(id, None, Absent))
            else if c.allowUnbound then Ok(ProjectScope(id, None, Unbound))
            else Err(InvalidScope)
  {
  }

  /** Configuring a project adds its identity row, as given, and no alias. */
  lemma ConfigureDoes(t: Tables, p: Platform, id: string, path: string, recorder: string)
    ensures var after := AfterEvent(t, p, Configure(id, path, recorder));
            && after.aliases == t.aliases && id in after.identities
            && after.identities == t.identities[id := if id in t.identities then t.identities[id]
                                                      else Identity(path, recorder)]
  {
    assert id in t.identities ==> t.identities[id := t.identities[id]] == t.identities;
  }

  // ---------- ids in normal form ----------

  /** The names of Windows devices. */
  ghost predicate Device(s: string) {
    || s == "CON" || s == "PRN" || s == "AUX" || s == "NUL"
    || exists digit: char | '1' <= digit <= '9' :: s == "COM" + [digit] || s == "LPT" + [digit]
  }

  lemma DeviceIff(s: string)
    ensures IsDeviceName(s) <==> Device(s)
  {
    if |s| == 4 {
      assert s == s[..3] + [s[3]];
    }
    if digit: char :| '1' <= digit <= '9' && (s == "COM" + [digit] || s == "LPT" + [digit]) {
      assert s[..3] == "COM" || s[..3] == "LPT";
      assert s[3] == digit;
    }
  }

  /** Said of the characters of a normal form. */
  predicate Letters(c: char) {
    'A' <= c <= 'Z' || 'a' <= c <= 'z' || '0' <= c <= '9'
  }

  /**
    A text is its own normal form exactly when it has at most 96 characters, all
    of them letters, digits, '_', '.' or '-', at least one letter or digit, no
    two dashes in a row, no dot at its end, and no device name before its first dot.
   */
  lemma NormalIff(id: string)
    ensures IsNormal(id) <==>
              && |id| <= 96
              && (forall i | 0 <= i < |id| :: Letters(id[i]) || id[i] == '_' || id[i] == '.' || id[i] == '-')
              && (exists i | 0 <= i < |id| :: Letters(id[i]))
              && (forall i | 0 < i < |id| :: !(id[i - 1] == '-' && id[i] == '-'))
              && id[|id| - 1] != '.' && !Device(UpperAscii(BeforeDot(id)))
  {
    DeviceIff(UpperAscii(BeforeDot(id)));
    SomeLetter(id);
    PlainTextIff(id);
    DashesIff(id);
    NormalMeans(id);
  }

  lemma NormalMeans(id: string)
    ensures IsNormal(id) <==>
              && |id| <= 96 && IdText(id) && NoDoubleDash(id)
              && (exists c | c in id :: IsAlphanumeric(c)) && !WindowsUnsafe(id)
  {
    if IdText(id) {
      SanitizeIds(id);
    }
  }

  lemma SomeLetter(id: string)
    ensures (exists c | c in id :: IsAlphanumeric(c)) <==> exists i | 0 <= i < |id| :: Letters(id[i])
  {
    if c :| c in id && IsAlphanumeric(c) {
      var i :| 0 <= i < |id| && id[i] == c;
      assert Letters(id[i]);
    }
    if i :| 0 <= i < |id| && Letters(id[i]) {
      assert id[i] in id && IsAlphanumeric(id[i]);
    }
  }

  lemma PlainTextIff(id: string)
    ensures IdText(id) <==>
              forall i | 0 <= i < |id| :: Letters(id[i]) || id[i] == '_' || id[i] == '.' || id[i] == '-'
  {
    if IdText(id) {
      assert forall i | 0 <= i < |id| :: id[i] in id;
    }
  }

  lemma DashesIff(id: string)
    ensures NoDoubleDash(id) <==> forall i | 0 < i < |id| :: !(id[i - 1] == '-' && id[i] == '-')
  {
    if NoDoubleDash(id) {
      forall i | 0 < i < |id|
        ensures !(id[i - 1] == '-' && id[i] == '-')
      {
        assert id[(i - 1) + 1] == id[i];
      }
    }
  }

  /** Small letters become capitals, other characters stay. */
  lemma UpperIs(s: string)
    ensures |UpperAscii(s)| == |s|
    ensures forall i | 0 <= i < |s| ::
              && ('a' <= s[i] <= 'z' ==> 'A' <= UpperAscii(s)[i] <= 'Z'
                                         && UpperAscii(s)[i] as int - 'A' as int == s[i] as int - 'a' as int)
              && (!('a' <= s[i] <= 'z') ==> UpperAscii(s)[i] == s[i])
  {
  }

  /** The part before the first dot. */
  lemma {:induction false} BeforeDotIs(s: string)
    ensures BeforeDot(s) <= s && '.' !in BeforeDot(s)
    ensures BeforeDot(s) == s || s[|BeforeDot(s)|] == '.'
  {
    if s != "" && s[0] != '.' {
      BeforeDotIs(s[1..]);
      assert s == [s[0]] + s[1..];
    }
  }

  // ---------- texts that are made normal ----------

  /** The characters that String.prototype.trim takes off. */
  lemma SpaceIff(c: char)
    ensures IsSpace(c) <==>
              var n := c as int;
              || n == 9 || n == 10 || n == 11 || n == 12 || n == 13 || n == 32 || n == 0xA0 || n == 0x1680
              || 0x2000 <= n <= 0x200A || n == 0x2028 || n == 0x2029 || n == 0x202F || n == 0x205F || n == 0x3000
              || n == 0xFEFF
  {
  }

  predicate Blank(s: string) {
    forall i | 0 <= i < |s| :: IsSpace(s[i])
  }

  lemma {:induction false} TrimStartIs(left: string, s: string)
    requires Blank(left) && s != "" && !IsSpace(s[0])
    ensures TrimStart(left + s) == s
  {
    if left == "" {
      assert left + s == s;
    } else {
      assert (left + s)[1..] == left[1..] + s && (left + s)[0] == left[0];
      TrimStartIs(left[1..], s);
    }
  }

  lemma {:induction false} TrimEndIs(s: string, right: string)
    requires Blank(right) && s != "" && !IsSpace(s[|s| - 1])
    ensures TrimEnd(s + right) == s
  {
    if right == "" {
      assert s + right == s;
    } else {
      var n := |right| - 1;
      assert (s + right)[..|s + right| - 1] == s + right[..n] && (s + right)[|s + right| - 1] == right[n];
      TrimEndIs(s, right[..n]);
    }
  }

  lemma TrimmedIs(left: string, id: string, right: string)
    requires id != "" && !IsSpace(id[0]) && !IsSpace(id[|id| - 1]) && Blank(left) && Blank(right)
    ensures TrimEnd(TrimStart(left + id + right)) == id
  {
    Assoc(left, id, right);
    assert (id + right)[0] == id[0];
    TrimStartIs(left, id + right);
    TrimEndIs(id, right);
  }

  lemma SameTrimmed(a: string, b: string)
    requires TrimEnd(TrimStart(a)) == TrimEnd(TrimStart(b))
    ensures NormalizeProjectId(a) == NormalizeProjectId(b)
  {
  }

  /** White space around a text does not matter. */
  lemma BlanksTrimmed(left: string, text: string, right: string)
    requires text != "" && !IsSpace(text[0]) && !IsSpace(text[|text| - 1]) && Blank(left) && Blank(right)
    ensures NormalizeProjectId(left + text + right) == NormalizeProjectId(text)
  {
    TrimmedIs(left, text, right);
    SameTrimmed(left + text + right, text);
  }

  /** A folder with a name in normal form gives it to the derived id, */
  lemma DerivedFromNormal(p: Platform, path: string)
    requires IsNormal(p.basename(path))
    ensures DerivedId(p, path) == p.basename(path) + "-" + p.hash12(path)
  {
    NormalMeans(p.basename(path));
    SanitizeIds(p.basename(path));
  }

  /** and one without letters or digits, or none, stands for a project. */
  lemma DerivedFromNameless(p: Platform, path: string)
    requires p.basename(path) == "" || forall c | c in SanitizeProjectId(p.basename(path)) :: !IsAlphanumeric(c)
    ensures DerivedId(p, path) == "project" + "-" + p.hash12(path)
  {
    if p.basename(path) == "" {
      ProjectIsNormal();
    } else {
      NamelessIsProject(p.basename(path));
    }
  }

  lemma NamelessIsProject(base: string)
    requires forall c | c in SanitizeProjectId(base) :: !IsAlphanumeric(c)
    ensures SanitizeDerivedName(base) == "project"
  {
    var name := DropTrailingDots(SanitizeProjectId(base));
    forall c | c in name
      ensures c in SanitizeProjectId(base)
    {
      var i :| 0 <= i < |name| && name[i] == c;
      assert SanitizeProjectId(base)[i] == c;
    }
  }

  lemma ProjectIsNormal()
    ensures SanitizeDerivedName("project") == "project"
  {
    ProjectNameShape();
    SanitizeIds("project");
  }
}
