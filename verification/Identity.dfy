/**
  Project identities: a table pinning a project id to a canonical path, a table
  of path aliases, and the resolver that reads them in three modes and writes
  them in one.
 */
module ProjectIdentity {
  import opened Common

  // ---------- project ids ----------

  predicate IsAlphanumeric(c: char) {
    'A' <= c <= 'Z' || 'a' <= c <= 'z' || '0' <= c <= '9'
  }

  predicate IsIdChar(c: char) {
    IsAlphanumeric(c) || c == '_' || c == '.' || c == '-'
  }

  /** White space and line terminators, as String.prototype.trim sees them. */
  predicate IsSpace(c: char) {
    || '\U{9}' <= c <= '\U{D}' || c == ' ' || c == '\U{A0}' || c == '\U{1680}' || '\U{2000}' <= c <= '\U{200A}'
    || c == '\U{2028}' || c == '\U{2029}' || c == '\U{202F}' || c == '\U{205F}' || c == '\U{3000}' || c == '\U{FEFF}'
  }

  function TrimStart(s: string): string {
    if s != "" && IsSpace(s[0]) then TrimStart(s[1..]) else s
  }

  function TrimEnd(s: string): string {
    if s != "" && IsSpace(s[|s| - 1]) then TrimEnd(s[..|s| - 1]) else s
  }

  function ReplaceUnsafe(s: string): (r: string)
    ensures |r| == |s| && forall i | 0 <= i < |r| :: r[i] == if IsIdChar(s[i]) then s[i] else '-'
  {
    seq(|s|, i requires 0 <= i < |s| => if IsIdChar(s[i]) then s[i] else '-')
  }

  predicate NoDoubleDash(s: string) {
    forall i | 0 <= i < |s| - 1 :: !(s[i] == '-' && s[i + 1] == '-')
  }

  predicate IdText(s: string) {
    forall c | c in s :: IsIdChar(c)
  }

  /** Every run of dashes becomes one dash. */
  function CollapseDashes(s: string): (r: string)
    requires IdText(s)
    ensures NoDoubleDash(r) && IdText(r)
    ensures r != "" <==> s != ""
    ensures r != "" ==> r[0] == s[0]
    ensures NoDoubleDash(s) ==> r == s
  {
    if |s| <= 1 then s
    else
      var rest := CollapseDashes(s[1..]);
      assert forall c | c in s[1..] :: c in s;
      assert NoDoubleDash(s) ==> NoDoubleDash(s[1..]);
      if s[0] == '-' && s[1] == '-' then rest else [s[0]] + rest
  }

  function SanitizeProjectId(value: string): (r: string)
    ensures |r| <= 96 && IdText(r) && NoDoubleDash(r)
  {
    var collapsed := CollapseDashes(ReplaceUnsafe(TrimEnd(TrimStart(value))));
    if |collapsed| <= 96 then collapsed else collapsed[..96]
  }

  /** The device names CON, PRN, AUX, NUL, COM1..COM9 and LPT1..LPT9, given in upper case. */
  predicate IsDeviceName(s: string) {
    || (|s| == 3 && s in {"CON", "PRN", "AUX", "NUL"})
    || (|s| == 4 && s[..3] in {"COM", "LPT"} && '1' <= s[3] <= '9')
  }

  function BeforeDot(s: string): string {
    if s == "" || s[0] == '.' then "" else [s[0]] + BeforeDot(s[1..])
  }

  function UpperAscii(s: string): string {
    seq(|s|, i requires 0 <= i < |s| => if 'a' <= s[i] <= 'z' then (s[i] as int - 32) as char else s[i])
  }

  predicate WindowsUnsafe(id: string) {
    (id != "" && id[|id| - 1] == '.') || IsDeviceName(UpperAscii(BeforeDot(id)))
  }

  function NormalizeProjectId(value: string): Option<string> {
    var id := SanitizeProjectId(value);
    if (exists c | c in id :: IsAlphanumeric(c)) && !WindowsUnsafe(id) then Some(id) else None
  }

  lemma TrimKeepsIds(s: string)
    requires IdText(s)
    ensures TrimEnd(TrimStart(s)) == s
  {
    if s != "" {
      assert s[0] in s && s[|s| - 1] in s;
    }
  }

  /** A normalized id normalizes to itself. */
  lemma NormalizeIdempotent(value: string)
    requires NormalizeProjectId(value).Some?
    ensures NormalizeProjectId(NormalizeProjectId(value).value) == NormalizeProjectId(value)
  {
    var id := SanitizeProjectId(value);
    TrimKeepsIds(id);
    assert forall i | 0 <= i < |id| :: id[i] in id;
    assert ReplaceUnsafe(id) == id;
  }

  function DropTrailingDots(s: string): (r: string)
    ensures r <= s && (r != "" ==> r[|r| - 1] != '.')
  {
    if s != "" && s[|s| - 1] == '.' then DropTrailingDots(s[..|s| - 1]) else s
  }

  function SanitizeDerivedName(value: string): string {
    var name := DropTrailingDots(SanitizeProjectId(value));
    if (exists c | c in name :: IsAlphanumeric(c)) && !WindowsUnsafe(name) then name else "project"
  }

  // ---------- tables and resolver ----------

  datatype AliasKind = PathAlias | GitHead | Worktree

  datatype Identity = Identity(canonicalPath: string, createdBy: string)

  datatype Alias = Alias(projectId: string, canonicalPath: string, kind: AliasKind, recordedBy: string)

  datatype Tables = Tables(identities: map<string, Identity>, aliases: map<string, Alias>)

  /** What the resolver asks the platform; every answer is taken to be the same each time. */
  datatype Platform = Platform(canonicalize: string -> string, basename: string -> string, hash12: string -> string,
                               aliasKey: string -> string)

  datatype Mode = Lookup | Register | StrictExisting

  datatype Input = Input(scope: string, projectId: Option<string>, projectPath: Option<string>)

  datatype Status = Bound | Unbound | Absent

  datatype Resolved = GlobalScope | ProjectScope(id: string, path: Option<string>, status: Status)

  datatype ResolveError = InvalidScope | IdentityConflict

  datatype Answer = Ok(scope: Resolved) | Err(error: ResolveError)

  predicate HasPath(input: Input) {
    input.projectPath.Some? && input.projectPath.value != ""
  }

  function DerivedName(p: Platform, path: string): string {
    SanitizeDerivedName(if p.basename(path) == "" then "project" else p.basename(path))
  }

  function DerivedId(p: Platform, path: string): string {
    DerivedName(p, path) + "-" + p.hash12(path)
  }

  /** The id a path-supplied call asks for. */
  function RequestedId(p: Platform, input: Input): Option<string>
    requires HasPath(input)
  {
    if input.projectId.None? then Some(DerivedId(p, p.canonicalize(input.projectPath.value)))
    else NormalizeProjectId(input.projectId.value)
  }

  function KeyOf(p: Platform, input: Input): string
    requires HasPath(input)
  {
    p.aliasKey(p.canonicalize(input.projectPath.value))
  }

  /** The caller named an id and the path's alias belongs to another one. */
  predicate AliasConflict(t: Tables, key: string, id: string, named: bool) {
    named && key in t.aliases && t.aliases[key].projectId != id
  }

  function BoundTo(t: Tables, id: string): Answer
    requires id in t.identities
  {
    Ok(ProjectScope(id, Some(t.identities[id].canonicalPath), Bound))
  }

  predicate IsBound(a: Answer) {
    a.Ok? && a.scope.ProjectScope? && a.scope.status.Bound?
  }

  function LookupIdentity(t: Tables, id: string, path: string, key: string): Answer {
    if key in t.aliases && t.aliases[key].projectId == id && id in t.identities then BoundTo(t, id)
    else if id !in t.identities then Ok(ProjectScope(id, Some(path), Absent))
    else BoundTo(t, id)
  }

  function StrictIdentity(t: Tables, id: string, key: string): Answer {
    if key in t.aliases && t.aliases[key].projectId in t.identities then BoundTo(t, t.aliases[key].projectId)
    else if id !in t.identities then Err(IdentityConflict)
    else BoundTo(t, id)
  }

  /** The writes of register mode; `aliasSeen` is what the alias read before them returned. */
  function RegisterWrites(t: Tables, id: string, path: string, key: string, recorder: string, aliasSeen: bool,
                          sameHead: bool): Tables {
    var identities := if id in t.identities then t.identities else t.identities[id := Identity(path, recorder)];
    var canonical := identities[id].canonicalPath;
    var afterPath :=
      if aliasSeen then t.aliases else InsertOrIgnore(t.aliases, key, Alias(id, canonical, PathAlias, recorder));
    var afterWorktree := if sameHead && canonical != path
        then InsertOrIgnore(afterPath, key, Alias(id, canonical, Worktree, recorder))
                         else afterPath;
    Tables(identities, afterWorktree)
  }

  function InsertOrIgnore(aliases: map<string, Alias>, key: string, row: Alias): map<string, Alias> {
    if key in aliases then aliases else aliases[key := row]
  }

  /** One call of the resolver, with the git heads compared as `sameHead` says. */
  datatype Call = Call(input: Input, mode: Mode, recordedBy: string, allowUnbound: bool, sameHead: bool)

  /** The tables after a call that supplies a path, with `id` requested by name or derived. */
  function AfterPath(t: Tables, path: string, key: string, id: string, named: bool, c: Call): Tables {
    if !c.mode.Register? || AliasConflict(t, key, id, named) then t
    else RegisterWrites(t, id, path, key, c.recordedBy, key in t.aliases, c.sameHead)
  }

  function AnswerPath(t: Tables, path: string, key: string, id: string, named: bool, c: Call): Answer {
    if !c.mode.Lookup? && AliasConflict(t, key, id, named) then Err(IdentityConflict)
    else match c.mode
      case Register => BoundTo(AfterPath(t, path, key, id, named, c), id)
      case StrictExisting => StrictIdentity(t, id, key)
      case Lookup => LookupIdentity(t, id, path, key)
  }

  /** The call reaches the tables with a path and a usable id. */
  predicate TakesPath(p: Platform, input: Input) {
    input.scope == "project" && HasPath(input) && RequestedId(p, input).Some?
  }

  function After(t: Tables, p: Platform, c: Call): Tables {
    if !TakesPath(p, c.input) then t
    else AfterPath(t, p.canonicalize(c.input.projectPath.value), KeyOf(p, c.input), RequestedId(p, c.input).value,
                   c.input.projectId.Some?, c)
  }

  function AnswerOf(t: Tables, p: Platform, c: Call): Answer {
    var input := c.input;
    if input.scope == "global" then Ok(GlobalScope)
    else if input.scope != "project" then Err(InvalidScope)
    else if HasPath(input) then
      var id := RequestedId(p, input);
      if id.None? then Err(InvalidScope)
      else AnswerPath(t, p.canonicalize(input.projectPath.value), KeyOf(p, input), id.value, input.projectId.Some?, c)
    else if input.projectId.None? then Err(InvalidScope)
    else AnswerIdOnly(t, input.projectId.value, c)
  }

  function AnswerIdOnly(t: Tables, id: string, c: Call): Answer {
    if id in t.identities then BoundTo(t, id)
    else if c.mode.Lookup? then Ok(ProjectScope(id, None, Absent))
    else if c.allowUnbound then Ok(ProjectScope(id, None, Unbound))
    else Err(InvalidScope)
  }

  /** The two writers of identity rows: the resolver, and the call that configures a project's budget. */
  datatype Event = Resolve(call: Call) | Configure(id: string, path: string, recorder: string)

  /** `createProjectIdentity`: INSERT OR IGNORE, with the id and the path as they were given. */
  function Configured(t: Tables, id: string, path: string, recorder: string): Tables {
    if id in t.identities then t else t.(identities := t.identities[id := Identity(path, recorder)])
  }

  function AfterEvent(t: Tables, p: Platform, e: Event): Tables {
    match e
    case Resolve(c) => After(t, p, c)
    case Configure(id, path, recorder) => Configured(t, id, path, recorder)
  }

  function Replay(p: Platform, run: seq<Event>): Tables {
    if run == [] then Tables(map[], map[]) else AfterEvent(Replay(p, run[..|run| - 1]), p, run[|run| - 1])
  }

  // ---------- invariants ----------

  /** Aliases carry their identity's id and path, and none was ever recorded as a worktree. */
  ghost predicate AliasesSound(t: Tables) {
    forall k | k in t.aliases ::
      && t.aliases[k].projectId in t.identities
      && t.aliases[k].canonicalPath == t.identities[t.aliases[k].projectId].canonicalPath
      && t.aliases[k].kind.PathAlias?
  }

  /** Identity and alias rows are only ever added. */
  ghost predicate Extends(t: Tables, t': Tables) {
    && (forall k | k in t.identities :: k in t'.identities && t'.identities[k] == t.identities[k])
    && (forall k | k in t.aliases :: k in t'.aliases && t'.aliases[k] == t.aliases[k])
  }

  lemma PathKeeps(t: Tables, path: string, key: string, id: string, named: bool, c: Call)
    requires AliasesSound(t)
    ensures AliasesSound(AfterPath(t, path, key, id, named, c)) && Extends(t, AfterPath(t, path, key, id, named, c))
    ensures !c.mode.Register? ==> AfterPath(t, path, key, id, named, c) == t
    ensures AfterPath(t, path, key, id, named, c) == AfterPath(t, path, key, id, named, c.(sameHead := false))
  {
    if c.mode.Register? && !AliasConflict(t, key, id, named) {
      RegisterKeeps(t, id, path, key, c.recordedBy, c.sameHead);
    }
  }

  /** The worktree alias never gets in: its key has just been taken. */
  lemma RegisterKeeps(t: Tables, id: string, path: string, key: string, recorder: string, sameHead: bool)
    requires AliasesSound(t)
    ensures var after := RegisterWrites(t, id, path, key, recorder, key in t.aliases, sameHead);
            && AliasesSound(after) && Extends(t, after)
            && after == RegisterWrites(t, id, path, key, recorder, key in t.aliases, false)
  {
  }

  lemma CallKeeps(t: Tables, p: Platform, c: Call)
    requires AliasesSound(t)
    ensures AliasesSound(After(t, p, c)) && Extends(t, After(t, p, c))
    ensures !c.mode.Register? ==> After(t, p, c) == t
    ensures After(t, p, c) == After(t, p, c.(sameHead := false))
  {
    if TakesPath(p, c.input) {
      PathKeeps(t, p.canonicalize(c.input.projectPath.value), KeyOf(p, c.input), RequestedId(p, c.input).value,
                c.input.projectId.Some?, c);
    }
  }

  lemma EventKeeps(t: Tables, p: Platform, e: Event)
    requires AliasesSound(t)
    ensures AliasesSound(AfterEvent(t, p, e)) && Extends(t, AfterEvent(t, p, e))
  {
    if e.Resolve? {
      CallKeeps(t, p, e.call);
    }
  }

  /** In every run the aliases are sound; the worktree insert and the git heads never make a difference. */
  lemma {:induction false} AlwaysSound(p: Platform, run: seq<Event>)
    ensures AliasesSound(Replay(p, run))
  {
    if run != [] {
      AlwaysSound(p, run[..|run| - 1]);
      EventKeeps(Replay(p, run[..|run| - 1]), p, run[|run| - 1]);
    }
  }

  lemma {:induction false} RowsPersist(p: Platform, run: seq<Event>, n: nat, m: nat)
    requires n <= m <= |run|
    ensures Extends(Replay(p, run[..n]), Replay(p, run[..m]))
    decreases m
  {
    if n < m {
      RowsPersist(p, run, n, m - 1);
      AlwaysSound(p, run[..m - 1]);
      assert run[..m][..m - 1] == run[..m - 1];
      EventKeeps(Replay(p, run[..m - 1]), p, run[m - 1]);
    }
  }

  predicate NormalEvent(e: Event) {
    match e
    case Resolve(c) => c.input.projectId.Some?
    case Configure(id, _, _) => NormalizeProjectId(id) == Some(id)
  }

  /** The run registers no derived id and configures only ids in normal form. */
  ghost predicate NormalRun(run: seq<Event>) {
    forall i | 0 <= i < |run| :: NormalEvent(run[i])
  }

  /** A call adds at most the identity it asks for. */
  lemma OnlyRequestedAdded(t: Tables, p: Platform, c: Call, id: string)
    requires id !in t.identities && id in After(t, p, c).identities
    ensures TakesPath(p, c.input) && RequestedId(p, c.input) == Some(id)
  {
  }

  lemma AddedIsNormal(t: Tables, p: Platform, e: Event, id: string)
    requires id !in t.identities && id in AfterEvent(t, p, e).identities && NormalEvent(e)
    ensures NormalizeProjectId(id) == Some(id)
  {
    if e.Resolve? {
      OnlyRequestedAdded(t, p, e.call, id);
      NormalizeIdempotent(e.call.input.projectId.value);
    }
  }

  /** In such a run every registered id is in normal form. */
  lemma {:induction false} RegisteredIdsAreNormal(p: Platform, run: seq<Event>, id: string)
    requires NormalRun(run) && id in Replay(p, run).identities
    ensures NormalizeProjectId(id) == Some(id)
  {
    var before := run[..|run| - 1];
    if id in Replay(p, before).identities {
      RegisteredIdsAreNormal(p, before, id);
    } else {
      AddedIsNormal(Replay(p, before), p, run[|run| - 1], id);
    }
  }

  // ---------- persistence ----------

  /** The core of persistence, for a path and an id fixed. */
  lemma PathRegisterPersists(t: Tables, t': Tables, path: string, key: string, id: string, c: Call, later: Call)
    requires c.mode.Register? && AliasesSound(t) && AliasesSound(t')
    requires AnswerPath(t, path, key, id, true, c).Ok?
    requires Extends(AfterPath(t, path, key, id, true, c), t')
    ensures AnswerPath(t', path, key, id, true, later) == AnswerPath(t, path, key, id, true, c)
  {
  }

  /**
    After a successful register with an explicit id, every later call in any mode
    with the same id and path answers with the same bound id and canonical path.
   */
  lemma RegisterPersists(p: Platform, run: seq<Event>, n: nat, m: nat, later: Call)
    requires n < m <= |run|
    requires run[n].Resolve?
    requires var c := run[n].call;
      c.mode.Register? && c.input.scope == "project" && HasPath(c.input) && c.input.projectId.Some?
      && AnswerOf(Replay(p, run[..n]), p, c).Ok?
    requires later.input == run[n].call.input
    ensures AnswerOf(Replay(p, run[..m]), p, later) == AnswerOf(Replay(p, run[..n]), p, run[n].call)
    ensures IsBound(AnswerOf(Replay(p, run[..m]), p, later))
  {
    var before, c := Replay(p, run[..n]), run[n].call;
    var path, key, id := p.canonicalize(c.input.projectPath.value), KeyOf(p, c.input), RequestedId(p, c.input);
    AlwaysSound(p, run[..n]);
    AlwaysSound(p, run[..m]);
    assert run[..n + 1][..n] == run[..n];
    RowsPersist(p, run, n + 1, m);
    PathRegisterPersists(before, Replay(p, run[..m]), path, key, id.value, c, later);
  }

  /**
    An id given without a path is looked up verbatim: once its normal form is
    registered, it is found exactly when it is that form.
   */
  lemma IdOnlyCallFindsIff(p: Platform, run: seq<Event>, id: string, mode: Mode, recorder: string)
    requires NormalRun(run)
    requires NormalizeProjectId(id).Some? && NormalizeProjectId(id).value in Replay(p, run).identities
    ensures
      var a := AnswerOf(Replay(p, run), p, Call(Input("project", Some(id), None), mode, recorder, false, false));
      IsBound(a) <==> NormalizeProjectId(id) == Some(id)
  {
    assert id in Replay(p, run).identities <==> NormalizeProjectId(id) == Some(id) by {
      if id in Replay(p, run).identities {
        RegisteredIdsAreNormal(p, run, id);
      }
    }
    IdOnlyAnswer(Replay(p, run), p, id, mode, recorder);
  }

  lemma IdOnlyAnswer(t: Tables, p: Platform, id: string, mode: Mode, recorder: string)
    ensures
      var a := AnswerOf(t, p, Call(Input("project", Some(id), None), mode, recorder, false, false));
      IsBound(a) <==> id in t.identities
  {
  }

  // ---------- derived ids ----------

  lemma BeforeDotOfJoin(a: string, b: string)
    ensures BeforeDot(a + b) == if '.' in a then BeforeDot(a) else a + BeforeDot(b)
  {
    if a != "" {
      assert (a + b)[1..] == a[1..] + b;
      BeforeDotOfJoin(a[1..], b);
    } else {
      assert a + b == b;
    }
  }

  lemma DotlessBeforeDot(s: string)
    requires '.' !in s
    ensures BeforeDot(s) == s
  {
  }

  /** Device names have at most four characters. */
  lemma LongDotlessIsSafe(id: string)
    requires '.' !in id && |id| > 4
    ensures !WindowsUnsafe(id)
  {
    DotlessBeforeDot(id);
    assert id[|id| - 1] in id;
  }

  /** What a name must be like to stand before the hash of a derived id. */
  ghost predicate NameShape(name: string) {
    IdText(name) && NoDoubleDash(name) && name != "" && !WindowsUnsafe(name)
    && exists c | c in name :: IsAlphanumeric(c)
  }

  lemma ProjectNameShape()
    ensures NameShape("project")
  {
    LongDotlessIsSafe("project");
    assert "project"[0] in "project";
  }

  lemma PrefixOfIds(prefix: string, s: string)
    requires prefix <= s && IdText(s) && NoDoubleDash(s)
    ensures IdText(prefix) && NoDoubleDash(prefix)
  {
    forall c | c in prefix
      ensures IsIdChar(c)
    {
      var i :| 0 <= i < |prefix| && prefix[i] == c;
      assert s[i] == c && s[i] in s;
    }
  }

  lemma DerivedNameShape(value: string)
    ensures NameShape(SanitizeDerivedName(value))
  {
    ProjectNameShape();
    PrefixOfIds(DropTrailingDots(SanitizeProjectId(value)), SanitizeProjectId(value));
  }

  /** What sanitizing does to text that holds only id characters. */
  lemma SanitizeIds(id: string)
    requires IdText(id)
    ensures SanitizeProjectId(id) == id <==> |id| <= 96 && NoDoubleDash(id)
  {
    TrimKeepsIds(id);
    assert forall i | 0 <= i < |id| :: id[i] in id;
    assert ReplaceUnsafe(id) == id;
  }

  lemma JoinedIdText(name: string, hash: string)
    requires IdText(name) && NoDoubleDash(name) && name != "" && hash != "" && forall c | c in hash :: IsAlphanumeric(c)
    ensures IdText(name + "-" + hash)
    ensures NoDoubleDash(name + "-" + hash) <==> name[|name| - 1] != '-'
  {
    var id := name + "-" + hash;
    assert forall i | 0 <= i < |hash| :: id[|name| + 1 + i] == hash[i] && hash[i] in hash;
    assert id[|name|] == '-' && id[|name| - 1] == name[|name| - 1];
    assert forall i | 0 <= i < |name| :: id[i] == name[i];
  }

  /** The id is its own normal form. */
  predicate IsNormal(id: string) {
    NormalizeProjectId(id) == Some(id)
  }

  lemma JoinedIdNormalIff(name: string, hash: string)
    requires NameShape(name) && |hash| == 12 && forall c | c in hash :: IsAlphanumeric(c)
    ensures IsNormal(name + "-" + hash) <==> |name| <= 83 && name[|name| - 1] != '-'
  {
    var id := name + "-" + hash;
    JoinedIdText(name, hash);
    SanitizeIds(id);
    DerivedIdIsSafe(name, hash);
    var c :| c in name && IsAlphanumeric(c);
    assert c in id;
  }

  /**
    A derived id is in normal form exactly when its name part is at most 83 characters
    long and does not end in a dash.
   */
  lemma DerivedIdNormalIff(p: Platform, path: string)
    requires |p.hash12(path)| == 12 && forall c | c in p.hash12(path) :: IsAlphanumeric(c)
    ensures
      var name := DerivedName(p, path);
      name != "" && (IsNormal(DerivedId(p, path)) <==> |name| <= 83 && name[|name| - 1] != '-')
  {
    DerivedNameShape(if p.basename(path) == "" then "project" else p.basename(path));
    JoinedIdNormalIff(DerivedName(p, path), p.hash12(path));
    assert DerivedId(p, path) == DerivedName(p, path) + "-" + p.hash12(path);
  }

  lemma DerivedIdIsSafe(name: string, hash: string)
    requires |hash| == 12 && !WindowsUnsafe(name) && forall c | c in hash :: IsAlphanumeric(c)
    ensures !WindowsUnsafe(name + "-" + hash)
  {
    var tail := "-" + hash;
    assert name + "-" + hash == name + tail;
    assert (name + tail)[|name| + 12] == hash[11] && hash[11] in hash;
    if '.' in name {
      BeforeDotOfJoin(name, tail);
    } else {
      LongDotlessIsSafe(name + tail);
    }
  }

  /**
    Handing the derived id of a freshly registered path back together with the path
    works exactly when it is in normal form.
   */
  lemma DerivedIdPassesBackIff(p: Platform, run: seq<Event>, path: string, recorder: string, sameHead: bool, mode: Mode)
    requires path != "" && KeyOf(p, Input("project", None, Some(path))) !in Replay(p, run).aliases
    ensures
      var t, reg := Replay(p, run), Call(Input("project", None, Some(path)), Register, recorder, false, sameHead);
      var id := DerivedId(p, p.canonicalize(path));
      var back := Call(Input("project", Some(id), Some(path)), mode, recorder, false, sameHead);
      AnswerOf(After(t, p, reg), p, back) == AnswerOf(t, p, reg) <==> NormalizeProjectId(id) == Some(id)
  {
    AlwaysSound(p, run);
    var t, canonical := Replay(p, run), p.canonicalize(path);
    var id, key := DerivedId(p, canonical), p.aliasKey(canonical);
    var reg := Call(Input("project", None, Some(path)), Register, recorder, false, sameHead);
    var back := Call(Input("project", Some(id), Some(path)), mode, recorder, false, sameHead);
    match NormalizeProjectId(id)
    case None =>
    case Some(normal) => PassedBack(t, canonical, key, id, normal, reg, back);
  }

  lemma PassedBack(t: Tables, path: string, key: string, id: string, normal: string, reg: Call, back: Call)
    requires AliasesSound(t) && key !in t.aliases && reg.mode.Register?
    ensures (AnswerPath(AfterPath(t, path, key, id, false, reg), path, key, normal, true, back)
             == AnswerPath(t, path, key, id, false, reg)) <==> normal == id
  {
  }

  /**
    Registering a bare path and then asking strictly agree exactly when the path's alias
    was free or already the derived id's.
   */
  lemma BarePathAgreesIff(p: Platform, run: seq<Event>, path: string, recorder: string, sameHead: bool)
    requires path != ""
    ensures
      var t, input := Replay(p, run), Input("project", None, Some(path));
      var reg := Call(input, Register, recorder, false, sameHead);
      var strict := Call(input, StrictExisting, recorder, false, sameHead);
      AnswerOf(t, p, reg) == AnswerOf(After(t, p, reg), p, strict)
      <==> (KeyOf(p, input) in t.aliases ==> t.aliases[KeyOf(p, input)].projectId == DerivedId(p, p.canonicalize(path)))
  {
    AlwaysSound(p, run);
    var canonical := p.canonicalize(path);
    var input := Input("project", None, Some(path));
    BarePathCore(Replay(p, run), canonical, p.aliasKey(canonical), DerivedId(p, canonical),
                 Call(input, Register, recorder, false, sameHead),
                 Call(input, StrictExisting, recorder, false, sameHead));
  }

  lemma BarePathCore(t: Tables, path: string, key: string, id: string, reg: Call, strict: Call)
    requires AliasesSound(t) && reg.mode.Register? && strict.mode.StrictExisting?
    ensures AnswerPath(t, path, key, id, false, reg)
        == AnswerPath(AfterPath(t, path, key, id, false, reg), path, key, id, false, strict)
      <==> (key in t.aliases ==> t.aliases[key].projectId == id)
  {
  }

  /**
    Register does not run in a transaction. If another process claims the alias
    between the read and the writes, the call still reports success, and the pair
    is confirmed later exactly when the alias it lost the race to is its own id's.
   */
  lemma StaleRegisterConfirmedIff(t: Tables, path: string, key: string, id: string, c: Call)
    requires AliasesSound(t) && key in t.aliases && c.mode.StrictExisting?
    ensures
      var t' := RegisterWrites(t, id, path, key, c.recordedBy, false, c.sameHead);
      && id in t'.identities
      && (AnswerPath(t', path, key, id, true, c) == BoundTo(t', id) <==> t.aliases[key].projectId == id)
  {
  }

  // ---------- the resolver object ----------

  /** The identity half of the store together with `ProjectIdentityResolver`. */
  class Resolver {
    const platform: Platform
    var identities: map<string, Identity>
    var aliases: map<string, Alias>

    function Current(): Tables
      reads this
    {
      Tables(identities, aliases)
    }

    ghost predicate Valid()
      reads this
    {
      AliasesSound(Current())
    }

    constructor (platform: Platform)
      ensures Valid() && this.platform == platform && Current() == Tables(map[], map[])
    {
      this.platform := platform;
      identities, aliases := map[], map[];
    }

    /** INSERT OR IGNORE on the alias key. */
    method RegisterAlias(key: string, row: Alias)
      modifies this`aliases
      ensures aliases == InsertOrIgnore(old(aliases), key, row)
    {
      if key !in aliases {
        aliases := aliases[key := row];
      }
    }

    method UpsertIdentity(id: string, path: string, recorder: string) returns (canonical: string)
      modifies this`identities
      ensures identities
           == if id in old(identities) then old(identities) else old(identities)[id := Identity(path, recorder)]
      ensures canonical == identities[id].canonicalPath
    {
      if id in identities {
        return identities[id].canonicalPath;
      }
      identities := identities[id := Identity(path, recorder)];
      return path;
    }

    /** The identity half of `configureProjectBudget`. */
    method ConfigureProject(id: string, path: string, recorder: string)
      requires Valid()
      modifies this`identities
      ensures Valid() && Current() == AfterEvent(old(Current()), platform, Configure(id, path, recorder))
    {
      if id !in identities {
        identities := identities[id := Identity(path, recorder)];
      }
    }

    method RegisterIdentity(id: string, path: string, recorder: string, aliasSeen: bool, sameHead: bool)
        returns (canonical: string)
      modifies this`identities, this`aliases
      ensures Current() == RegisterWrites(old(Current()), id, path, platform.aliasKey(path), recorder, aliasSeen,
                                          sameHead)
      ensures id in identities && canonical == identities[id].canonicalPath
    {
      canonical := UpsertIdentity(id, path, recorder);
      if !aliasSeen {
        RegisterAlias(platform.aliasKey(path), Alias(id, canonical, PathAlias, recorder));
      }
      if sameHead && canonical != path {
        RegisterAlias(platform.aliasKey(path), Alias(id, canonical, Worktree, recorder));
      }
    }

    method ResolvePath(path: string, id: string, named: bool, c: Call) returns (answer: Answer)
      modifies this`identities, this`aliases
      ensures Current() == AfterPath(old(Current()), path, platform.aliasKey(path), id, named, c)
      ensures answer == AnswerPath(old(Current()), path, platform.aliasKey(path), id, named, c)
    {
      var key := platform.aliasKey(path);
      var aliasSeen := key in aliases;
      if c.mode != Lookup && named && aliasSeen && aliases[key].projectId != id {
        return Err(IdentityConflict);
      }
      match c.mode
      case Register =>
        var canonical := RegisterIdentity(id, path, c.recordedBy, aliasSeen, c.sameHead);
        return Ok(ProjectScope(id, Some(canonical), Bound));
      case StrictExisting =>
        return StrictIdentity(Current(), id, key);
      case Lookup =>
        return LookupIdentity(Current(), id, path, key);
    }

    method ResolveIdOnly(id: string, c: Call) returns (answer: Answer)
      ensures answer == AnswerIdOnly(Current(), id, c)
    {
      if id in identities {
        return Ok(ProjectScope(id, Some(identities[id].canonicalPath), Bound));
      }
      if c.mode == Lookup {
        return Ok(ProjectScope(id, None, Absent));
      }
      return if c.allowUnbound then Ok(ProjectScope(id, None, Unbound)) else Err(InvalidScope);
    }

    method Resolve(c: Call) returns (answer: Answer)
      requires Valid()
      modifies this
      ensures Valid() && Current() == After(old(Current()), platform, c)
      ensures answer == AnswerOf(old(Current()), platform, c)
      ensures !c.mode.Register? ==> Current() == old(Current())
    {
      CallKeeps(Current(), platform, c);
      var input := c.input;
      if input.scope != "global" && input.scope != "project" {
        return Err(InvalidScope);
      }
      if input.scope == "global" {
        return Ok(GlobalScope);
      }
      if HasPath(input) {
        var path := platform.canonicalize(input.projectPath.value);
        var requested := if input.projectId.None? then Some(DerivedId(platform, path))
            else NormalizeProjectId(input.projectId.value);
        if requested.None? {
          return Err(InvalidScope);
        }
        answer := ResolvePath(path, requested.value, input.projectId.Some?, c);
      } else if input.projectId.None? {
        answer := Err(InvalidScope);
      } else {
        answer := ResolveIdOnly(input.projectId.value, c);
      }
    }
  }
}
