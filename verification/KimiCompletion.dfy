/** When a seed that the machine does not let down succeeds, with concrete hosts for what goes wrong after it. */
module KimiCompletion {
  import opened Bytes
  import opened Options
  import opened Lines
  import opened ByteOrder
  import opened Disk
  import opened TreeCopy
  import opened KimiStore
  import opened KimiSeed
  import opened KimiIsolation
  import opened KimiRetries
  import Paths

  /** Everything in the tree can be read and written. */
  predicate Open(t: Tree)
    decreases t
  {
    match t
    case Regular(_, readable, writable) => readable && writable
    case Folder(entries, readable, writable) => readable && writable && forall e | e in entries :: Open(e.tree)
    case Special(_) => true
  }

  lemma {:induction false} OpenReadable(t: Tree, rel: Path, skip: set<Path>)
    requires t.Folder? && Open(t)
    ensures Readable(t, rel, skip)
    decreases t
  {
    forall e | e in t.entries
      ensures ReadableEntry(e, rel, skip)
    {
      if e.tree.Folder? {
        OpenReadable(e.tree, rel + [e.name], skip);
      }
    }
  }

  lemma {:induction false} OpenFind(t: Tree, p: Path)
    requires Open(t) && Find(t, p).Some?
    ensures Open(Find(t, p).value)
    decreases |p|
  {
    if p != [] {
      FindEntryIn(t.entries, p[0]);
      OpenFind(FindEntry(t.entries, p[0]).value, p[1..]);
    }
  }

  lemma OpenImage(t: Tree, p: Path)
    requires Open(t)
    ensures Find(t, p).Some? && Image(Find(t, p)).Some? ==> Image(Find(t, p)).value.writable
  {
    if Find(t, p).Some? {
      OpenFind(t, p);
    }
  }

  // ----- Copying sessions over sessions -----

  /** The store can be added to; what it has under sessions/ is writable and of the kind that the host has there. */
  predicate Ready(host: Host, d: Disk) {
    CanAdd(d, []) &&
    forall q | q in d && Sessions() <= q ::
      d[q].writable &&
      if q == Sessions() then d[q].Dir? else HostHas(host, q).Some? && Alike(Some(d[q]), HostHas(host, q))
  }

  lemma WantOpen(t: Tree, base: Path, q: Path)
    requires t.Folder? && Open(t)
    ensures Want(t, base, [], {}, q).Some? ==> Want(t, base, [], {}, q).value.writable
  {
    if base < q {
      OpenImage(t, q[|base|..]);
    }
  }

  lemma WantParent(t: Tree, base: Path, q: Path)
    requires t.Folder? && q != [] && Want(t, base, [], {}, q).Some?
    ensures Want(t, base, [], {}, Parent(q)).Some? && Want(t, base, [], {}, Parent(q)).value.Dir?
  {
    hide BelowEntries;
    BelowFolder(t, base, [], {}, q);
    BelowFolder(t, base, [], {}, Parent(q));
    if q <= base {
      assert Parent(q) <= base by { assert Parent(q) == base[..|q| - 1]; }
    } else if Parent(q) != base {
      BelowParent(t.entries, base, [], {}, q);
    }
  }

  lemma UnderSessions(t: Tree, rel: Path, q: Path)
    requires Want(t, Sessions() + rel, [], {}, q).Some?
    ensures OnTheWay(rel, q) && (q == [] || Sessions() <= q)
    ensures q == [] || q == Sessions() ==> Want(t, Sessions() + rel, [], {}, q).value.Dir?
    ensures q != [] && Parent(q) != [] ==> Sessions() <= Parent(q)
  {
    hide Find, Kept;
    var base := Sessions() + rel;
    if q == [] {
      assert q <= base;
    } else if q <= base {
      assert q[0] == base[0];
    } else {
      assert base == q[..|base|];
    }
  }

  lemma SessionFits(host: Host, rel: Path, d: Disk)
    requires host.sessions.Some? && Open(host.sessions.value) && Ready(host, d)
    requires SourceOf(host, rel).Some? && SourceOf(host, rel).value.Folder?
    ensures Fits(d, Wanted(SourceOf(host, rel).value, Sessions() + rel, {}))
  {
    hide Want, Find, Sessions, OnTheWay, HostHas;
    var t, base := SourceOf(host, rel).value, Sessions() + rel;
    OpenFind(host.sessions.value, rel);
    forall q
      ensures FitAt(Get(d, q), Wanted(t, base, {})(q), Above(d, Wanted(t, base, {}), q))
    {
      if Want(t, base, [], {}, q).Some? {
        UnderSessions(t, rel, q);
        WantOpen(t, base, q);
        if q != [] && q != Sessions() {
          SessionWant(host, rel, q);
        }
        if q != [] {
          WantParent(t, base, q);
          WantOpen(t, base, Parent(q));
        }
      }
    }
  }

  lemma ReadyAfter(host: Host, rel: Path, s: State, cut: nat)
    requires host.sessions.Some? && WellFormed(host.sessions.value) && Open(host.sessions.value) && Ready(host, s.disk)
    requires SourceOf(host, rel).Some? && SourceOf(host, rel).value.Folder? && Exec(SessionPlan(host, rel), s, cut).0
    ensures Ready(host, Exec(SessionPlan(host, rel), s, cut).1.disk)
  {
    hide Exec, Want, Find, Sessions, OnTheWay, HostHas, CopyPlan, WellFormed, Open;
    var t, base := SourceOf(host, rel).value, Sessions() + rel;
    var d' := Exec(SessionPlan(host, rel), s, cut).1.disk;
    FindWellFormed(host.sessions.value, rel);
    OpenFind(host.sessions.value, rel);
    RootStays(t, base, s, cut);
    forall q | q in d' && Sessions() <= q
      ensures d'[q].writable
      ensures if q == Sessions() then d'[q].Dir? else HostHas(host, q).Some? && Alike(Some(d'[q]), HostHas(host, q))
    {
      SessionsHead(q);
      CopyMeaning(t, base, {}, s, cut, q);
      assert Get(d', q) == Some(d'[q]);
      WantOpen(t, base, q);
      if Want(t, base, [], {}, q).Some? {
        UnderSessions(t, rel, q);
      }
      if q != Sessions() {
        SessionWant(host, rel, q);
      }
    }
  }

  lemma RootStays(t: Tree, dst: Path, s: State, cut: nat)
    requires WellFormed(t) && Exec(PlanOf(Some(t), dst, {}), s, cut).0 && CanAdd(s.disk, [])
    ensures CanAdd(Exec(PlanOf(Some(t), dst, {}), s, cut).1.disk, [])
  {
    hide Exec, CopyPlan, WellFormed, Find;
    CopyMeaning(t, dst, {}, s, cut, []);
    assert [] <= dst;
  }

  lemma SessionsHead(q: Path)
    ensures Sessions() <= q ==> q != [] && q[0] == Ascii("sessions")
  {
    if Sessions() <= q {
      assert q[0] == Sessions()[0];
    }
  }

  lemma {:induction false} SessionsRun(host: Host, rels: map<bytes, Path>, ids: seq<bytes>, s: State, cut: nat)
    requires host.sessions.Some? && WellFormed(host.sessions.value) && Open(host.sessions.value) && Ready(host, s.disk)
    requires forall id | id in ids ::
               id in rels && SourceOf(host, rels[id]).Some? && SourceOf(host, rels[id]).value.Folder?
    requires |SessionsPlan(host, rels, ids)| <= s.budget
    ensures Exec(SessionsPlan(host, rels, ids), s, cut).0 &&
            Ready(host, Exec(SessionsPlan(host, rels, ids), s, cut).1.disk)
    decreases |ids|
  {
    hide Exec, Find, Sessions, PlanOf, WellFormed, Open, Ready, Wanted;
    if ids == [] {
      ExecNothing(s, cut);
    } else {
      var rel := rels[ids[0]];
      assert ids[0] in ids && forall id | id in ids[1..] :: id in ids;
      var first := SessionPlan(host, rel);
      OpenFind(host.sessions.value, rel);
      FindWellFormed(host.sessions.value, rel);
      OpenReadable(SourceOf(host, rel).value, [], {});
      SessionFits(host, rel, s.disk);
      FittingCopy(SourceOf(host, rel).value, Sessions() + rel, {}, s, cut);
      ReadyAfter(host, rel, s, cut);
      ExecOverlay(first, s, cut);
      ExecConcat(first, SessionsPlan(host, rels, ids[1..]), s, cut);
      SessionsRun(host, rels, ids[1..], Exec(first, s, cut).1, cut);
    }
  }

  lemma ExecNothing(s: State, cut: nat)
    ensures Exec([], s, cut) == (true, s)
  {
  }

  // ----- The rest of a seed -----

  /** The store can be added to, and nothing in it begins with one of the names. */
  predicate Clear(d: Disk, names: set<bytes>) {
    CanAdd(d, []) && forall q | q in d :: q == [] || q[0] !in names
  }

  lemma MkdirClear(name: bytes, names: set<bytes>, s: State, cut: nat)
    requires Clear(s.disk, names) && name in names && s.budget > 0
    ensures var r := Step(Mkdir([name], true), s, cut);
            r.0 && r.1.budget == s.budget - 1 && Clear(r.1.disk, names - {name}) &&
            Get(r.1.disk, [name]) == Some(Dir(true)) && (forall q | q != [name] :: Get(r.1.disk, q) == Get(s.disk, q))
  {
    var op := Mkdir([name], true);
    assert Parent([name]) == [];
    forall q
      ensures q in Dirs([name], true) <==> q == [] || q == [name]
    {
      DirsAre([name], true, q);
      assert q <= [name] ==> q == [] || q == [name];
    }
    assert [name] !in s.disk;
  }

  lemma WriteClear(name: bytes, c: bytes, names: set<bytes>, s: State, cut: nat)
    requires Clear(s.disk, names) && name in names && s.budget > 0
    ensures var r := Step(Write([name], c, true), s, cut);
            r.0 && r.1.budget == s.budget - 1 && Clear(r.1.disk, names - {name}) &&
            (forall q | q != [name] :: Get(r.1.disk, q) == Get(s.disk, q))
  {
    assert Parent([name]) == [];
    assert [name] !in s.disk;
  }

  // The names a seed gives to what it adds to the store are all different.
  lemma NamesApart()
    ensures |Ascii("credentials")| == 11 && |Ascii("oauth")| == 5 && |Ascii("sessions")| == 8
    ensures |Ascii("session_index.jsonl")| == 19 && |Ascii("user-history")| == 12 && |Ascii("workspaces.json")| == 15
    ensures |Ascii(".seeded")| == 7
    ensures Sessions() == [Ascii("sessions")] && IndexFile() == [Ascii("session_index.jsonl")]
    ensures UserHistory() == [Ascii("user-history")] && WorkspacesFile() == [Ascii("workspaces.json")]
    ensures Marker() == [Ascii(".seeded")]
  {
  }

  function Files(): set<bytes> {
    {Ascii("session_index.jsonl"), Ascii("user-history"), Ascii("workspaces.json")}
  }

  lemma ConfigClear(config: Tree, budget: nat)
    requires WellFormed(config) && Exec(PlanOf(Some(config), [], KimiSkipCopy()), State(map[], budget), 0).0
    ensures var d := Exec(PlanOf(Some(config), [], KimiSkipCopy()), State(map[], budget), 0).1.disk;
            Get(d, []) == Some(Dir(config.writable)) && Get(d, Marker()) == Image(Find(config, Marker())) &&
            forall q | q in d :: q == [] || q[0] !in Files() + {Ascii("sessions"), Ascii("credentials"), Ascii("oauth")}
  {
    hide Exec, CopyPlan, WellFormed, Find, Ascii;
    var d := Exec(PlanOf(Some(config), [], KimiSkipCopy()), State(map[], budget), 0).1.disk;
    forall q | q in d
      ensures q == [] || q[0] !in Files() + {Ascii("sessions"), Ascii("credentials"), Ascii("oauth")}
    {
      CopyMeaning(config, [], KimiSkipCopy(), State(map[], budget), 0, q);
      assert Get(d, q) == Some(d[q]);
      if q != [] {
        assert q[0..] == q && [] + q[..1] == [q[0]];
      }
    }
    CopyMeaning(config, [], KimiSkipCopy(), State(map[], budget), 0, []);
    CopyMeaning(config, [], KimiSkipCopy(), State(map[], budget), 0, Marker());
    MarkerNotSkipped(config);
  }

  lemma MkdirSessions(host: Host, s: State, cut: nat)
    requires Ready(host, s.disk) && s.budget > 0
    ensures var r := Step(Mkdir(Sessions(), true), s, cut);
            r.0 && r.1.budget == s.budget - 1 && (forall q | q != Sessions() :: Get(r.1.disk, q) == Get(s.disk, q)) &&
            forall q | q in r.1.disk :: q in s.disk || q == Sessions()
  {
    hide HostHas;
    forall q
      ensures q in Dirs(Sessions(), true) <==> q == [] || q == Sessions()
    {
      DirsAre(Sessions(), true, q);
      assert q <= Sessions() ==> q == [] || q == Sessions();
    }
    assert Parent(Sessions()) == [];
  }

  lemma WorkspacesRun(j: Json, host: Host, project: bytes, s: State, cut: nat)
    requires Clear(s.disk, {Ascii("workspaces.json")}) && s.budget >= |WorkspacesPlan(j, host, project)|
    ensures var r := Exec(WorkspacesPlan(j, host, project), s, cut);
            r.0 && r.1.budget == s.budget - |WorkspacesPlan(j, host, project)| &&
            forall q | q != WorkspacesFile() :: Get(r.1.disk, q) == Get(s.disk, q)
  {
    hide Step, Clear, Filtered, Get;
    var spaces := WorkspacesPlan(j, host, project);
    if spaces != [] {
      WriteClear(Ascii("workspaces.json"), spaces[0].content, {Ascii("workspaces.json")}, s, cut);
      ExecOne(spaces[0], s, cut);
    }
  }

  lemma HistoryRun(host: Host, historyName: bytes, s: State, cut: nat)
    requires Get(s.disk, UserHistory()) == Some(Dir(true)) && Get(s.disk, UserHistory() + [historyName]) == None
    requires (host.history.Some? ==> host.history.value.readable) && s.budget >= |HistoryPlan(host, historyName)|
    ensures var r := Exec(HistoryPlan(host, historyName), s, cut);
            r.0 && r.1.budget == s.budget - |HistoryPlan(host, historyName)| &&
            (forall q | q != UserHistory() + [historyName] :: Get(r.1.disk, q) == Get(s.disk, q)) &&
            (forall q | q in r.1.disk :: q in s.disk || q == UserHistory() + [historyName])
  {
    if host.history.Some? {
      var q := UserHistory() + [historyName];
      assert Parent(q) == UserHistory();
      ExecOne(Write(q, host.history.value.content, host.history.value.writable), s, cut);
    }
  }

  // What comes after the sessions: the index, the history and the workspaces.
  lemma TailRuns(j: Json, host: Host, project: bytes, historyName: bytes, s: State, cut: nat)
    requires Ready(host, s.disk) && Clear(s.disk, Files()) && (host.history.Some? ==> host.history.value.readable)
    requires |HistoryPlan(host, historyName) + WorkspacesPlan(j, host, project)| + 3 <= s.budget
    ensures var tail := [Mkdir(Sessions(), true)] +
                        ([Write(IndexFile(), ScopedIndex(j, host, project), true)] +
                         ([Mkdir(UserHistory(), true)] +
                          (HistoryPlan(host, historyName) + WorkspacesPlan(j, host, project))));
            Exec(tail, s, cut).0 && Exec(tail, s, cut).1.budget == s.budget - |tail| &&
            Get(Exec(tail, s, cut).1.disk, Marker()) == Get(s.disk, Marker()) &&
            Get(Exec(tail, s, cut).1.disk, []) == Get(s.disk, [])
  {
    hide Exec, Step, HistoryPlan, WorkspacesPlan, ScopedIndex, Clear, Ascii, Sessions, IndexFile, UserHistory,
      WorkspacesFile, Marker, Ready, Files;
    NamesApart();
    FilesAre();
    var history, spaces := HistoryPlan(host, historyName), WorkspacesPlan(j, host, project);
    var p4 := [Mkdir(UserHistory(), true)] + (history + spaces);
    var p3 := [Write(IndexFile(), ScopedIndex(j, host, project), true)] + p4;
    MkdirSessions(host, s, cut);
    FirstOp(Mkdir(Sessions(), true), p3, s, cut);
    var s1 := Step(Mkdir(Sessions(), true), s, cut).1;
    ClearBeside(s.disk, s1.disk, Files(), Sessions());
    WriteClear(Ascii("session_index.jsonl"), ScopedIndex(j, host, project), Files(), s1, cut);
    FirstOp(Write(IndexFile(), ScopedIndex(j, host, project), true), p4, s1, cut);
    var s2 := Step(Write(IndexFile(), ScopedIndex(j, host, project), true), s1, cut).1;
    var names := Files() - {Ascii("session_index.jsonl")};
    MkdirClear(Ascii("user-history"), names, s2, cut);
    FirstOp(Mkdir(UserHistory(), true), history + spaces, s2, cut);
    var s3 := Step(Mkdir(UserHistory(), true), s2, cut).1;
    ClearAt(s2.disk, names, UserHistory() + [historyName]);
    assert |UserHistory() + [historyName]| == 2;
    HistoryRun(host, historyName, s3, cut);
    ExecConcat(history, spaces, s3, cut);
    var s4 := Exec(history, s3, cut).1;
    ClearBeside(s3.disk, s4.disk, {Ascii("workspaces.json")}, UserHistory() + [historyName]);
    WorkspacesRun(j, host, project, s4, cut);
  }

  lemma FilesAre()
    ensures Ascii("session_index.jsonl") in Files() && Ascii("user-history") in Files() - {Ascii("session_index.jsonl")}
    ensures Files() - {Ascii("session_index.jsonl")} - {Ascii("user-history")} == {Ascii("workspaces.json")}
    ensures Ascii("sessions") !in Files()
  {
    NamesApart();
  }

  lemma ClearBeside(d: Disk, d': Disk, names: set<bytes>, p: Path)
    requires Clear(d, names) && (forall q | q in d' :: q in d || q == p) && p != [] && p[0] !in names
    requires Get(d', []) == Get(d, [])
    ensures Clear(d', names)
  {
  }

  lemma ClearAt(d: Disk, names: set<bytes>, q: Path)
    requires Clear(d, names) && q != [] && q[0] in names
    ensures Get(d, q) == None
  {
  }

  lemma AttributedSources(j: Json, host: Host, project: bytes)
    requires host.sessions.Some? ==> WellFormed(host.sessions.value)
    ensures var rels := Attributed(j, host, project);
            (rels.Keys != {} ==> host.sessions.Some?) &&
            forall id | id in Sorted(rels.Keys) ::
              id in rels && SourceOf(host, rels[id]).Some? && SourceOf(host, rels[id]).value.Folder?
  {
    hide Find, Attributed, WellFormed, SourceOf;
    var rels := Attributed(j, host, project);
    forall id | id in rels
      ensures host.sessions.Some? && SourceOf(host, rels[id]).Some? && SourceOf(host, rels[id]).value.Folder?
    {
      AttributedFolder(j, host, project, id);
      SourceThere(host, rels[id]);
    }
  }

  lemma SourceThere(host: Host, rel: Path)
    requires SourceOf(host, rel).Some?
    ensures host.sessions.Some?
  {
  }

  lemma ClearReady(host: Host, d: Disk, names: set<bytes>)
    requires Clear(d, names) && Ascii("sessions") in names
    ensures Ready(host, d)
  {
    forall q | q in d
      ensures !(Sessions() <= q)
    {
      SessionsHead(q);
    }
  }

  // The sessions of a seed, into a store that has none yet.
  lemma SessionsSucceed(j: Json, host: Host, project: bytes, s: State, cut: nat)
    requires host.sessions.Some? ==> WellFormed(host.sessions.value) && Open(host.sessions.value)
    requires Clear(s.disk, Files() + {Ascii("sessions")})
    requires var rels := Attributed(j, host, project);
             (forall id | id in Sorted(rels.Keys) :: id in rels) &&
               |SessionsPlan(host, rels, Sorted(rels.Keys))| <= s.budget
    ensures var rels := Attributed(j, host, project);
            var r := Exec(SessionsPlan(host, rels, Sorted(rels.Keys)), s, cut);
            r.0 && r.1.budget == s.budget - |SessionsPlan(host, rels, Sorted(rels.Keys))| &&
            Ready(host, r.1.disk) && Clear(r.1.disk, Files()) && Get(r.1.disk, Marker()) == Get(s.disk, Marker())
  {
    hide Exec, Attributed, WellFormed, Open, SourceOf, SessionsPlan, Ready, Clear, Files, Sorted, Ascii, Merge, Overlay;
    var rels := Attributed(j, host, project);
    var ids := Sorted(rels.Keys);
    AttributedSources(j, host, project);
    ClearReady(host, s.disk, Files() + {Ascii("sessions")});
    ClearFewer(s.disk, Files() + {Ascii("sessions")}, Files());
    if ids == [] {
      NoPlan(host, rels);
      ExecNothing(s, cut);
    } else {
      assert ids[0] in rels.Keys;
      SessionsRun(host, rels, ids, s, cut);
      OnlySessionsAdded(host, rels, ids, s, cut);
    }
  }

  lemma NoPlan(host: Host, rels: map<bytes, Path>)
    ensures SessionsPlan(host, rels, []) == []
  {
  }

  lemma ClearFewer(d: Disk, names: set<bytes>, fewer: set<bytes>)
    requires Clear(d, names) && fewer <= names
    ensures Clear(d, fewer)
  {
  }

  lemma OnlySessionsAdded(host: Host, rels: map<bytes, Path>, ids: seq<bytes>, s: State, cut: nat)
    requires (forall id | id in ids :: id in rels) && host.sessions.Some? && WellFormed(host.sessions.value)
    requires Exec(SessionsPlan(host, rels, ids), s, cut).0 && Clear(s.disk, Files() + {Ascii("sessions")})
    requires Ready(host, Exec(SessionsPlan(host, rels, ids), s, cut).1.disk)
    ensures var r := Exec(SessionsPlan(host, rels, ids), s, cut);
            Clear(r.1.disk, Files()) && Get(r.1.disk, Marker()) == Get(s.disk, Marker()) &&
            r.1.budget == s.budget - |SessionsPlan(host, rels, ids)|
  {
    hide Exec, SessionsPlan, WellFormed, Ascii, Merge, Overlay;
    var plan := SessionsPlan(host, rels, ids);
    var d' := Exec(plan, s, cut).1.disk;
    NamesApart();
    FilesAre();
    NoAbort(plan, s, cut);
    ExecOverlay(plan, s, cut);
    GetMerge(s.disk, Overlay(plan));
    forall q | q != [] && q[0] != Ascii("sessions")
      ensures Get(d', q) == Get(s.disk, q)
    {
      SessionsElsewhere(host, rels, ids, q);
    }
    forall q | q in d'
      ensures q == [] || q[0] !in Files()
    {
      assert Get(d', q) == Some(d'[q]);
    }
  }

  /** The sessions and the history can be read, and the sessions' copies written to. */
  predicate Usable(host: Host) {
    (host.sessions.Some? ==> WellFormed(host.sessions.value) && Open(host.sessions.value)) &&
    (host.history.Some? ==> host.history.value.readable)
  }

  /** What os.WriteFile can replace. */
  predicate Replaceable(n: Option<Node>) {
    n.Some? ==> n.value.File? && n.value.writable
  }

  /**
   * The configuration can be copied to an empty directory, which can be added to afterwards and where
   * the marker can be written.
   */
  ghost predicate Seedable(config: Option<Tree>) {
    config.Some? && Readable(config.value, [], KimiSkipCopy()) &&
    Fits(map[], Wanted(config.value, [], KimiSkipCopy())) && config.value.writable &&
    Replaceable(Image(Find(config.value, Marker())))
  }

  // A seed once the configuration has been copied.
  lemma SeedAfterCopy(j: Json, host: Host, config: Option<Tree>, project: bytes, historyName: bytes, s0: State)
    requires Usable(host) && Replaceable(Get(s0.disk, Marker()))
    requires Clear(s0.disk, Files() + {Ascii("sessions"), Ascii("credentials"), Ascii("oauth")})
    requires s0.budget == |SeedPlan(j, host, project, historyName)| + 3
    ensures Exec(AfterCopy(j, host, project, historyName), s0, 0).0
  {
    hide Exec, Step, SessionsPlan, HistoryPlan, WorkspacesPlan, ScopedIndex, Clear, Ascii, Sessions, IndexFile,
      UserHistory, Marker, Ready, Files, PlanOf, Attributed, Sorted, WellFormed, Open;
    var rels := Attributed(j, host, project);
    var ids := Sorted(rels.Keys);
    var sessions := SessionsPlan(host, rels, ids);
    var tail := [Mkdir(Sessions(), true)] +
                ([Write(IndexFile(), ScopedIndex(j, host, project), true)] +
                 ([Mkdir(UserHistory(), true)] + (HistoryPlan(host, historyName) + WorkspacesPlan(j, host, project))));
    var cred, auth := Mkdir([Ascii("credentials")], true), Mkdir([Ascii("oauth")], true);
    var w := Write(Marker(), [], true);
    var oauth := [auth] + (sessions + tail);
    AttributedSources(j, host, project);
    assert AfterCopy(j, host, project, historyName) == ([cred] + oauth) + [w];
    ExecConcat([cred] + oauth, [w], s0, 0);
    FirstOp(cred, oauth, s0, 0);
    var names := Files() + {Ascii("sessions"), Ascii("credentials"), Ascii("oauth")};
    NamesLeft();
    MkdirClear(Ascii("credentials"), names, s0, 0);
    var s1 := Step(cred, s0, 0).1;
    FirstOp(auth, sessions + tail, s1, 0);
    MkdirClear(Ascii("oauth"), names - {Ascii("credentials")}, s1, 0);
    var s2 := Step(auth, s1, 0).1;
    ClearFewer(s2.disk, names - {Ascii("credentials")} - {Ascii("oauth")}, Files() + {Ascii("sessions")});
    ExecConcat(sessions, tail, s2, 0);
    MarkerBeside();
    SessionsSucceed(j, host, project, s2, 0);
    var s3 := Exec(sessions, s2, 0).1;
    TailRuns(j, host, project, historyName, s3, 0);
    ClearRoot(s3.disk, Files());
    MarkerWritten(Exec(tail, s3, 0).1);
  }

  /** All that a seed does after copying the configuration. */
  ghost function AfterCopy(j: Json, host: Host, project: bytes, historyName: bytes): seq<Op> {
    ([Mkdir([Ascii("credentials")], true)] +
     ([Mkdir([Ascii("oauth")], true)] + SeedPlan(j, host, project, historyName))) + [Write(Marker(), [], true)]
  }

  lemma FullPlanParts(j: Json, host: Host, config: Option<Tree>, project: bytes, historyName: bytes)
    ensures FullPlan(j, host, config, project, historyName) ==
            PlanOf(config, [], KimiSkipCopy()) + AfterCopy(j, host, project, historyName)
    ensures |AfterCopy(j, host, project, historyName)| == |SeedPlan(j, host, project, historyName)| + 3
  {
    hide SeedPlan, PlanOf, KimiSkipCopy, Marker, Ascii;
  }

  lemma ClearRoot(d: Disk, names: set<bytes>)
    requires Clear(d, names)
    ensures CanAdd(d, [])
  {
  }

  lemma NamesLeft()
    ensures var names := Files() + {Ascii("sessions"), Ascii("credentials"), Ascii("oauth")};
            Ascii("credentials") in names && Ascii("oauth") in names - {Ascii("credentials")} &&
            Files() + {Ascii("sessions")} <= names - {Ascii("credentials")} - {Ascii("oauth")}
  {
    NamesApart();
  }

  lemma MarkerBeside()
    ensures Marker() != [Ascii("credentials")] && Marker() != [Ascii("oauth")] && Marker() != []
  {
    hide Ascii, Marker;
    NamesApart();
    assert Marker()[0] == Ascii(".seeded");
    assert [Ascii("credentials")][0] == Ascii("credentials") && [Ascii("oauth")][0] == Ascii("oauth");
  }

  lemma MarkerWritten(s: State)
    requires CanAdd(s.disk, []) && Replaceable(Get(s.disk, Marker())) && s.budget > 0
    ensures Exec([Write(Marker(), [], true)], s, 0).0
  {
    ExecOne(Write(Marker(), [], true), s, 0);
    assert Parent(Marker()) == [];
  }

  /**
   * A seed of a fresh store that the machine does not let down succeeds exactly when its configuration is
   * there, can be read, leaves a directory that can be added to, and has at most a writable file in the
   * marker's place.
   */
  lemma SeedSucceedsIff(j: Json, host: Host, config: Option<Tree>, project: bytes, historyName: bytes)
    requires Usable(host) && (config.Some? ==> WellFormed(config.value))
    ensures FreshSeed(j, host, config, project, historyName).0 <==> Seedable(config)
  {
    hide Exec, AfterCopy, FullPlan, CopyPlan, KimiSkipCopy, Fits, Readable, WellFormed, Open, Wanted, Find, SeedPlan,
      Clear,
      Files, Replaceable, Marker, Usable, Ascii;
    var plan, copy := FullPlan(j, host, config, project, historyName), PlanOf(config, [], KimiSkipCopy());
    var after := AfterCopy(j, host, project, historyName);
    var s := State(map[], |plan|);
    FullPlanParts(j, host, config, project, historyName);
    ExecConcat(copy, after, s, 0);
    if FreshSeed(j, host, config, project, historyName).0 {
      SucceededConfig(config, after, |plan|);
      RestSucceeded(j, host, project, historyName, config.value, |plan|);
    }
    if Seedable(config) {
      FittingCopy(config.value, [], KimiSkipCopy(), s, 0);
      ExecOverlay(copy, s, 0);
      ConfigClear(config.value, |plan|);
      ClearIf(Exec(copy, s, 0).1.disk, Files() + {Ascii("sessions"), Ascii("credentials"), Ascii("oauth")});
      SeedAfterCopy(j, host, config, project, historyName, Exec(copy, s, 0).1);
    }
  }

  lemma ClearIf(d: Disk, names: set<bytes>)
    requires Get(d, []) == Some(Dir(true)) && forall q | q in d :: q == [] || q[0] !in names
    ensures Clear(d, names)
  {
  }

  lemma SucceededConfig(config: Option<Tree>, after: seq<Op>, budget: nat)
    requires config.Some? ==> WellFormed(config.value)
    requires Exec(PlanOf(config, [], KimiSkipCopy()), State(map[], budget), 0).0
    ensures config.Some? && Readable(config.value, [], KimiSkipCopy()) &&
            Fits(map[], Wanted(config.value, [], KimiSkipCopy()))
  {
    hide Exec, CopyPlan, KimiSkipCopy, Fits, Readable, WellFormed, Wanted;
    var copy := PlanOf(config, [], KimiSkipCopy());
    NoAbort(copy, State(map[], budget), 0);
    assert Abort in [Abort];
    ExecOverlay(copy, State(map[], budget), 0);
    ExecEnough(copy, State(map[], budget), 0, |copy|, 0);
    CopySucceedsIff(config.value, [], KimiSkipCopy(), map[]);
  }

  // The rest of a seed needs a directory it can add to, and the marker's place.
  lemma RestSucceeded(j: Json, host: Host, project: bytes, historyName: bytes, config: Tree, budget: nat)
    requires WellFormed(config) && Exec(PlanOf(Some(config), [], KimiSkipCopy()), State(map[], budget), 0).0
    requires Exec(AfterCopy(j, host, project, historyName),
                  Exec(PlanOf(Some(config), [], KimiSkipCopy()), State(map[], budget), 0).1, 0).0
    ensures config.writable && Replaceable(Image(Find(config, Marker())))
  {
    hide Exec, CopyPlan, KimiSkipCopy, WellFormed, Find, SeedPlan, Marker, Files, Ascii, Step;
    var s0 := Exec(PlanOf(Some(config), [], KimiSkipCopy()), State(map[], budget), 0).1;
    var cred, w := Mkdir([Ascii("credentials")], true), Write(Marker(), [], true);
    var oauth := [Mkdir([Ascii("oauth")], true)] + SeedPlan(j, host, project, historyName);
    ConfigClear(config, budget);
    ExecConcat([cred] + oauth, [w], s0, 0);
    FirstOp(cred, oauth, s0, 0);
    CredentialsAdded(s0);
    assert w in AfterCopy(j, host, project, historyName);
    RunAgrees(AfterCopy(j, host, project, historyName), s0, 0);
    MarkerLast([cred] + oauth);
    assert Alike(Get(s0.disk, Marker()), Get(Overlay(AfterCopy(j, host, project, historyName)), Marker()));
    if Sealed(s0.disk, Marker()) {
      SealedBlocks(AfterCopy(j, host, project, historyName), s0, 0, Marker());
    }
  }

  lemma MarkerLast(ops: seq<Op>)
    ensures Get(Overlay(ops + [Write(Marker(), [], true)]), Marker()).Some?
    ensures Get(Overlay(ops + [Write(Marker(), [], true)]), Marker()).value.File?
  {
    hide Overlay, Marker;
    GetConcat(ops, [Write(Marker(), [], true)], Marker());
    WriteOverlay(Marker(), [], true, Marker());
  }

  lemma CredentialsAdded(s: State)
    requires Step(Mkdir([Ascii("credentials")], true), s, 0).0
    requires [Ascii("credentials")] !in s.disk && Get(s.disk, []).Some?
    ensures CanAdd(s.disk, [])
  {
    hide Ascii;
    var p := [Ascii("credentials")];
    assert Parent(p) == [];
    DirsAre(p, true, p);
  }

  /**
   * Every run of launches, interrupted or not, followed by one that is not let down succeeds and ends in the
   * store of one clean seed exactly when the configuration is seedable, holds nothing named like the marker,
   * and no file that is copied is read-only.
   */
  lemma SeedsReliablyIff(j: Json, host: Host, config: Option<Tree>, project: bytes, historyName: bytes)
    requires Usable(host) && (config.Some? ==> WellFormed(config.value))
    ensures Seedable(config) && LacksMarker(config) && !CopiesSealed(j, host, config, project) <==>
            forall faults ::
              LastLaunch(j, host, config, project, historyName, faults).0 &&
              LastLaunch(j, host, config, project, historyName, faults) ==
              FreshSeed(j, host, config, project, historyName)
  {
    hide Seedable, LacksMarker, CopiesSealed, LastLaunch, FreshSeed, WellFormed, Open;
    SeedSucceedsIff(j, host, config, project, historyName);
    if FreshSeed(j, host, config, project, historyName).0 {
      RetriesCleanIff(j, host, config, project, historyName);
    } else {
      assert LastLaunch(j, host, config, project, historyName, []).0 ==>
             LastLaunch(j, host, config, project, historyName, []) != FreshSeed(j, host, config, project, historyName);
    }
  }

  // ----- A configuration directory without write permission -----

  /** Nothing of the seed after the configuration has been done, and the store, if it is there, cannot be added to. */
  predicate Barred(d: Disk) {
    Marker() !in d && [Ascii("credentials")] !in d && ([] in d ==> Locked(d, []))
  }

  lemma LockedBarred(ops: seq<Op>, s: State, cut: nat)
    requires Barred(s.disk) && Locked(s.disk, []) && Mkdir([Ascii("credentials")], true) in ops
    ensures !Exec(ops, s, cut).0 && Barred(Exec(ops, s, cut).1.disk)
  {
    hide Exec, Overlay, Ascii, Merge;
    var cred := [Ascii("credentials")];
    LockedStays(ops, s, cut, []);
    TopLevel();
    if Exec(ops, s, cut).0 {
      OpInOverlay(Mkdir(cred, true), ops);
      DirsAre(cred, true, cred);
      ExecOverlay(ops, s, cut);
      MergeHas(s.disk, Overlay(ops), cred);
    }
  }

  lemma TopLevel()
    ensures Marker() != [] && Parent(Marker()) == [] && Parent([Ascii("credentials")]) == []
  {
  }

  lemma MergeHas(d: Disk, m: Disk, q: Path)
    requires q in m
    ensures q in Merge(d, m)
  {
  }

  lemma LaunchBarred(j: Json, host: Host, config: Option<Tree>, project: bytes, historyName: bytes, s: State, cut: nat)
    requires config.Some? && !config.value.writable && Barred(s.disk)
    ensures var r := Prepared(j, host, config, project, historyName, s, cut); !r.0 && Barred(r.1.disk)
  {
    hide Exec, AfterCopy, KimiSkipCopy, EntriesPlan, Ascii, Marker, Merge, FullPlan, Locked;
    var t, root := config.value, Mkdir([], false);
    var rest := (if t.Folder? && t.readable then EntriesPlan(t.entries, [], [], KimiSkipCopy()) else [Abort]) +
                AfterCopy(j, host, project, historyName);
    FullPlanParts(j, host, config, project, historyName);
    RootFirst(t, AfterCopy(j, host, project, historyName));
    CredentialsIn(j, host, project, historyName);
    assert Mkdir([Ascii("credentials")], true) in [root] + rest;
    if [] in s.disk {
      LockedBarred([root] + rest, s, cut);
    } else {
      FirstOp(root, rest, s, cut);
      RootStep(s, cut);
      if s.budget > 0 {
        LockedBarred(rest, Step(root, s, cut).1, cut);
      }
    }
  }

  lemma RootFirst(t: Tree, after: seq<Op>)
    requires !t.writable
    ensures PlanOf(Some(t), [], KimiSkipCopy()) + after ==
            [Mkdir([], false)] +
            ((if t.Folder? && t.readable then EntriesPlan(t.entries, [], [], KimiSkipCopy()) else [Abort]) + after)
  {
    hide EntriesPlan, KimiSkipCopy;
    var root: Path := [];
    assert root + root == root;
  }

  lemma CredentialsIn(j: Json, host: Host, project: bytes, historyName: bytes)
    ensures Mkdir([Ascii("credentials")], true) in AfterCopy(j, host, project, historyName)
  {
    hide Ascii, SeedPlan, Marker;
  }

  lemma RootStep(s: State, cut: nat)
    requires Barred(s.disk) && [] !in s.disk
    ensures var r := Step(Mkdir([], false), s, cut);
            r.0 == (s.budget > 0) && Barred(r.1.disk) && (r.0 ==> Locked(r.1.disk, []))
  {
    hide Ascii;
    TopLevel();
    assert [Ascii("credentials")] != [];
    forall q
      ensures q in Dirs([], false) <==> q == []
    {
      DirsAre([], false, q);
    }
  }

  /**
   * A configuration whose directory is read-only leaves a store that cannot be added to: no launch ever
   * succeeds, over any run of them.
   */
  lemma {:induction false} BarredNeverSeeded(j: Json, host: Host, config: Option<Tree>, project: bytes,
                                             historyName: bytes, d: Disk, faults: seq<Fault>, budget: nat, cut: nat)
    requires config.Some? && !config.value.writable && Barred(d)
    ensures var y := Launches(j, host, config, project, historyName, d, faults);
            !Prepared(j, host, config, project, historyName, State(y, budget), cut).0
    decreases |faults|
  {
    hide Prepared, Barred;
    if faults == [] {
      LaunchBarred(j, host, config, project, historyName, State(d, budget), cut);
    } else {
      var f := faults[0];
      LaunchBarred(j, host, config, project, historyName, State(d, f.budget), f.cut);
      var d' := Prepared(j, host, config, project, historyName, State(d, f.budget), f.cut).1.disk;
      BarredNeverSeeded(j, host, config, project, historyName, d', faults[1..], budget, cut);
    }
  }

  /** A concrete case: an empty configuration that can be copied, but whose directory is read-only. */
  lemma ReadOnlyRootNeverSeeds(j: Json, host: Host, project: bytes, historyName: bytes, faults: seq<Fault>,
                               budget: nat, cut: nat)
    ensures var config := Folder([], true, false);
            var copy := PlanOf(Some(config), [], KimiSkipCopy());
            var y := Launches(j, host, Some(config), project, historyName, map[], faults);
            Exec(copy, State(map[], |copy|), 0).0 &&
            !Prepared(j, host, Some(config), project, historyName, State(y, budget), cut).0
  {
    hide KimiSkipCopy, Prepared, Launches, Marker, Ascii;
    var config, root := Folder([], true, false), Mkdir([], false);
    EmptyConfig();
    ExecOne(root, State(map[], 1), 0);
    RootStep(State(map[], 1), 0);
    BarredNeverSeeded(j, host, Some(config), project, historyName, map[], faults, budget, cut);
  }

  lemma EmptyConfig()
    ensures PlanOf(Some(Folder([], true, false)), [], KimiSkipCopy()) == [Mkdir([], false)]
  {
    hide KimiSkipCopy;
    var root: Path := [];
    assert root + root == root;
  }

  // ----- A concrete configuration whose seed is never completed -----

  lemma ConfigOfSeedable(name: bytes, writable: bool)
    requires [name] !in KimiSkipCopy() && name != Ascii(".seeded")
    ensures Seedable(Some(ConfigOf(name, writable)))
  {
    hide Exec, KimiSkipCopy, Find, Open, WellFormed, Readable, Fits, CopyPlan;
    ConfigOfGood(name, writable);
    ConfigOfPlan(name, writable);
    ConfigOfCopied(name, writable);
    CopySucceedsIff(ConfigOf(name, writable), [], KimiSkipCopy(), map[]);
  }

  /**
   * With one read-only file in the configuration a seed of a fresh store succeeds if nothing interrupts it; but
   * a first launch let down after that file was copied makes every later launch fail.
   */
  lemma ReadOnlyConfigNeverSeeds(j: Json, host: Host, project: bytes, historyName: bytes, faults: seq<Fault>,
                                 budget: nat, cut: nat)
    requires Usable(host)
    ensures var config := Some(ConfigOf(Ascii("agents.md"), false));
            var half := Prepared(j, host, config, project, historyName, State(map[], 2), 0);
            var y := Launches(j, host, config, project, historyName, half.1.disk, faults);
            FreshSeed(j, host, config, project, historyName).0 && !half.0 &&
            !Prepared(j, host, config, project, historyName, State(y, budget), cut).0
  {
    hide Prepared, KimiSkipCopy, CopyPlan, FreshSeed, Seedable;
    var name := Ascii("agents.md");
    var config := Some(ConfigOf(name, false));
    NotSkipped(name);
    StoppedAfterConfig(j, host, project, historyName, name, false);
    ConfigOfPlan(name, false);
    assert Write([name], [], false) in PlanOf(config, [], KimiSkipCopy());
    assert name[0] != Ascii(".seeded")[0] && [name][0] == name;
    ConfigOfGood(name, false);
    var half: Disk := map[[] := Dir(true), [name] := File([], false)];
    NeverSeeded(j, host, config, project, historyName, half, [name], faults, budget, cut);
    ConfigOfSeedable(name, false);
    SeedSucceedsIff(j, host, config, project, historyName);
  }

  // ----- A concrete host whose index lets in another project's session -----

  function StrayLine(): bytes { [0] }

  /** The host's sessions/ is /root/sessions. */
  function StrayDir(): Path { [Ascii("root"), Ascii("sessions")] }

  /** A state.json holds just the project's name, and one line decodes to an entry for the given project. */
  function PlainJson(project: bytes): Json {
    Json(_ => false,
         l => if l == StrayLine() then Some(IndexEntry(Ascii("id"), Paths.Rooted(StrayDir()), project)) else None,
         _ => [],
         data => Some(data),
         l => l,
         _ => None,
         _ => None,
         _ => [])
  }

  /** One session, of another project, and an index with that one line, which lists sessions/ itself. */
  function StrayHost(other: bytes): Host {
    var session := Folder([Entry(Ascii(STATE_FILE), Regular(other, true, true))], true, true);
    var ws := Folder([Entry(Ascii("s"), session)], true, true);
    Host(Some(Folder([Entry(Ascii("ws"), ws)], true, true)), Some(Unlines([StrayLine()])), None, None, StrayDir())
  }

  lemma PlainJsonLawful(project: bytes)
    ensures Lawful(PlainJson(project))
  {
  }

  lemma OneEntry(name: bytes, t: Tree)
    requires WellFormed(t) && Open(t)
    ensures var folder := Folder([Entry(name, t)], true, true);
            WellFormed(folder) && Open(folder) && Find(folder, [name]) == Some(t) &&
            FindEntry(folder.entries, name) == Some(t)
  {
    assert [name][1..] == [];
    assert Find(t, []) == Some(t);
  }

  lemma StrayHostFinds(other: bytes)
    ensures var host := StrayHost(other);
            WellFormed(host.sessions.value) && Open(host.sessions.value) &&
            SourceOf(host, [Ascii("ws"), Ascii("s")]) ==
              Some(Folder([Entry(Ascii(STATE_FILE), Regular(other, true, true))], true, true)) &&
            Find(Folder([Entry(Ascii(STATE_FILE), Regular(other, true, true))], true, true), [Ascii(STATE_FILE)])
            == Some(Regular(other, true, true))
  {
    hide Ascii, Find, WellFormed, Open, FindEntry;
    var host := StrayHost(other);
    var wss := host.sessions.value.entries;
    assert WellFormed(Regular(other, true, true)) && Open(Regular(other, true, true)) by { FileGood(other); }
    OneEntry(Ascii(STATE_FILE), Regular(other, true, true));
    OneEntry(Ascii("s"), wss[0].tree.entries[0].tree);
    OneEntry(Ascii("ws"), wss[0].tree);
    FindTwo(host.sessions.value, wss[0], wss[0].tree.entries[0]);
  }

  lemma FileGood(content: bytes)
    ensures WellFormed(Regular(content, true, true)) && Open(Regular(content, true, true))
  {
  }

  lemma StrayIndex(project: bytes, other: bytes)
    ensures HostIndex(PlainJson(project), StrayHost(other).index, project) == map[Ascii("id") := StrayLine()]
  {
    hide Scan, Unlines;
    var lines := [StrayLine()];
    CleanLinesScan(lines);
    assert lines[..0] == [] && Ascii("id") != [];
    assert IndexOf(PlainJson(project), project, lines[..0]) == map[];
  }

  lemma StrayPrimary(project: bytes, other: bytes)
    requires other != project
    ensures Primary(PlainJson(project), StrayHost(other), project) == map[]
  {
    hide WellFormed, Find, Ascii, Open, SessionsIn;
    var host, j := StrayHost(other), PlainJson(project);
    var wss := host.sessions.value.entries;
    StrayHostFinds(other);
    OneSessionIn(j, project, wss[0].name, wss[0].tree.entries[0]);
    assert wss[..0] == [] && wss == [wss[0]] && wss[0].tree.entries == [wss[0].tree.entries[0]];
    assert WorkspaceSessions(j, project, wss[..0]) == map[];
  }

  lemma OneSessionIn(j: Json, project: bytes, ws: bytes, e: Entry)
    requires !OwnedBy(j, project, e)
    ensures SessionsIn(j, project, ws, [e], map[]) == map[]
  {
    hide OwnedBy;
    assert [e][..0] == [];
    assert SessionsIn(j, project, ws, [e][..0], map[]) == map[];
  }

  lemma StrayHostStrays(project: bytes, other: bytes)
    requires other != project && other != []
    ensures var j, host := PlainJson(project), StrayHost(other);
            Foreign(j, host, project, Ascii("ws"), Ascii("s")) && Attributed(j, host, project) == map[Ascii("id") := []]
  {
    hide HostIndex, Primary, WellFormed, Open, Ascii, Unlines, NamesRoot, Attributed, Strays, Find;
    var j, host := PlainJson(project), StrayHost(other);
    StrayHostFinds(other);
    StrayIndex(project, other);
    StrayPrimary(project, other);
    StrayNamesRoot(project, other);
    RootLineStrays(j, host, project, Ascii("id"));
    AttributedFrom(j, host, project);
    assert Attributed(j, host, project).Keys == {Ascii("id")};
  }

  lemma AttributedFrom(j: Json, host: Host, project: bytes)
    ensures Attributed(j, host, project).Keys <=
            HostIndex(j, host.index, project).Keys + Primary(j, host, project).Keys
  {
    hide HostIndex, Primary, Listed;
  }

  lemma StrayNamesRoot(project: bytes, other: bytes)
    requires other != project
    ensures NamesRoot(PlainJson(project), StrayHost(other), project, Ascii("id"))
  {
    hide HostIndex, Primary, Ascii, Unlines, Paths.Parts, Paths.Elements;
    StrayIndex(project, other);
    StrayPrimary(project, other);
    StrayDirElements();
    Paths.PartsRooted(StrayDir());
  }

  lemma StrayDirElements()
    ensures Paths.Elements(StrayDir())
  {
    LettersOnly("root");
    LettersOnly("sessions");
    assert Ascii("root")[0] != Paths.DOT && Ascii("sessions")[0] != Paths.DOT;
  }

  lemma LettersOnly(s: string)
    requires forall i | 0 <= i < |s| :: 'a' <= s[i] <= 'z'
    ensures forall b | b in Ascii(s) :: b > Paths.SLASH
  {
    forall b | b in Ascii(s)
      ensures b > Paths.SLASH
    {
      var i :| 0 <= i < |s| && Ascii(s)[i] == b;
    }
  }

  /** There a seed succeeds and the store holds the other project's session. */
  lemma StrayLineLetsIn(project: bytes, other: bytes, historyName: bytes)
    requires other != project && other != []
    ensures var j, host, config := PlainJson(project), StrayHost(other), Some(ConfigOf(Ascii("agents.md"), true));
            Lawful(j) && FreshSeed(j, host, config, project, historyName).0 &&
            Foreign(j, host, project, Ascii("ws"), Ascii("s")) &&
            Get(FreshSeed(j, host, config, project, historyName).1,
                Sessions() + [Ascii("ws"), Ascii("s"), Ascii(STATE_FILE)])
            == Some(File(other, true))
  {
    hide FreshSeed, WellFormed, Open, Seedable, Foreign, Strays, Attributed, KimiSkipCopy, ConfigOf, Find, Lawful,
      Unlines, NamesRoot, Usable;
    var j, host, config := PlainJson(project), StrayHost(other), Some(ConfigOf(Ascii("agents.md"), true));
    var q := Sessions() + [Ascii("ws"), Ascii("s"), Ascii(STATE_FILE)];
    PlainJsonLawful(project);
    StrayHostFinds(other);
    StrayHostStrays(project, other);
    NotSkipped(Ascii("agents.md"));
    ConfigOfSeedable(Ascii("agents.md"), true);
    ConfigOfGood(Ascii("agents.md"), true);
    StrayHostUsable(other);
    SeedSucceedsIff(j, host, config, project, historyName);
    StrayNamesRoot(project, other);
    RootLineCopiesAll(j, host, config, project, historyName, Ascii("id"), q);
    FindConcat(host.sessions.value, [Ascii("ws"), Ascii("s")], [Ascii(STATE_FILE)]);
    assert q[1..] == [Ascii("ws"), Ascii("s")] + [Ascii(STATE_FILE)];
  }

  lemma StrayHostUsable(other: bytes)
    ensures Usable(StrayHost(other))
  {
    hide WellFormed, Open, Ascii, Find;
    StrayHostFinds(other);
  }
}
