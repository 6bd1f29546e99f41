/** Which sessions a freshly seeded Kimi store holds: exactly those attributed to the project. */
module KimiIsolation {
  import opened Bytes
  import opened Options
  import opened ByteOrder
  import opened Disk
  import opened TreeCopy
  import opened KimiStore
  import opened KimiSeed
  import Paths

  lemma {:induction false} FindConcat(t: Tree, a: Path, b: Path)
    requires Find(t, a).Some?
    ensures Find(t, a + b) == Find(Find(t, a).value, b)
    decreases |a|
  {
    hide FindEntry;
    if a == [] {
      assert a + b == b;
    } else {
      assert (a + b)[1..] == a[1..] + b;
      FindConcat(FindEntry(t.entries, a[0]).value, a[1..], b);
    }
  }

  /** q lies on the way to the session directory rel, or in it. */
  predicate OnTheWay(rel: Path, q: Path) {
    q <= Sessions() + rel || Sessions() + rel <= q
  }

  /** What the host has at the store's path q under sessions/. */
  function HostHas(host: Host, q: Path): Option<Node>
    requires Sessions() < q
  {
    Image(SourceOf(host, q[1..]))
  }

  /** What a path holds, a directory's permission aside: one created on the way to another takes that one's. */
  function Plain(n: Option<Node>): Option<Node> {
    if n.Some? && n.value.Dir? then Some(Dir(true)) else n
  }

  lemma SessionWant(host: Host, rel: Path, q: Path)
    requires Sessions() < q && SourceOf(host, rel).Some? && SourceOf(host, rel).value.Folder?
    ensures Plain(Want(SourceOf(host, rel).value, Sessions() + rel, [], {}, q)) ==
            if OnTheWay(rel, q) then Plain(HostHas(host, q)) else None
  {
    hide Find, Image;
    var t, base := host.sessions.value, Sessions() + rel;
    assert base[1..] == rel;
    if q <= base {
      assert q[1..] <= rel;
      if q[1..] != rel {
        FindPrefix(t, rel, q[1..]);
      }
      ImageOfFolder(SourceOf(host, q[1..]));
    } else if base <= q {
      assert q[1..] == rel + q[|base|..];
      FindConcat(t, rel, q[|base|..]);
    }
  }

  lemma ImageOfFolder(t: Option<Tree>)
    requires t.Some? && t.value.Folder?
    ensures Image(t) == Some(Dir(t.value.writable))
  {
  }

  predicate Related(rels: map<bytes, Path>, ids: seq<bytes>, q: Path)
    requires forall id | id in ids :: id in rels
  {
    exists id | id in ids :: OnTheWay(rels[id], q)
  }

  lemma {:induction false} SessionsExact(host: Host, rels: map<bytes, Path>, ids: seq<bytes>, q: Path)
    requires (forall id | id in ids :: id in rels) && (host.sessions.Some? ==> WellFormed(host.sessions.value))
    requires Abort !in SessionsPlan(host, rels, ids) && Sessions() < q
    ensures Plain(Get(Overlay(SessionsPlan(host, rels, ids)), q)) ==
            if Related(rels, ids, q) then Plain(HostHas(host, q)) else None
    decreases |ids|
  {
    hide Overlay, CopyPlan, Want, OnTheWay, HostHas, WellFormed, Sessions, Find;
    NothingOverlaid(q);
    if ids != [] {
      var rel := rels[ids[0]];
      GetConcat(SessionPlan(host, rel), SessionsPlan(host, rels, ids[1..]), q);
      assert ids == [ids[0]] + ids[1..];
      SessionsExact(host, rels, ids[1..], q);
      OneSession(host, rel, q);
    }
  }

  lemma OneSession(host: Host, rel: Path, q: Path)
    requires (host.sessions.Some? ==> WellFormed(host.sessions.value)) && Abort !in SessionPlan(host, rel) &&
             Sessions() < q
    ensures Plain(Get(Overlay(SessionPlan(host, rel)), q)) == if OnTheWay(rel, q) then Plain(HostHas(host, q)) else None
  {
    hide Overlay, EntriesPlan, Want, OnTheWay, HostHas, WellFormed, Sessions, Find;
    assert Abort in [Abort];
    var src := SourceOf(host, rel);
    FindWellFormed(host.sessions.value, rel);
    assert Sessions() + rel + [] == Sessions() + rel;
    CopyOverlay(src.value, Sessions() + rel, [], {}, q);
    SessionWant(host, rel, q);
  }

  // The other operations of a seed leave what lies under sessions/ alone.
  lemma MkdirElsewhere(p: Path, q: Path)
    requires Sessions() < q && |p| == 1
    ensures Get(Overlay([Mkdir(p, true)]), q) == None
  {
    MkdirOverlay(p, true, q);
  }

  lemma WriteElsewhere(p: Path, c: bytes, w: bool, q: Path)
    requires Sessions() < q && p != [] && p[0] != Ascii("sessions")
    ensures Get(Overlay([Write(p, c, w)]), q) == None
  {
    WriteOverlay(p, c, w, q);
    assert q[0] == Sessions()[0];
  }

  lemma ConfigElsewhere(config: Option<Tree>, q: Path)
    requires (config.Some? ==> WellFormed(config.value)) && Abort !in PlanOf(config, [], KimiSkipCopy()) &&
             Sessions() < q
    ensures Get(Overlay(PlanOf(config, [], KimiSkipCopy())), q) == None
  {
    hide Overlay, CopyPlan, WellFormed, Find;
    assert Abort in [Abort];
    CopyOverlay(config.value, [], [], KimiSkipCopy(), q);
    assert q[0..] == q;
    assert [] + q[..1] == Sessions();
    assert !Kept([], q, KimiSkipCopy());
  }

  lemma SeedElsewhere(j: Json, host: Host, project: bytes, historyName: bytes, q: Path)
    requires (host.sessions.Some? ==> WellFormed(host.sessions.value)) && Sessions() < q
    requires Abort !in SeedPlan(j, host, project, historyName)
    ensures var rels := Attributed(j, host, project);
            Plain(Get(Overlay(SeedPlan(j, host, project, historyName)), q)) ==
            if Related(rels, Sorted(rels.Keys), q) then Plain(HostHas(host, q)) else None
  {
    hide Overlay, Sessions, IndexFile, UserHistory, WorkspacesFile, Attributed, ScopedIndex, Sorted, SessionsPlan, Get,
      Filtered, HostHas, Related;
    var rels := Attributed(j, host, project);
    var ids := Sorted(rels.Keys);
    var history, spaces := HistoryPlan(host, historyName), WorkspacesPlan(j, host, project);
    var p4 := [Mkdir(UserHistory(), true)] + (history + spaces);
    var p3 := [Write(IndexFile(), ScopedIndex(j, host, project), true)] + p4;
    var p2 := [Mkdir(Sessions(), true)] + p3;
    SessionsExact(host, rels, ids, q);
    GetConcat(SessionsPlan(host, rels, ids), p2, q);
    GetConcat([Mkdir(Sessions(), true)], p3, q);
    GetConcat([Write(IndexFile(), ScopedIndex(j, host, project), true)], p4, q);
    GetConcat([Mkdir(UserHistory(), true)], history + spaces, q);
    GetConcat(history, spaces, q);
    FilesElsewhere(historyName);
    MkdirElsewhere(Sessions(), q);
    MkdirElsewhere(UserHistory(), q);
    WriteElsewhere(IndexFile(), ScopedIndex(j, host, project), true, q);
    NothingOverlaid(q);
    if host.history.Some? {
      WriteElsewhere(UserHistory() + [historyName], host.history.value.content, host.history.value.writable, q);
    }
    if spaces != [] {
      WriteElsewhere(WorkspacesFile(), spaces[0].content, true, q);
    }
  }

  lemma FilesElsewhere(historyName: bytes)
    ensures |Sessions()| == |UserHistory()| == |IndexFile()| == |WorkspacesFile()| == 1
    ensures IndexFile()[0] != Ascii("sessions") && WorkspacesFile()[0] != Ascii("sessions")
    ensures (UserHistory() + [historyName])[0] != Ascii("sessions")
    ensures Marker() != [] && Marker()[0] != Ascii("sessions")
  {
  }

  /**
   * Under sessions/ a freshly seeded store holds exactly what the host has in the session
   * directories attributed to the project, with the directories on the way to them, and nothing else.
   */
  lemma FreshSeedExact(j: Json, host: Host, config: Option<Tree>, project: bytes, historyName: bytes, q: Path)
    requires (host.sessions.Some? ==> WellFormed(host.sessions.value)) && (config.Some? ==> WellFormed(config.value))
    requires var plan := FullPlan(j, host, config, project, historyName); Exec(plan, State(map[], |plan|), 0).0
    requires Sessions() < q
    ensures var plan := FullPlan(j, host, config, project, historyName);
            var rels := Attributed(j, host, project);
            Plain(Get(Exec(plan, State(map[], |plan|), 0).1.disk, q)) ==
            if Related(rels, Sorted(rels.Keys), q) then Plain(HostHas(host, q)) else None
  {
    hide Overlay, Exec, SeedPlan, PlanOf, KimiSkipCopy, Marker, Sessions, WellFormed, HostHas, Related, Sorted,
      Attributed, Get;
    var plan := FullPlan(j, host, config, project, historyName);
    var seed := SeedPlan(j, host, project, historyName);
    var copy := PlanOf(config, [], KimiSkipCopy());
    var oauth := [Mkdir([Ascii("oauth")], true)] + seed;
    var creds := [Mkdir([Ascii("credentials")], true)] + oauth;
    NoAbort(plan, State(map[], |plan|), 0);
    assert forall op | op in seed || op in copy :: op in plan;
    ExecOverlay(plan, State(map[], |plan|), 0);
    GetFresh(Overlay(plan), q);
    GetConcat(Contents(j, host, config, project, historyName), [Write(Marker(), [], true)], q);
    GetConcat(copy, creds, q);
    GetConcat([Mkdir([Ascii("credentials")], true)], oauth, q);
    GetConcat([Mkdir([Ascii("oauth")], true)], seed, q);
    FilesElsewhere([]);
    WriteElsewhere(Marker(), [], true, q);
    MkdirElsewhere([Ascii("credentials")], q);
    MkdirElsewhere([Ascii("oauth")], q);
    ConfigElsewhere(config, q);
    SeedElsewhere(j, host, project, historyName, q);
  }

  lemma GetFresh(m: Disk, q: Path)
    ensures Get(Merge(map[], m), q) == Get(m, q)
  {
    MergeNothing(m);
  }

  // ----- Whose sessions they are -----

  /** [ws, s] is a session directory that does not name the project. */
  predicate NotOwn(j: Json, host: Host, project: bytes, ws: bytes, s: bytes) {
    var t := SourceOf(host, [ws, s]);
    t.Some? && t.value.Folder? && StateProject(j, t.value) != Some(project)
  }

  /** [ws, s] is a session directory that names another project; a state.json without a project names none. */
  predicate Foreign(j: Json, host: Host, project: bytes, ws: bytes, s: bytes) {
    NotOwn(j, host, project, ws, s) &&
    StateProject(j, SourceOf(host, [ws, s]).value).Some? && StateProject(j, SourceOf(host, [ws, s]).value).value != []
  }

  lemma {:induction false} SessionsInSound(j: Json, project: bytes, ws: bytes, es: seq<Entry>, rels: map<bytes, Path>,
                                           id: bytes)
    requires id in SessionsIn(j, project, ws, es, rels)
    ensures var rel := SessionsIn(j, project, ws, es, rels)[id];
            (id in rels && rel == rels[id]) ||
            (rel == [ws, id] && exists e | e in es :: e.name == id && OwnedBy(j, project, e))
    decreases |es|
  {
    hide OwnedBy;
    if es != [] {
      var n := |es| - 1;
      assert es == es[..n] + [es[n]];
      if !(OwnedBy(j, project, es[n]) && es[n].name == id) {
        SessionsInSound(j, project, ws, es[..n], rels, id);
      }
    }
  }

  lemma {:induction false} WorkspacesSound(j: Json, project: bytes, wss: seq<Entry>, id: bytes)
    requires id in WorkspaceSessions(j, project, wss)
    ensures exists w, e | w in wss && w.tree.Folder? && e in w.tree.entries ::
              e.name == id && OwnedBy(j, project, e) && WorkspaceSessions(j, project, wss)[id] == [w.name, id]
    decreases |wss|
  {
    hide OwnedBy, SessionsIn;
    if wss != [] {
      var n := |wss| - 1;
      var before, w := WorkspaceSessions(j, project, wss[..n]), wss[n];
      assert wss == wss[..n] + [w];
      if w.tree.Folder? && w.tree.readable {
        SessionsInSound(j, project, w.name, w.tree.entries, before, id);
        if id in before && WorkspaceSessions(j, project, wss)[id] == before[id] {
          WorkspacesSound(j, project, wss[..n], id);
        }
      } else {
        WorkspacesSound(j, project, wss[..n], id);
      }
    }
  }

  lemma FindDistinct(es: seq<Entry>, e: Entry)
    requires DistinctNames(es) && e in es
    ensures FindEntry(es, e.name) == Some(e.tree)
    decreases |es|
  {
    if es[0] != e {
      assert es == [es[0]] + es[1..];
      FindDistinct(es[1..], e);
    }
  }

  /** A session attributed by its own state.json is a directory that names the project. */
  lemma PrimarySound(j: Json, host: Host, project: bytes, id: bytes)
    requires (host.sessions.Some? ==> WellFormed(host.sessions.value)) && id in Primary(j, host, project)
    ensures exists ws :: Primary(j, host, project)[id] == [ws, id] && !NotOwn(j, host, project, ws, id) &&
                         SourceOf(host, [ws, id]).Some? && SourceOf(host, [ws, id]).value.Folder?
  {
    hide StateProject, WorkspaceSessions;
    var wss := host.sessions.value.entries;
    WorkspacesSound(j, project, wss, id);
    var w, e :| w in wss && w.tree.Folder? && e in w.tree.entries &&
                e.name == id && OwnedBy(j, project, e) && WorkspaceSessions(j, project, wss)[id] == [w.name, id];
    FindDistinct(wss, w);
    FindDistinct(w.tree.entries, e);
    FindTwo(host.sessions.value, w, e);
    assert !NotOwn(j, host, project, w.name, id);
  }

  lemma FindTwo(t: Tree, w: Entry, e: Entry)
    requires t.Folder? && FindEntry(t.entries, w.name) == Some(w.tree)
    requires w.tree.Folder? && FindEntry(w.tree.entries, e.name) == Some(e.tree)
    ensures Find(t, [w.name, e.name]) == Some(e.tree)
  {
    hide FindEntry;
    assert [w.name, e.name][1..] == [e.name] && [e.name][1..] == [];
    assert Find(w.tree, [e.name]) == Find(e.tree, []);
  }

  lemma AttributedFolder(j: Json, host: Host, project: bytes, id: bytes)
    requires (host.sessions.Some? ==> WellFormed(host.sessions.value)) && id in Attributed(j, host, project)
    ensures var src := SourceOf(host, Attributed(j, host, project)[id]); src.Some? && src.value.Folder?
  {
    hide Primary, HostIndex, Find, WellFormed, RelOf;
    if id in Primary(j, host, project) {
      PrimarySound(j, host, project, id);
    }
  }

  // Above a directory that is there lie directories alone.
  lemma FileIsInside(host: Host, rel: Path, q: Path)
    requires SourceOf(host, rel).Some? && SourceOf(host, rel).value.Folder? && Sessions() < q && OnTheWay(rel, q)
    requires HostHas(host, q).Some? && HostHas(host, q).value.File?
    ensures Sessions() + rel <= q
  {
    hide Find;
    var base := Sessions() + rel;
    assert base[1..] == rel;
    if q <= base {
      assert q[1..] <= rel;
      if q[1..] != rel {
        FindPrefix(host.sessions.value, rel, q[1..]);
      }
      ImageOfFolder(SourceOf(host, q[1..]));
    }
  }

  /** Every session file of a freshly seeded store lies, unchanged, in a directory attributed to the project. */
  lemma OnlyAttributedSessions(j: Json, host: Host, config: Option<Tree>, project: bytes, historyName: bytes,
                               q: Path, content: bytes, writable: bool)
    requires (host.sessions.Some? ==> WellFormed(host.sessions.value)) && (config.Some? ==> WellFormed(config.value))
    requires var plan := FullPlan(j, host, config, project, historyName);
             Exec(plan, State(map[], |plan|), 0).0 &&
             Get(Exec(plan, State(map[], |plan|), 0).1.disk, q) == Some(File(content, writable))
    requires Sessions() < q
    ensures HostHas(host, q) == Some(File(content, writable))
    ensures exists id | id in Attributed(j, host, project) :: Sessions() + Attributed(j, host, project)[id] <= q
  {
    hide Exec, FullPlan, Sessions, WellFormed, HostHas, OnTheWay, Attributed, SourceOf;
    FreshSeedExact(j, host, config, project, historyName, q);
    var id :| id in Attributed(j, host, project) && OnTheWay(Attributed(j, host, project)[id], q);
    AttributedFolder(j, host, project, id);
    FileIsInside(host, Attributed(j, host, project)[id], q);
  }

  predicate Touches(rel: Path, p: Path) {
    rel <= p || p <= rel
  }

  /** A session attributed by its own state.json has nothing to do with a directory that does not name the project. */
  lemma PrimaryApart(j: Json, host: Host, project: bytes, id: bytes, ws: bytes, s: bytes)
    requires (host.sessions.Some? ==> WellFormed(host.sessions.value)) && id in Primary(j, host, project)
    requires NotOwn(j, host, project, ws, s)
    ensures !Touches(Primary(j, host, project)[id], [ws, s])
  {
    hide NotOwn, Primary, SourceOf, WellFormed;
    PrimarySound(j, host, project, id);
    var w :| Primary(j, host, project)[id] == [w, id] && !NotOwn(j, host, project, w, id);
    TouchesPair(w, id, ws, s);
  }

  lemma TouchesPair(a: bytes, b: bytes, c: bytes, d: bytes)
    ensures Touches([a, b], [c, d]) <==> a == c && b == d
  {
    if Touches([a, b], [c, d]) {
      assert [a, b] == [c, d] by { assert [a, b][..2] == [a, b] && [c, d][..2] == [c, d]; }
      assert a == [a, b][0] == c && b == [a, b][1] == d;
    }
  }

  /** id is attributed to the project by an index line alone, and that line lists p or something above or below it. */
  predicate Strays(j: Json, host: Host, project: bytes, id: bytes, p: Path) {
    var index := HostIndex(j, host.index, project);
    id in index && id !in Primary(j, host, project) && Listed(j, host, index[id]).Some? &&
    Touches(Listed(j, host, index[id]).value, p)
  }

  lemma AttributedTouches(j: Json, host: Host, project: bytes, ws: bytes, s: bytes)
    requires (host.sessions.Some? ==> WellFormed(host.sessions.value)) && NotOwn(j, host, project, ws, s)
    ensures var rels := Attributed(j, host, project);
            forall id :: id in rels && Touches(rels[id], [ws, s]) <==> Strays(j, host, project, id, [ws, s])
  {
    hide NotOwn, Primary, Listed, HostIndex, Touches, WellFormed;
    forall id | id in Primary(j, host, project)
      ensures !Touches(Primary(j, host, project)[id], [ws, s])
    {
      PrimaryApart(j, host, project, id, ws, s);
    }
  }

  lemma OnTheWayTouches(rel: Path, p: Path, q: Path)
    requires Sessions() + p <= q
    ensures OnTheWay(rel, q) ==> Touches(rel, p)
    ensures OnTheWay(rel, Sessions() + p) <==> Touches(rel, p)
  {
    var a, b := Sessions() + rel, Sessions() + p;
    assert a[1..] == rel && b[1..] == p;
    if a <= q && |a| <= |b| {
      assert a == q[..|a|] == b[..|a|];
    }
    if a <= q && |b| <= |a| {
      assert b == q[..|b|] == a[..|b|];
    }
    if rel <= p {
      assert a == b[..|a|];
    }
    if p <= rel {
      assert b == a[..|b|];
    }
  }

  /** The store after one clean seed of a fresh one. */
  ghost function FreshSeed(j: Json, host: Host, config: Option<Tree>, project: bytes, historyName: bytes)
    : (bool, Disk)
  {
    var plan := FullPlan(j, host, config, project, historyName);
    var r := Exec(plan, State(map[], |plan|), 0);
    (r.0, r.1.disk)
  }

  // What is known of the store at or below a directory that does not name the project.
  lemma NotOwnAt(j: Json, host: Host, config: Option<Tree>, project: bytes, historyName: bytes, ws: bytes, s: bytes,
                 q: Path)
    requires (host.sessions.Some? ==> WellFormed(host.sessions.value)) && (config.Some? ==> WellFormed(config.value))
    requires FreshSeed(j, host, config, project, historyName).0 && NotOwn(j, host, project, ws, s)
    requires Sessions() + [ws, s] <= q
    ensures var after := FreshSeed(j, host, config, project, historyName).1;
            Get(after, q).Some? <==>
            HostHas(host, q).Some? &&
            exists id :: Strays(j, host, project, id, [ws, s]) && OnTheWay(Attributed(j, host, project)[id], q)
  {
    hide Exec, FullPlan, WellFormed, HostHas, OnTheWay, Attributed, NotOwn, Touches, Sorted, Sessions, Strays, Get;
    var rels := Attributed(j, host, project);
    SessionsBelow(ws, s, q);
    FreshSeedExact(j, host, config, project, historyName, q);
    AttributedTouches(j, host, project, ws, s);
    forall id | id in rels && OnTheWay(rels[id], q)
      ensures Strays(j, host, project, id, [ws, s])
    {
      OnTheWayTouches(rels[id], [ws, s], q);
    }
    forall id | Strays(j, host, project, id, [ws, s])
      ensures id in rels && id in Sorted(rels.Keys)
    {
    }
    PlainSome(FreshSeed(j, host, config, project, historyName).1, q);
  }

  lemma SessionsBelow(ws: bytes, s: bytes, q: Path)
    requires Sessions() + [ws, s] <= q
    ensures Sessions() < q
  {
  }

  lemma PlainSome(d: Disk, q: Path)
    ensures Plain(Get(d, q)).Some? <==> Get(d, q).Some?
    ensures forall n :: Plain(n).Some? <==> n.Some?
  {
  }

  /**
   * A fresh store has a session directory that does not name the project exactly when an index line strays
   * there; when none does, it has nothing in that directory either.
   */
  lemma NotOwnHeldIff(j: Json, host: Host, config: Option<Tree>, project: bytes, historyName: bytes, ws: bytes,
                      s: bytes)
    requires (host.sessions.Some? ==> WellFormed(host.sessions.value)) && (config.Some? ==> WellFormed(config.value))
    requires FreshSeed(j, host, config, project, historyName).0 && NotOwn(j, host, project, ws, s)
    ensures var after := FreshSeed(j, host, config, project, historyName).1;
            (Sessions() + [ws, s] in after <==> exists id :: Strays(j, host, project, id, [ws, s])) &&
            ((forall id :: !Strays(j, host, project, id, [ws, s])) ==>
             forall q | Sessions() + [ws, s] <= q :: q !in after)
  {
    hide FreshSeed, WellFormed, Sessions, Strays, NotOwn, Attributed, OnTheWay, HostHas, Touches;
    var dir := Sessions() + [ws, s];
    NotOwnAt(j, host, config, project, historyName, ws, s, dir);
    DirectoryThere(j, host, project, ws, s);
    forall id | Strays(j, host, project, id, [ws, s])
      ensures id in Attributed(j, host, project) && OnTheWay(Attributed(j, host, project)[id], dir)
    {
      StrayAttributed(j, host, project, id, [ws, s]);
      OnTheWayTouches(Attributed(j, host, project)[id], [ws, s], dir);
    }
    forall q | Sessions() + [ws, s] <= q && q in FreshSeed(j, host, config, project, historyName).1
      ensures exists id :: Strays(j, host, project, id, [ws, s])
    {
      NotOwnAt(j, host, config, project, historyName, ws, s, q);
    }
  }

  lemma DirectoryThere(j: Json, host: Host, project: bytes, ws: bytes, s: bytes)
    requires NotOwn(j, host, project, ws, s)
    ensures HostHas(host, Sessions() + [ws, s]).Some?
  {
    assert (Sessions() + [ws, s])[1..] == [ws, s];
  }

  lemma StrayAttributed(j: Json, host: Host, project: bytes, id: bytes, p: Path)
    requires Strays(j, host, project, id, p)
    ensures var rels := Attributed(j, host, project);
            id in rels && rels[id] == Listed(j, host, HostIndex(j, host.index, project)[id]).value &&
            Touches(rels[id], p)
  {
    hide Listed, HostIndex, Primary, Touches;
  }

  /**
   * Nothing of a session that names another project is in a fresh store exactly when no index line of the
   * project, for an id that no state.json attributes to it, lists such a session's directory or anything
   * above or below it.
   */
  lemma OthersInvisibleIff(j: Json, host: Host, config: Option<Tree>, project: bytes, historyName: bytes)
    requires (host.sessions.Some? ==> WellFormed(host.sessions.value)) && (config.Some? ==> WellFormed(config.value))
    requires FreshSeed(j, host, config, project, historyName).0
    ensures var after := FreshSeed(j, host, config, project, historyName).1;
            (forall ws, s, q | Foreign(j, host, project, ws, s) && Sessions() + [ws, s] <= q :: q !in after) <==>
            (forall ws, s, id | Foreign(j, host, project, ws, s) :: !Strays(j, host, project, id, [ws, s]))
  {
    hide FreshSeed, WellFormed, Sessions, Strays, NotOwn, StateProject, SourceOf;
    forall ws, s | Foreign(j, host, project, ws, s)
      ensures var after := FreshSeed(j, host, config, project, historyName).1;
              (Sessions() + [ws, s] in after <==> exists id :: Strays(j, host, project, id, [ws, s])) &&
              ((forall id :: !Strays(j, host, project, id, [ws, s])) ==>
               forall q | Sessions() + [ws, s] <= q :: q !in after)
    {
      NotOwnHeldIff(j, host, config, project, historyName, ws, s);
    }
  }

  /** A fresh store has the state.json of another project's session exactly when a line lists that session or above. */
  lemma ForeignStateHeldIff(j: Json, host: Host, config: Option<Tree>, project: bytes, historyName: bytes, ws: bytes,
                            s: bytes)
    requires (host.sessions.Some? ==> WellFormed(host.sessions.value)) && (config.Some? ==> WellFormed(config.value))
    requires FreshSeed(j, host, config, project, historyName).0 && Foreign(j, host, project, ws, s)
    ensures Sessions() + [ws, s, Ascii(STATE_FILE)] in FreshSeed(j, host, config, project, historyName).1 <==>
            exists id :: Strays(j, host, project, id, [ws, s]) && Attributed(j, host, project)[id] <= [ws, s]
  {
    hide FreshSeed, WellFormed, Sessions, Strays, NotOwn, Attributed, OnTheWay, HostHas, Touches, StateProject,
      SourceOf;
    var q := Sessions() + [ws, s, Ascii(STATE_FILE)];
    assert Sessions() + [ws, s] <= q;
    NotOwnAt(j, host, config, project, historyName, ws, s, q);
    StateThere(j, host, project, ws, s);
    forall id | Strays(j, host, project, id, [ws, s])
      ensures id in Attributed(j, host, project)
      ensures OnTheWay(Attributed(j, host, project)[id], q) <==> Attributed(j, host, project)[id] <= [ws, s]
    {
      StrayAttributed(j, host, project, id, [ws, s]);
      StateOnTheWay(j, host, project, id, ws, s);
    }
  }

  lemma StateThere(j: Json, host: Host, project: bytes, ws: bytes, s: bytes)
    requires Foreign(j, host, project, ws, s)
    ensures SourceOf(host, [ws, s, Ascii(STATE_FILE)]).Some? &&
            SourceOf(host, [ws, s, Ascii(STATE_FILE)]).value.Regular?
    ensures HostHas(host, Sessions() + [ws, s, Ascii(STATE_FILE)]).Some?
  {
    hide Find;
    var q := Sessions() + [ws, s, Ascii(STATE_FILE)];
    assert q[1..] == [ws, s, Ascii(STATE_FILE)] == [ws, s] + [Ascii(STATE_FILE)];
    FindConcat(host.sessions.value, [ws, s], [Ascii(STATE_FILE)]);
  }

  // A line that lists a directory on the way to state.json lists the session's or one above.
  lemma StateOnTheWay(j: Json, host: Host, project: bytes, id: bytes, ws: bytes, s: bytes)
    requires Foreign(j, host, project, ws, s) && Strays(j, host, project, id, [ws, s])
    ensures id in Attributed(j, host, project)
    ensures OnTheWay(Attributed(j, host, project)[id], Sessions() + [ws, s, Ascii(STATE_FILE)]) <==>
            Attributed(j, host, project)[id] <= [ws, s]
  {
    hide Foreign, StateProject, HostIndex, Primary, Find, Sessions, Attributed, Both;
    StrayAttributed(j, host, project, id, [ws, s]);
    var rel := Attributed(j, host, project)[id];
    StateThere(j, host, project, ws, s);
    assert SourceOf(host, rel).Some? && SourceOf(host, rel).value.Folder?;
    StatePrefix(host, rel, ws, s);
  }

  lemma StatePrefix(host: Host, rel: Path, ws: bytes, s: bytes)
    requires SourceOf(host, rel).Some? && SourceOf(host, rel).value.Folder?
    requires SourceOf(host, [ws, s, Ascii(STATE_FILE)]).Some? &&
             SourceOf(host, [ws, s, Ascii(STATE_FILE)]).value.Regular?
    ensures OnTheWay(rel, Sessions() + [ws, s, Ascii(STATE_FILE)]) <==> rel <= [ws, s]
  {
    hide Find;
    var p := [ws, s, Ascii(STATE_FILE)];
    var a, b := Sessions() + rel, Sessions() + p;
    assert a[1..] == rel && b[1..] == p && p[..2] == [ws, s];
    if rel <= [ws, s] {
      assert a == b[..|a|];
    }
    if p <= rel && p != rel {
      FindPrefix(host.sessions.value, rel, p);
    }
    if rel <= p && rel != p {
      assert rel == p[..|rel|] == [ws, s][..|rel|];
    }
  }

  /** id's line, for an id that no state.json attributes, names sessions/ itself, in whatever spelling. */
  predicate NamesRoot(j: Json, host: Host, project: bytes, id: bytes) {
    var index := HostIndex(j, host.index, project);
    id in index && id !in Primary(j, host, project) && j.entry(index[id]).Some? &&
    Paths.IsAbs(j.entry(index[id]).value.sessionDir) && Paths.Parts(j.entry(index[id]).value.sessionDir) == host.dir
  }

  lemma RootLineStrays(j: Json, host: Host, project: bytes, id: bytes)
    requires host.sessions.Some? && host.sessions.value.Folder? && NamesRoot(j, host, project, id)
    ensures Strays(j, host, project, id, []) && id in Attributed(j, host, project) &&
            Attributed(j, host, project)[id] == []
  {
    hide HostIndex, Primary, RelOf, Paths.Parts, Paths.IsAbs;
    var index := HostIndex(j, host.index, project);
    RelOfExact(host, j.entry(index[id]).value.sessionDir);
    FindHere(host.sessions.value);
    assert host.dir[|host.dir|..] == [];
  }

  /** Such a line brings in every session of every project. */
  lemma RootLineCopiesAll(j: Json, host: Host, config: Option<Tree>, project: bytes, historyName: bytes, id: bytes,
                          q: Path)
    requires (host.sessions.Some? ==> WellFormed(host.sessions.value)) && (config.Some? ==> WellFormed(config.value))
    requires FreshSeed(j, host, config, project, historyName).0 && Sessions() < q
    requires host.sessions.Some? && host.sessions.value.Folder? && NamesRoot(j, host, project, id)
    ensures Plain(Get(FreshSeed(j, host, config, project, historyName).1, q)) == Plain(HostHas(host, q))
  {
    hide Exec, FullPlan, WellFormed, HostHas, Attributed, Sorted, Sessions, Strays, Get, NamesRoot;
    FreshSeedExact(j, host, config, project, historyName, q);
    RootLineStrays(j, host, project, id);
    assert id in Sorted(Attributed(j, host, project).Keys);
    assert Sessions() + [] == Sessions();
  }
}
