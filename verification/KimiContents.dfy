/** What a fresh store holds beside its sessions, name by name. */
module KimiContents {
  import opened Bytes
  import opened Options
  import opened ByteOrder
  import opened Disk
  import opened TreeCopy
  import opened KimiStore
  import opened KimiSeed
  import opened KimiIsolation

  // ----- What each operation of a seed puts at a path -----

  lemma ConfigAt(config: Tree, q: Path)
    requires WellFormed(config) && Abort !in CopyPlan(config, [], [], KimiSkipCopy()) && q != []
    ensures Get(Overlay(CopyPlan(config, [], [], KimiSkipCopy())), q) ==
            if [q[0]] in KimiSkipCopy() then None else Image(Find(config, q))
  {
    hide Overlay, CopyPlan, WellFormed, Find, KimiSkipCopy, Image;
    CopyOverlay(config, [], [], KimiSkipCopy(), q);
    assert q[0..] == q;
    KeptIff(q);
  }

  lemma KeptIff(q: Path)
    requires q != []
    ensures Kept([], q, KimiSkipCopy()) <==> [q[0]] !in KimiSkipCopy()
  {
    assert [] + q[..1] == [q[0]];
    forall k | 1 <= k <= |q| && [] + q[..k] in KimiSkipCopy()
      ensures k == 1
    {
      OneName([] + q[..k]);
    }
  }

  lemma OneName(p: Path)
    requires p in KimiSkipCopy()
    ensures |p| == 1
  {
    hide Ascii;
  }

  lemma MkdirAt(name: bytes, q: Path)
    requires q != []
    ensures Get(Overlay([Mkdir([name], true)]), q) == if q == [name] then Some(Dir(true)) else None
  {
    MkdirOverlay([name], true, q);
    if q <= [name] {
      assert |q| == 1 && q[0] == name;
    }
  }

  lemma {:induction false} SessionsAt(host: Host, rels: map<bytes, Path>, ids: seq<bytes>, q: Path)
    requires (forall id | id in ids :: id in rels) && (host.sessions.Some? ==> WellFormed(host.sessions.value))
    requires Abort !in SessionsPlan(host, rels, ids) && q != [] && q[0] != Ascii("sessions")
    ensures Get(Overlay(SessionsPlan(host, rels, ids)), q) == None
    decreases |ids|
  {
    hide Overlay, CopyPlan, Want, WellFormed, Find;
    NothingOverlaid(q);
    if ids != [] {
      assert ids == [ids[0]] + ids[1..];
      GetConcat(SessionPlan(host, rels[ids[0]]), SessionsPlan(host, rels, ids[1..]), q);
      SessionsAt(host, rels, ids[1..], q);
      SessionAt(host, rels[ids[0]], q);
    }
  }

  lemma SessionAt(host: Host, rel: Path, q: Path)
    requires (host.sessions.Some? ==> WellFormed(host.sessions.value)) && Abort !in SessionPlan(host, rel)
    requires q != [] && q[0] != Ascii("sessions")
    ensures Get(Overlay(SessionPlan(host, rel)), q) == None
  {
    hide Overlay, EntriesPlan, WellFormed, Find, Ascii;
    assert Abort in [Abort];
    var src := SourceOf(host, rel);
    FindWellFormed(host.sessions.value, rel);
    assert Sessions() + rel + [] == Sessions() + rel;
    CopyOverlay(src.value, Sessions() + rel, [], {}, q);
    assert (Sessions() + rel)[0] == Ascii("sessions");
  }

  lemma HistoryAt(host: Host, historyName: bytes, q: Path)
    requires Abort !in HistoryPlan(host, historyName)
    ensures Get(Overlay(HistoryPlan(host, historyName)), q) ==
            if host.history.Some? && q == [Ascii("user-history"), historyName]
            then Some(File(host.history.value.content, host.history.value.writable)) else None
  {
    hide Ascii, Overlay;
    NothingOverlaid(q);
    if host.history.Some? {
      assert Abort in [Abort];
      assert UserHistory() + [historyName] == [Ascii("user-history"), historyName];
      WriteOverlay(UserHistory() + [historyName], host.history.value.content, host.history.value.writable, q);
    }
  }

  lemma WorkspacesAt(j: Json, host: Host, project: bytes, q: Path)
    ensures Get(Overlay(WorkspacesPlan(j, host, project)), q) ==
            if host.workspaces.Some? && j.workspaces(host.workspaces.value).Some? &&
               q == [Ascii("workspaces.json")] then
              var top := j.workspaces(host.workspaces.value).value;
              Some(File(j.encodeWorkspaces(Workspaces(top.version, Filtered(j, project, top.byId))), true))
            else None
  {
    hide Ascii, Overlay, Filtered;
    NothingOverlaid(q);
    if host.workspaces.Some? && j.workspaces(host.workspaces.value).Some? {
      var top := j.workspaces(host.workspaces.value).value;
      WriteOverlay(WorkspacesFile(), j.encodeWorkspaces(Workspaces(top.version, Filtered(j, project, top.byId))), true,
                   q);
    }
  }

  // ----- All of them together -----

  lemma NoAborts(j: Json, host: Host, config: Option<Tree>, project: bytes, historyName: bytes)
    requires FreshSeed(j, host, config, project, historyName).0
    ensures config.Some? && Abort !in CopyPlan(config.value, [], [], KimiSkipCopy())
    ensures var rels := Attributed(j, host, project); Abort !in SessionsPlan(host, rels, Sorted(rels.Keys))
    ensures Abort !in HistoryPlan(host, historyName)
  {
    hide Exec, CopyPlan, SessionsPlan, HistoryPlan, WorkspacesPlan, Attributed, Sorted, KimiSkipCopy, ScopedIndex,
      Marker, Sessions, IndexFile, UserHistory;
    var plan := FullPlan(j, host, config, project, historyName);
    NoAbort(plan, State(map[], |plan|), 0);
    var seed := SeedPlan(j, host, project, historyName);
    assert forall op | op in seed || op in PlanOf(config, [], KimiSkipCopy()) :: op in plan;
    assert Abort in [Abort];
  }

  /** What the seed of the sessions, the index, the prompt history and the workspaces puts at q. */
  lemma SeedAt(j: Json, host: Host, project: bytes, historyName: bytes, q: Path)
    ensures var rels := Attributed(j, host, project);
            Get(Overlay(SeedPlan(j, host, project, historyName)), q) ==
            Put(Get(Overlay(SessionsPlan(host, rels, Sorted(rels.Keys))), q),
                Put(Get(Overlay([Mkdir([Ascii("sessions")], true)]), q),
                    Put(Get(Overlay([Write([Ascii("session_index.jsonl")], ScopedIndex(j, host, project), true)]), q),
                        Put(Get(Overlay([Mkdir([Ascii("user-history")], true)]), q),
                            Put(Get(Overlay(HistoryPlan(host, historyName)), q),
                                Get(Overlay(WorkspacesPlan(j, host, project)), q))))))
  {
    hide Overlay, SessionsPlan, HistoryPlan, WorkspacesPlan, Attributed, Sorted, ScopedIndex, Get, Put, Ascii;
    var rels := Attributed(j, host, project);
    var history, spaces := HistoryPlan(host, historyName), WorkspacesPlan(j, host, project);
    var p4 := [Mkdir(UserHistory(), true)] + (history + spaces);
    var p3 := [Write(IndexFile(), ScopedIndex(j, host, project), true)] + p4;
    var p2 := [Mkdir(Sessions(), true)] + p3;
    GetConcat(SessionsPlan(host, rels, Sorted(rels.Keys)), p2, q);
    GetConcat([Mkdir(Sessions(), true)], p3, q);
    GetConcat([Write(IndexFile(), ScopedIndex(j, host, project), true)], p4, q);
    GetConcat([Mkdir(UserHistory(), true)], history + spaces, q);
    GetConcat(history, spaces, q);
  }

  lemma StoreAt(j: Json, host: Host, config: Option<Tree>, project: bytes, historyName: bytes, q: Path)
    requires FreshSeed(j, host, config, project, historyName).0
    ensures Get(FreshSeed(j, host, config, project, historyName).1, q) ==
            Put(Put(Get(Overlay(PlanOf(config, [], KimiSkipCopy())), q),
                    Put(Get(Overlay([Mkdir([Ascii("credentials")], true)]), q),
                        Put(Get(Overlay([Mkdir([Ascii("oauth")], true)]), q),
                            Get(Overlay(SeedPlan(j, host, project, historyName)), q)))),
                Get(Overlay([Write([Ascii(".seeded")], [], true)]), q))
  {
    hide Overlay, Exec, SeedPlan, PlanOf, KimiSkipCopy, Get, Put, Ascii;
    var plan := FullPlan(j, host, config, project, historyName);
    var seed := SeedPlan(j, host, project, historyName);
    var oauth := [Mkdir([Ascii("oauth")], true)] + seed;
    ExecOverlay(plan, State(map[], |plan|), 0);
    GetFresh(Overlay(plan), q);
    GetConcat(Contents(j, host, config, project, historyName), [Write(Marker(), [], true)], q);
    GetConcat(PlanOf(config, [], KimiSkipCopy()), [Mkdir([Ascii("credentials")], true)] + oauth, q);
    GetConcat([Mkdir([Ascii("credentials")], true)], oauth, q);
    GetConcat([Mkdir([Ascii("oauth")], true)], seed, q);
  }

  /** The names that the copy of the configuration leaves out. */
  predicate LeftOut(name: bytes) {
    name == Ascii("sessions") || name == Ascii("session_index.jsonl") || name == Ascii("user-history") ||
    name == Ascii("workspaces.json") || name == Ascii("credentials") || name == Ascii("oauth") ||
    name == Ascii("logs") || name == Ascii("telemetry") || name == Ascii("bin") || name == Ascii("updates")
  }

  lemma LeftOutIff(name: bytes)
    ensures LeftOut(name) <==> [name] in KimiSkipCopy()
    ensures LeftOut(name) ==> name != Ascii(".seeded")
  {
    assert Ascii(".seeded")[0] == 46 && Ascii("updates")[0] == 117;
    hide Ascii;
    OneByOne(name);
  }

  lemma OneByOne(name: bytes)
    ensures forall other: bytes :: [name] == [other] <==> name == other
  {
    assert forall other: bytes :: [name] == [other] ==> [name][0] == [other][0];
  }

  lemma WriteAt(name: bytes, content: bytes, q: Path)
    ensures Get(Overlay([Write([name], content, true)]), q) == if q == [name] then Some(File(content, true)) else None
  {
    WriteOverlay([name], content, true, q);
  }

  /** What the configuration and the rest of the seed put at a path that is not below sessions/. */
  lemma StorePieces(j: Json, host: Host, config: Option<Tree>, project: bytes, historyName: bytes, q: Path)
    requires (host.sessions.Some? ==> WellFormed(host.sessions.value)) && (config.Some? ==> WellFormed(config.value))
    requires FreshSeed(j, host, config, project, historyName).0 && q != [] && q[0] != Ascii("sessions")
    ensures config.Some?
    ensures var copied := if LeftOut(q[0]) then None else Image(Find(config.value, q));
            var cred := if q == [Ascii("credentials")] then Some(Dir(true)) else None;
            var oauth := if q == [Ascii("oauth")] then Some(Dir(true)) else None;
            var index := if q == [Ascii("session_index.jsonl")]
                         then Some(File(ScopedIndex(j, host, project), true)) else None;
            var history := if q == [Ascii("user-history")] then Some(Dir(true)) else None;
            var marker := if q == [Ascii(".seeded")] then Some(File([], true)) else None;
            Get(FreshSeed(j, host, config, project, historyName).1, q) ==
            Put(Put(copied, Put(cred, Put(oauth, Put(index,
                Put(history, Put(Get(Overlay(HistoryPlan(host, historyName)), q),
                                 Get(Overlay(WorkspacesPlan(j, host, project)), q))))))), marker)
  {
    hide FreshSeed, Overlay, SessionsPlan, HistoryPlan, WorkspacesPlan, Attributed, Sorted, ScopedIndex, KimiSkipCopy,
      Get, Ascii, WellFormed, Find, Image, CopyPlan, SeedPlan, LeftOut;
    var rels := Attributed(j, host, project);
    NoAborts(j, host, config, project, historyName);
    StoreAt(j, host, config, project, historyName, q);
    SeedAt(j, host, project, historyName, q);
    ConfigAt(config.value, q);
    LeftOutIff(q[0]);
    MkdirAt(Ascii("credentials"), q);
    MkdirAt(Ascii("oauth"), q);
    MkdirAt(Ascii("sessions"), q);
    MkdirAt(Ascii("user-history"), q);
    SessionsAt(host, rels, Sorted(rels.Keys), q);
    WriteAt(Ascii("session_index.jsonl"), ScopedIndex(j, host, project), q);
    WriteAt(Ascii(".seeded"), [], q);
  }

  /** The scoped workspaces.json: of the host's entries those whose root is the project, under the host's version. */
  ghost predicate ScopedWorkspaces(j: Json, project: bytes, top: Workspaces, content: bytes) {
    exists m: map<bytes, bytes> ::
      content == j.encodeWorkspaces(Workspaces(top.version, m)) &&
      forall id :: (id in m <==> id in top.byId && j.root(top.byId[id]) == Some(project)) &&
                   (id in m ==> m[id] == top.byId[id])
  }

  lemma FilteredScoped(j: Json, project: bytes, top: Workspaces)
    ensures ScopedWorkspaces(j, project, top,
                             j.encodeWorkspaces(Workspaces(top.version, Filtered(j, project, top.byId))))
  {
    var m := Filtered(j, project, top.byId);
    assert forall id :: (id in m <==> id in top.byId && j.root(top.byId[id]) == Some(project)) &&
                        (id in m ==> m[id] == top.byId[id]);
  }

  /**
   * What a fresh store holds beside what is under sessions/: of the configuration everything but ten names, two
   * empty directories for the credentials, the scoped index, the project's own prompt history and workspaces, the
   * marker, and nothing of the host's logs, telemetry, binaries and updates.
   */
  lemma FreshStoreExact(j: Json, host: Host, config: Option<Tree>, project: bytes, historyName: bytes, q: Path)
    requires (host.sessions.Some? ==> WellFormed(host.sessions.value)) && (config.Some? ==> WellFormed(config.value))
    requires FreshSeed(j, host, config, project, historyName).0 && q != [] && q[0] != Ascii("sessions")
    ensures config.Some?
    ensures var node, name := Get(FreshSeed(j, host, config, project, historyName).1, q), q[0];
            if name == Ascii("credentials") || name == Ascii("oauth") then
              node == if |q| == 1 then Some(Dir(true)) else None
            else if name == Ascii("logs") || name == Ascii("telemetry") || name == Ascii("bin") ||
                    name == Ascii("updates") then
              node == None
            else if name == Ascii("session_index.jsonl") then
              node == if |q| == 1 then Some(File(ScopedIndex(j, host, project), true)) else None
            else if name == Ascii("user-history") then
              node == if |q| == 1 then Some(Dir(true))
                      else if host.history.Some? && q == [name, historyName]
                      then Some(File(host.history.value.content, host.history.value.writable)) else None
            else if name == Ascii("workspaces.json") then
              if |q| == 1 && host.workspaces.Some? && j.workspaces(host.workspaces.value).Some? then
                node.Some? && node.value.File? && node.value.writable &&
                ScopedWorkspaces(j, project, j.workspaces(host.workspaces.value).value, node.value.content)
              else node == None
            else if q == [Ascii(".seeded")] then node.Some? && node.value.File? && node.value.content == []
            else node == Image(Find(config.value, q))
  {
    hide FreshSeed, Overlay, HistoryPlan, WorkspacesPlan, ScopedIndex, Get, Ascii, WellFormed, Find, Image, Filtered,
      ScopedWorkspaces, Put;
    PutNone();
    StorePieces(j, host, config, project, historyName, q);
    NoAborts(j, host, config, project, historyName);
    HistoryAt(host, historyName, q);
    WorkspacesAt(j, host, project, q);
    LeftOutIff(q[0]);
    if host.workspaces.Some? && j.workspaces(host.workspaces.value).Some? {
      FilteredScoped(j, project, j.workspaces(host.workspaces.value).value);
    }
    LoneName(q);
    NamesApart();
  }

  lemma PutNone()
    ensures forall n :: Put(None, n) == n && Put(n, None) == n
    ensures forall n, c :: Put(n, Some(File(c, true))).Some? && Put(n, Some(File(c, true))).value.File? &&
                           Put(n, Some(File(c, true))).value.content == c
  {
  }

  lemma LoneName(q: Path)
    requires q != []
    ensures |q| == 1 <==> q == [q[0]]
    ensures forall name: bytes :: q == [name] <==> |q| == 1 && q[0] == name
  {
    assert |q| == 1 ==> q == [q[0]];
  }

  lemma NamesApart()
    ensures Ascii("credentials") != Ascii("oauth") && Ascii("credentials") != Ascii("user-history")
  {
  }
}
