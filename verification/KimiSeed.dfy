/** Seeding the Kimi store once, and what any run of host changes, sandbox edits and launches does to it. */
module KimiSeed {
  import opened Bytes
  import opened Options
  import opened Lines
  import opened ByteOrder
  import opened Disk
  import opened TreeCopy
  import opened KimiStore

  function Marker(): Path { [Ascii(".seeded")] }
  function Sessions(): Path { [Ascii("sessions")] }
  function IndexFile(): Path { [Ascii("session_index.jsonl")] }
  function UserHistory(): Path { [Ascii("user-history")] }
  function WorkspacesFile(): Path { [Ascii("workspaces.json")] }

  /** What of ~/.kimi-code is not copied. */
  function KimiSkipCopy(): set<Path> {
    {[Ascii("sessions")], [Ascii("session_index.jsonl")], [Ascii("user-history")], [Ascii("workspaces.json")],
     [Ascii("credentials")], [Ascii("oauth")], [Ascii("logs")], [Ascii("telemetry")], [Ascii("bin")],
     [Ascii("updates")]}
  }

  // ----- The operations of a seed -----

  function SourceOf(host: Host, rel: Path): Option<Tree> {
    var t :- host.sessions;
    Find(t, rel)
  }

  function SessionPlan(host: Host, rel: Path): seq<Op> {
    PlanOf(SourceOf(host, rel), Sessions() + rel, {})
  }

  function SessionsPlan(host: Host, rels: map<bytes, Path>, ids: seq<bytes>): seq<Op>
    requires forall id | id in ids :: id in rels
    decreases |ids|
  {
    if ids == [] then [] else SessionPlan(host, rels[ids[0]]) + SessionsPlan(host, rels, ids[1..])
  }

  function HistoryPlan(host: Host, historyName: bytes): seq<Op> {
    match host.history
    case None => []
    case Some(h) => FilePlan(h.content, h.readable, h.writable, UserHistory() + [historyName])
  }

  /** The workspaces whose root is the project. */
  function Filtered(j: Json, project: bytes, byId: map<bytes, bytes>): map<bytes, bytes> {
    map id | id in byId && j.root(byId[id]) == Some(project) :: byId[id]
  }

  function WorkspacesPlan(j: Json, host: Host, project: bytes): seq<Op> {
    if host.workspaces.None? || j.workspaces(host.workspaces.value).None? then []
    else
      var top := j.workspaces(host.workspaces.value).value;
      [Write(WorkspacesFile(), j.encodeWorkspaces(Workspaces(top.version, Filtered(j, project, top.byId))), true)]
  }

  ghost function SeedPlan(j: Json, host: Host, project: bytes, historyName: bytes): seq<Op> {
    var rels := Attributed(j, host, project);
    SessionsPlan(host, rels, Sorted(rels.Keys)) +
    ([Mkdir(Sessions(), true)] +
     ([Write(IndexFile(), ScopedIndex(j, host, project), true)] +
      ([Mkdir(UserHistory(), true)] +
       (HistoryPlan(host, historyName) + WorkspacesPlan(j, host, project)))))
  }

  /** All of a seed but the marker, which comes last. */
  ghost function Contents(j: Json, host: Host, config: Option<Tree>, project: bytes, historyName: bytes): seq<Op> {
    PlanOf(config, [], KimiSkipCopy()) +
    ([Mkdir([Ascii("credentials")], true)] +
     ([Mkdir([Ascii("oauth")], true)] +
      SeedPlan(j, host, project, historyName)))
  }

  ghost function FullPlan(j: Json, host: Host, config: Option<Tree>, project: bytes, historyName: bytes): seq<Op> {
    Contents(j, host, config, project, historyName) + [Write(Marker(), [], true)]
  }

  /** What preparing the store does: nothing when the marker is there, else a whole seed. */
  ghost function Prepared(j: Json, host: Host, config: Option<Tree>, project: bytes, historyName: bytes, s: State,
                          cut: nat): (bool, State) {
    if Marker() in s.disk then (true, s) else Exec(FullPlan(j, host, config, project, historyName), s, cut)
  }

  // ----- The methods -----

  // A range over the workspaces takes them in any order; the result is the same for all of them.
  method FilterWorkspaces(j: Json, project: bytes, byId: map<bytes, bytes>) returns (filtered: map<bytes, bytes>)
    ensures filtered == Filtered(j, project, byId)
  {
    filtered := map[];
    var todo := byId.Keys;
    while todo != {}
      invariant todo <= byId.Keys
      invariant filtered == map id | id in byId && id !in todo && j.root(byId[id]) == Some(project) :: byId[id]
      decreases |todo|
    {
      var id :| id in todo;
      todo := todo - {id};
      if j.root(byId[id]) == Some(project) {
        filtered := filtered[id := byId[id]];
      }
    }
  }

  method SeedKimiWorkspaces(j: Json, host: Host, project: bytes, vol: Volume) returns (ok: bool)
    modifies vol
    ensures (ok, vol.Now()) == Exec(WorkspacesPlan(j, host, project), old(vol.Now()), vol.cut)
  {
    hide Step, Filtered;
    if host.workspaces.None? {
      return true;
    }
    var top := j.workspaces(host.workspaces.value);
    if top.None? {
      return true;
    }
    var filtered := FilterWorkspaces(j, project, top.value.byId);
    var op := Write(WorkspacesFile(), j.encodeWorkspaces(Workspaces(top.value.version, filtered)), true);
    ExecOne(op, vol.Now(), vol.cut);
    ok := vol.Do(op);
  }

  // Copies the matched sessions in the order of their ids and writes a line of the scoped index for each.
  method CopySessions(j: Json, host: Host, project: bytes, index: map<bytes, bytes>, rels: map<bytes, Path>,
                      ids: seq<bytes>, vol: Volume)
    returns (ok: bool, scoped: bytes)
    requires forall id | id in ids :: id in rels
    modifies vol
    ensures (ok, vol.Now()) == Exec(SessionsPlan(host, rels, ids), old(vol.Now()), vol.cut)
    ensures ok ==> scoped == Unlines(IndexLines(j, host, project, index, rels, ids))
  {
    hide Step, Exec, PlanOf, SourceOf, IndexLine, Unlines, Sessions;
    scoped := [];
    ghost var s := vol.Now();
    assert ids[0..] == ids;
    NoLines(j, host, project, index, rels);
    for i := 0 to |ids|
      invariant Exec(SessionsPlan(host, rels, ids), s, vol.cut) ==
                Exec(SessionsPlan(host, rels, ids[i..]), vol.Now(), vol.cut)
      invariant scoped == Unlines(IndexLines(j, host, project, index, rels, ids[..i]))
    {
      var id := ids[i];
      assert id in ids;
      SessionStep(host, rels, ids, i, vol.Now(), vol.cut);
      LineStep(j, host, project, index, rels, ids, i);
      var rel := rels[id];
      ok := CopyDir(SourceOf(host, rel), Sessions() + rel, vol);
      if !ok {
        return;
      }
      var line := IndexLine(j, host, project, index, rels, id);
      scoped := scoped + (line + [LF]);
    }
    NoSessions(host, rels, ids, vol.Now(), vol.cut);
    assert ids[..|ids|] == ids;
    ok := true;
  }

  lemma NoLines(j: Json, host: Host, project: bytes, index: map<bytes, bytes>, rels: map<bytes, Path>)
    ensures Unlines(IndexLines(j, host, project, index, rels, [])) == []
  {
  }

  lemma LineStep(j: Json, host: Host, project: bytes, index: map<bytes, bytes>, rels: map<bytes, Path>, ids: seq<bytes>,
                 i: nat)
    requires i < |ids| && forall id | id in ids :: id in rels
    ensures Unlines(IndexLines(j, host, project, index, rels, ids[..i + 1])) ==
            Unlines(IndexLines(j, host, project, index, rels, ids[..i])) +
              (IndexLine(j, host, project, index, rels, ids[i]) + [LF])
  {
    hide IndexLine, Unlines;
    assert ids[..i + 1][..i] == ids[..i];
    UnlinesAppend(IndexLines(j, host, project, index, rels, ids[..i]),
                  IndexLine(j, host, project, index, rels, ids[i]));
  }

  lemma SessionStep(host: Host, rels: map<bytes, Path>, ids: seq<bytes>, i: nat, s: State, cut: nat)
    requires i < |ids| && forall id | id in ids :: id in rels
    ensures var r := Exec(SessionPlan(host, rels[ids[i]]), s, cut);
            Exec(SessionsPlan(host, rels, ids[i..]), s, cut) ==
            if r.0 then Exec(SessionsPlan(host, rels, ids[i + 1..]), r.1, cut) else r
  {
    hide SessionPlan, Exec;
    assert ids[i..][1..] == ids[i + 1..];
    ExecConcat(SessionPlan(host, rels[ids[i]]), SessionsPlan(host, rels, ids[i + 1..]), s, cut);
  }

  lemma NoSessions(host: Host, rels: map<bytes, Path>, ids: seq<bytes>, s: State, cut: nat)
    requires forall id | id in ids :: id in rels
    ensures Exec(SessionsPlan(host, rels, ids[|ids|..]), s, cut) == (true, s)
  {
  }

  method WriteHistory(host: Host, historyName: bytes, vol: Volume) returns (ok: bool)
    modifies vol
    ensures (ok, vol.Now()) == Exec(HistoryPlan(host, historyName), old(vol.Now()), vol.cut)
  {
    if host.history.None? {
      return true;
    }
    var h := host.history.value;
    ok := CopyFile(h.content, h.readable, h.writable, UserHistory() + [historyName], vol);
  }

  method SeedKimiStore(j: Json, host: Host, project: bytes, historyName: bytes, vol: Volume) returns (ok: bool)
    modifies vol
    ensures (ok, vol.Now()) == Exec(SeedPlan(j, host, project, historyName), old(vol.Now()), vol.cut)
  {
    hide Step, Exec, SessionsPlan, HistoryPlan, WorkspacesPlan, Attributed, IndexLines, Sorted, Unlines;
    hide Sessions, IndexFile, UserHistory;
    var index := KimiHostIndex(j, host.index, project);
    var rels := AttributeSessions(j, host, project, index);
    var ids := SortKeys(rels.Keys);
    ghost var p5 := HistoryPlan(host, historyName) + WorkspacesPlan(j, host, project);
    ghost var p4 := [Mkdir(UserHistory(), true)] + p5;
    ghost var p3 := [Write(IndexFile(), ScopedIndex(j, host, project), true)] + p4;
    ghost var p2 := [Mkdir(Sessions(), true)] + p3;
    ExecConcat(SessionsPlan(host, rels, ids), p2, vol.Now(), vol.cut);
    var scoped;
    ok, scoped := CopySessions(j, host, project, index, rels, ids, vol);
    if !ok {
      return;
    }
    FirstOp(Mkdir(Sessions(), true), p3, vol.Now(), vol.cut);
    ok := vol.Do(Mkdir(Sessions(), true));
    if !ok {
      return;
    }
    FirstOp(Write(IndexFile(), scoped, true), p4, vol.Now(), vol.cut);
    ok := vol.Do(Write(IndexFile(), scoped, true));
    if !ok {
      return;
    }
    FirstOp(Mkdir(UserHistory(), true), p5, vol.Now(), vol.cut);
    ok := vol.Do(Mkdir(UserHistory(), true));
    if !ok {
      return;
    }
    ExecConcat(HistoryPlan(host, historyName), WorkspacesPlan(j, host, project), vol.Now(), vol.cut);
    ok := WriteHistory(host, historyName, vol);
    if !ok {
      return;
    }
    ok := SeedKimiWorkspaces(j, host, project, vol);
  }

  method PrepareKimiStore(j: Json, host: Host, config: Option<Tree>, project: bytes, historyName: bytes, vol: Volume)
    returns (ok: bool)
    modifies vol
    ensures (ok, vol.Now()) == Prepared(j, host, config, project, historyName, old(vol.Now()), vol.cut)
  {
    hide Step, Exec, SeedPlan, PlanOf, KimiSkipCopy, Marker;
    if Marker() in vol.disk {
      return true;
    }
    ghost var seed := SeedPlan(j, host, project, historyName);
    ghost var oauth := [Mkdir([Ascii("oauth")], true)] + seed;
    ghost var creds := [Mkdir([Ascii("credentials")], true)] + oauth;
    ghost var s := vol.Now();
    ExecConcat(Contents(j, host, config, project, historyName), [Write(Marker(), [], true)], s, vol.cut);
    ExecConcat(PlanOf(config, [], KimiSkipCopy()), creds, s, vol.cut);
    ok := CopyDirExcept(config, [], KimiSkipCopy(), vol);
    if !ok {
      return;
    }
    FirstOp(Mkdir([Ascii("credentials")], true), oauth, vol.Now(), vol.cut);
    ok := vol.Do(Mkdir([Ascii("credentials")], true));
    if !ok {
      return;
    }
    FirstOp(Mkdir([Ascii("oauth")], true), seed, vol.Now(), vol.cut);
    ok := vol.Do(Mkdir([Ascii("oauth")], true));
    if !ok {
      return;
    }
    ok := SeedKimiStore(j, host, project, historyName, vol);
    if !ok {
      return;
    }
    ExecOne(Write(Marker(), [], true), vol.Now(), vol.cut);
    ok := vol.Do(Write(Marker(), [], true));
  }

  // ----- After the first success the store is a fork -----

  /** The host changes, the sandbox rewrites the store but keeps the marker, or the program prepares the store. */
  datatype Event = HostChange(host: Host, config: Option<Tree>) | Edit(disk: Disk) | Launch(fault: Fault)

  datatype World = World(host: Host, config: Option<Tree>, disk: Disk)

  /** The sandbox runs only once the store has been prepared. */
  function Edited(d: Disk, edit: Disk): Disk {
    if Marker() in d && Marker() in edit then edit else d
  }

  ghost function After(j: Json, project: bytes, historyName: bytes, w: World, ev: Event): World {
    match ev
    case HostChange(h, c) => w.(host := h, config := c)
    case Edit(d) => w.(disk := Edited(w.disk, d))
    case Launch(f) =>
      w.(disk := Prepared(j, w.host, w.config, project, historyName, State(w.disk, f.budget), f.cut).1.disk)
  }

  ghost function AfterAll(j: Json, project: bytes, historyName: bytes, w: World, evs: seq<Event>): World
    decreases |evs|
  {
    if evs == [] then w else AfterAll(j, project, historyName, After(j, project, historyName, w, evs[0]), evs[1..])
  }

  /** The store when only the sandbox touches it. */
  function EditsOnly(d: Disk, evs: seq<Event>): Disk
    decreases |evs|
  {
    if evs == [] then d else EditsOnly(if evs[0].Edit? then Edited(d, evs[0].disk) else d, evs[1..])
  }

  /** Once seeded, the store changes by sandbox edits alone, whatever the host and however often it is prepared. */
  lemma {:induction false} SeededOnce(j: Json, project: bytes, historyName: bytes, w: World, evs: seq<Event>)
    requires Marker() in w.disk
    ensures AfterAll(j, project, historyName, w, evs).disk == EditsOnly(w.disk, evs)
    decreases |evs|
  {
    hide FullPlan, Marker, Exec;
    if evs != [] {
      SeededOnce(j, project, historyName, After(j, project, historyName, w, evs[0]), evs[1..]);
    }
  }

  /** A launch that succeeds leaves the marker. */
  lemma PreparedLeavesMarker(j: Json, host: Host, config: Option<Tree>, project: bytes, historyName: bytes, s: State,
                             cut: nat)
    requires Prepared(j, host, config, project, historyName, s, cut).0
    ensures Marker() in Prepared(j, host, config, project, historyName, s, cut).1.disk
  {
    hide Exec, Contents, Marker, Can;
    var ops, w := Contents(j, host, config, project, historyName), Write(Marker(), [], true);
    ExecConcat(ops, [w], s, cut);
    ExecOne(w, Exec(ops, s, cut).1, cut);
  }

  lemma {:induction false} AfterAllConcat(j: Json, project: bytes, historyName: bytes, w: World, a: seq<Event>,
                                          b: seq<Event>)
    ensures AfterAll(j, project, historyName, w, a + b) ==
            AfterAll(j, project, historyName, AfterAll(j, project, historyName, w, a), b)
    decreases |a|
  {
    hide After;
    if a == [] {
      assert a + b == b;
    } else {
      assert (a + b)[1..] == a[1..] + b;
      AfterAllConcat(j, project, historyName, After(j, project, historyName, w, a[0]), a[1..], b);
    }
  }

  /** The run's i-th event is a launch that succeeds. */
  ghost predicate SucceedsAt(j: Json, project: bytes, historyName: bytes, w: World, evs: seq<Event>, i: nat)
    requires i < |evs|
  {
    var v := AfterAll(j, project, historyName, w, evs[..i]);
    evs[i].Launch? &&
    Prepared(j, v.host, v.config, project, historyName, State(v.disk, evs[i].fault.budget), evs[i].fault.cut).0
  }

  /** Over any run from any store: after a launch that succeeds the store changes by sandbox edits alone. */
  lemma ForkedOnceSeeded(j: Json, project: bytes, historyName: bytes, w: World, evs: seq<Event>, i: nat)
    requires i < |evs| && SucceedsAt(j, project, historyName, w, evs, i)
    ensures var seeded := AfterAll(j, project, historyName, w, evs[..i + 1]);
            Marker() in seeded.disk &&
              AfterAll(j, project, historyName, w, evs).disk == EditsOnly(seeded.disk, evs[i + 1..])
  {
    hide Prepared, Marker, EditsOnly;
    var v := AfterAll(j, project, historyName, w, evs[..i]);
    var f := evs[i].fault;
    PreparedLeavesMarker(j, v.host, v.config, project, historyName, State(v.disk, f.budget), f.cut);
    assert evs[..i + 1] == evs[..i] + [evs[i]] && [evs[i]][1..] == [];
    AfterAllConcat(j, project, historyName, w, evs[..i], [evs[i]]);
    assert AfterAll(j, project, historyName, v, [evs[i]]) == After(j, project, historyName, v, evs[i]);
    assert evs == evs[..i + 1] + evs[i + 1..];
    AfterAllConcat(j, project, historyName, w, evs[..i + 1], evs[i + 1..]);
    SeededOnce(j, project, historyName, AfterAll(j, project, historyName, w, evs[..i + 1]), evs[i + 1..]);
  }
}
