/** The project-only Kimi Code home: which host sessions belong to the project, and the one-time seed. */
module KimiStore {
  import opened Bytes
  import opened Options
  import opened Lines
  import opened ByteOrder
  import opened Disk
  import opened TreeCopy
  import Paths

  /** One line of session_index.jsonl. */
  datatype IndexEntry = IndexEntry(sessionId: bytes, sessionDir: bytes, workDir: bytes)

  /** The part of workspaces.json the program reads: raw entries by workspace id. */
  datatype Workspaces = Workspaces(version: int, byId: map<bytes, bytes>)

  /** encoding/json and bytes.TrimSpace, of which only the laws below are used. */
  datatype Json = Json(
    text: bytes -> bool,
    entry: bytes -> Option<IndexEntry>,
    encodeEntry: IndexEntry -> bytes,
    stateWorkDir: bytes -> Option<bytes>,
    trim: bytes -> bytes,
    workspaces: bytes -> Option<Workspaces>,
    root: bytes -> Option<bytes>,
    encodeWorkspaces: Workspaces -> bytes
  )

  /** A line a writer may end with a line feed and a scanner gives back as it was. */
  predicate CleanLine(l: bytes) {
    LF !in l && DropCr(l) == l
  }

  predicate TextEntry(j: Json, e: IndexEntry) {
    j.text(e.sessionId) && j.text(e.sessionDir) && j.text(e.workDir)
  }

  /** An entry of text survives encoding, on one line; trimming white space keeps what a line decodes to. */
  ghost predicate Lawful(j: Json) {
    (forall e: IndexEntry | TextEntry(j, e) :: j.entry(j.encodeEntry(e)) == Some(e) && CleanLine(j.encodeEntry(e))) &&
    (forall l: bytes | LF !in l && j.entry(l).Some? ::
       j.entry(j.trim(l)) == j.entry(l) && CleanLine(j.trim(l)) && |j.trim(l)| <= |l|)
  }

  datatype HistoryFile = HistoryFile(content: bytes, readable: bool, writable: bool)

  /**
   * The trusted host store ~/.kimi-code.  dir gives the elements of the absolute path of its sessions/.
   */
  datatype Host = Host(
    sessions: Option<Tree>,
    index: Option<bytes>,
    history: Option<HistoryFile>,
    workspaces: Option<bytes>,
    dir: Path
  )

  /** The absolute path of a directory under sessions/. */
  function DirOf(host: Host, rel: Path): bytes {
    Paths.Rooted(host.dir + rel)
  }

  /** The path relative to sessions/ of a directory that an index line names, unless it leads out of sessions/. */
  function RelOf(host: Host, sessionDir: bytes): Option<Path> {
    var rel :- Paths.Rel(host.dir, sessionDir);
    if Paths.LeadsUp(rel) then None else Some(Paths.RelParts(rel))
  }

  /** The check admits exactly sessions/ and what lies below it, whatever dots and slashes the line's path has. */
  lemma RelOfExact(host: Host, sessionDir: bytes)
    ensures RelOf(host, sessionDir) ==
            if Paths.IsAbs(sessionDir) && host.dir <= Paths.Parts(sessionDir)
            then Some(Paths.Parts(sessionDir)[|host.dir|..]) else None
  {
    hide Paths.Rel, Paths.LeadsUp, Paths.RelParts, Paths.Parts, Paths.Elements;
    Paths.ConfinedIff(host.dir, sessionDir);
    if Paths.IsAbs(sessionDir) && host.dir <= Paths.Parts(sessionDir) {
      ElementsBelow(sessionDir, |host.dir|);
      Paths.RelPartsOf(Paths.Parts(sessionDir)[|host.dir|..]);
    }
  }

  lemma ElementsBelow(sessionDir: bytes, n: nat)
    requires n <= |Paths.Parts(sessionDir)|
    ensures Paths.Elements(Paths.Parts(sessionDir)[n..])
  {
    Paths.PartsElements(sessionDir);
  }

  /** So a line that names a directory under sessions/ by its own path leads back to it. */
  lemma RelOfDirOf(host: Host, rel: Path)
    requires Paths.Elements(host.dir + rel)
    ensures RelOf(host, DirOf(host, rel)) == Some(rel)
  {
    hide Paths.Parts, Paths.Elements, RelOf;
    RelOfExact(host, DirOf(host, rel));
    Paths.PartsRooted(host.dir + rel);
    assert (host.dir + rel)[|host.dir|..] == rel;
  }

  // ----- The session index -----

  function PutLine(j: Json, project: bytes, line: bytes, m: map<bytes, bytes>): map<bytes, bytes> {
    match j.entry(line)
    case None => m
    case Some(e) => if e.workDir != project || e.sessionId == [] then m else m[e.sessionId := line]
  }

  /** The project's lines by session id; of several lines for one id the last counts. */
  function IndexOf(j: Json, project: bytes, lines: seq<bytes>): map<bytes, bytes>
    decreases |lines|
  {
    if lines == [] then map[]
    else PutLine(j, project, lines[|lines| - 1], IndexOf(j, project, lines[..|lines| - 1]))
  }

  function HostIndex(j: Json, index: Option<bytes>, project: bytes): map<bytes, bytes> {
    match index
    case None => map[]
    case Some(data) => IndexOf(j, project, Scan(data))
  }

  method KimiHostIndex(j: Json, index: Option<bytes>, project: bytes) returns (out: map<bytes, bytes>)
    ensures out == HostIndex(j, index, project)
  {
    out := map[];
    if index.None? {
      return;
    }
    var lines := Scan(index.value);
    for i := 0 to |lines|
      invariant out == IndexOf(j, project, lines[..i])
    {
      assert lines[..i + 1][..i] == lines[..i];
      var e := j.entry(lines[i]);
      if e.None? || e.value.workDir != project || e.value.sessionId == [] {
        continue;
      }
      out := out[e.value.sessionId := lines[i]];
    }
    assert lines[..|lines|] == lines;
  }

  /** line is an index line that attributes id to the project. */
  predicate Attributes(j: Json, project: bytes, id: bytes, line: bytes) {
    j.entry(line).Some? && j.entry(line).value.sessionId == id && j.entry(line).value.workDir == project && id != []
  }

  lemma {:induction false} IndexSound(j: Json, project: bytes, lines: seq<bytes>)
    ensures forall id | id in IndexOf(j, project, lines) ::
              Attributes(j, project, id, IndexOf(j, project, lines)[id]) && IndexOf(j, project, lines)[id] in lines
    decreases |lines|
  {
    if lines != [] {
      IndexSound(j, project, lines[..|lines| - 1]);
      assert lines == lines[..|lines| - 1] + [lines[|lines| - 1]];
    }
  }

  /** The i-th line is the last that attributes id to the project. */
  predicate LastLine(j: Json, project: bytes, lines: seq<bytes>, id: bytes, i: nat) {
    i < |lines| && Attributes(j, project, id, lines[i]) &&
    forall k | i < k < |lines| :: !Attributes(j, project, id, lines[k])
  }

  /** Of the lines that attribute an id to the project exactly the last is kept. */
  lemma {:induction false} IndexExact(j: Json, project: bytes, lines: seq<bytes>, id: bytes)
    ensures (forall l | l in lines :: !Attributes(j, project, id, l)) ==> id !in IndexOf(j, project, lines)
    ensures forall i: nat | LastLine(j, project, lines, id, i) ::
              id in IndexOf(j, project, lines) && IndexOf(j, project, lines)[id] == lines[i]
    decreases |lines|
  {
    hide Attributes, PutLine;
    if lines != [] {
      var n := |lines| - 1;
      IndexExact(j, project, lines[..n], id);
      PutLineAt(j, project, lines[n], IndexOf(j, project, lines[..n]), id);
      assert forall l | l in lines[..n] :: l in lines;
      forall i: nat | LastLine(j, project, lines, id, i)
        ensures id in IndexOf(j, project, lines) && IndexOf(j, project, lines)[id] == lines[i]
      {
        if i < n {
          assert LastLine(j, project, lines[..n], id, i);
        }
      }
    }
  }

  lemma PutLineAt(j: Json, project: bytes, line: bytes, m: map<bytes, bytes>, id: bytes)
    ensures var r := PutLine(j, project, line, m);
            if Attributes(j, project, id, line) then id in r && r[id] == line
            else (id in r <==> id in m) && (id in m ==> r[id] == m[id])
  {
  }

  // ----- Attribution -----

  const STATE_FILE := "state.json"

  /** The project that a session directory names in its own state.json. */
  function StateProject(j: Json, dir: Tree): Option<bytes> {
    match Find(dir, [Ascii(STATE_FILE)])
    case Some(Regular(data, true, _)) => j.stateWorkDir(data)
    case _ => None
  }

  predicate OwnedBy(j: Json, project: bytes, sess: Entry) {
    sess.tree.Folder? && StateProject(j, sess.tree) == Some(project)
  }

  function PutSession(j: Json, project: bytes, ws: bytes, sess: Entry, rels: map<bytes, Path>): map<bytes, Path> {
    if OwnedBy(j, project, sess) then rels[sess.name := [ws, sess.name]] else rels
  }

  function SessionsIn(j: Json, project: bytes, ws: bytes, es: seq<Entry>, rels: map<bytes, Path>): map<bytes, Path>
    decreases |es|
  {
    if es == [] then rels
    else PutSession(j, project, ws, es[|es| - 1], SessionsIn(j, project, ws, es[..|es| - 1], rels))
  }

  function WorkspaceSessions(j: Json, project: bytes, wss: seq<Entry>): map<bytes, Path>
    decreases |wss|
  {
    if wss == [] then map[]
    else
      var before := WorkspaceSessions(j, project, wss[..|wss| - 1]);
      var ws := wss[|wss| - 1];
      if ws.tree.Folder? && ws.tree.readable then SessionsIn(j, project, ws.name, ws.tree.entries, before) else before
  }

  /** Primary attribution: the sessions whose own state names the project. */
  function Primary(j: Json, host: Host, project: bytes): map<bytes, Path> {
    match host.sessions
    case Some(Folder(wss, true, _)) => WorkspaceSessions(j, project, wss)
    case _ => map[]
  }

  /** Where an index line says its session is, if that is an existing directory under sessions/. */
  function Listed(j: Json, host: Host, raw: bytes): Option<Path> {
    var e :- j.entry(raw);
    var rel :- RelOf(host, e.sessionDir);
    var t :- host.sessions;
    var found :- Find(t, rel);
    if found.Folder? then Some(rel) else None
  }

  /** Secondary attribution: the given index lines whose session directory exists. */
  function Secondary(j: Json, host: Host, index: map<bytes, bytes>, ids: set<bytes>): map<bytes, Path> {
    map id | id in ids && id in index && Listed(j, host, index[id]).Some? :: Listed(j, host, index[id]).value
  }

  /** A primary attribution takes precedence over a secondary one. */
  function Both(j: Json, host: Host, index: map<bytes, bytes>, ids: set<bytes>, primary: map<bytes, Path>)
    : map<bytes, Path>
  {
    Secondary(j, host, index, ids) + primary
  }

  function Attributed(j: Json, host: Host, project: bytes): map<bytes, Path> {
    var index := HostIndex(j, host.index, project);
    Both(j, host, index, index.Keys, Primary(j, host, project))
  }

  method PrimarySessions(j: Json, host: Host, project: bytes) returns (rels: map<bytes, Path>)
    ensures rels == Primary(j, host, project)
  {
    hide OwnedBy;
    rels := map[];
    if host.sessions.None? || !host.sessions.value.Folder? || !host.sessions.value.readable {
      return;
    }
    var wss := host.sessions.value.entries;
    for w := 0 to |wss|
      invariant rels == WorkspaceSessions(j, project, wss[..w])
    {
      assert wss[..w + 1][..w] == wss[..w];
      var ws := wss[w];
      if !ws.tree.Folder? || !ws.tree.readable {
        continue;
      }
      var es := ws.tree.entries;
      ghost var before := rels;
      for i := 0 to |es|
        invariant rels == SessionsIn(j, project, ws.name, es[..i], before)
      {
        assert es[..i + 1][..i] == es[..i];
        if OwnedBy(j, project, es[i]) {
          rels := rels[es[i].name := [ws.name, es[i].name]];
        }
      }
      assert es[..|es|] == es;
    }
    assert wss[..|wss|] == wss;
  }

  method AttributeSessions(j: Json, host: Host, project: bytes, index: map<bytes, bytes>)
    returns (rels: map<bytes, Path>)
    requires index == HostIndex(j, host.index, project)
    ensures rels == Attributed(j, host, project)
  {
    hide Listed, HostIndex, Primary, Both;
    var primary := PrimarySessions(j, host, project);
    rels := AddListed(j, host, index, primary);
  }

  // A range over the index map takes its keys in any order; the result is the same for all of them.
  method AddListed(j: Json, host: Host, index: map<bytes, bytes>, primary: map<bytes, Path>)
    returns (rels: map<bytes, Path>)
    ensures rels == Both(j, host, index, index.Keys, primary)
  {
    hide Listed, Both;
    rels := primary;
    var todo := index.Keys;
    ghost var done: set<bytes> := {};
    ListedNone(j, host, index, primary);
    while todo != {}
      invariant todo + done == index.Keys && todo !! done
      invariant rels == Both(j, host, index, done, primary)
      decreases |todo|
    {
      var id :| id in todo;
      ListedStep(j, host, index, done, id, primary);
      Taken(todo, done, id);
      todo, done := todo - {id}, done + {id};
      if id !in rels {
        var rel := Listed(j, host, index[id]);
        if rel.Some? {
          rels := rels[id := rel.value];
        }
      }
    }
    assert done == {} + done;
  }

  lemma Taken(todo: set<bytes>, done: set<bytes>, id: bytes)
    requires id in todo && todo !! done
    ensures (todo - {id}) + (done + {id}) == todo + done && (todo - {id}) !! (done + {id}) && id !in done
  {
  }

  lemma ListedNone(j: Json, host: Host, index: map<bytes, bytes>, primary: map<bytes, Path>)
    ensures Both(j, host, index, {}, primary) == primary
  {
    assert Secondary(j, host, index, {}) == map[];
  }

  lemma ListedStep(j: Json, host: Host, index: map<bytes, bytes>, done: set<bytes>, id: bytes,
                   primary: map<bytes, Path>)
    requires id in index && id !in done
    ensures var rels := Both(j, host, index, done, primary);
            Both(j, host, index, done + {id}, primary) ==
            if id in rels || Listed(j, host, index[id]).None? then rels
            else rels[id := Listed(j, host, index[id]).value]
  {
    hide Listed;
  }

  // ----- The scoped index -----

  function IndexLine(j: Json, host: Host, project: bytes, index: map<bytes, bytes>, rels: map<bytes, Path>,
                     id: bytes): bytes
    requires id in rels
  {
    if id in index then j.trim(index[id]) else j.encodeEntry(IndexEntry(id, DirOf(host, rels[id]), project))
  }

  function IndexLines(j: Json, host: Host, project: bytes, index: map<bytes, bytes>, rels: map<bytes, Path>,
                      ids: seq<bytes>): (lines: seq<bytes>)
    requires forall id | id in ids :: id in rels
    ensures |lines| == |ids|
    decreases |ids|
  {
    if ids == [] then []
    else
      IndexLines(j, host, project, index, rels, ids[..|ids| - 1]) +
      [IndexLine(j, host, project, index, rels, ids[|ids| - 1])]
  }

  /** The lines of the scoped index, in the order of the session ids. */
  ghost function ScopedList(j: Json, host: Host, project: bytes): seq<bytes> {
    var rels := Attributed(j, host, project);
    IndexLines(j, host, project, HostIndex(j, host.index, project), rels, Sorted(rels.Keys))
  }

  /** The scoped session_index.jsonl. */
  ghost function ScopedIndex(j: Json, host: Host, project: bytes): bytes {
    Unlines(ScopedList(j, host, project))
  }

  /** What makes the lines written for the attributed sessions readable again. */
  predicate Writable(j: Json, host: Host, project: bytes) {
    var rels := Attributed(j, host, project);
    var index := HostIndex(j, host.index, project);
    forall id | id in rels ::
      id != [] && |IndexLine(j, host, project, index, rels, id)| < MAX_LINE &&
      (id !in index ==> TextEntry(j, IndexEntry(id, DirOf(host, rels[id]), project)))
  }

  lemma LineAttributes(j: Json, host: Host, project: bytes, id: bytes)
    requires Lawful(j) && Writable(j, host, project) && id in Attributed(j, host, project)
    ensures var line := IndexLine(j, host, project, HostIndex(j, host.index, project), Attributed(j, host, project),
                                  id);
            Attributes(j, project, id, line) && CleanLine(line) && |line| < MAX_LINE
  {
    hide Attributed, DropCr;
    var index := HostIndex(j, host.index, project);
    if id in index {
      IndexSound(j, project, Scan(host.index.value));
    }
  }

  /** Reading lines for distinct ids back gives exactly those lines, by id; for another project none. */
  lemma {:induction false} IndexOfLines(j: Json, project: bytes, other: bytes, ids: seq<bytes>, lines: seq<bytes>)
    requires |lines| == |ids|
    requires forall i | 0 <= i < |ids| :: Attributes(j, project, ids[i], lines[i])
    requires forall a, b | 0 <= a < b < |ids| :: ids[a] != ids[b]
    ensures var m := IndexOf(j, project, lines);
            (forall i | 0 <= i < |ids| :: ids[i] in m && m[ids[i]] == lines[i]) && (forall id | id in m :: id in ids)
    ensures other != project ==> IndexOf(j, other, lines) == map[]
    decreases |ids|
  {
    hide PutLine, Attributes;
    if ids != [] {
      var n := |ids| - 1;
      IndexOfLines(j, project, other, ids[..n], lines[..n]);
      PutAttributed(j, project, other, ids[n], lines[n]);
      assert IndexOf(j, project, lines) == IndexOf(j, project, lines[..n])[ids[n] := lines[n]];
      assert forall i | 0 <= i < n :: ids[..n][i] == ids[i] && lines[..n][i] == lines[i];
    }
  }

  lemma PutAttributed(j: Json, project: bytes, other: bytes, id: bytes, line: bytes)
    requires Attributes(j, project, id, line)
    ensures forall m :: PutLine(j, project, line, m) == m[id := line]
    ensures other != project ==> forall m :: PutLine(j, other, line, m) == m
  {
  }

  lemma {:induction false} IndexLinesAt(j: Json, host: Host, project: bytes, index: map<bytes, bytes>,
                                        rels: map<bytes, Path>, ids: seq<bytes>)
    requires forall id | id in ids :: id in rels
    ensures forall i | 0 <= i < |ids| ::
              IndexLines(j, host, project, index, rels, ids)[i] == IndexLine(j, host, project, index, rels, ids[i])
    decreases |ids|
  {
    hide IndexLine;
    if ids != [] {
      IndexLinesAt(j, host, project, index, rels, ids[..|ids| - 1]);
    }
  }

  lemma CleanLinesScan(lines: seq<bytes>)
    requires forall l | l in lines :: CleanLine(l) && |l| < MAX_LINE
    ensures Scan(Unlines(lines)) == lines
  {
    ScanUnlines(lines);
    forall i | 0 <= i < |lines|
      ensures DropCrs(lines)[i] == lines[i]
    {
      assert lines[i] in lines;
    }
  }

  lemma TrimmedLine(j: Json, host: Host, project: bytes, index: map<bytes, bytes>, rels: map<bytes, Path>, id: bytes)
    requires id in rels
    ensures id in index ==> IndexLine(j, host, project, index, rels, id) == j.trim(index[id])
  {
  }

  lemma ScopedClean(j: Json, host: Host, project: bytes)
    requires Lawful(j) && Writable(j, host, project)
    ensures var ids, lines := Sorted(Attributed(j, host, project).Keys), ScopedList(j, host, project);
            |ids| == |lines| &&
            forall i | 0 <= i < |ids| ::
              ids[i] in Attributed(j, host, project) &&
              lines[i] == IndexLine(j, host, project, HostIndex(j, host.index, project), Attributed(j, host, project),
                                    ids[i]) &&
              Attributes(j, project, ids[i], lines[i]) && CleanLine(lines[i]) && |lines[i]| < MAX_LINE
  {
    hide Attributed, Lawful, Writable, CleanLine, Attributes, HostIndex, IndexLine, IndexLines;
    var rels := Attributed(j, host, project);
    var index := HostIndex(j, host.index, project);
    var ids := Sorted(rels.Keys);
    IndexLinesAt(j, host, project, index, rels, ids);
    forall i | 0 <= i < |ids|
      ensures ids[i] in rels && Attributes(j, project, ids[i], ScopedList(j, host, project)[i])
      ensures CleanLine(ScopedList(j, host, project)[i]) && |ScopedList(j, host, project)[i]| < MAX_LINE
    {
      assert ids[i] in ids;
      LineAttributes(j, host, project, ids[i]);
    }
  }

  lemma ScopedScan(j: Json, host: Host, project: bytes, reader: bytes)
    requires Lawful(j) && Writable(j, host, project)
    ensures HostIndex(j, Some(ScopedIndex(j, host, project)), reader) ==
            IndexOf(j, reader, ScopedList(j, host, project))
  {
    hide Lawful, Writable, CleanLine, Attributes, IndexLine, IndexLines, Attributed, Scan, Sorted, IndexOf;
    ScopedClean(j, host, project);
    CleanLinesScan(ScopedList(j, host, project));
  }

  lemma ScopedLines(j: Json, host: Host, project: bytes, other: bytes)
    requires Lawful(j) && Writable(j, host, project)
    ensures var rels := Attributed(j, host, project);
            var m := IndexOf(j, project, ScopedList(j, host, project));
            m.Keys == rels.Keys &&
            forall id | id in rels :: m[id] == IndexLine(j, host, project, HostIndex(j, host.index, project), rels, id)
    ensures other != project ==> IndexOf(j, other, ScopedList(j, host, project)) == map[]
  {
    hide Attributed, Lawful, Writable, CleanLine, Attributes, IndexLine, ScopedList, HostIndex, IndexOf, Less;
    var rels := Attributed(j, host, project);
    var ids, lines := Sorted(rels.Keys), ScopedList(j, host, project);
    ScopedClean(j, host, project);
    forall a, b | 0 <= a < b < |ids|
      ensures ids[a] != ids[b]
    {
      LessTotal(ids[a], ids[b]);
    }
    IndexOfLines(j, project, other, ids, lines);
    forall id | id in rels
      ensures id in IndexOf(j, project, lines)
      ensures IndexOf(j, project, lines)[id] == IndexLine(j, host, project, HostIndex(j, host.index, project), rels, id)
    {
      assert id in ids;
      var i :| 0 <= i < |ids| && ids[i] == id;
    }
  }

  lemma EncodedLine(j: Json, host: Host, project: bytes, id: bytes)
    requires Lawful(j) && Writable(j, host, project) && id in Attributed(j, host, project)
    ensures var index, rels := HostIndex(j, host.index, project), Attributed(j, host, project);
            id !in index ==>
              j.entry(IndexLine(j, host, project, index, rels, id)) ==
              Some(IndexEntry(id, Paths.Rooted(host.dir + rels[id]), project))
  {
    hide Attributed, HostIndex, Paths.Rooted, CleanLine, TextEntry;
  }

  /**
   * The scoped index is a fixpoint: read back for the project it yields one line for each
   * attributed session, the host's own trimmed line where there is one and else a line that
   * leads to its directory; read back for any other project it yields nothing.
   */
  lemma IndexFixpoint(j: Json, host: Host, project: bytes, other: bytes)
    requires Lawful(j) && Writable(j, host, project)
    ensures var rels := Attributed(j, host, project);
            var index := HostIndex(j, host.index, project);
            var again := HostIndex(j, Some(ScopedIndex(j, host, project)), project);
            again.Keys == rels.Keys &&
            (forall id | id in rels :: Attributes(j, project, id, again[id])) &&
            (forall id | id in rels && id in index :: again[id] == j.trim(index[id])) &&
            (forall id | id in rels && id !in index ::
               j.entry(again[id]) == Some(IndexEntry(id, Paths.Rooted(host.dir + rels[id]), project)))
    ensures other != project ==> HostIndex(j, Some(ScopedIndex(j, host, project)), other) == map[]
  {
    hide Attributed, Lawful, Writable, IndexLine, HostIndex, Attributes, Sorted, ScopedIndex, Scan, IndexOf;
    var rels := Attributed(j, host, project);
    var index := HostIndex(j, host.index, project);
    var ids := Sorted(rels.Keys);
    ScopedLines(j, host, project, other);
    ScopedScan(j, host, project, project);
    ScopedScan(j, host, project, other);
    forall id | id in rels
      ensures Attributes(j, project, id, IndexLine(j, host, project, index, rels, id))
      ensures id in index ==> IndexLine(j, host, project, index, rels, id) == j.trim(index[id])
      ensures id !in index ==>
                j.entry(IndexLine(j, host, project, index, rels, id)) ==
                Some(IndexEntry(id, Paths.Rooted(host.dir + rels[id]), project))
    {
      LineAttributes(j, host, project, id);
      TrimmedLine(j, host, project, index, rels, id);
      EncodedLine(j, host, project, id);
    }
  }
}
