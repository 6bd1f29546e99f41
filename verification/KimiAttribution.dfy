/** Attribution stated in full: which sessions are the project's, and that a fresh store holds them all. */
module KimiAttribution {
  import opened Bytes
  import opened Options
  import opened Lines
  import opened ByteOrder
  import opened Disk
  import opened TreeCopy
  import opened KimiStore
  import opened KimiSeed
  import opened KimiIsolation
  import Paths

  // ----- By state.json -----

  /** The directory has a readable state.json that decodes to the project. */
  predicate SaysProject(j: Json, t: Tree, project: bytes) {
    t.Folder? &&
    exists f | f in t.entries ::
      f.name == Ascii("state.json") && f.tree.Regular? && f.tree.readable &&
      j.stateWorkDir(f.tree.content) == Some(project)
  }

  /** The k-th workspace directory can be listed and has a session directory with the name id that does. */
  predicate OwnAt(j: Json, wss: seq<Entry>, project: bytes, k: nat, id: bytes) {
    k < |wss| && wss[k].tree.Folder? && wss[k].tree.readable &&
    exists e | e in wss[k].tree.entries :: e.name == id && SaysProject(j, e.tree, project)
  }

  /** The k-th is the last of those that have. */
  predicate LastOwn(j: Json, wss: seq<Entry>, project: bytes, k: nat, id: bytes) {
    OwnAt(j, wss, project, k, id) && forall k' | k < k' < |wss| :: !OwnAt(j, wss, project, k', id)
  }

  /** The entries of sessions/, none when it cannot be listed. */
  function WorkspaceDirs(host: Host): seq<Entry> {
    if host.sessions.Some? && host.sessions.value.Folder? && host.sessions.value.readable
    then host.sessions.value.entries else []
  }

  lemma SaysProjectIff(j: Json, t: Tree, project: bytes)
    requires t.Folder? && WellFormed(t)
    ensures SaysProject(j, t, project) <==> StateProject(j, t) == Some(project)
  {
    hide WellFormed, FindEntry, Ascii;
    var name := Ascii("state.json");
    FindOne(t, name);
    FindEntryIn(t.entries, name);
    assert DistinctNames(t.entries) by { WellFormedNames(t); }
    forall f | f in t.entries && f.name == name
      ensures FindEntry(t.entries, name) == Some(f.tree)
    {
      FindDistinct(t.entries, f);
    }
  }

  lemma WellFormedNames(t: Tree)
    requires t.Folder? && WellFormed(t)
    ensures DistinctNames(t.entries)
    ensures forall e | e in t.entries :: WellFormed(e.tree)
  {
  }

  lemma FindOne(t: Tree, name: bytes)
    requires t.Folder?
    ensures Find(t, [name]) == FindEntry(t.entries, name)
  {
    hide FindEntry;
    assert [name][1..] == [];
    assert forall c: Tree :: Find(c, []) == Some(c);
  }

  lemma {:induction false} SessionsInExact(j: Json, project: bytes, ws: bytes, es: seq<Entry>, rels: map<bytes, Path>,
                                           id: bytes)
    ensures var r := SessionsIn(j, project, ws, es, rels);
            if exists e | e in es :: e.name == id && OwnedBy(j, project, e) then id in r && r[id] == [ws, id]
            else (id in r <==> id in rels) && (id in rels ==> r[id] == rels[id])
    decreases |es|
  {
    hide OwnedBy;
    if es != [] {
      var n := |es| - 1;
      SessionsInExact(j, project, ws, es[..n], rels, id);
      assert es == es[..n] + [es[n]];
    }
  }

  lemma OwnAtIff(j: Json, wss: seq<Entry>, project: bytes, k: nat, id: bytes)
    requires k < |wss| && WellFormed(wss[k].tree)
    ensures OwnAt(j, wss, project, k, id) <==>
            wss[k].tree.Folder? && wss[k].tree.readable &&
            exists e | e in wss[k].tree.entries :: e.name == id && OwnedBy(j, project, e)
  {
    hide SaysProject, StateProject, WellFormed;
    var t := wss[k].tree;
    if t.Folder? {
      WellFormedNames(t);
      forall e | e in t.entries
        ensures SaysProject(j, e.tree, project) <==> OwnedBy(j, project, e)
      {
        if e.tree.Folder? {
          SaysProjectIff(j, e.tree, project);
        } else {
          NoFolder(j, e.tree, project);
        }
      }
    }
  }

  lemma NoFolder(j: Json, t: Tree, project: bytes)
    requires !t.Folder?
    ensures !SaysProject(j, t, project)
  {
  }

  lemma NoneOwn(j: Json, project: bytes, id: bytes)
    ensures forall k: nat :: !OwnAt(j, [], project, k, id) && !LastOwn(j, [], project, k, id)
  {
  }

  lemma OwnBefore(j: Json, wss: seq<Entry>, project: bytes, k: nat, id: bytes)
    requires wss != []
    ensures var n := |wss| - 1;
            (OwnAt(j, wss, project, k, id) <==>
             (k == n && OwnAt(j, wss, project, n, id)) || OwnAt(j, wss[..n], project, k, id)) &&
            (LastOwn(j, wss, project, k, id) ==>
               if k == n then OwnAt(j, wss, project, n, id)
               else k < n && !OwnAt(j, wss, project, n, id) && LastOwn(j, wss[..n], project, k, id))
  {
    hide SaysProject;
    var n := |wss| - 1;
    if LastOwn(j, wss, project, k, id) && k < n {
      forall k' | k < k' < n
        ensures !OwnAt(j, wss[..n], project, k', id)
      {
        assert !OwnAt(j, wss, project, k', id);
        assert wss[..n][k'] == wss[k'];
      }
    }
  }

  /** Every session whose own state names the project is found; of several with one name the last counts. */
  lemma {:induction false} WorkspacesExact(j: Json, wss: seq<Entry>, project: bytes, id: bytes)
    requires forall w | w in wss :: WellFormed(w.tree)
    ensures var r := WorkspaceSessions(j, project, wss);
            (forall k: nat | LastOwn(j, wss, project, k, id) :: id in r && r[id] == [wss[k].name, id]) &&
            ((forall k: nat :: !OwnAt(j, wss, project, k, id)) ==> id !in r)
    decreases |wss|
  {
    hide OwnedBy, SessionsIn, WellFormed, OwnAt, LastOwn;
    if wss == [] {
      NoneOwn(j, project, id);
    } else {
      var n := |wss| - 1;
      var before, w := wss[..n], wss[n];
      assert w in wss && forall v | v in before :: v in wss;
      WorkspacesExact(j, before, project, id);
      OwnAtIff(j, wss, project, n, id);
      if w.tree.Folder? && w.tree.readable {
        SessionsInExact(j, project, w.name, w.tree.entries, WorkspaceSessions(j, project, before), id);
      }
      forall k: nat
        ensures OwnAt(j, wss, project, k, id) <==>
                (k == n && OwnAt(j, wss, project, n, id)) || OwnAt(j, before, project, k, id)
        ensures LastOwn(j, wss, project, k, id) ==>
                  if k == n then OwnAt(j, wss, project, n, id)
                  else k < n && !OwnAt(j, wss, project, n, id) && LastOwn(j, before, project, k, id)
      {
        OwnBefore(j, wss, project, k, id);
      }
    }
  }

  lemma PrimaryIs(j: Json, host: Host, project: bytes)
    ensures Primary(j, host, project) == WorkspaceSessions(j, project, WorkspaceDirs(host))
  {
    hide SessionsIn;
  }

  // ----- By index line -----

  /** The directory is there, at or below sessions/. */
  predicate Confined(host: Host, sessionDir: bytes) {
    Paths.IsAbs(sessionDir) && host.dir <= Paths.Parts(sessionDir) &&
    var t := SourceOf(host, Paths.Parts(sessionDir)[|host.dir|..]);
    t.Some? && t.value.Folder?
  }

  function IndexText(host: Host): bytes {
    if host.index.Some? then host.index.value else []
  }

  lemma ListedExact(j: Json, host: Host, raw: bytes)
    ensures Listed(j, host, raw) ==
            if j.entry(raw).Some? && Confined(host, j.entry(raw).value.sessionDir)
            then Some(Paths.Parts(j.entry(raw).value.sessionDir)[|host.dir|..]) else None
  {
    hide RelOf, Paths.Parts, Paths.IsAbs, Find;
    if j.entry(raw).Some? {
      RelOfExact(host, j.entry(raw).value.sessionDir);
    }
  }

  lemma IndexIs(j: Json, host: Host, project: bytes)
    ensures HostIndex(j, host.index, project) == IndexOf(j, project, Scan(IndexText(host)))
  {
    assert Scan([]) == [];
  }

  lemma AttributedAt(j: Json, host: Host, project: bytes, id: bytes)
    ensures var rels, own := Attributed(j, host, project), Primary(j, host, project);
            var index := HostIndex(j, host.index, project);
            if id in own then id in rels && rels[id] == own[id]
            else if id in index && Listed(j, host, index[id]).Some? then
              id in rels && rels[id] == Listed(j, host, index[id]).value
            else id !in rels
  {
    hide Primary, HostIndex, Listed;
  }

  /**
   * Attribution in full.  A session whose own state.json names the project is always attributed, the last of
   * several with one name; without one an id is attributed exactly when the last index line for it and the
   * project gives a directory that is there, at or below sessions/.
   */
  lemma AttributionExact(j: Json, host: Host, project: bytes, id: bytes)
    requires host.sessions.Some? ==> WellFormed(host.sessions.value)
    ensures var rels, wss, lines := Attributed(j, host, project), WorkspaceDirs(host), Scan(IndexText(host));
            (forall k: nat | LastOwn(j, wss, project, k, id) :: id in rels && rels[id] == [wss[k].name, id]) &&
            ((forall k: nat :: !OwnAt(j, wss, project, k, id)) ==>
               ((forall l | l in lines :: !Attributes(j, project, id, l)) ==> id !in rels) &&
               forall i: nat | LastLine(j, project, lines, id, i) ::
                 var dir := j.entry(lines[i]).value.sessionDir;
                 if Confined(host, dir) then id in rels && rels[id] == Paths.Parts(dir)[|host.dir|..]
                 else id !in rels)
  {
    hide OwnAt, LastOwn, WellFormed, Attributed, Primary, HostIndex, Listed, SourceOf, Scan, IndexOf, WorkspaceSessions;
    var wss, lines := WorkspaceDirs(host), Scan(IndexText(host));
    PrimaryIs(j, host, project);
    forall w | w in wss
      ensures WellFormed(w.tree)
    {
      WellFormedNames(host.sessions.value);
    }
    WorkspacesExact(j, wss, project, id);
    IndexIs(j, host, project);
    IndexExact(j, project, lines, id);
    AttributedAt(j, host, project, id);
    forall i: nat | LastLine(j, project, lines, id, i)
      ensures Listed(j, host, lines[i]) ==
              var dir := j.entry(lines[i]).value.sessionDir;
              if Confined(host, dir) then Some(Paths.Parts(dir)[|host.dir|..]) else None
    {
      ListedExact(j, host, lines[i]);
    }
  }

  // ----- In a fresh store -----

  /**
   * A fresh store holds, unchanged and at its own place, everything in a session directory whose state.json
   * names the project: every file and every directory below it.
   */
  lemma OwnSessionsHeld(j: Json, host: Host, config: Option<Tree>, project: bytes, historyName: bytes, k: nat,
                        e: Entry, below: Path)
    requires (host.sessions.Some? ==> WellFormed(host.sessions.value)) && (config.Some? ==> WellFormed(config.value))
    requires FreshSeed(j, host, config, project, historyName).0
    requires LastOwn(j, WorkspaceDirs(host), project, k, e.name) && e in WorkspaceDirs(host)[k].tree.entries
    ensures var q := [Ascii("sessions"), WorkspaceDirs(host)[k].name, e.name] + below;
            Plain(Get(FreshSeed(j, host, config, project, historyName).1, q)) == Plain(Image(Find(e.tree, below)))
  {
    hide FreshSeed, WellFormed, HostHas, OnTheWay, Attributed, Sorted, Get, LastOwn, Find, Plain, Image, SaysProject;
    var wss := WorkspaceDirs(host);
    LastOwnFolder(j, wss, project, k, e.name);
    var w, rels := wss[k], Attributed(j, host, project);
    var base := [w.name, e.name];
    var q := [Ascii("sessions")] + (base + below);
    assert q == [Ascii("sessions"), w.name, e.name] + below;
    AttributionExact(j, host, project, e.name);
    FreshSeedAt(j, host, config, project, historyName, q);
    assert e.name in Sorted(rels.Keys);
    BelowBase(base, below);
    EntryAt(host, w, e, below);
  }

  lemma LastOwnFolder(j: Json, wss: seq<Entry>, project: bytes, k: nat, id: bytes)
    requires LastOwn(j, wss, project, k, id)
    ensures k < |wss| && wss[k].tree.Folder?
  {
    hide SaysProject;
  }

  lemma BelowBase(base: Path, below: Path)
    ensures OnTheWay(base, [Ascii("sessions")] + (base + below))
    ensures base != [] ==> Sessions() < [Ascii("sessions")] + (base + below)
  {
    hide Ascii;
    var q := [Ascii("sessions")] + (base + below);
    assert q == Sessions() + base + below;
    assert q[..|Sessions() + base|] == Sessions() + base;
  }

  // What the host has below a session directory.
  lemma EntryAt(host: Host, w: Entry, e: Entry, below: Path)
    requires host.sessions.Some? && host.sessions.value.Folder? && WellFormed(host.sessions.value)
    requires w in host.sessions.value.entries && w.tree.Folder? && e in w.tree.entries
    ensures Sessions() < [Ascii("sessions")] + ([w.name, e.name] + below)
    ensures HostHas(host, [Ascii("sessions")] + ([w.name, e.name] + below)) == Image(Find(e.tree, below))
  {
    hide Ascii, Find, WellFormed, Image;
    var t := host.sessions.value;
    WellFormedNames(t);
    WellFormedNames(w.tree);
    FindDistinct(t.entries, w);
    FindDistinct(w.tree.entries, e);
    FindTwo(t, w, e);
    FindConcat(t, [w.name, e.name], below);
    BelowBase([w.name, e.name], below);
    assert ([Ascii("sessions")] + ([w.name, e.name] + below))[1..] == [w.name, e.name] + below;
  }

  lemma FreshSeedAt(j: Json, host: Host, config: Option<Tree>, project: bytes, historyName: bytes, q: Path)
    requires (host.sessions.Some? ==> WellFormed(host.sessions.value)) && (config.Some? ==> WellFormed(config.value))
    requires FreshSeed(j, host, config, project, historyName).0 && Sessions() < q
    ensures var rels := Attributed(j, host, project);
            Plain(Get(FreshSeed(j, host, config, project, historyName).1, q)) ==
            if Related(rels, Sorted(rels.Keys), q) then Plain(HostHas(host, q)) else None
  {
    hide Exec, FullPlan, WellFormed, HostHas, Attributed, Sorted, Sessions, Get, Related, Plain;
    FreshSeedExact(j, host, config, project, historyName, q);
  }
}
