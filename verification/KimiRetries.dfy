/** What launches that are let down on the way leave of a seed, and when trying again puts it right. */
module KimiRetries {
  import opened Bytes
  import opened Options
  import opened ByteOrder
  import opened Disk
  import opened TreeCopy
  import opened KimiStore
  import opened KimiSeed
  import opened KimiIsolation

  lemma NoMarkerBelow(op: Op)
    requires op == Mkdir([Ascii("credentials")], true) || op == Mkdir([Ascii("oauth")], true) ||
             op == Mkdir(Sessions(), true) || op == Mkdir(UserHistory(), true)
    ensures Get(Overlay([op]), Marker()) == None
  {
    MkdirOverlay(op.p, true, Marker());
    assert op.p[0] != Marker()[0];
  }

  lemma NoMarkerWritten(p: Path, c: bytes, w: bool)
    requires p == IndexFile() || p == WorkspacesFile() || |p| > 1
    ensures Get(Overlay([Write(p, c, w)]), Marker()) == None
  {
    WriteOverlay(p, c, w, Marker());
  }

  lemma {:induction false} SessionsElsewhere(host: Host, rels: map<bytes, Path>, ids: seq<bytes>, q: Path)
    requires (forall id | id in ids :: id in rels) && (host.sessions.Some? ==> WellFormed(host.sessions.value))
    requires Abort !in SessionsPlan(host, rels, ids) && q != [] && q[0] != Ascii("sessions")
    ensures Get(Overlay(SessionsPlan(host, rels, ids)), q) == None
    decreases |ids|
  {
    hide Overlay, CopyPlan, Find, WellFormed, Want;
    NothingOverlaid(q);
    if ids != [] {
      var rel := rels[ids[0]];
      GetConcat(SessionPlan(host, rel), SessionsPlan(host, rels, ids[1..]), q);
      SessionsElsewhere(host, rels, ids[1..], q);
      var src := SourceOf(host, rel);
      if src.Some? {
        FindWellFormed(host.sessions.value, rel);
        CopyOverlay(src.value, Sessions() + rel, [], {}, q);
        assert Sessions() + rel + [] == Sessions() + rel;
        WantElsewhere(src.value, rel, q);
      }
    }
  }

  lemma WantElsewhere(t: Tree, rel: Path, q: Path)
    requires q != [] && q[0] != Ascii("sessions")
    ensures Want(t, Sessions() + rel, [], {}, q) == None
  {
    assert (Sessions() + rel)[0] == Ascii("sessions");
  }

  lemma SeedLacksMarker(j: Json, host: Host, project: bytes, historyName: bytes)
    requires host.sessions.Some? ==> WellFormed(host.sessions.value)
    requires Abort !in SeedPlan(j, host, project, historyName)
    ensures Get(Overlay(SeedPlan(j, host, project, historyName)), Marker()) == None
  {
    hide Overlay, Marker, Sessions, IndexFile, UserHistory, WorkspacesFile, Attributed, ScopedIndex, Sorted,
      SessionsPlan, Get, Filtered;
    var rels := Attributed(j, host, project);
    var ids := Sorted(rels.Keys);
    var q := Marker();
    var history, spaces := HistoryPlan(host, historyName), WorkspacesPlan(j, host, project);
    var p4 := [Mkdir(UserHistory(), true)] + (history + spaces);
    var p3 := [Write(IndexFile(), ScopedIndex(j, host, project), true)] + p4;
    var p2 := [Mkdir(Sessions(), true)] + p3;
    FilesElsewhere([]);
    SessionsElsewhere(host, rels, ids, q);
    GetConcat(SessionsPlan(host, rels, ids), p2, q);
    GetConcat([Mkdir(Sessions(), true)], p3, q);
    GetConcat([Write(IndexFile(), ScopedIndex(j, host, project), true)], p4, q);
    GetConcat([Mkdir(UserHistory(), true)], history + spaces, q);
    GetConcat(history, spaces, q);
    NoMarkerBelow(Mkdir(Sessions(), true));
    NoMarkerBelow(Mkdir(UserHistory(), true));
    NoMarkerWritten(IndexFile(), ScopedIndex(j, host, project), true);
    NothingOverlaid(q);
    if host.history.Some? {
      HistoryPath(historyName);
      NoMarkerWritten(UserHistory() + [historyName], host.history.value.content, host.history.value.writable);
    }
    if spaces != [] {
      NoMarkerWritten(WorkspacesFile(), spaces[0].content, true);
    }
  }

  lemma HistoryPath(historyName: bytes)
    ensures |UserHistory() + [historyName]| > 1
  {
  }

  /** Nothing named like the marker in the configuration that is copied into the store. */
  predicate LacksMarker(config: Option<Tree>) {
    config.Some? ==> Image(Find(config.value, Marker())).None?
  }

  /** The only way a seed puts the marker in place before its end is by copying it from the configuration. */
  lemma MarkerFromConfigOnly(j: Json, host: Host, config: Option<Tree>, project: bytes, historyName: bytes)
    requires (host.sessions.Some? ==> WellFormed(host.sessions.value)) && (config.Some? ==> WellFormed(config.value))
    requires Abort !in Contents(j, host, config, project, historyName)
    ensures Marker() in Overlay(Contents(j, host, config, project, historyName)) <==> !LacksMarker(config)
  {
    hide Overlay, SeedPlan, CopyPlan, Marker, WellFormed, Find, Want, KimiSkipCopy;
    var q := Marker();
    var seed := SeedPlan(j, host, project, historyName);
    var copy := PlanOf(config, [], KimiSkipCopy());
    var oauth := [Mkdir([Ascii("oauth")], true)] + seed;
    var creds := [Mkdir([Ascii("credentials")], true)] + oauth;
    SeedLacksMarker(j, host, project, historyName);
    GetConcat(copy, creds, q);
    GetConcat([Mkdir([Ascii("credentials")], true)], oauth, q);
    GetConcat([Mkdir([Ascii("oauth")], true)], seed, q);
    NoMarkerBelow(Mkdir([Ascii("credentials")], true));
    NoMarkerBelow(Mkdir([Ascii("oauth")], true));
    assert Abort in [Abort];
    CopyOverlay(config.value, [], [], KimiSkipCopy(), q);
    MarkerNotSkipped(config.value);
  }

  lemma MarkerNotSkipped(t: Tree)
    ensures Want(t, [] + [], [], KimiSkipCopy(), Marker()) == Image(Find(t, Marker()))
  {
    hide Find;
    var q := Marker();
    assert q[0..] == q;
    assert Ascii("updates")[0] != Ascii(".seeded")[0];
    assert [Ascii(".seeded")] !in KimiSkipCopy() by {
      assert [Ascii(".seeded")][0] == Ascii(".seeded");
      assert forall p | p in KimiSkipCopy() :: |p| == 1 && p[0] != Ascii(".seeded");
    }
    forall k | 1 <= k <= |q|
      ensures [] + q[..k] !in KimiSkipCopy()
    {
      assert [] + q[..k] == q;
    }
    assert Kept([], q, KimiSkipCopy());
  }

  /** The store after a number of launches on an unchanged host, each let down at its own point. */
  ghost function Launches(j: Json, host: Host, config: Option<Tree>, project: bytes, historyName: bytes, d: Disk,
                          faults: seq<Fault>): Disk
    decreases |faults|
  {
    if faults == [] then d
    else
      Launches(j, host, config, project, historyName,
               Prepared(j, host, config, project, historyName, State(d, faults[0].budget), faults[0].cut).1.disk,
               faults[1..])
  }

  // A run that leaves the marker behind has done everything before it.
  lemma MarkerMeansDone(ops: seq<Op>, s: State, cut: nat)
    requires Marker() !in s.disk && Marker() !in Overlay(ops)
    requires Marker() in Exec(ops + [Write(Marker(), [], true)], s, cut).1.disk
    ensures Exec(ops + [Write(Marker(), [], true)], s, cut).1.disk ==
            Merge(s.disk, Overlay(ops + [Write(Marker(), [], true)]))
  {
    hide Exec, Overlay, Can, Marker, Merge;
    var w := Write(Marker(), [], true);
    ExecConcat(ops, [w], s, cut);
    ExecKeys(ops, s, cut);
    var r := Exec(ops, s, cut);
    assert r.0;
    ExecOverlay(ops, s, cut);
    ExecOne(w, r.1, cut);
    OverlayConcat(ops, [w]);
    OverlayOne(w);
    MergeAssociative(s.disk, Overlay(ops), Effect(w));
  }

  lemma BetweenDone(d: Disk, x: Disk, m: Disk)
    requires Between(d, x, m)
    ensures Merge(x, m) == Merge(d, m)
  {
    hide Merge, Get;
    GetMerge(x, m);
    GetMerge(d, m);
    forall q
      ensures Get(Merge(x, m), q) == Get(Merge(d, m), q)
    {
      assert PartDone(Get(d, q), Get(x, q), Get(m, q));
    }
    SameAtAll(Merge(x, m), Merge(d, m));
  }

  /**
   * Where one clean seed would succeed and leave nothing without write permission, any number of failed
   * launches followed by one that is not let down ends in exactly the store of that clean seed, unless the
   * copied configuration itself holds something named like the marker.
   */
  lemma {:induction false} LaunchesEndClean(j: Json, host: Host, config: Option<Tree>, project: bytes,
                                            historyName: bytes, d: Disk, x: Disk, faults: seq<Fault>)
    requires var plan := FullPlan(j, host, config, project, historyName);
             Exec(plan, State(d, |plan|), 0).0 && Between(d, x, Overlay(plan)) && Rewritable(d, Overlay(plan)) &&
             Marker() !in Overlay(Contents(j, host, config, project, historyName))
    requires Marker() !in x || x == Merge(d, Overlay(FullPlan(j, host, config, project, historyName)))
    ensures var plan := FullPlan(j, host, config, project, historyName);
            var y := Launches(j, host, config, project, historyName, x, faults);
            var last := Prepared(j, host, config, project, historyName, State(y, |plan|), 0);
            last.0 && last.1.disk == Exec(plan, State(d, |plan|), 0).1.disk
    decreases |faults|
  {
    hide Exec, Contents, Overlay, Marker, Between, Rewritable, Merge;
    var plan := FullPlan(j, host, config, project, historyName);
    ExecOverlay(plan, State(d, |plan|), 0);
    if faults == [] {
      if Marker() !in x {
        RunAgain(plan, State(d, |plan|), State(x, |plan|), 0, 0);
      }
    } else {
      var f := faults[0];
      var y := Prepared(j, host, config, project, historyName, State(x, f.budget), f.cut).1.disk;
      if Marker() !in x {
        PartialRun(plan, State(d, |plan|), State(x, f.budget), 0, f.cut);
        if Marker() in y {
          MarkerMeansDone(Contents(j, host, config, project, historyName), State(x, f.budget), f.cut);
          BetweenDone(d, x, Overlay(plan));
        }
      }
      LaunchesEndClean(j, host, config, project, historyName, d, y, faults[1..]);
    }
  }

  /** The same from a store without the marker, with the condition on the configuration that a caller can check. */
  lemma RetriedSeedIsClean(j: Json, host: Host, config: Option<Tree>, project: bytes, historyName: bytes, d: Disk,
                           faults: seq<Fault>)
    requires (host.sessions.Some? ==> WellFormed(host.sessions.value)) && (config.Some? ==> WellFormed(config.value))
    requires Marker() !in d && LacksMarker(config)
    requires var plan := FullPlan(j, host, config, project, historyName);
             Exec(plan, State(d, |plan|), 0).0 && Rewritable(d, Overlay(plan))
    ensures var plan := FullPlan(j, host, config, project, historyName);
            var y := Launches(j, host, config, project, historyName, d, faults);
            var last := Prepared(j, host, config, project, historyName, State(y, |plan|), 0);
            last.0 && last.1.disk == Exec(plan, State(d, |plan|), 0).1.disk
  {
    hide Exec, Contents, Overlay, Marker, LacksMarker, WellFormed, Launches, Prepared, Agree, Between, Rewritable;
    var plan := FullPlan(j, host, config, project, historyName);
    RunAgrees(plan, State(d, |plan|), 0);
    BetweenStart(d, Overlay(plan));
    NoAbort(plan, State(d, |plan|), 0);
    assert forall op | op in Contents(j, host, config, project, historyName) :: op in plan;
    MarkerFromConfigOnly(j, host, config, project, historyName);
    LaunchesEndClean(j, host, config, project, historyName, d, d, faults);
  }

  // ----- Files without write permission -----

  /** t holds a file, not left out, without write permission. */
  ghost predicate HasSealed(t: Tree, skip: set<Path>) {
    exists p :: SealedAt(t, skip, p)
  }

  predicate SealedAt(t: Tree, skip: set<Path>, p: Path) {
    Kept([], p, skip) && Find(t, p).Some? && Find(t, p).value.Regular? && !Find(t, p).value.writable
  }

  /** Some file that a seed copies, from the configuration, an attributed session or the history, is read-only. */
  ghost predicate CopiesSealed(j: Json, host: Host, config: Option<Tree>, project: bytes) {
    (config.Some? && HasSealed(config.value, KimiSkipCopy())) ||
    (host.history.Some? && !host.history.value.writable) ||
    exists id | id in Attributed(j, host, project) :: SessionSealed(host, Attributed(j, host, project)[id])
  }

  ghost predicate SessionSealed(host: Host, rel: Path) {
    SourceOf(host, rel).Some? && HasSealed(SourceOf(host, rel).value, {})
  }

  /** A run of ops that succeeds leaves no new file without write permission. */
  ghost predicate SealsNothing(ops: seq<Op>) {
    forall s: State, cut: nat, q: Path | Exec(ops, s, cut).0 && Sealed(Exec(ops, s, cut).1.disk, q) :: Sealed(s.disk, q)
  }

  lemma StepUnsealed(op: Op, s: State, cut: nat, q: Path)
    requires Step(op, s, cut).0 && (op.Write? ==> op.writable) && Sealed(Step(op, s, cut).1.disk, q)
    ensures Sealed(s.disk, q)
  {
    hide CanMkdir;
  }

  lemma OneSealsNothing(op: Op)
    requires op.Write? ==> op.writable
    ensures SealsNothing([op]) && SealsNothing([]) && SealsNothing([Abort])
  {
    hide Step, Sealed;
    forall s: State, cut: nat, q: Path | Exec([op], s, cut).0 && Sealed(Exec([op], s, cut).1.disk, q)
      ensures Sealed(s.disk, q)
    {
      ExecOne(op, s, cut);
      StepUnsealed(op, s, cut, q);
    }
    forall s: State, cut: nat
      ensures !Exec([Abort], s, cut).0
    {
      ExecOne(Abort, s, cut);
      AbortStep(s, cut);
    }
  }

  lemma BothSealNothing(a: seq<Op>, b: seq<Op>)
    requires SealsNothing(a) && SealsNothing(b)
    ensures SealsNothing(a + b)
  {
    hide Exec, Sealed;
    forall s: State, cut: nat, q: Path | Exec(a + b, s, cut).0 && Sealed(Exec(a + b, s, cut).1.disk, q)
      ensures Sealed(s.disk, q)
    {
      ExecConcat(a, b, s, cut);
    }
  }

  lemma CopySealsNothing(src: Option<Tree>, dst: Path, skip: set<Path>)
    requires src.Some? ==> WellFormed(src.value) && !HasSealed(src.value, skip)
    ensures SealsNothing(PlanOf(src, dst, skip))
  {
    hide Exec, CopyPlan, WellFormed, HasSealed, Find, Kept;
    var plan := PlanOf(src, dst, skip);
    forall s: State, cut: nat, q: Path | Exec(plan, s, cut).0 && Sealed(Exec(plan, s, cut).1.disk, q)
      ensures Sealed(s.disk, q)
    {
      NoAbort(plan, s, cut);
      assert Abort in [Abort];
      CopyMeaning(src.value, dst, skip, s, cut, q);
      SealedWanted(src.value, dst, skip, q);
      CopyAgrees(src.value, dst, skip, s, cut, q);
    }
  }

  lemma SealedWanted(t: Tree, dst: Path, skip: set<Path>, q: Path)
    ensures var want := Want(t, dst, [], skip, q);
            want.Some? && want.value.File? && !want.value.writable ==> HasSealed(t, skip)
  {
    hide Find, Kept;
    var want := Want(t, dst, [], skip, q);
    if want.Some? && want.value.File? && !want.value.writable {
      assert SealedAt(t, skip, q[|dst|..]);
    }
  }

  lemma CopyAgrees(t: Tree, dst: Path, skip: set<Path>, s: State, cut: nat, q: Path)
    requires WellFormed(t) && Exec(PlanOf(Some(t), dst, skip), s, cut).0
    ensures Alike(Get(s.disk, q), Want(t, dst, [], skip, q))
  {
    hide Exec, CopyPlan, WellFormed, Want, Overlay;
    var plan := CopyPlan(t, dst, [], skip);
    NoAbort(plan, s, cut);
    RunAgrees(plan, s, cut);
    CopyOverlay(t, dst, [], skip, q);
    assert dst + [] == dst;
    assert Alike(Get(s.disk, q), Get(Overlay(plan), q));
  }

  lemma {:induction false} SessionsSealNothing(host: Host, rels: map<bytes, Path>, ids: seq<bytes>)
    requires (forall id | id in ids :: id in rels) && (host.sessions.Some? ==> WellFormed(host.sessions.value))
    requires forall id | id in ids :: !SessionSealed(host, rels[id])
    ensures SealsNothing(SessionsPlan(host, rels, ids))
    decreases |ids|
  {
    hide SealsNothing, WellFormed, HasSealed, Find, CopyPlan, Sessions;
    OneSealsNothing(Abort);
    if ids != [] {
      var rel := rels[ids[0]];
      assert ids == [ids[0]] + ids[1..] && !SessionSealed(host, rel);
      if SourceOf(host, rel).Some? {
        FindWellFormed(host.sessions.value, rel);
      }
      CopySealsNothing(SourceOf(host, rel), Sessions() + rel, {});
      SessionsSealNothing(host, rels, ids[1..]);
      BothSealNothing(SessionPlan(host, rel), SessionsPlan(host, rels, ids[1..]));
    }
  }

  lemma SeedSealsNothing(j: Json, host: Host, config: Option<Tree>, project: bytes, historyName: bytes)
    requires (host.sessions.Some? ==> WellFormed(host.sessions.value)) && !CopiesSealed(j, host, config, project)
    ensures SealsNothing(SeedPlan(j, host, project, historyName))
  {
    hide SealsNothing, WellFormed, Attributed, Sorted, SessionsPlan, ScopedIndex, Sessions, IndexFile, UserHistory,
      WorkspacesFile, Filtered, SessionSealed, HasSealed;
    var rels := Attributed(j, host, project);
    var ids := Sorted(rels.Keys);
    var history, spaces := HistoryPlan(host, historyName), WorkspacesPlan(j, host, project);
    var index := Write(IndexFile(), ScopedIndex(j, host, project), true);
    assert forall id | id in ids :: id in rels && !SessionSealed(host, rels[id]);
    SessionsSealNothing(host, rels, ids);
    OneSealsNothing(Mkdir(Sessions(), true));
    OneSealsNothing(index);
    OneSealsNothing(Mkdir(UserHistory(), true));
    if host.history.Some? {
      OneSealsNothing(Write(UserHistory() + [historyName], host.history.value.content, true));
    }
    if spaces != [] {
      OneSealsNothing(spaces[0]);
    }
    BothSealNothing(history, spaces);
    BothSealNothing([Mkdir(UserHistory(), true)], history + spaces);
    BothSealNothing([index], [Mkdir(UserHistory(), true)] + (history + spaces));
    BothSealNothing([Mkdir(Sessions(), true)], [index] + ([Mkdir(UserHistory(), true)] + (history + spaces)));
    BothSealNothing(SessionsPlan(host, rels, ids),
                    [Mkdir(Sessions(), true)] + ([index] + ([Mkdir(UserHistory(), true)] + (history + spaces))));
  }

  lemma FullSealsNothing(j: Json, host: Host, config: Option<Tree>, project: bytes, historyName: bytes)
    requires (host.sessions.Some? ==> WellFormed(host.sessions.value)) && (config.Some? ==> WellFormed(config.value))
    requires !CopiesSealed(j, host, config, project)
    ensures SealsNothing(FullPlan(j, host, config, project, historyName))
  {
    hide SealsNothing, WellFormed, SeedPlan, KimiSkipCopy, HasSealed, CopyPlan, Marker, SessionSealed;
    var seed, copy := SeedPlan(j, host, project, historyName), PlanOf(config, [], KimiSkipCopy());
    var creds, oauth := Mkdir([Ascii("credentials")], true), Mkdir([Ascii("oauth")], true);
    SeedSealsNothing(j, host, config, project, historyName);
    CopySealsNothing(config, [], KimiSkipCopy());
    OneSealsNothing(creds);
    OneSealsNothing(oauth);
    OneSealsNothing(Write(Marker(), [], true));
    BothSealNothing([oauth], seed);
    BothSealNothing([creds], [oauth] + seed);
    BothSealNothing(copy, [creds] + ([oauth] + seed));
    BothSealNothing(copy + ([creds] + ([oauth] + seed)), [Write(Marker(), [], true)]);
  }

  // ----- A file without write permission that a seed copies is without it in the store -----

  lemma ConfigSealed(j: Json, host: Host, config: Option<Tree>, project: bytes, historyName: bytes, p: Path)
    requires config.Some? && WellFormed(config.value) && SealedAt(config.value, KimiSkipCopy(), p)
    requires FreshSeed(j, host, config, project, historyName).0
    ensures Sealed(FreshSeed(j, host, config, project, historyName).1, p)
  {
    hide Exec, SeedPlan, KimiSkipCopy, CopyPlan, WellFormed, Kept, Marker;
    var plan := FullPlan(j, host, config, project, historyName);
    var s := State(map[], |plan|);
    var copy := PlanOf(config, [], KimiSkipCopy());
    var rest := [Mkdir([Ascii("credentials")], true)] +
                ([Mkdir([Ascii("oauth")], true)] + SeedPlan(j, host, project, historyName));
    ExecConcat(Contents(j, host, config, project, historyName), [Write(Marker(), [], true)], s, 0);
    ExecConcat(copy, rest, s, 0);
    CopyMeaning(config.value, [], KimiSkipCopy(), s, 0, p);
    ReadableSource(config.value, KimiSkipCopy(), |plan|, 0);
    assert p[0..] == p;
    SealedBlocks(rest, Exec(copy, s, 0).1, 0, p);
    SealedBlocks([Write(Marker(), [], true)], Exec(copy + rest, s, 0).1, 0, p);
  }

  lemma SessionSealedThere(j: Json, host: Host, config: Option<Tree>, project: bytes, historyName: bytes, id: bytes,
                           p: Path)
    requires (host.sessions.Some? ==> WellFormed(host.sessions.value)) && (config.Some? ==> WellFormed(config.value))
    requires FreshSeed(j, host, config, project, historyName).0 && id in Attributed(j, host, project)
    requires var src := SourceOf(host, Attributed(j, host, project)[id]); src.Some? && SealedAt(src.value, {}, p)
    ensures var q := Sessions() + (Attributed(j, host, project)[id] + p);
            Sessions() < q ==> Sealed(FreshSeed(j, host, config, project, historyName).1, q)
  {
    hide Exec, FullPlan, WellFormed, Find, Kept, Attributed, Sorted;
    var rel := Attributed(j, host, project)[id];
    var q := Sessions() + (rel + p);
    if Sessions() < q {
      FreshSeedExact(j, host, config, project, historyName, q);
      assert id in Sorted(Attributed(j, host, project).Keys);
      assert Sessions() + rel <= q by { assert q == (Sessions() + rel) + p; }
      assert q[1..] == rel + p;
      FindConcat(host.sessions.value, rel, p);
    }
  }

  // The source of a session copied with success is a directory, so a file lies below it.
  lemma SealedBelow(j: Json, host: Host, config: Option<Tree>, project: bytes, historyName: bytes, id: bytes, p: Path)
    requires FreshSeed(j, host, config, project, historyName).0 && id in Attributed(j, host, project)
    requires (host.sessions.Some? ==> WellFormed(host.sessions.value)) && (config.Some? ==> WellFormed(config.value))
    requires var src := SourceOf(host, Attributed(j, host, project)[id]); src.Some? && SealedAt(src.value, {}, p)
    ensures exists q :: Sealed(FreshSeed(j, host, config, project, historyName).1, q)
  {
    hide FreshSeed, WellFormed, Find, Kept, Sealed, Attributed;
    AttributedFolder(j, host, project, id);
    var rel := Attributed(j, host, project)[id];
    var q := Sessions() + (rel + p);
    assert p != [] by { FindHere(SourceOf(host, rel).value); }
    assert Sessions() < q;
    SessionSealedThere(j, host, config, project, historyName, id, p);
  }

  // A path under user-history/ is nothing that a seed puts in place before the history.
  lemma HistoryElsewhere(host: Host, config: Option<Tree>, rels: map<bytes, Path>, ids: seq<bytes>, historyName: bytes)
    requires (host.sessions.Some? ==> WellFormed(host.sessions.value)) && (config.Some? ==> WellFormed(config.value))
    requires (forall id | id in ids :: id in rels) && Abort !in SessionsPlan(host, rels, ids)
    requires Abort !in PlanOf(config, [], KimiSkipCopy())
    ensures var q := UserHistory() + [historyName];
            Get(Overlay(PlanOf(config, [], KimiSkipCopy())), q) == None &&
            Get(Overlay(SessionsPlan(host, rels, ids)), q) == None
  {
    hide Overlay, CopyPlan, WellFormed, Find;
    var q := UserHistory() + [historyName];
    assert Abort in [Abort];
    FilesElsewhere(historyName);
    SessionsElsewhere(host, rels, ids, q);
    CopyOverlay(config.value, [], [], KimiSkipCopy(), q);
    assert q[0..] == q;
    assert [] + q[..1] == UserHistory();
    assert !Kept([], q, KimiSkipCopy());
  }

  lemma OneElsewhere(op: Op, q: Path)
    requires (op.Mkdir? && |op.p| == 1 && |q| == 2) || (op.Write? && op.p != q)
    ensures Get(Overlay([op]), q) == None
  {
    if op.Mkdir? {
      MkdirOverlay(op.p, op.writable, q);
    } else {
      WriteOverlay(op.p, op.content, op.writable, q);
    }
  }

  lemma HistorySealed(j: Json, host: Host, config: Option<Tree>, project: bytes, historyName: bytes)
    requires (host.sessions.Some? ==> WellFormed(host.sessions.value)) && (config.Some? ==> WellFormed(config.value))
    requires FreshSeed(j, host, config, project, historyName).0 && host.history.Some? && !host.history.value.writable
    ensures Sealed(FreshSeed(j, host, config, project, historyName).1, UserHistory() + [historyName])
  {
    hide Exec, Overlay, KimiSkipCopy, Marker, Sessions, WellFormed, Sorted, Attributed, Get, SessionsPlan, CopyPlan,
      ScopedIndex, Filtered, Put, IndexFile, UserHistory, WorkspacesFile;
    var q := UserHistory() + [historyName];
    var plan := FullPlan(j, host, config, project, historyName);
    var rels := Attributed(j, host, project);
    var ids := Sorted(rels.Keys);
    var copy := PlanOf(config, [], KimiSkipCopy());
    var history, spaces := HistoryPlan(host, historyName), WorkspacesPlan(j, host, project);
    var index := Write(IndexFile(), ScopedIndex(j, host, project), true);
    var p4 := [Mkdir(UserHistory(), true)] + (history + spaces);
    var p3 := [index] + p4;
    var p2 := [Mkdir(Sessions(), true)] + p3;
    var seed := SeedPlan(j, host, project, historyName);
    var oauth := [Mkdir([Ascii("oauth")], true)] + seed;
    var creds := [Mkdir([Ascii("credentials")], true)] + oauth;
    NoAbort(plan, State(map[], |plan|), 0);
    assert forall op | op in copy || op in SessionsPlan(host, rels, ids) || op in history :: op in plan;
    HistoryElsewhere(host, config, rels, ids, historyName);
    FilesApart(historyName);
    OneElsewhere(Write(Marker(), [], true), q);
    OneElsewhere(Mkdir([Ascii("credentials")], true), q);
    OneElsewhere(Mkdir([Ascii("oauth")], true), q);
    OneElsewhere(Mkdir(Sessions(), true), q);
    OneElsewhere(index, q);
    OneElsewhere(Mkdir(UserHistory(), true), q);
    if spaces != [] {
      OneElsewhere(spaces[0], q);
    }
    NothingOverlaid(q);
    HistoryWritten(host, historyName);
    GetConcat(copy + creds, [Write(Marker(), [], true)], q);
    GetConcat(copy, creds, q);
    GetConcat([Mkdir([Ascii("credentials")], true)], oauth, q);
    GetConcat([Mkdir([Ascii("oauth")], true)], seed, q);
    GetConcat(SessionsPlan(host, rels, ids), p2, q);
    GetConcat([Mkdir(Sessions(), true)], p3, q);
    GetConcat([index], p4, q);
    GetConcat([Mkdir(UserHistory(), true)], history + spaces, q);
    GetConcat(history, spaces, q);
    PutNone();
    ExecOverlay(plan, State(map[], |plan|), 0);
    GetFresh(Overlay(plan), q);
    SealedGet(FreshSeed(j, host, config, project, historyName).1, q);
  }

  lemma PutNone()
    ensures forall n :: Put(None, n) == n && Put(n, None) == n
  {
  }

  lemma SealedGet(d: Disk, q: Path)
    ensures Get(d, q).Some? && Get(d, q).value.File? && !Get(d, q).value.writable <==> Sealed(d, q)
  {
  }

  lemma FilesApart(historyName: bytes)
    ensures |Sessions()| == |UserHistory()| == 1 && |UserHistory() + [historyName]| == 2
    ensures |IndexFile()| == |WorkspacesFile()| == |Marker()| == 1
  {
  }

  lemma HistoryWritten(host: Host, historyName: bytes)
    requires host.history.Some? && Abort !in HistoryPlan(host, historyName)
    ensures var h := host.history.value;
            Get(Overlay(HistoryPlan(host, historyName)), UserHistory() + [historyName]) ==
              Some(File(h.content, h.writable))
  {
    var h := host.history.value;
    assert Abort in [Abort];
    WriteOverlay(UserHistory() + [historyName], h.content, h.writable, UserHistory() + [historyName]);
  }

  /** A clean seed of a fresh store leaves a file without write permission exactly when it copies one. */
  lemma CopiesSealedIff(j: Json, host: Host, config: Option<Tree>, project: bytes, historyName: bytes)
    requires (host.sessions.Some? ==> WellFormed(host.sessions.value)) && (config.Some? ==> WellFormed(config.value))
    requires FreshSeed(j, host, config, project, historyName).0
    ensures CopiesSealed(j, host, config, project) <==>
            exists q :: Sealed(FreshSeed(j, host, config, project, historyName).1, q)
  {
    hide Exec, FullPlan, WellFormed, Sealed, Attributed, SealedAt, SourceOf;
    var plan := FullPlan(j, host, config, project, historyName);
    if !CopiesSealed(j, host, config, project) {
      FullSealsNothing(j, host, config, project, historyName);
      NothingSealed();
    } else if config.Some? && HasSealed(config.value, KimiSkipCopy()) {
      var p :| SealedAt(config.value, KimiSkipCopy(), p);
      ConfigSealed(j, host, config, project, historyName, p);
    } else if host.history.Some? && !host.history.value.writable {
      HistorySealed(j, host, config, project, historyName);
    } else {
      var id :| id in Attributed(j, host, project) && SessionSealed(host, Attributed(j, host, project)[id]);
      var p :| SealedAt(SourceOf(host, Attributed(j, host, project)[id]).value, {}, p);
      SealedBelow(j, host, config, project, historyName, id, p);
    }
  }

  lemma NothingSealed()
    ensures forall q :: !Sealed(map[], q)
  {
  }

  // ----- When trying again puts it right -----

  /** A launch on the unchanged host that the machine does not let down, after the given ones that it may have. */
  ghost function LastLaunch(j: Json, host: Host, config: Option<Tree>, project: bytes, historyName: bytes,
                            faults: seq<Fault>): (bool, Disk) {
    var plan := FullPlan(j, host, config, project, historyName);
    var r := Prepared(j, host, config, project, historyName,
                      State(Launches(j, host, config, project, historyName, map[], faults), |plan|), 0);
    (r.0, r.1.disk)
  }

  lemma UnsealedRewritable(ops: seq<Op>)
    requires Exec(ops, State(map[], |ops|), 0).0 && forall q :: !Sealed(Exec(ops, State(map[], |ops|), 0).1.disk, q)
    ensures Rewritable(map[], Overlay(ops))
  {
    hide Exec, Overlay, Merge;
    var none: Disk := map[];
    ExecOverlay(ops, State(map[], |ops|), 0);
    MergeNothing(Overlay(ops));
    forall q
      ensures NotSealed(Get(none, q), Get(Overlay(ops), q))
    {
      assert !Sealed(Overlay(ops), q);
    }
  }

  // Let down just before the marker, a first launch leaves everything but the marker.
  lemma StoppedBeforeMarker(j: Json, host: Host, config: Option<Tree>, project: bytes, historyName: bytes)
    requires FreshSeed(j, host, config, project, historyName).0
    ensures var ops := Contents(j, host, config, project, historyName);
            Abort !in ops &&
            Prepared(j, host, config, project, historyName, State(map[], |ops|), 0).1.disk == Overlay(ops) &&
            FreshSeed(j, host, config, project, historyName).1 == Merge(Overlay(ops), map[Marker() := File([], true)])
  {
    hide Exec, Overlay, Contents, Marker, Can, Merge;
    var ops := Contents(j, host, config, project, historyName);
    var w := Write(Marker(), [], true);
    var plan := FullPlan(j, host, config, project, historyName);
    var full, s := State(map[], |plan|), State(map[], |ops|);
    ExecConcat(ops, [w], full, 0);
    NoAbort(ops, full, 0);
    ExecOverlay(ops, full, 0);
    MergeNothing(Overlay(ops));
    ExecOne(w, Exec(ops, full, 0).1, 0);
    ExecEnough(ops, full, 0, |ops|, 0);
    ExecConcat(ops, [w], s, 0);
    ExecOne(w, Exec(ops, s, 0).1, 0);
  }

  lemma SealedRetryFailsAgain(j: Json, host: Host, config: Option<Tree>, project: bytes, historyName: bytes, q: Path)
    requires (host.sessions.Some? ==> WellFormed(host.sessions.value)) && (config.Some? ==> WellFormed(config.value))
    requires FreshSeed(j, host, config, project, historyName).0 && LacksMarker(config)
    requires Sealed(FreshSeed(j, host, config, project, historyName).1, q)
    ensures !LastLaunch(j, host, config, project, historyName,
                        [Fault(|Contents(j, host, config, project, historyName)|, 0)]).0
  {
    hide Exec, Overlay, Contents, Marker, WellFormed, LacksMarker, FreshSeed;
    var ops := Contents(j, host, config, project, historyName);
    var faults := [Fault(|ops|, 0)];
    var plan := FullPlan(j, host, config, project, historyName);
    StoppedBeforeMarker(j, host, config, project, historyName);
    MarkerFromConfigOnly(j, host, config, project, historyName);
    assert faults[1..] == [];
    assert Launches(j, host, config, project, historyName, map[], faults) == Overlay(ops);
    assert Sealed(Overlay(ops), q);
    OverlayFileWritten(ops, q);
    SealedBlocks(plan, State(Overlay(ops), |plan|), 0, q);
  }

  lemma UnsealedRetry(j: Json, host: Host, config: Option<Tree>, project: bytes, historyName: bytes, faults: seq<Fault>)
    requires (host.sessions.Some? ==> WellFormed(host.sessions.value)) && (config.Some? ==> WellFormed(config.value))
    requires FreshSeed(j, host, config, project, historyName).0 && LacksMarker(config)
    requires forall q :: !Sealed(FreshSeed(j, host, config, project, historyName).1, q)
    ensures LastLaunch(j, host, config, project, historyName, faults) ==
            FreshSeed(j, host, config, project, historyName)
  {
    hide Exec, FullPlan, Prepared, Launches, LacksMarker, WellFormed, Sealed, Rewritable;
    UnsealedRewritable(FullPlan(j, host, config, project, historyName));
    RetriedSeedIsClean(j, host, config, project, historyName, map[], faults);
  }

  /**
   * On a fresh store every run of failed launches ends in the clean seed exactly when the copied configuration
   * holds nothing named like the marker and no file that is copied lacks write permission.
   */
  lemma RetriesCleanIff(j: Json, host: Host, config: Option<Tree>, project: bytes, historyName: bytes)
    requires (host.sessions.Some? ==> WellFormed(host.sessions.value)) && (config.Some? ==> WellFormed(config.value))
    requires FreshSeed(j, host, config, project, historyName).0
    ensures LacksMarker(config) && !CopiesSealed(j, host, config, project) <==>
            forall faults ::
              LastLaunch(j, host, config, project, historyName, faults) ==
              FreshSeed(j, host, config, project, historyName)
  {
    hide Exec, FullPlan, Prepared, Launches, Find, CopiesSealed, WellFormed, Sealed, Rewritable, FreshSeed, LastLaunch;
    CopiesSealedIff(j, host, config, project, historyName);
    if !LacksMarker(config) {
      MarkedRetryIsNotClean(j, host, config, project, historyName);
    } else if CopiesSealed(j, host, config, project) {
      var q :| Sealed(FreshSeed(j, host, config, project, historyName).1, q);
      SealedRetryFailsAgain(j, host, config, project, historyName, q);
    } else {
      forall faults
        ensures LastLaunch(j, host, config, project, historyName, faults) ==
                FreshSeed(j, host, config, project, historyName)
      {
        UnsealedRetry(j, host, config, project, historyName, faults);
      }
    }
  }

  // ----- A configuration with a marker of its own -----

  lemma {:induction false} OpInOverlay(op: Op, ops: seq<Op>)
    requires op in ops
    ensures Effect(op).Keys <= Overlay(ops).Keys
    decreases |ops|
  {
    hide Effect;
    if op != ops[0] {
      assert ops == [ops[0]] + ops[1..];
      OpInOverlay(op, ops[1..]);
    }
  }

  lemma IndexIsWritten(j: Json, host: Host, config: Option<Tree>, project: bytes, historyName: bytes)
    ensures IndexFile() in Overlay(FullPlan(j, host, config, project, historyName))
  {
    hide Overlay, IndexFile, Attributed, ScopedIndex, Sorted, SessionsPlan, PlanOf, Marker, HistoryPlan, WorkspacesPlan;
    var op := Write(IndexFile(), ScopedIndex(j, host, project), true);
    assert op in SeedPlan(j, host, project, historyName);
    assert op in FullPlan(j, host, config, project, historyName);
    OpInOverlay(op, FullPlan(j, host, config, project, historyName));
  }

  // The configuration's own index file is one of the paths left out.
  lemma IndexNotCopied(t: Tree)
    requires WellFormed(t) && Abort !in CopyPlan(t, [], [], KimiSkipCopy())
    ensures IndexFile() !in Overlay(CopyPlan(t, [], [], KimiSkipCopy()))
    ensures Get(Overlay(CopyPlan(t, [], [], KimiSkipCopy())), Marker()) == Image(Find(t, Marker()))
  {
    hide Overlay, CopyPlan, WellFormed, Find;
    var q := IndexFile();
    CopyOverlay(t, [], [], KimiSkipCopy(), q);
    CopyOverlay(t, [], [], KimiSkipCopy(), Marker());
    MarkerNotSkipped(t);
    assert q[0..] == q;
    assert [] + q[..1] == q;
    assert !Kept([], q, KimiSkipCopy());
  }

  // Let down right after copying the configuration, a first launch leaves just that copy.
  lemma StoppedAfterCopy(j: Json, host: Host, config: Option<Tree>, project: bytes, historyName: bytes)
    requires FreshSeed(j, host, config, project, historyName).0
    ensures var copy := PlanOf(config, [], KimiSkipCopy());
            Abort !in copy &&
            Prepared(j, host, config, project, historyName, State(map[], |copy|), 0).1.disk == Overlay(copy)
  {
    hide Exec, Overlay, PlanOf, KimiSkipCopy, Marker, SeedPlan, Can, Merge;
    var plan := FullPlan(j, host, config, project, historyName);
    var copy := PlanOf(config, [], KimiSkipCopy());
    var rest := [Mkdir([Ascii("oauth")], true)] + SeedPlan(j, host, project, historyName);
    var creds := [Mkdir([Ascii("credentials")], true)] + rest;
    var full, s := State(map[], |plan|), State(map[], |copy|);
    ExecConcat(Contents(j, host, config, project, historyName), [Write(Marker(), [], true)], full, 0);
    ExecConcat(copy, creds, full, 0);
    NoAbort(copy, full, 0);
    ExecEnough(copy, full, 0, |copy|, 0);
    ExecOverlay(copy, s, 0);
    MergeNothing(Overlay(copy));
    ExecConcat(Contents(j, host, config, project, historyName), [Write(Marker(), [], true)], s, 0);
    ExecConcat(copy, creds, s, 0);
    FirstOp(Mkdir([Ascii("credentials")], true), rest, Exec(copy, s, 0).1, 0);
    LetDown(Mkdir([Ascii("credentials")], true), Exec(copy, s, 0).1);
  }

  lemma LetDown(op: Op, s: State)
    requires s.budget == 0 && (op.Mkdir? ==> op.writable)
    ensures Step(op, s, 0) == (false, s)
  {
    hide Can;
  }

  lemma MarkedRetryIsNotClean(j: Json, host: Host, config: Option<Tree>, project: bytes, historyName: bytes)
    requires config.Some? && WellFormed(config.value) && !LacksMarker(config)
    requires FreshSeed(j, host, config, project, historyName).0
    ensures var faults := [Fault(|PlanOf(config, [], KimiSkipCopy())|, 0)];
            LastLaunch(j, host, config, project, historyName, faults) !=
            FreshSeed(j, host, config, project, historyName)
  {
    hide Exec, FullPlan, Overlay, Marker, IndexFile, WellFormed, KimiSkipCopy, Find, CopyPlan, Merge;
    var plan := FullPlan(j, host, config, project, historyName);
    var copy := PlanOf(config, [], KimiSkipCopy());
    StoppedAfterCopy(j, host, config, project, historyName);
    IndexNotCopied(config.value);
    IndexIsWritten(j, host, config, project, historyName);
    ExecOverlay(plan, State(map[], |plan|), 0);
    MergeNothing(Overlay(plan));
    var faults := [Fault(|copy|, 0)];
    assert faults[1..] == [];
    assert Launches(j, host, config, project, historyName, map[], faults) == Overlay(copy);
  }

  /** A configuration that holds one file. */
  function ConfigOf(name: bytes, writable: bool): Tree {
    Folder([Entry(name, Regular([], true, writable))], true, true)
  }

  lemma ConfigOfPlan(name: bytes, writable: bool)
    requires [name] !in KimiSkipCopy()
    ensures PlanOf(Some(ConfigOf(name, writable)), [], KimiSkipCopy()) == [Mkdir([], true), Write([name], [], writable)]
  {
    var es := ConfigOf(name, writable).entries;
    assert [] + ([] + [name]) == [name] && [] + [name] == [name];
    assert es[1..] == [];
    assert EntriesPlan(es, [], [], KimiSkipCopy()) == EntryPlan(es[0], [], [], KimiSkipCopy()) + [];
    var root: Path := [];
    assert root + root == root;
  }

  lemma ConfigOfCopied(name: bytes, writable: bool)
    requires [name] !in KimiSkipCopy()
    ensures Exec(PlanOf(Some(ConfigOf(name, writable)), [], KimiSkipCopy()), State(map[], 2), 0) ==
            (true, State(map[[] := Dir(true), [name] := File([], writable)], 0))
  {
    hide PlanOf, KimiSkipCopy;
    var root: Path := [];
    var w := Write([name], [], writable);
    var empty, made: Disk := map[], map[root := Dir(true)];
    ConfigOfPlan(name, writable);
    FirstOp(Mkdir(root, true), [w], State(empty, 2), 0);
    assert [Mkdir(root, true)] + [w] == [Mkdir(root, true), w];
    MergeNothing(made);
    ExecOne(w, State(made, 1), 0);
    assert Parent([name]) == [];
    assert Merge(made, map[[name] := File([], writable)]) == map[root := Dir(true), [name] := File([], writable)];
  }

  lemma NotSkipped(name: bytes)
    requires name == Ascii(".seeded") || name == Ascii("agents.md")
    ensures [name] !in KimiSkipCopy()
  {
    assert name[0] != Ascii("updates")[0] && [name][0] == name;
    assert forall p | p in KimiSkipCopy() :: |p| == 1 && p[0] != name;
  }

  // A first launch let down after the configuration has been copied.
  lemma StoppedAfterConfig(j: Json, host: Host, project: bytes, historyName: bytes, name: bytes, writable: bool)
    requires [name] !in KimiSkipCopy()
    ensures Prepared(j, host, Some(ConfigOf(name, writable)), project, historyName, State(map[], 2), 0) ==
            (false, State(map[[] := Dir(true), [name] := File([], writable)], 0))
  {
    hide SeedPlan, KimiSkipCopy, PlanOf, Marker, Exec, Step;
    var config := Some(ConfigOf(name, writable));
    var copy := PlanOf(config, [], KimiSkipCopy());
    var rest := [Mkdir([Ascii("oauth")], true)] + SeedPlan(j, host, project, historyName);
    var creds := [Mkdir([Ascii("credentials")], true)] + rest;
    var s, s1 := State(map[], 2), State(map[[] := Dir(true), [name] := File([], writable)], 0);
    ConfigOfCopied(name, writable);
    ExecConcat(Contents(j, host, config, project, historyName), [Write(Marker(), [], true)], s, 0);
    ExecConcat(copy, creds, s, 0);
    FirstOp(Mkdir([Ascii("credentials")], true), rest, s1, 0);
    LetDown(Mkdir([Ascii("credentials")], true), s1);
  }

  /**
   * With a file named .seeded in the configuration a launch let down after that file was copied leaves a store
   * that passes for seeded: every later launch accepts it although its session index was never written.
   */
  lemma MarkedConfigStopsSeeding(j: Json, host: Host, project: bytes, historyName: bytes, budget: nat, cut: nat)
    ensures var config := Some(ConfigOf(Ascii(".seeded"), true));
            var half := Prepared(j, host, config, project, historyName, State(map[], 2), 0);
            !half.0 && Marker() in half.1.disk && IndexFile() !in half.1.disk &&
            Prepared(j, host, config, project, historyName, State(half.1.disk, budget), cut)
            == (true, State(half.1.disk, budget))
  {
    hide FullPlan, KimiSkipCopy;
    NotSkipped(Ascii(".seeded"));
    StoppedAfterConfig(j, host, project, historyName, Ascii(".seeded"), true);
    assert Marker()[0] != IndexFile()[0];
  }

  /** The store was never completed and holds a read-only file that copying the configuration has to write. */
  ghost predicate Stuck(config: Option<Tree>, d: Disk, q: Path) {
    Marker() !in d && Sealed(d, q) && exists op :: op in PlanOf(config, [], KimiSkipCopy()) && op.Write? && op.p == q
  }

  lemma LaunchStuck(j: Json, host: Host, config: Option<Tree>, project: bytes, historyName: bytes, s: State, cut: nat,
                    q: Path)
    requires config.Some? && WellFormed(config.value) && LacksMarker(config) &&
             Readable(config.value, [], KimiSkipCopy())
    requires Stuck(config, s.disk, q)
    ensures var r := Prepared(j, host, config, project, historyName, s, cut); !r.0 && Stuck(config, r.1.disk, q)
  {
    hide Exec, SeedPlan, CopyPlan, KimiSkipCopy, Marker, WellFormed, Sealed, Readable, Find, Overlay;
    var copy := PlanOf(config, [], KimiSkipCopy());
    var rest := [Mkdir([Ascii("credentials")], true)] +
                ([Mkdir([Ascii("oauth")], true)] + SeedPlan(j, host, project, historyName));
    ExecConcat(Contents(j, host, config, project, historyName), [Write(Marker(), [], true)], s, cut);
    ExecConcat(copy, rest, s, cut);
    SealedBlocks(copy, s, cut, q);
    ExecKeys(copy, s, cut);
    AbortIff(config.value, [], [], KimiSkipCopy());
    CopyOverlay(config.value, [], [], KimiSkipCopy(), Marker());
    MarkerNotSkipped(config.value);
  }

  /**
   * Once a file without write permission has been copied and the seed was not completed, it never is: every
   * later launch fails, over any run of them.
   */
  lemma {:induction false} NeverSeeded(j: Json, host: Host, config: Option<Tree>, project: bytes, historyName: bytes,
                                       d: Disk, q: Path, faults: seq<Fault>, budget: nat, cut: nat)
    requires config.Some? && WellFormed(config.value) && LacksMarker(config) &&
             Readable(config.value, [], KimiSkipCopy())
    requires Stuck(config, d, q)
    ensures var y := Launches(j, host, config, project, historyName, d, faults);
            !Prepared(j, host, config, project, historyName, State(y, budget), cut).0
    decreases |faults|
  {
    hide Prepared, Stuck, LacksMarker, Readable, KimiSkipCopy, WellFormed;
    if faults == [] {
      LaunchStuck(j, host, config, project, historyName, State(d, budget), cut, q);
    } else {
      var f := faults[0];
      LaunchStuck(j, host, config, project, historyName, State(d, f.budget), f.cut, q);
      var d' := Prepared(j, host, config, project, historyName, State(d, f.budget), f.cut).1.disk;
      NeverSeeded(j, host, config, project, historyName, d', q, faults[1..], budget, cut);
    }
  }

  lemma ConfigOfGood(name: bytes, writable: bool)
    requires name != Ascii(".seeded")
    ensures var t := ConfigOf(name, writable);
            WellFormed(t) && Readable(t, [], KimiSkipCopy()) && LacksMarker(Some(t))
  {
    hide KimiSkipCopy;
    var t := ConfigOf(name, writable);
    assert t.entries[1..] == [];
    assert Marker()[0] == Ascii(".seeded");
    assert FindEntry(t.entries, Marker()[0]) == FindEntry([], Marker()[0]);
  }
}
