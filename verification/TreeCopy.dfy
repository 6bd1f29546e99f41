/** Copying a directory tree, with and without a set of paths to leave out. */
module TreeCopy {
  import opened Bytes
  import opened Options
  import opened Disk

  /**
   * The tree copied from.  Special is anything but a regular file or a directory; a file
   * that cannot be opened or a directory that cannot be listed is not readable; writable is
   * the owner's write permission.
   */
  datatype Tree =
    | Regular(content: bytes, readable: bool, writable: bool)
    | Folder(entries: seq<Entry>, readable: bool, writable: bool)
    | Special(writable: bool)

  datatype Entry = Entry(name: bytes, tree: Tree)

  predicate DistinctNames(es: seq<Entry>) {
    forall i, j | 0 <= i < j < |es| :: es[i].name != es[j].name
  }

  predicate WellFormed(t: Tree) {
    t.Folder? ==> DistinctNames(t.entries) && forall e | e in t.entries :: WellFormed(e.tree)
  }

  // ----- The operations a copy carries out -----

  function CopyPlan(t: Tree, dst: Path, rel: Path, skip: set<Path>): seq<Op>
    decreases t
  {
    [Mkdir(dst + rel, t.writable)] +
      (if t.Folder? && t.readable then EntriesPlan(t.entries, dst, rel, skip) else [Abort])
  }

  function EntriesPlan(es: seq<Entry>, dst: Path, rel: Path, skip: set<Path>): seq<Op>
    decreases es
  {
    if es == [] then [] else EntryPlan(es[0], dst, rel, skip) + EntriesPlan(es[1..], dst, rel, skip)
  }

  function EntryPlan(e: Entry, dst: Path, rel: Path, skip: set<Path>): seq<Op>
    decreases e
  {
    var child := rel + [e.name];
    if child in skip then []
    else
      match e.tree
      case Folder(_, _, _) => CopyPlan(e.tree, dst, child, skip)
      case Regular(content, readable, w) => FilePlan(content, readable, w, dst + child)
      case Special(_) => []
  }

  /** The file is created with the permission of its source. */
  function FilePlan(content: bytes, readable: bool, writable: bool, p: Path): seq<Op> {
    if readable then [Write(p, content, writable)] else [Abort]
  }

  /** A source that does not exist copies nothing and fails. */
  function PlanOf(src: Option<Tree>, dst: Path, skip: set<Path>): seq<Op> {
    match src
    case None => [Abort]
    case Some(t) => CopyPlan(t, dst, [], skip)
  }

  // ----- The methods -----

  method CopyFile(content: bytes, readable: bool, writable: bool, p: Path, vol: Volume) returns (ok: bool)
    modifies vol
    ensures (ok, vol.Now()) == Exec(FilePlan(content, readable, writable, p), old(vol.Now()), vol.cut)
  {
    hide Step;
    if !readable {
      ghost var s := vol.Now();
      ExecOne(Abort, s, vol.cut);
      AbortStep(s, vol.cut);
      return false;
    }
    ExecOne(Write(p, content, writable), vol.Now(), vol.cut);
    ok := vol.Do(Write(p, content, writable));
  }

  lemma AbortStep(s: State, cut: nat)
    ensures Step(Abort, s, cut) == (false, s)
  {
  }

  method CopyDirRel(t: Tree, dst: Path, rel: Path, skip: set<Path>, vol: Volume) returns (ok: bool)
    modifies vol
    ensures (ok, vol.Now()) == Exec(CopyPlan(t, dst, rel, skip), old(vol.Now()), vol.cut)
    decreases t
  {
    hide Step, Exec, EntriesPlan, FilePlan;
    ghost var s := vol.Now();
    ghost var tail := if t.Folder? && t.readable then EntriesPlan(t.entries, dst, rel, skip) else [Abort];
    ExecConcat([Mkdir(dst + rel, t.writable)], tail, s, vol.cut);
    ExecOne(Mkdir(dst + rel, t.writable), s, vol.cut);
    ok := vol.Do(Mkdir(dst + rel, t.writable));
    if !ok {
      return;
    }
    ghost var s1 := vol.Now();
    if !t.Folder? || !t.readable {
      ExecOne(Abort, s1, vol.cut);
      AbortStep(s1, vol.cut);
      return false;
    }
    assert t.entries[0..] == t.entries;
    for i := 0 to |t.entries|
      invariant Exec(EntriesPlan(t.entries, dst, rel, skip), s1, vol.cut) ==
                Exec(EntriesPlan(t.entries[i..], dst, rel, skip), vol.Now(), vol.cut)
    {
      PlanEntry(t.entries, i, dst, rel, skip, vol.Now(), vol.cut);
      var e := t.entries[i];
      var child := rel + [e.name];
      if child in skip {
        continue;
      }
      if e.tree.Folder? {
        ok := CopyDirRel(e.tree, dst, child, skip, vol);
        if !ok {
          return;
        }
      } else if e.tree.Regular? {
        ok := CopyFile(e.tree.content, e.tree.readable, e.tree.writable, dst + child, vol);
        if !ok {
          return;
        }
      }
    }
    PlanEnd(t.entries, dst, rel, skip, vol.Now(), vol.cut);
    return true;
  }

  lemma PlanEntry(es: seq<Entry>, i: nat, dst: Path, rel: Path, skip: set<Path>, s: State, cut: nat)
    requires i < |es|
    ensures var r := Exec(EntryPlan(es[i], dst, rel, skip), s, cut);
            Exec(EntriesPlan(es[i..], dst, rel, skip), s, cut) ==
            if r.0 then Exec(EntriesPlan(es[i + 1..], dst, rel, skip), r.1, cut) else r
    ensures Exec([], s, cut) == (true, s)
  {
    hide EntryPlan, Step;
    assert es[i..][1..] == es[i + 1..];
    ExecConcat(EntryPlan(es[i], dst, rel, skip), EntriesPlan(es[i + 1..], dst, rel, skip), s, cut);
  }

  lemma PlanEnd(es: seq<Entry>, dst: Path, rel: Path, skip: set<Path>, s: State, cut: nat)
    ensures Exec(EntriesPlan(es[|es|..], dst, rel, skip), s, cut) == (true, s)
  {
  }

  method CopyDirExcept(src: Option<Tree>, dst: Path, skip: set<Path>, vol: Volume) returns (ok: bool)
    modifies vol
    ensures (ok, vol.Now()) == Exec(PlanOf(src, dst, skip), old(vol.Now()), vol.cut)
  {
    hide CopyPlan, Step;
    if src.None? {
      ghost var s := vol.Now();
      ExecOne(Abort, s, vol.cut);
      AbortStep(s, vol.cut);
      return false;
    }
    ok := CopyDirRel(src.value, dst, [], skip, vol);
  }

  // CopyDir is written separately from CopyDirExcept; it joins names to its destination as it descends.
  method CopyDir(src: Option<Tree>, dst: Path, vol: Volume) returns (ok: bool)
    modifies vol
    ensures (ok, vol.Now()) == Exec(PlanOf(src, dst, {}), old(vol.Now()), vol.cut)
    decreases src.Some?, if src.Some? then src.value else Special(true)
  {
    hide Step, Exec, EntriesPlan, FilePlan;
    ghost var s := vol.Now();
    if src.None? {
      ExecOne(Abort, s, vol.cut);
      AbortStep(s, vol.cut);
      return false;
    }
    var t := src.value;
    ghost var tail := if t.Folder? && t.readable then EntriesPlan(t.entries, dst, [], {}) else [Abort];
    assert dst + [] == dst;
    ExecConcat([Mkdir(dst, t.writable)], tail, s, vol.cut);
    ExecOne(Mkdir(dst, t.writable), s, vol.cut);
    ok := vol.Do(Mkdir(dst, t.writable));
    if !ok {
      return;
    }
    ghost var s1 := vol.Now();
    if !t.Folder? || !t.readable {
      ExecOne(Abort, s1, vol.cut);
      AbortStep(s1, vol.cut);
      return false;
    }
    assert t.entries[0..] == t.entries;
    for i := 0 to |t.entries|
      invariant Exec(EntriesPlan(t.entries, dst, [], {}), s1, vol.cut) ==
                Exec(EntriesPlan(t.entries[i..], dst, [], {}), vol.Now(), vol.cut)
    {
      PlanEntry(t.entries, i, dst, [], {}, vol.Now(), vol.cut);
      var e := t.entries[i];
      var dstPath := dst + [e.name];
      assert [] + [e.name] == [e.name];
      if e.tree.Folder? {
        Rebase(e.tree, dst, [e.name]);
        ok := CopyDir(Some(e.tree), dstPath, vol);
        if !ok {
          return;
        }
      } else if e.tree.Regular? {
        ok := CopyFile(e.tree.content, e.tree.readable, e.tree.writable, dstPath, vol);
        if !ok {
          return;
        }
      }
    }
    PlanEnd(t.entries, dst, [], {}, vol.Now(), vol.cut);
    return true;
  }

  /** With nothing to leave out it does not matter which part of a path is the destination. */
  lemma {:induction false} Rebase(t: Tree, dst: Path, rel: Path)
    ensures CopyPlan(t, dst, rel, {}) == CopyPlan(t, dst + rel, [], {})
    decreases t, 1
  {
    assert dst + rel + [] == dst + rel;
    if t.Folder? {
      RebaseEntries(t.entries, dst, rel);
    }
  }

  lemma {:induction false} RebaseEntries(es: seq<Entry>, dst: Path, rel: Path)
    ensures EntriesPlan(es, dst, rel, {}) == EntriesPlan(es, dst + rel, [], {})
    decreases es, 0
  {
    hide CopyPlan;
    if es != [] {
      var n := es[0].name;
      RebaseEntries(es[1..], dst, rel);
      assert dst + (rel + [n]) == (dst + rel) + ([] + [n]);
      if es[0].tree.Folder? {
        Rebase(es[0].tree, dst, rel + [n]);
        Rebase(es[0].tree, dst + rel, [] + [n]);
      }
    }
  }

  // ----- What a copy means -----

  function FindEntry(es: seq<Entry>, name: bytes): Option<Tree> {
    if es == [] then None else if es[0].name == name then Some(es[0].tree) else FindEntry(es[1..], name)
  }

  lemma FindEntryIn(es: seq<Entry>, name: bytes)
    ensures FindEntry(es, name).Some? ==> exists e | e in es :: e.name == name && e.tree == FindEntry(es, name).value
    ensures FindEntry(es, name).None? ==> forall e | e in es :: e.name != name
    decreases |es|
  {
    if es != [] {
      FindEntryIn(es[1..], name);
      assert es == [es[0]] + es[1..];
    }
  }

  /** What lies at path p of the tree. */
  function Find(t: Tree, p: Path): Option<Tree>
    decreases |p|
  {
    if p == [] then Some(t)
    else if !t.Folder? then None
    else
      var c :- FindEntry(t.entries, p[0]);
      Find(c, p[1..])
  }

  lemma FindWellFormed(t: Tree, p: Path)
    requires WellFormed(t) && Find(t, p).Some?
    ensures WellFormed(Find(t, p).value)
    decreases |p|
  {
    if p != [] {
      FindEntryIn(t.entries, p[0]);
      FindWellFormed(FindEntry(t.entries, p[0]).value, p[1..]);
    }
  }

  function Image(t: Option<Tree>): Option<Node> {
    match t
    case Some(Regular(content, _, w)) => Some(File(content, w))
    case Some(Folder(_, _, w)) => Some(Dir(w))
    case _ => None
  }

  /** No path on the way from rel to rel + p is to be left out. */
  predicate Kept(rel: Path, p: Path, skip: set<Path>) {
    forall k | 1 <= k <= |p| :: rel + p[..k] !in skip
  }

  /** What a copy of t to base puts at q: the directories down to base, and below it the kept part of t. */
  function Want(t: Tree, base: Path, rel: Path, skip: set<Path>, q: Path): Option<Node> {
    if q <= base then Some(Dir(t.writable))
    else Below(t, base, rel, skip, q)
  }

  function Below(t: Tree, base: Path, rel: Path, skip: set<Path>, q: Path): Option<Node> {
    if base < q && Kept(rel, q[|base|..], skip) then Image(Find(t, q[|base|..])) else None
  }

  /** The part of a copy's result that the entries es account for. */
  function BelowEntries(es: seq<Entry>, base: Path, rel: Path, skip: set<Path>, q: Path): Option<Node> {
    if base < q && Kept(rel, q[|base|..], skip) && FindEntry(es, q[|base|]).Some?
    then Image(Find(FindEntry(es, q[|base|]).value, q[|base| + 1..])) else None
  }

  lemma BelowFolder(t: Tree, base: Path, rel: Path, skip: set<Path>, q: Path)
    requires t.Folder?
    ensures Below(t, base, rel, skip, q) == BelowEntries(t.entries, base, rel, skip, q)
  {
    hide FindEntry;
    if base < q {
      assert q[|base|..][0] == q[|base|] && q[|base|..][1..] == q[|base| + 1..];
    }
  }

  lemma KeptStep(rel: Path, p: Path, skip: set<Path>)
    requires p != []
    ensures Kept(rel, p, skip) <==> rel + [p[0]] !in skip && Kept(rel + [p[0]], p[1..], skip)
  {
    assert rel + p[..1] == rel + [p[0]];
    if rel + [p[0]] !in skip && Kept(rel + [p[0]], p[1..], skip) {
      forall k | 1 <= k <= |p|
        ensures rel + p[..k] !in skip
      {
        if k > 1 {
          assert rel + p[..k] == rel + [p[0]] + p[1..][..k - 1];
        }
      }
    }
    if Kept(rel, p, skip) {
      forall k | 1 <= k <= |p[1..]|
        ensures rel + [p[0]] + p[1..][..k] !in skip
      {
        assert rel + [p[0]] + p[1..][..k] == rel + p[..k + 1];
      }
    }
  }

  /** What the operations for one entry put at a path strictly below base. */
  function BelowEntry(e: Entry, base: Path, rel: Path, skip: set<Path>, q: Path): Option<Node> {
    if base + [e.name] <= q && Kept(rel, q[|base|..], skip) then Image(Find(e.tree, q[|base| + 1..])) else None
  }

  lemma BelowEntriesStep(es: seq<Entry>, base: Path, rel: Path, skip: set<Path>, q: Path)
    requires es != [] && DistinctNames(es)
    ensures BelowEntries(es, base, rel, skip, q) ==
            if BelowEntries(es[1..], base, rel, skip, q).Some? then BelowEntries(es[1..], base, rel, skip, q)
            else BelowEntry(es[0], base, rel, skip, q)
    ensures BelowEntries(es[1..], base, rel, skip, q).Some? ==> BelowEntry(es[0], base, rel, skip, q).None?
    ensures DistinctNames(es[1..])
  {
    hide Find, Kept, Image;
    if base < q {
      assert base + [es[0].name] <= q <==> q[|base|] == es[0].name by { ChildPrefix(base, es[0].name, q); }
      FindEntryIn(es[1..], es[0].name);
    } else {
      assert !(base + [es[0].name] <= q) by { ChildPrefix(base, es[0].name, q); }
    }
  }

  lemma ChildPrefix(base: Path, name: bytes, q: Path)
    ensures base + [name] <= q <==> base < q && q[|base|] == name
  {
    if base < q && q[|base|] == name {
      assert q[..|base| + 1] == base + [name];
    }
  }

  lemma {:induction false} NoAbort(ops: seq<Op>, s: State, cut: nat)
    requires Exec(ops, s, cut).0
    ensures Abort !in ops
    decreases |ops|
  {
    if ops != [] {
      NoAbort(ops[1..], Step(ops[0], s, cut).1, cut);
      assert ops == [ops[0]] + ops[1..];
    }
  }

  lemma OverlayOne(op: Op)
    ensures Overlay([op]) == Effect(op)
  {
    hide Merge, Effect;
    assert [op][1..] == [];
    MergeNothing(Effect(op));
  }

  lemma MkdirOverlay(p: Path, w: bool, q: Path)
    ensures Get(Overlay([Mkdir(p, w)]), q) == if q <= p then Some(Dir(w)) else None
  {
    hide Overlay;
    DirsAre(p, w, q);
    OverlayOne(Mkdir(p, w));
  }

  lemma WriteOverlay(p: Path, c: bytes, w: bool, q: Path)
    ensures Get(Overlay([Write(p, c, w)]), q) == if q == p then Some(File(c, w)) else None
  {
    hide Overlay;
    OverlayOne(Write(p, c, w));
  }

  lemma GetConcat(a: seq<Op>, b: seq<Op>, q: Path)
    ensures Get(Overlay(a + b), q) == Put(Get(Overlay(a), q), Get(Overlay(b), q))
  {
    hide Merge, Overlay;
    OverlayConcat(a, b);
    GetMerge(Overlay(a), Overlay(b));
  }

  // The whole result of a copy, directories above it included.
  lemma {:induction false} CopyOverlay(t: Tree, dst: Path, rel: Path, skip: set<Path>, q: Path)
    requires WellFormed(t) && Abort !in CopyPlan(t, dst, rel, skip)
    ensures Get(Overlay(CopyPlan(t, dst, rel, skip)), q) == Want(t, dst + rel, rel, skip, q)
    decreases t, 2
  {
    hide Below, BelowEntries, EntriesPlan;
    var base := dst + rel;
    var rest := EntriesPlan(t.entries, dst, rel, skip);
    GetConcat([Mkdir(base, t.writable)], rest, q);
    MkdirOverlay(base, t.writable, q);
    BelowFolder(t, base, rel, skip, q);
    EntriesOverlay(t.entries, dst, rel, skip, q);
  }

  // Strictly below base the entries' operations put what is wanted; at or above it only directories.
  lemma {:induction false} EntriesOverlay(es: seq<Entry>, dst: Path, rel: Path, skip: set<Path>, q: Path)
    requires DistinctNames(es) && forall e | e in es :: WellFormed(e.tree)
    requires Abort !in EntriesPlan(es, dst, rel, skip)
    ensures var got := Get(Overlay(EntriesPlan(es, dst, rel, skip)), q);
            if q <= dst + rel then got == None || got.value.Dir?
            else got == BelowEntries(es, dst + rel, rel, skip, q)
    decreases es, 1
  {
    hide EntryPlan, BelowEntry, DistinctNames, WellFormed, Kept, Find, Overlay, Merge;
    NothingOverlaid(q);
    if es != [] {
      var first, rest := EntryPlan(es[0], dst, rel, skip), EntriesPlan(es[1..], dst, rel, skip);
      assert es[0] in es;
      GetConcat(first, rest, q);
      BelowEntriesStep(es, dst + rel, rel, skip, q);
      EntryOverlay(es[0], dst, rel, skip, q);
      EntriesOverlay(es[1..], dst, rel, skip, q);
    }
  }

  lemma {:induction false} EntryOverlay(e: Entry, dst: Path, rel: Path, skip: set<Path>, q: Path)
    requires WellFormed(e.tree) && Abort !in EntryPlan(e, dst, rel, skip)
    ensures var got := Get(Overlay(EntryPlan(e, dst, rel, skip)), q);
            if q <= dst + rel then got == None || got.value.Dir?
            else got == BelowEntry(e, dst + rel, rel, skip, q)
    decreases e, 0
  {
    hide CopyPlan, WellFormed, Kept, Overlay;
    var base, child := dst + rel, rel + [e.name];
    assert dst + child == base + [e.name];
    NothingOverlaid(q);
    if base + [e.name] <= q {
      ChildPrefix(base, e.name, q);
      assert q[|base|..][0] == e.name && q[|base|..][1..] == q[|base| + 1..];
      KeptStep(rel, q[|base|..], skip);
    }
    if child !in skip {
      if e.tree.Folder? {
        CopyOverlay(e.tree, dst, child, skip, q);
        WantChild(e, base, child, skip, q);
      } else if e.tree.Regular? {
        WriteOverlay(dst + child, e.tree.content, e.tree.writable, q);
        KeptNothing(child, skip);
      }
    }
  }

  lemma NothingOverlaid(q: Path)
    ensures Get(Overlay([]), q) == None && Get(Overlay([Abort]), q) == None
  {
    OverlayOne(Abort);
  }

  lemma KeptNothing(rel: Path, skip: set<Path>)
    ensures Kept(rel, [], skip)
  {
  }

  lemma WantChild(e: Entry, base: Path, child: Path, skip: set<Path>, q: Path)
    requires e.tree.Folder?
    ensures var below := base + [e.name];
            Want(e.tree, below, child, skip, q) ==
            if q <= base then Some(Dir(e.tree.writable))
            else if below <= q && Kept(child, q[|base| + 1..], skip) then Image(Find(e.tree, q[|base| + 1..]))
            else None
  {
    hide Kept;
    var below := base + [e.name];
    KeptNothing(child, skip);
    if q <= below && q != below {
      assert q <= base by { assert q == below[..|q|] == base[..|q|]; }
    }
    if q <= base {
      assert q <= below by { assert q == base[..|q|] == below[..|q|]; }
    }
    if q == below {
      assert q[|base| + 1..] == [];
    }
  }

  /**
   * On success the destination holds, below dst, exactly what the tree has at the paths no
   * part of which is left out, with the tree's permissions where nothing was before and the old
   * ones elsewhere; dst and the directories above it exist; every other path is as it was.
   */
  lemma CopyMeaning(t: Tree, dst: Path, skip: set<Path>, s: State, cut: nat, q: Path)
    requires WellFormed(t) && Exec(PlanOf(Some(t), dst, skip), s, cut).0
    ensures var after := Exec(PlanOf(Some(t), dst, skip), s, cut).1.disk;
            Get(after, q) == Put(Get(s.disk, q), Want(t, dst, [], skip, q))
  {
    hide Want, Exec, CopyPlan, WellFormed, Merge, Overlay;
    var plan := CopyPlan(t, dst, [], skip);
    NoAbort(plan, s, cut);
    ExecOverlay(plan, s, cut);
    GetMerge(s.disk, Overlay(plan));
    CopyOverlay(t, dst, [], skip, q);
    assert dst + [] == dst;
  }

  /** Item by item: what a path below the source becomes where the destination had nothing. */
  lemma CopiedItem(t: Tree, dst: Path, skip: set<Path>, s: State, cut: nat, p: Path)
    requires WellFormed(t) && Exec(PlanOf(Some(t), dst, skip), s, cut).0 && p != [] && dst + p !in s.disk
    ensures var item, copy := Find(t, p), Get(Exec(PlanOf(Some(t), dst, skip), s, cut).1.disk, dst + p);
            if (exists k | 1 <= k <= |p| :: p[..k] in skip) || item.None? || item.value.Special? then copy == None
            else if item.value.Folder? then copy == Some(Dir(item.value.writable))
            else copy == Some(File(item.value.content, item.value.writable))
  {
    hide Exec, CopyPlan, WellFormed, Find;
    CopyMeaning(t, dst, skip, s, cut, dst + p);
    assert dst < dst + p && (dst + p)[|dst|..] == p;
    assert forall k | 1 <= k <= |p| :: [] + p[..k] == p[..k];
    assert Put(None, Want(t, dst, [], skip, dst + p)) == Want(t, dst, [], skip, dst + p);
  }

  // ----- When a copy succeeds -----

  /** Every directory and regular file that is not left out can be read. */
  predicate Readable(t: Tree, rel: Path, skip: set<Path>)
    decreases t
  {
    t.Folder? && t.readable && forall e | e in t.entries :: ReadableEntry(e, rel, skip)
  }

  predicate ReadableEntry(e: Entry, rel: Path, skip: set<Path>)
    decreases e
  {
    var child := rel + [e.name];
    child in skip || e.tree.Special? || (if e.tree.Folder? then Readable(e.tree, child, skip) else e.tree.readable)
  }

  lemma {:induction false} AbortIff(t: Tree, dst: Path, rel: Path, skip: set<Path>)
    ensures Abort !in CopyPlan(t, dst, rel, skip) <==> Readable(t, rel, skip)
    decreases t, 1
  {
    if t.Folder? && t.readable {
      EntriesAbortIff(t.entries, dst, rel, skip);
    } else {
      assert Abort in [Abort];
    }
  }

  lemma {:induction false} EntriesAbortIff(es: seq<Entry>, dst: Path, rel: Path, skip: set<Path>)
    ensures Abort !in EntriesPlan(es, dst, rel, skip) <==> forall e | e in es :: ReadableEntry(e, rel, skip)
    decreases es, 0
  {
    hide EntryPlan, ReadableEntry;
    if es != [] {
      EntriesAbortIff(es[1..], dst, rel, skip);
      assert es == [es[0]] + es[1..];
      EntryAbortIff(es[0], dst, rel, skip);
    }
  }

  lemma {:induction false} EntryAbortIff(e: Entry, dst: Path, rel: Path, skip: set<Path>)
    ensures Abort !in EntryPlan(e, dst, rel, skip) <==> ReadableEntry(e, rel, skip)
    decreases e, 0
  {
    hide CopyPlan, Readable;
    assert Abort in [Abort];
    if e.tree.Folder? {
      AbortIff(e.tree, dst, rel + [e.name], skip);
    }
  }

  /**
   * What is wanted at a path can be put there: over something of its kind, which if it is a file can be
   * written to, or into a directory that can be.
   */
  predicate FitAt(d: Option<Node>, want: Option<Node>, above: Option<Node>) {
    want.Some? ==>
      if d.Some? then Alike(d, want) && (want.value.File? ==> d.value.writable)
      else above.Some? && above.value == Dir(true)
  }

  /** What is to be found at the parent of q once wants are put into d; what holds the root can be written to. */
  function Above(d: Disk, want: Path -> Option<Node>, q: Path): Option<Node> {
    if q == [] then Some(Dir(true)) else Put(Get(d, Parent(q)), want(Parent(q)))
  }

  ghost predicate Fits(d: Disk, want: Path -> Option<Node>) {
    forall q :: FitAt(Get(d, q), want(q), Above(d, want, q))
  }

  // Fitting is kept where nothing changes, and where a directory is in place that can be added to as before.
  predicate Settled(a: Option<Node>, f: Option<Node>, a': Option<Node>, f': Option<Node>) {
    (f' == f && a' == a) ||
    (a'.Some? && a'.value.Dir? && f'.Some? && f'.value.Dir? && SameMode(Put(a, f), Put(a', f')))
  }

  lemma FitsMove(d: Disk, f: Path -> Option<Node>, d': Disk, f': Path -> Option<Node>)
    requires Fits(d, f)
    requires forall q | f'(q).Some? :: Settled(Get(d, q), f(q), Get(d', q), f'(q))
    requires forall q | q != [] && f'(q).Some? :: f'(Parent(q)).Some?
    ensures Fits(d', f')
  {
    hide Get, Parent;
    forall q
      ensures FitAt(Get(d', q), f'(q), Above(d', f', q))
    {
      assert FitAt(Get(d, q), f(q), Above(d, f, q));
    }
  }

  lemma FitsMkdir(d: Disk, f: Path -> Option<Node>, p: Path, w: bool)
    requires Fits(d, f) && forall q | q <= p :: f(q) == Some(Dir(w))
    ensures CanMkdir(p, w, d)
  {
    forall q | q in Dirs(p, w)
      ensures if q in d then d[q].Dir? else q == [] || CanAdd(d, Parent(q)) || (Parent(q) !in d && w)
    {
      assert FitAt(Get(d, q), f(q), Above(d, f, q));
      if q !in d && q != [] {
        assert Parent(q) <= p;
        assert FitAt(Get(d, Parent(q)), f(Parent(q)), Above(d, f, Parent(q)));
      }
    }
  }

  lemma FitsWrite(d: Disk, f: Path -> Option<Node>, p: Path)
    requires Fits(d, f) && p != [] && f(p).Some? && f(p).value.File? && IsDir(d, Parent(p))
    ensures CanWrite(p, d)
  {
    assert FitAt(Get(d, p), f(p), Above(d, f, p));
  }

  /** What a copy of the entries es to base puts in place, the directories down to base included. */
  function WantsOf(es: seq<Entry>, base: Path, w: bool, rel: Path, skip: set<Path>): Path -> Option<Node> {
    q => if q <= base then Some(Dir(w)) else BelowEntries(es, base, rel, skip, q)
  }

  ghost predicate DirsDown(d: Disk, base: Path) {
    forall q | q <= base :: q in d && d[q].Dir?
  }

  lemma ChildOf(base: Path, q: Path)
    requires q != [] && !(q <= base)
    ensures Parent(q) <= base ==> Parent(q) == base || !(base < q)
    ensures base < q ==> base <= Parent(q)
  {
    if base < q {
      assert base == q[..|base|] == Parent(q)[..|base|];
    }
  }

  // What is wanted above something wanted is a directory.
  lemma BelowParent(es: seq<Entry>, base: Path, rel: Path, skip: set<Path>, q: Path)
    requires q != [] && BelowEntries(es, base, rel, skip, q).Some? && Parent(q) != base
    ensures BelowEntries(es, base, rel, skip, Parent(q)).Some? &&
            BelowEntries(es, base, rel, skip, Parent(q)).value.Dir?
  {
    hide FindEntry;
    var p := Parent(q);
    assert base <= p by { ChildOf(base, q); }
    assert p[|base|] == q[|base|];
    var c := FindEntry(es, q[|base|]).value;
    KeptPrefix(rel, q[|base|..], p[|base|..], skip);
    assert p[|base| + 1..] <= q[|base| + 1..];
    FindPrefix(c, q[|base| + 1..], p[|base| + 1..]);
  }

  lemma KeptPrefix(rel: Path, p: Path, p': Path, skip: set<Path>)
    requires Kept(rel, p, skip) && p' <= p
    ensures Kept(rel, p', skip)
  {
    assert forall k | 1 <= k <= |p'| :: p'[..k] == p[..k];
  }

  // Whatever lies below another path lies in a directory.
  lemma FindPrefix(t: Tree, p: Path, q: Path)
    requires Find(t, p).Some? && q <= p && q != p
    ensures Find(t, q).Some? && Find(t, q).value.Folder?
    decreases |p|
  {
    if q != [] {
      assert q[1..] <= p[1..];
      assert [p[0]] + p[1..] == p && [q[0]] + q[1..] == q;
      FindPrefix(FindEntry(t.entries, p[0]).value, p[1..], q[1..]);
    }
  }

  lemma WantsClosed(es: seq<Entry>, base: Path, w: bool, rel: Path, skip: set<Path>)
    ensures forall q | q != [] && WantsOf(es, base, w, rel, skip)(q).Some? ::
              WantsOf(es, base, w, rel, skip)(Parent(q)).Some?
  {
    hide BelowEntries;
    forall q | q != [] && WantsOf(es, base, w, rel, skip)(q).Some?
      ensures WantsOf(es, base, w, rel, skip)(Parent(q)).Some?
    {
      if q <= base {
        assert Parent(q) <= base by { assert Parent(q) == base[..|q| - 1]; }
      } else if Parent(q) != base {
        BelowParent(es, base, rel, skip, q);
      }
    }
  }

  // Once base is there, the entries fit into it.
  lemma FitsBelow(es: seq<Entry>, base: Path, w: bool, rel: Path, skip: set<Path>, d: Disk)
    requires Fits(d, WantsOf(es, base, w, rel, skip))
    ensures CanMkdir(base, w, d)
    ensures Fits(Merge(d, Dirs(base, w)), WantsOf(es, base, w, rel, skip)) && DirsDown(Merge(d, Dirs(base, w)), base)
  {
    hide Merge, BelowEntries, Get;
    var f := WantsOf(es, base, w, rel, skip);
    var d' := Merge(d, Dirs(base, w));
    FitsMkdir(d, f, base, w);
    DirsAgree(base, w, d);
    GetMerge(d, Dirs(base, w));
    WantsClosed(es, base, w, rel, skip);
    forall q | f(q).Some?
      ensures Settled(Get(d, q), f(q), Get(d', q), f(q))
    {
      assert Alike(Get(d, q), Get(Dirs(base, w), q));
      MkdirOverlay(base, w, q);
      OverlayOne(Mkdir(base, w));
    }
    FitsMove(d, f, d', f);
    DownAfterMkdir(d, base, w);
  }

  lemma DownAfterMkdir(d: Disk, base: Path, w: bool)
    ensures DirsDown(Merge(d, Dirs(base, w)), base)
  {
    forall q | q <= base
      ensures q in Merge(d, Dirs(base, w)) && Merge(d, Dirs(base, w))[q].Dir?
    {
      DirsAre(base, w, q);
    }
  }

  // One entry among others is wanted just as if it were alone.
  lemma FitsEntry(es: seq<Entry>, base: Path, w: bool, rel: Path, skip: set<Path>, d: Disk)
    requires es != [] && DistinctNames(es) && Fits(d, WantsOf(es, base, w, rel, skip))
    ensures Fits(d, WantsOf([es[0]], base, w, rel, skip))
  {
    hide BelowEntries, Get, DistinctNames;
    var f, f' := WantsOf(es, base, w, rel, skip), WantsOf([es[0]], base, w, rel, skip);
    WantsClosed([es[0]], base, w, rel, skip);
    forall q | f'(q).Some?
      ensures f'(q) == f(q)
    {
      BelowAlone(es, base, rel, skip, q);
    }
    FitsMove(d, f, d, f');
  }

  lemma BelowAlone(es: seq<Entry>, base: Path, rel: Path, skip: set<Path>, q: Path)
    requires es != [] && DistinctNames(es)
    ensures BelowEntries([es[0]], base, rel, skip, q) == BelowEntry(es[0], base, rel, skip, q)
    ensures BelowEntry(es[0], base, rel, skip, q).Some? ==>
              BelowEntries(es, base, rel, skip, q) == BelowEntry(es[0], base, rel, skip, q)
  {
    hide Find, Kept, Image;
    ChildPrefix(base, es[0].name, q);
    BelowEntriesStep(es, base, rel, skip, q);
    BelowEntriesStep([es[0]], base, rel, skip, q);
    assert [es[0]][1..] == [];
  }

  // What one entry puts in place is out of the way of the others.
  lemma FitsRest(es: seq<Entry>, dst: Path, w: bool, rel: Path, skip: set<Path>, d: Disk)
    requires es != [] && DistinctNames(es) && WellFormed(es[0].tree) && Abort !in EntryPlan(es[0], dst, rel, skip)
    requires Fits(d, WantsOf(es, dst + rel, w, rel, skip)) && DirsDown(d, dst + rel)
    ensures var d' := Merge(d, Overlay(EntryPlan(es[0], dst, rel, skip)));
            Fits(d', WantsOf(es[1..], dst + rel, w, rel, skip)) && DirsDown(d', dst + rel)
  {
    hide BelowEntries, BelowEntry, DistinctNames, Merge, EntryPlan, Overlay, Get, WellFormed;
    var base, m := dst + rel, Overlay(EntryPlan(es[0], dst, rel, skip));
    var f, f' := WantsOf(es, base, w, rel, skip), WantsOf(es[1..], base, w, rel, skip);
    GetMerge(d, m);
    WantsClosed(es[1..], base, w, rel, skip);
    forall q | f'(q).Some?
      ensures Settled(Get(d, q), f(q), Get(Merge(d, m), q), f'(q))
    {
      EntryOverlay(es[0], dst, rel, skip, q);
      BelowEntriesStep(es, base, rel, skip, q);
      DirsDownGet(d, base, q);
    }
    FitsMove(d, f, Merge(d, m), f');
    forall q | q <= base
      ensures Get(Merge(d, m), q).Some? && Get(Merge(d, m), q).value.Dir?
    {
      EntryOverlay(es[0], dst, rel, skip, q);
      DirsDownGet(d, base, q);
    }
    DirsDownIf(Merge(d, m), base);
  }

  lemma DirsDownGet(d: Disk, base: Path, q: Path)
    requires DirsDown(d, base)
    ensures q <= base ==> Get(d, q).Some? && Get(d, q).value.Dir?
  {
  }

  lemma DirsDownIf(d: Disk, base: Path)
    requires forall q | q <= base :: Get(d, q).Some? && Get(d, q).value.Dir?
    ensures DirsDown(d, base)
  {
    forall q | q <= base
      ensures q in d && d[q].Dir?
    {
      assert Get(d, q).Some?;
    }
  }

  // A sub-directory on its own fits where it fits as an entry.
  lemma FitsChild(e: Entry, base: Path, w: bool, rel: Path, skip: set<Path>, d: Disk)
    requires e.tree.Folder? && rel + [e.name] !in skip
    requires Fits(d, WantsOf([e], base, w, rel, skip)) && DirsDown(d, base)
    ensures Fits(d, WantsOf(e.tree.entries, base + [e.name], e.tree.writable, rel + [e.name], skip))
  {
    hide BelowEntries, Get, DirsDown;
    var child, below := rel + [e.name], base + [e.name];
    var f, f' := WantsOf([e], base, w, rel, skip), WantsOf(e.tree.entries, below, e.tree.writable, child, skip);
    WantsClosed(e.tree.entries, below, e.tree.writable, child, skip);
    forall q | f'(q).Some?
      ensures Settled(Get(d, q), f(q), Get(d, q), f'(q))
    {
      DirsDownGet(d, base, q);
      if q <= base {
        assert q <= below by { assert q == below[..|q|]; }
      } else {
        ChildWants(e, base, rel, skip, q);
      }
    }
    FitsMove(d, f, d, f');
  }

  lemma ChildWants(e: Entry, base: Path, rel: Path, skip: set<Path>, q: Path)
    requires e.tree.Folder? && rel + [e.name] !in skip && !(q <= base)
    ensures var below := base + [e.name];
            BelowEntries([e], base, rel, skip, q) ==
            if q <= below then Some(Dir(e.tree.writable))
            else BelowEntries(e.tree.entries, below, rel + [e.name], skip, q)
  {
    hide Kept, Find, BelowEntries, Image;
    var child, below := rel + [e.name], base + [e.name];
    BelowAlone([e], base, rel, skip, q);
    WantChild(e, base, child, skip, q);
    BelowFolder(e.tree, below, child, skip, q);
    ChildPrefix(base, e.name, q);
    if below <= q {
      assert q[|base|..][0] == e.name && q[|base|..][1..] == q[|base| + 1..];
      KeptStep(rel, q[|base|..], skip);
    }
  }

  /** A readable tree is copied wherever it fits. */
  lemma {:induction false} CopyRuns(t: Tree, dst: Path, rel: Path, skip: set<Path>, s: State, cut: nat)
    requires WellFormed(t) && Readable(t, rel, skip) && |CopyPlan(t, dst, rel, skip)| <= s.budget
    requires Fits(s.disk, WantsOf(t.entries, dst + rel, t.writable, rel, skip))
    ensures Exec(CopyPlan(t, dst, rel, skip), s, cut).0
    decreases t, 2
  {
    hide Exec, EntriesPlan, Fits, DirsDown, Merge, ReadableEntry;
    var base, op := dst + rel, Mkdir(dst + rel, t.writable);
    var rest := EntriesPlan(t.entries, dst, rel, skip);
    FitsBelow(t.entries, base, t.writable, rel, skip, s.disk);
    FirstOp(op, rest, s, cut);
    EntriesRun(t.entries, dst, t.writable, rel, skip, State(Merge(s.disk, Effect(op)), s.budget - 1), cut);
  }

  lemma {:induction false} EntriesRun(es: seq<Entry>, dst: Path, w: bool, rel: Path, skip: set<Path>, s: State,
                                      cut: nat)
    requires DistinctNames(es) && forall e | e in es :: WellFormed(e.tree) && ReadableEntry(e, rel, skip)
    requires |EntriesPlan(es, dst, rel, skip)| <= s.budget
    requires Fits(s.disk, WantsOf(es, dst + rel, w, rel, skip)) && DirsDown(s.disk, dst + rel)
    ensures Exec(EntriesPlan(es, dst, rel, skip), s, cut).0
    decreases es, 1
  {
    hide EntryPlan, Fits, DirsDown, Merge, ReadableEntry, WellFormed, WantsOf, Step;
    if es != [] {
      var e, first := es[0], EntryPlan(es[0], dst, rel, skip);
      assert e in es;
      FitsEntry(es, dst + rel, w, rel, skip, s.disk);
      EntryRun(e, dst, w, rel, skip, s, cut);
      ExecOverlay(first, s, cut);
      EntryAbortIff(e, dst, rel, skip);
      FitsRest(es, dst, w, rel, skip, s.disk);
      ExecConcat(first, EntriesPlan(es[1..], dst, rel, skip), s, cut);
      EntriesRun(es[1..], dst, w, rel, skip, Exec(first, s, cut).1, cut);
    }
  }

  lemma {:induction false} EntryRun(e: Entry, dst: Path, w: bool, rel: Path, skip: set<Path>, s: State, cut: nat)
    requires WellFormed(e.tree) && ReadableEntry(e, rel, skip) && |EntryPlan(e, dst, rel, skip)| <= s.budget
    requires Fits(s.disk, WantsOf([e], dst + rel, w, rel, skip)) && DirsDown(s.disk, dst + rel)
    ensures Exec(EntryPlan(e, dst, rel, skip), s, cut).0
    decreases e, 0
  {
    hide Fits, CopyPlan, Readable, WellFormed, DirsDown, WantsOf, Effect, Merge;
    var base, child := dst + rel, rel + [e.name];
    assert dst + child == base + [e.name];
    if child !in skip {
      if e.tree.Folder? {
        FitsChild(e, base, w, rel, skip, s.disk);
        CopyRuns(e.tree, dst, child, skip, s, cut);
      } else if e.tree.Regular? {
        FileFits(e, base, w, rel, skip, s.disk);
        ExecOne(Write(dst + child, e.tree.content, e.tree.writable), s, cut);
      }
    }
  }

  lemma FileFits(e: Entry, base: Path, w: bool, rel: Path, skip: set<Path>, d: Disk)
    requires e.tree.Regular? && rel + [e.name] !in skip
    requires Fits(d, WantsOf([e], base, w, rel, skip)) && DirsDown(d, base)
    ensures CanWrite(base + [e.name], d)
  {
    hide BelowEntries, Fits;
    var p := base + [e.name];
    assert Parent(p) == base;
    FileWanted(e, base, rel, skip);
    FitsWrite(d, WantsOf([e], base, w, rel, skip), p);
  }

  lemma FileWanted(e: Entry, base: Path, rel: Path, skip: set<Path>)
    requires e.tree.Regular? && rel + [e.name] !in skip
    ensures BelowEntries([e], base, rel, skip, base + [e.name]) == Some(File(e.tree.content, e.tree.writable))
  {
    hide Kept, BelowEntries;
    var p := base + [e.name];
    assert p[|base|..] == [e.name] && p[|base| + 1..] == [] && [e.name][1..] == [];
    BelowAlone([e], base, rel, skip, p);
    KeptStep(rel, [e.name], skip);
    KeptNothing(rel + [e.name], skip);
  }

  function Wanted(t: Tree, dst: Path, skip: set<Path>): Path -> Option<Node> {
    q => Want(t, dst, [], skip, q)
  }

  lemma FitsSame(d: Disk, f: Path -> Option<Node>, g: Path -> Option<Node>)
    requires Fits(d, f) && forall q :: f(q) == g(q)
    ensures Fits(d, g)
  {
    forall q
      ensures FitAt(Get(d, q), g(q), Above(d, g, q))
    {
      assert FitAt(Get(d, q), f(q), Above(d, f, q));
    }
  }

  lemma WantedOf(t: Tree, dst: Path, skip: set<Path>)
    requires t.Folder?
    ensures forall q :: WantsOf(t.entries, dst, t.writable, [], skip)(q) == Wanted(t, dst, skip)(q)
  {
    hide Below, BelowEntries;
    forall q
      ensures WantsOf(t.entries, dst, t.writable, [], skip)(q) == Wanted(t, dst, skip)(q)
    {
      BelowFolder(t, dst, [], skip, q);
    }
  }

  lemma SuccessFits(ops: seq<Op>, d: Disk, f: Path -> Option<Node>)
    requires Exec(ops, State(d, |ops|), 0).0 && forall q :: Get(Overlay(ops), q) == f(q)
    ensures Fits(d, f)
  {
    hide Exec, Overlay, Merge;
    RunAgrees(ops, State(d, |ops|), 0);
    ExecOverlay(ops, State(d, |ops|), 0);
    GetMerge(d, Overlay(ops));
    forall q
      ensures FitAt(Get(d, q), f(q), Above(d, f, q))
    {
      assert Get(Overlay(ops), q) == f(q) && Alike(Get(d, q), f(q));
      if f(q).Some? && q !in d {
        RunAdds(ops, State(d, |ops|), 0, q);
        if q != [] {
          assert Get(Overlay(ops), Parent(q)) == f(Parent(q));
          assert Get(Merge(d, Overlay(ops)), Parent(q)) == Above(d, f, q);
        }
      } else if f(q).Some? && f(q).value.File? && !d[q].writable {
        OverlayFileWritten(ops, q);
        SealedBlocks(ops, State(d, |ops|), 0, q);
      }
    }
  }

  lemma FittingCopy(t: Tree, dst: Path, skip: set<Path>, s: State, cut: nat)
    requires WellFormed(t) && Readable(t, [], skip) && Fits(s.disk, Wanted(t, dst, skip))
    requires |PlanOf(Some(t), dst, skip)| <= s.budget
    ensures Exec(PlanOf(Some(t), dst, skip), s, cut).0
  {
    hide Exec, CopyPlan, WellFormed, Fits, Want, WantsOf;
    assert dst + [] == dst;
    WantedOf(t, dst, skip);
    FitsSame(s.disk, Wanted(t, dst, skip), WantsOf(t.entries, dst, t.writable, [], skip));
    CopyRuns(t, dst, [], skip, s, cut);
  }

  /**
   * Left alone by the machine a copy succeeds exactly when everything in the tree that is not left out can
   * be read and fits into the destination: files over files that can be written to, directories over
   * directories, and what is new into directories that can be written to.
   */
  lemma CopySucceedsIff(t: Tree, dst: Path, skip: set<Path>, d: Disk)
    requires WellFormed(t)
    ensures var plan := PlanOf(Some(t), dst, skip);
            Exec(plan, State(d, |plan|), 0).0 <==> Readable(t, [], skip) && Fits(d, Wanted(t, dst, skip))
  {
    hide Exec, CopyPlan, WellFormed, Fits, Want, WantsOf;
    var plan := CopyPlan(t, dst, [], skip);
    assert dst + [] == dst;
    AbortIff(t, dst, [], skip);
    if Exec(plan, State(d, |plan|), 0).0 {
      NoAbort(plan, State(d, |plan|), 0);
      forall q
        ensures Get(Overlay(plan), q) == Wanted(t, dst, skip)(q)
      {
        CopyOverlay(t, dst, [], skip, q);
      }
      SuccessFits(plan, d, Wanted(t, dst, skip));
    }
    if Readable(t, [], skip) && Fits(d, Wanted(t, dst, skip)) {
      FittingCopy(t, dst, skip, State(d, |plan|), 0);
    }
  }

  // ----- Copying through an intermediate -----

  /** u is the tree that a reader of disk d sees. */
  ghost predicate Represents(u: Tree, d: Disk) {
    u.Folder? && forall q: Path :: Image(Find(u, q)) == Get(d, q)
  }

  // A fresh copy wants the same below a destination as what it was copied from.
  lemma SameWanted(t: Tree, u: Tree, skip: set<Path>, budget: nat, cut: nat, dst: Path, q: Path)
    requires WellFormed(t) && Exec(PlanOf(Some(t), [], skip), State(map[], budget), cut).0
    requires Represents(u, Exec(PlanOf(Some(t), [], skip), State(map[], budget), cut).1.disk)
    ensures Wanted(u, dst, skip)(q) == Wanted(t, dst, skip)(q)
  {
    hide Exec, PlanOf, WellFormed, Find, Kept;
    if dst < q {
      var p := q[|dst|..];
      CopyMeaning(t, [], skip, State(map[], budget), cut, p);
      assert p[0..] == p;
      assert Image(Find(u, p)) == Want(t, [], [], skip, p);
    } else {
      CopyMeaning(t, [], skip, State(map[], budget), cut, []);
      FindHere(u);
    }
  }

  lemma FindHere(t: Tree)
    ensures Find(t, []) == Some(t)
  {
  }

  /**
   * A fresh copy u of t, read back whole and copied on with the same paths left out, arrives wherever t
   * would have, and leaves there what a copy of t would have left.
   */
  lemma CopyThrough(t: Tree, u: Tree, skip: set<Path>, budget: nat, cut: nat, dst: Path, d: Disk)
    requires WellFormed(t) && Exec(PlanOf(Some(t), [], skip), State(map[], budget), cut).0
    requires WellFormed(u) && Represents(u, Exec(PlanOf(Some(t), [], skip), State(map[], budget), cut).1.disk)
    requires Readable(u, [], skip)
    ensures var once, twice := PlanOf(Some(t), dst, skip), PlanOf(Some(u), dst, skip);
            var direct, through := Exec(once, State(d, |once|), 0), Exec(twice, State(d, |twice|), 0);
            direct.0 == through.0 && (direct.0 ==> direct.1.disk == through.1.disk)
  {
    hide Exec, PlanOf, WellFormed, Want, Fits, Readable, Represents;
    var once, twice := PlanOf(Some(t), dst, skip), PlanOf(Some(u), dst, skip);
    var s, s' := State(d, |once|), State(d, |twice|);
    forall q
      ensures Wanted(u, dst, skip)(q) == Wanted(t, dst, skip)(q)
    {
      SameWanted(t, u, skip, budget, cut, dst, q);
    }
    CopySucceedsIff(t, dst, skip, d);
    CopySucceedsIff(u, dst, skip, d);
    ReadableSource(t, skip, budget, cut);
    if Exec(once, s, 0).0 {
      FitsSame(d, Wanted(t, dst, skip), Wanted(u, dst, skip));
      forall q
        ensures Get(Exec(once, s, 0).1.disk, q) == Get(Exec(twice, s', 0).1.disk, q)
      {
        CopyMeaning(t, dst, skip, s, 0, q);
        CopyMeaning(u, dst, skip, s', 0, q);
        assert Wanted(u, dst, skip)(q) == Wanted(t, dst, skip)(q);
      }
      SameAtAll(Exec(once, s, 0).1.disk, Exec(twice, s', 0).1.disk);
    } else if Exec(twice, s', 0).0 {
      FitsSame(d, Wanted(u, dst, skip), Wanted(t, dst, skip));
    }
  }

  lemma ReadableSource(t: Tree, skip: set<Path>, budget: nat, cut: nat)
    requires Exec(PlanOf(Some(t), [], skip), State(map[], budget), cut).0
    ensures Readable(t, [], skip)
  {
    hide Exec, CopyPlan, Readable;
    NoAbort(CopyPlan(t, [], [], skip), State(map[], budget), cut);
    AbortIff(t, [], [], skip);
  }
}
