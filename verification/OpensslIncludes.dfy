/** The walk over OpenSSL configuration files that finds what has to be mounted into the sandbox. */
module OpensslIncludes {
  import opened Bytes
  import opened Options
  import opened Paths

  /**
   * What a path leads to, symbolic links followed: a directory with its entries (None
   * when it cannot be listed) or a file with its .include targets (none when it cannot be read).
   */
  datatype Node = Dir(entries: Option<seq<bytes>>) | File(includes: seq<bytes>)

  /** The host's file system: None where nothing exists. */
  type Host = bytes -> Option<Node>

  const MAX_DEPTH := 8

  predicate IsDir(host: Host, p: bytes) {
    host(p).Some? && host(p).value.Dir?
  }

  /** The path an .include target of the file at path stands for. */
  function Resolve(path: bytes, inc: bytes): bytes {
    Clean(if IsAbs(inc) then inc else Join(Paths.Dir(path), inc))
  }

  // ----- Containment -----

  function TrimSlash(root: bytes): bytes {
    if root != [] && root[|root| - 1] == SLASH then root[..|root| - 1] else root
  }

  /** path is root or lies beneath it; the root directory itself covers nothing. */
  predicate Under(path: bytes, root: bytes) {
    var r := TrimSlash(root);
    r != [] && (path == r || r + [SLASH] <= path)
  }

  predicate Covered(path: bytes, roots: seq<bytes>) {
    exists r | r in roots :: Under(path, r)
  }

  /** Containment is by elements, with or without a slash at the root's end; the root directory contains nothing. */
  lemma UnderIff(es: seq<bytes>, rs: seq<bytes>)
    requires Elements(es) && Elements(rs)
    ensures Under(Rooted(es), Rooted(rs)) <==> rs != [] && rs <= es
    ensures rs != [] ==> (Under(Rooted(es), Rooted(rs) + [SLASH]) <==> rs <= es)
  {
    hide Element, JoinElements, Elements;
    if rs == [] {
      EmptyJoined();
    } else {
      NoSlashAtEnd(rs);
      var r := Rooted(rs);
      assert (r + [SLASH])[..|r + [SLASH]| - 1] == r;
      RootedInjective(es, rs);
      PrefixIff(es, rs);
    }
  }

  /** A root as it is bound: a clean absolute path, perhaps with a slash at its end. */
  predicate Bindable(r: bytes) {
    Plain(r) || (Parts(r) != [] && r == Rooted(Parts(r)) + [SLASH])
  }

  /** r is not the root directory, and p is r or lies beneath it. */
  predicate Inside(p: bytes, r: bytes) {
    Parts(r) != [] && Parts(r) <= Parts(p)
  }

  lemma UnderIsInside(p: bytes, r: bytes)
    requires Plain(p) && Bindable(r)
    ensures Under(p, r) <==> Inside(p, r)
  {
    hide Parts, Rooted, Under;
    PartsElements(p);
    PartsElements(r);
    UnderIff(Parts(p), Parts(r));
  }

  lemma CoveredIff(path: bytes, roots: seq<bytes>)
    requires Plain(path) && forall r | r in roots :: Bindable(r)
    ensures Covered(path, roots) <==> exists r | r in roots :: Inside(path, r)
  {
    hide Under, Inside, Plain, Bindable;
    forall r | r in roots
      ensures Under(path, r) <==> Inside(path, r)
    {
      UnderIsInside(path, r);
    }
  }

  method PathCovered(path: bytes, roots: seq<bytes>) returns (covered: bool)
    ensures covered <==> Covered(path, roots)
    ensures Plain(path) && (forall r | r in roots :: Bindable(r)) ==>
              (covered <==> exists r | r in roots :: Inside(path, r))
  {
    hide Plain, Bindable, Inside;
    if Plain(path) && forall r | r in roots :: Bindable(r) {
      CoveredIff(path, roots);
    }
    for i := 0 to |roots|
      invariant forall k | 0 <= k < i :: !Under(path, roots[k])
    {
      var root := TrimSlash(roots[i]);
      if root == [] {
        continue;
      }
      if path == root || root + [SLASH] <= path {
        assert Under(path, roots[i]);
        return true;
      }
    }
    return false;
  }

  // ----- The walk on values -----

  /** refused records the paths the depth limit turned away before they were visited. */
  datatype State = State(out: seq<bytes>, added: set<bytes>, visited: set<bytes>, covered: seq<bytes>,
                         refused: set<bytes>)

  function AddPath(host: Host, p: bytes, s: State): State {
    if p in s.added || Covered(p, s.covered) then s
    else
      var covered := if IsDir(host, p) then s.covered + [p] else s.covered;
      s.(added := s.added + {p}, out := s.out + [p], covered := covered)
  }

  function WalkPath(host: Host, path: bytes, depth: nat, s: State): State
    decreases MAX_DEPTH + 1 - depth, 0
  {
    if depth > MAX_DEPTH then s.(refused := s.refused + ({path} - s.visited))
    else if path in s.visited then s
    else
      var s1 := s.(visited := s.visited + {path});
      match host(path)
      case None => s1
      case Some(Dir(None)) => s1
      case Some(Dir(Some(entries))) => WalkEntries(host, path, entries, depth + 1, s1)
      case Some(File(includes)) => WalkIncludes(host, path, includes, depth + 1, s1)
  }

  function WalkEntries(host: Host, path: bytes, entries: seq<bytes>, depth: nat, s: State): State
    decreases MAX_DEPTH + 1 - depth, 1 + |entries|
  {
    if entries == [] then s
    else WalkEntries(host, path, entries[1..], depth, WalkPath(host, Join(path, entries[0]), depth, s))
  }

  function WalkIncludes(host: Host, path: bytes, includes: seq<bytes>, depth: nat, s: State): State
    decreases MAX_DEPTH + 1 - depth, 1 + |includes|
  {
    if includes == [] then s
    else
      var p := Resolve(path, includes[0]);
      WalkIncludes(host, path, includes[1..], depth,
                   if host(p).None? then s else WalkPath(host, p, depth, AddPath(host, p, s)))
  }

  function WalkConfs(host: Host, confs: seq<bytes>, s: State): State
    decreases |confs|
  {
    if confs == [] then s
    else
      WalkConfs(host, confs[1..],
                if host(confs[0]).None? then s else WalkPath(host, confs[0], 0, AddPath(host, confs[0], s)))
  }

  function Start(bound: seq<bytes>): State {
    State([], {}, {}, bound, {})
  }

  // ----- The walk in place -----

  class Walker {
    const host: Host
    var out: seq<bytes>
    var added: set<bytes>
    var visited: set<bytes>
    var covered: seq<bytes>
    ghost var refused: set<bytes>

    ghost function Now(): State
      reads this
    {
      State(out, added, visited, covered, refused)
    }

    constructor (host: Host, bound: seq<bytes>)
      ensures this.host == host && Now() == Start(bound)
    {
      this.host := host;
      out, added, visited, covered, refused := [], {}, {}, bound, {};
    }

    method Add(p: bytes)
      modifies this
      ensures Now() == AddPath(host, p, old(Now()))
    {
      if p in added {
        return;
      }
      var c := PathCovered(p, covered);
      if c {
        return;
      }
      added := added + {p};
      out := out + [p];
      if IsDir(host, p) {
        covered := covered + [p];
      }
    }

    method Walk(path: bytes, depth: nat)
      modifies this
      ensures Now() == WalkPath(host, path, depth, old(Now()))
      decreases MAX_DEPTH + 1 - depth, 1
    {
      hide WalkEntries, WalkIncludes, AddPath;
      if depth > MAX_DEPTH || path in visited {
        if depth > MAX_DEPTH {
          refused := refused + ({path} - visited);
        }
        return;
      }
      visited := visited + {path};
      var info := host(path);
      if info.None? {
        return;
      }
      if info.value.Dir? {
        if info.value.entries.Some? {
          Entries(path, info.value.entries.value, depth + 1);
        }
        return;
      }
      Includes(path, info.value.includes, depth + 1);
    }

    // The loop over a directory's entries.
    method Entries(path: bytes, entries: seq<bytes>, depth: nat)
      modifies this
      ensures Now() == WalkEntries(host, path, entries, depth, old(Now()))
      decreases MAX_DEPTH + 1 - depth, 2
    {
      hide Join, WalkPath;
      for i := 0 to |entries|
        invariant WalkEntries(host, path, entries[i..], depth, Now()) ==
                  WalkEntries(host, path, entries, depth, old(Now()))
      {
        assert entries[i..][1..] == entries[i + 1..];
        Walk(Join(path, entries[i]), depth);
      }
    }

    // The loop over a file's include targets.
    method Includes(path: bytes, includes: seq<bytes>, depth: nat)
      modifies this
      ensures Now() == WalkIncludes(host, path, includes, depth, old(Now()))
      decreases MAX_DEPTH + 1 - depth, 2
    {
      hide Resolve, WalkPath, AddPath;
      for i := 0 to |includes|
        invariant WalkIncludes(host, path, includes[i..], depth, Now()) ==
                  WalkIncludes(host, path, includes, depth, old(Now()))
      {
        assert includes[i..][1..] == includes[i + 1..];
        var inc := Resolve(path, includes[i]);
        if host(inc).None? {
          continue;
        }
        Add(inc);
        Walk(inc, depth);
      }
    }
  }

  method OpensslIncludePaths(host: Host, confs: seq<bytes>, bound: seq<bytes>) returns (out: seq<bytes>)
    ensures out == WalkConfs(host, confs, Start(bound)).out
  {
    var w := new Walker(host, bound);
    for i := 0 to |confs|
      invariant w.host == host
      invariant WalkConfs(host, confs[i..], w.Now()) == WalkConfs(host, confs, Start(bound))
    {
      if host(confs[i]).None? {
        continue;
      }
      w.Add(confs[i]);
      w.Walk(confs[i], 0);
    }
    return w.out;
  }

  // ----- What the walk covers -----

  /** p is mounted: it is an output, or lies under a bound path or an output directory. */
  predicate Reached(s: State, p: bytes) {
    p in s.out || Covered(p, s.covered)
  }

  /** The existing include targets of the file at f. */
  predicate Target(host: Host, f: bytes, t: bytes) {
    host(f).Some? && host(f).value.File? && host(t).Some? &&
    exists inc | inc in host(f).value.includes :: Resolve(f, inc) == t
  }

  /** The paths the walk goes on to from f: include targets, or the entries of a directory. */
  predicate Succ(host: Host, f: bytes, t: bytes) {
    Target(host, f, t) ||
    (host(f).Some? && host(f).value.Dir? && host(f).value.entries.Some? &&
     exists e | e in host(f).value.entries.value :: Join(f, e) == t)
  }

  /** Everything f leads to has been dealt with. */
  ghost predicate Done(host: Host, s: State, f: bytes) {
    (forall t | Target(host, f, t) :: Reached(s, t)) &&
    (forall t | Succ(host, f, t) :: t in s.visited + s.refused)
  }

  ghost predicate DoneSince(host: Host, s0: State, s: State) {
    forall f | f in s.visited && f !in s0.visited :: Done(host, s, f)
  }

  predicate Grows(s0: State, s: State) {
    s0.out <= s.out && s0.covered <= s.covered && s0.visited <= s.visited && s0.refused <= s.refused
  }

  lemma ReachedGrows(s0: State, s: State, p: bytes)
    requires Grows(s0, s) && Reached(s0, p)
    ensures Reached(s, p)
  {
    if Covered(p, s0.covered) {
      var r :| r in s0.covered && Under(p, r);
      assert r in s.covered;
    }
  }

  lemma DoneGrows(host: Host, s0: State, s: State, f: bytes)
    requires Grows(s0, s) && Done(host, s0, f)
    ensures Done(host, s, f)
  {
    forall t | Target(host, f, t)
      ensures Reached(s, t)
    {
      ReachedGrows(s0, s, t);
    }
  }

  ghost predicate Consistent(s: State) {
    forall q | q in s.added :: q in s.out
  }

  /** From s0 the walk has come to s, dealing completely with every path first visited on the way. */
  ghost predicate Advances(host: Host, s0: State, s: State) {
    Consistent(s) && Grows(s0, s) && DoneSince(host, s0, s)
  }

  lemma AdvancesTrans(host: Host, s0: State, s1: State, s2: State)
    requires Advances(host, s0, s1) && Advances(host, s1, s2)
    ensures Advances(host, s0, s2)
  {
    forall f | f in s2.visited && f !in s0.visited
      ensures Done(host, s2, f)
    {
      if f in s1.visited {
        DoneGrows(host, s1, s2, f);
      }
    }
  }

  lemma AddAdvances(host: Host, p: bytes, s: State)
    requires Consistent(s)
    ensures Advances(host, s, AddPath(host, p, s)) && Reached(AddPath(host, p, s), p)
  {
  }

  /** A call deals completely with every path it visits first; the path itself is visited or refused. */
  lemma {:induction false} WalkDone(host: Host, path: bytes, depth: nat, s: State)
    requires Consistent(s)
    ensures var r := WalkPath(host, path, depth, s);
            Advances(host, s, r) && path in r.visited + r.refused && (depth == 0 ==> path in r.visited)
    decreases MAX_DEPTH + 1 - depth, 0
  {
    hide Done, WalkEntries, WalkIncludes, Consistent;
    if depth <= MAX_DEPTH && path !in s.visited {
      var s1 := s.(visited := s.visited + {path});
      var r := WalkPath(host, path, depth, s);
      VisitConsistent(s, path);
      if host(path).None? || (host(path).value.Dir? && host(path).value.entries.None?) {
        LeafDone(host, r, path);
      } else if host(path).value.Dir? {
        EntriesDone(host, path, host(path).value.entries.value, depth + 1, s1);
        DirDone(host, r, path);
      } else {
        IncludesDone(host, path, host(path).value.includes, depth + 1, s1);
        FileDone(host, r, path);
      }
    } else if depth > MAX_DEPTH {
      VisitConsistent(s, path);
    }
  }

  lemma VisitConsistent(s: State, path: bytes)
    requires Consistent(s)
    ensures Consistent(s.(visited := s.visited + {path})) && Consistent(s.(refused := s.refused + ({path} - s.visited)))
  {
  }

  lemma LeafDone(host: Host, s: State, f: bytes)
    requires host(f).None? || (host(f).value.Dir? && host(f).value.entries.None?)
    ensures Done(host, s, f)
  {
  }

  lemma DirDone(host: Host, s: State, f: bytes)
    requires host(f).Some? && host(f).value.Dir? && host(f).value.entries.Some?
    requires forall e | e in host(f).value.entries.value :: Join(f, e) in s.visited + s.refused
    ensures Done(host, s, f)
  {
    hide Join;
  }

  lemma FileDone(host: Host, s: State, f: bytes)
    requires host(f).Some? && host(f).value.File?
    requires forall inc | inc in host(f).value.includes && host(Resolve(f, inc)).Some? ::
               Reached(s, Resolve(f, inc)) && Resolve(f, inc) in s.visited + s.refused
    ensures Done(host, s, f)
  {
    hide Resolve, Reached;
  }

  lemma {:induction false} EntriesDone(host: Host, path: bytes, entries: seq<bytes>, depth: nat, s: State)
    requires Consistent(s) && depth > 0
    ensures var r := WalkEntries(host, path, entries, depth, s);
            Advances(host, s, r) && forall e | e in entries :: Join(path, e) in r.visited + r.refused
    decreases MAX_DEPTH + 1 - depth, 1 + |entries|
  {
    hide Join, WalkPath, Done, Consistent;
    if entries != [] {
      var p := Join(path, entries[0]);
      var s1 := WalkPath(host, p, depth, s);
      WalkDone(host, p, depth, s);
      EntriesDone(host, path, entries[1..], depth, s1);
      var r := WalkEntries(host, path, entries, depth, s);
      AdvancesTrans(host, s, s1, r);
      assert entries == [entries[0]] + entries[1..];
    }
  }

  lemma {:induction false} IncludesDone(host: Host, path: bytes, includes: seq<bytes>, depth: nat, s: State)
    requires Consistent(s) && depth > 0
    ensures var r := WalkIncludes(host, path, includes, depth, s);
            Advances(host, s, r) &&
            forall inc | inc in includes && host(Resolve(path, inc)).Some? ::
              Reached(r, Resolve(path, inc)) && Resolve(path, inc) in r.visited + r.refused
    decreases MAX_DEPTH + 1 - depth, 1 + |includes|
  {
    hide Resolve, WalkPath, AddPath, Done, Consistent, Reached;
    if includes != [] {
      var p := Resolve(path, includes[0]);
      var r := WalkIncludes(host, path, includes, depth, s);
      assert includes == [includes[0]] + includes[1..];
      if host(p).None? {
        IncludesDone(host, path, includes[1..], depth, s);
      } else {
        var s1 := AddPath(host, p, s);
        var s2 := WalkPath(host, p, depth, s1);
        AddAdvances(host, p, s);
        WalkDone(host, p, depth, s1);
        IncludesDone(host, path, includes[1..], depth, s2);
        AdvancesTrans(host, s, s1, s2);
        AdvancesTrans(host, s, s2, r);
        ReachedGrows(s1, s2, p);
        ReachedGrows(s2, r, p);
      }
    }
  }

  lemma {:induction false} ConfsDone(host: Host, confs: seq<bytes>, s: State)
    requires Consistent(s)
    ensures var r := WalkConfs(host, confs, s);
            Advances(host, s, r) && forall c | c in confs && host(c).Some? :: Reached(r, c) && c in r.visited
    decreases |confs|
  {
    hide WalkPath, AddPath, Done, Consistent, Reached;
    if confs != [] {
      var p := confs[0];
      var r := WalkConfs(host, confs, s);
      assert confs == [p] + confs[1..];
      if host(p).None? {
        ConfsDone(host, confs[1..], s);
      } else {
        var s1 := AddPath(host, p, s);
        var s2 := WalkPath(host, p, 0, s1);
        AddAdvances(host, p, s);
        WalkDone(host, p, 0, s1);
        ConfsDone(host, confs[1..], s2);
        AdvancesTrans(host, s, s1, s2);
        AdvancesTrans(host, s, s2, r);
        ReachedGrows(s1, s2, p);
        ReachedGrows(s2, r, p);
      }
    }
  }

  /** Every include target of every file the walk parses is mounted, as is every configuration file, if they exist. */
  lemma IncludesCovered(host: Host, confs: seq<bytes>, bound: seq<bytes>)
    ensures var r := WalkConfs(host, confs, Start(bound));
            (forall c | c in confs && host(c).Some? :: Reached(r, c)) &&
            (forall f, t | f in r.visited && Target(host, f, t) :: Reached(r, t))
  {
    hide Reached, Target, Succ;
    ConfsDone(host, confs, Start(bound));
  }

  // ----- Everything transitively reachable -----

  /** p is n steps from an existing configuration file. */
  ghost predicate ReachableIn(host: Host, confs: seq<bytes>, n: nat, p: bytes)
    decreases n
  {
    if n == 0 then p in confs && host(p).Some?
    else exists q :: ReachableIn(host, confs, n - 1, q) && Succ(host, q, p)
  }

  ghost predicate Reachable(host: Host, confs: seq<bytes>, p: bytes) {
    exists n: nat :: ReachableIn(host, confs, n, p)
  }

  lemma {:induction false} ReachableVisited(host: Host, confs: seq<bytes>, bound: seq<bytes>, n: nat, p: bytes)
    requires WalkConfs(host, confs, Start(bound)).refused <= WalkConfs(host, confs, Start(bound)).visited
    requires ReachableIn(host, confs, n, p)
    ensures p in WalkConfs(host, confs, Start(bound)).visited
    decreases n
  {
    hide WalkConfs, Succ, Reached;
    ConfsDone(host, confs, Start(bound));
    if n > 0 {
      var q :| ReachableIn(host, confs, n - 1, q) && Succ(host, q, p);
      ReachableVisited(host, confs, bound, n - 1, q);
    }
  }

  lemma ReachableStep(host: Host, confs: seq<bytes>, f: bytes, t: bytes)
    requires Reachable(host, confs, f) && Succ(host, f, t)
    ensures Reachable(host, confs, t)
  {
    hide Succ;
    var n: nat :| ReachableIn(host, confs, n, f);
    assert ReachableIn(host, confs, n + 1, t);
  }

  // ----- Soundness and irredundance -----

  /** The outputs exist, come from somewhere reachable, repeat nothing and cover nothing twice. */
  ghost predicate Tidy(host: Host, confs: seq<bytes>, bound: seq<bytes>, s: State) {
    (forall p | p in s.added :: p in s.out) && (forall p | p in s.out :: p in s.added) &&
    (forall i, j | 0 <= i < j < |s.out| :: s.out[i] != s.out[j]) &&
    (forall r | r in bound :: r in s.covered) &&
    (forall p | p in s.out && IsDir(host, p) :: p in s.covered) &&
    (forall r | r in s.covered :: r in bound || (r in s.out && IsDir(host, r))) &&
    (forall p | p in s.out :: host(p).Some? && !Covered(p, bound) && Reachable(host, confs, p)) &&
    (forall i, j | 0 <= i < j < |s.out| && IsDir(host, s.out[i]) :: !Under(s.out[j], s.out[i]))
  }

  ghost predicate VisitsReachable(host: Host, confs: seq<bytes>, s: State) {
    forall p | p in s.visited + s.refused :: Reachable(host, confs, p)
  }

  ghost predicate Good(host: Host, confs: seq<bytes>, bound: seq<bytes>, s: State) {
    Tidy(host, confs, bound, s) && VisitsReachable(host, confs, s)
  }

  lemma CoveredMonotone(p: bytes, a: seq<bytes>, b: seq<bytes>)
    requires Covered(p, a) && forall r | r in a :: r in b
    ensures Covered(p, b)
  {
    var r :| r in a && Under(p, r);
    assert r in b;
  }

  lemma AddTidy(host: Host, confs: seq<bytes>, bound: seq<bytes>, p: bytes, s: State)
    requires Tidy(host, confs, bound, s) && host(p).Some? && Reachable(host, confs, p)
    ensures Tidy(host, confs, bound, AddPath(host, p, s))
  {
    hide Under, Reachable;
    var r := AddPath(host, p, s);
    if p !in s.added && !Covered(p, s.covered) {
      if Covered(p, bound) {
        CoveredMonotone(p, bound, s.covered);
      }
      forall i, j | 0 <= i < j < |r.out| && IsDir(host, r.out[i])
        ensures !Under(r.out[j], r.out[i])
      {
        if j == |s.out| {
          assert s.out[i] in s.out;
          assert s.out[i] in s.covered;
        }
      }
    }
  }

  lemma AddGood(host: Host, confs: seq<bytes>, bound: seq<bytes>, p: bytes, s: State)
    requires Good(host, confs, bound, s) && host(p).Some? && Reachable(host, confs, p)
    ensures Good(host, confs, bound, AddPath(host, p, s))
  {
    hide Tidy, Reachable;
    AddTidy(host, confs, bound, p, s);
  }

  lemma VisitGood(host: Host, confs: seq<bytes>, bound: seq<bytes>, p: bytes, s: State)
    requires Good(host, confs, bound, s) && Reachable(host, confs, p)
    ensures Good(host, confs, bound, s.(visited := s.visited + {p}))
    ensures Good(host, confs, bound, s.(refused := s.refused + ({p} - s.visited)))
  {
    hide Reachable, Under;
  }

  lemma EntrySucc(host: Host, f: bytes, e: bytes)
    requires host(f).Some? && host(f).value.Dir? && host(f).value.entries.Some? && e in host(f).value.entries.value
    ensures Succ(host, f, Join(f, e))
  {
    hide Join, Target;
  }

  lemma IncludeSucc(host: Host, f: bytes, inc: bytes)
    requires host(f).Some? && host(f).value.File? && inc in host(f).value.includes && host(Resolve(f, inc)).Some?
    ensures Target(host, f, Resolve(f, inc)) && Succ(host, f, Resolve(f, inc))
  {
    hide Resolve;
  }

  lemma {:induction false} WalkGood(host: Host, confs: seq<bytes>, bound: seq<bytes>, path: bytes, depth: nat,
                                    s: State)
    requires Good(host, confs, bound, s) && Reachable(host, confs, path)
    ensures Good(host, confs, bound, WalkPath(host, path, depth, s))
    decreases MAX_DEPTH + 1 - depth, 0
  {
    hide Good, Reachable, Join, Resolve, WalkEntries, WalkIncludes;
    VisitGood(host, confs, bound, path, s);
    if depth <= MAX_DEPTH && path !in s.visited && host(path).Some? {
      var s1 := s.(visited := s.visited + {path});
      if host(path).value.File? {
        IncludesGood(host, confs, bound, path, host(path).value.includes, depth + 1, s1);
      } else if host(path).value.entries.Some? {
        EntriesGood(host, confs, bound, path, host(path).value.entries.value, depth + 1, s1);
      }
    }
  }

  lemma {:induction false} EntriesGood(host: Host, confs: seq<bytes>, bound: seq<bytes>,
                                       path: bytes, entries: seq<bytes>, depth: nat, s: State)
    requires Good(host, confs, bound, s) && Reachable(host, confs, path)
    requires host(path).Some? && host(path).value.Dir? && host(path).value.entries.Some?
    requires forall e | e in entries :: e in host(path).value.entries.value
    ensures Good(host, confs, bound, WalkEntries(host, path, entries, depth, s))
    decreases MAX_DEPTH + 1 - depth, 1 + |entries|
  {
    hide Good, Reachable, Join, WalkPath, Succ;
    if entries != [] {
      EntrySucc(host, path, entries[0]);
      ReachableStep(host, confs, path, Join(path, entries[0]));
      WalkGood(host, confs, bound, Join(path, entries[0]), depth, s);
      EntriesGood(host, confs, bound, path, entries[1..], depth, WalkPath(host, Join(path, entries[0]), depth, s));
    }
  }

  lemma {:induction false} IncludesGood(host: Host, confs: seq<bytes>, bound: seq<bytes>,
                                        path: bytes, includes: seq<bytes>, depth: nat, s: State)
    requires Good(host, confs, bound, s) && Reachable(host, confs, path)
    requires host(path).Some? && host(path).value.File?
    requires forall inc | inc in includes :: inc in host(path).value.includes
    ensures Good(host, confs, bound, WalkIncludes(host, path, includes, depth, s))
    decreases MAX_DEPTH + 1 - depth, 1 + |includes|
  {
    hide Good, Reachable, Resolve, WalkPath, Succ, AddPath, Target;
    if includes != [] {
      var p := Resolve(path, includes[0]);
      if host(p).None? {
        IncludesGood(host, confs, bound, path, includes[1..], depth, s);
      } else {
        IncludeSucc(host, path, includes[0]);
        ReachableStep(host, confs, path, p);
        AddGood(host, confs, bound, p, s);
        WalkGood(host, confs, bound, p, depth, AddPath(host, p, s));
        IncludesGood(host, confs, bound, path, includes[1..], depth, WalkPath(host, p, depth, AddPath(host, p, s)));
      }
    }
  }

  lemma {:induction false} ConfsGood(host: Host, confs: seq<bytes>, bound: seq<bytes>, todo: seq<bytes>, s: State)
    requires Good(host, confs, bound, s) && forall c | c in todo :: c in confs
    ensures Good(host, confs, bound, WalkConfs(host, todo, s))
    decreases |todo|
  {
    hide Good, Reachable, WalkPath, AddPath;
    if todo != [] {
      var p := todo[0];
      if host(p).None? {
        ConfsGood(host, confs, bound, todo[1..], s);
      } else {
        ConfReachable(host, confs, p);
        AddGood(host, confs, bound, p, s);
        WalkGood(host, confs, bound, p, 0, AddPath(host, p, s));
        ConfsGood(host, confs, bound, todo[1..], WalkPath(host, p, 0, AddPath(host, p, s)));
      }
    }
  }

  lemma ConfReachable(host: Host, confs: seq<bytes>, p: bytes)
    requires p in confs && host(p).Some?
    ensures Reachable(host, confs, p)
  {
    assert ReachableIn(host, confs, 0, p);
  }

  lemma ResultGood(host: Host, confs: seq<bytes>, bound: seq<bytes>)
    ensures Good(host, confs, bound, WalkConfs(host, confs, Start(bound)))
  {
    assert Good(host, confs, bound, Start(bound)) by { hide WalkConfs; }
    ConfsGood(host, confs, bound, confs, Start(bound));
  }

  /**
   * The outputs are pairwise distinct, exist, are reachable from the configuration files,
   * never lie under a bound path, and never under a directory output before them.
   */
  lemma OutputsIrredundant(host: Host, confs: seq<bytes>, bound: seq<bytes>)
    ensures var out := WalkConfs(host, confs, Start(bound)).out;
            (forall p | p in out :: host(p).Some? && !Covered(p, bound) && Reachable(host, confs, p)) &&
            (forall i, j | 0 <= i < j < |out| :: out[i] != out[j] && (IsDir(host, out[i]) ==> !Under(out[j], out[i])))
  {
    hide WalkConfs, Reachable, Under;
    ResultGood(host, confs, bound);
  }

  /**
   * The walk visits everything that is transitively reachable, cycles included, exactly
   * when every path refused for its depth was visited by another way.
   */
  lemma VisitsEverythingIff(host: Host, confs: seq<bytes>, bound: seq<bytes>)
    ensures var r := WalkConfs(host, confs, Start(bound));
            (forall p | Reachable(host, confs, p) :: p in r.visited) <==> r.refused <= r.visited
  {
    var r := WalkConfs(host, confs, Start(bound));
    ResultGood(host, confs, bound);
    if r.refused <= r.visited {
      forall p | Reachable(host, confs, p)
        ensures p in r.visited
      {
        var n: nat :| ReachableIn(host, confs, n, p);
        ReachableVisited(host, confs, bound, n, p);
      }
    }
    hide WalkConfs, ReachableIn, Tidy;
  }

  /** Then every existing include target of every reachable file is mounted. */
  lemma ReachableIncludesCovered(host: Host, confs: seq<bytes>, bound: seq<bytes>, f: bytes, t: bytes)
    requires WalkConfs(host, confs, Start(bound)).refused <= WalkConfs(host, confs, Start(bound)).visited
    requires Reachable(host, confs, f) && Target(host, f, t)
    ensures Reached(WalkConfs(host, confs, Start(bound)), t)
  {
    hide WalkConfs, Reached, Target, Reachable;
    VisitsEverythingIff(host, confs, bound);
    IncludesCovered(host, confs, bound);
  }

  /** Outputs are absolute when the configuration paths are. */
  lemma {:induction false} ReachableAbsolute(host: Host, confs: seq<bytes>, n: nat, p: bytes)
    requires (forall c | c in confs :: IsAbs(c)) && ReachableIn(host, confs, n, p)
    ensures IsAbs(p)
    decreases n
  {
    hide Succ;
    if n > 0 {
      var q :| ReachableIn(host, confs, n - 1, q) && Succ(host, q, p);
      ReachableAbsolute(host, confs, n - 1, q);
      SuccAbsolute(host, q, p);
    }
  }

  lemma SuccAbsolute(host: Host, f: bytes, t: bytes)
    requires IsAbs(f) && Succ(host, f, t)
    ensures IsAbs(t)
  {
    if Target(host, f, t) {
      var inc :| inc in host(f).value.includes && Resolve(f, inc) == t;
      ParentAbs(f);
      JoinAbs(Paths.Dir(f), inc);
    } else {
      var e :| e in host(f).value.entries.value && Join(f, e) == t;
      JoinAbs(f, e);
    }
  }

  lemma OutputsAbsolute(host: Host, confs: seq<bytes>, bound: seq<bytes>, p: bytes)
    requires (forall c | c in confs :: IsAbs(c)) && p in WalkConfs(host, confs, Start(bound)).out
    ensures IsAbs(p)
  {
    hide WalkConfs, ReachableIn;
    OutputsIrredundant(host, confs, bound);
    var n: nat :| ReachableIn(host, confs, n, p);
    ReachableAbsolute(host, confs, n, p);
  }

  // ----- When the depth limit turns nothing away -----

  /** ps starts at an existing configuration file, each path leads to the next, and none comes twice. */
  ghost predicate SimpleChain(host: Host, confs: seq<bytes>, ps: seq<bytes>) {
    ps != [] && ps[0] in confs && host(ps[0]).Some? &&
    (forall i | 0 < i < |ps| :: Succ(host, ps[i - 1], ps[i])) &&
    (forall i, j | 0 <= i < j < |ps| :: ps[i] != ps[j])
  }

  /** Some chain is one path longer than the walk goes. */
  ghost predicate LongChain(host: Host, confs: seq<bytes>) {
    exists ps :: |ps| == MAX_DEPTH + 2 && SimpleChain(host, confs, ps)
  }

  /** The calls that are open when path is walked to: a chain of visited paths that leads to it. */
  ghost predicate OpenCalls(host: Host, confs: seq<bytes>, open: seq<bytes>, path: bytes, s: State) {
    (forall p | p in open :: p in s.visited) &&
    if open == [] then path in confs && host(path).Some?
    else SimpleChain(host, confs, open) && Succ(host, open[|open| - 1], path)
  }

  /** From s0 the walk has come to s without turning anything new away. */
  predicate NoneRefused(s0: State, s: State) {
    s0.visited <= s.visited && s.refused == s0.refused
  }

  lemma ChainGrows(host: Host, confs: seq<bytes>, open: seq<bytes>, path: bytes, s: State)
    requires OpenCalls(host, confs, open, path, s) && path !in s.visited
    ensures SimpleChain(host, confs, open + [path])
  {
    hide Succ;
    var ps := open + [path];
    forall i, j | 0 <= i < j < |ps|
      ensures ps[i] != ps[j]
    {
      if j == |open| {
        assert open[i] in open;
      }
    }
  }

  lemma TooLong(host: Host, confs: seq<bytes>, ps: seq<bytes>)
    requires |ps| == MAX_DEPTH + 2 && SimpleChain(host, confs, ps)
    ensures LongChain(host, confs)
  {
  }

  lemma {:induction false} WalkNoneRefused(host: Host, confs: seq<bytes>, open: seq<bytes>, path: bytes, s: State)
    requires !LongChain(host, confs) && OpenCalls(host, confs, open, path, s) && |open| <= MAX_DEPTH + 1
    ensures NoneRefused(s, WalkPath(host, path, |open|, s))
    decreases MAX_DEPTH + 1 - |open|, 0
  {
    hide Succ, SimpleChain, WalkEntries, WalkIncludes;
    if path !in s.visited {
      ChainGrows(host, confs, open, path, s);
      var ps := open + [path];
      if |open| > MAX_DEPTH {
        TooLong(host, confs, ps);
      } else if host(path).Some? {
        var s1 := s.(visited := s.visited + {path});
        if host(path).value.File? {
          IncludesNoneRefused(host, confs, ps, host(path).value.includes, s1);
        } else if host(path).value.entries.Some? {
          EntriesNoneRefused(host, confs, ps, host(path).value.entries.value, s1);
        }
      }
    }
  }

  /** The same once path itself is open. */
  ghost predicate OpenDown(host: Host, confs: seq<bytes>, open: seq<bytes>, s: State) {
    open != [] && SimpleChain(host, confs, open) && forall p | p in open :: p in s.visited
  }

  lemma {:induction false} EntriesNoneRefused(host: Host, confs: seq<bytes>, open: seq<bytes>, entries: seq<bytes>,
                                              s: State)
    requires !LongChain(host, confs) && OpenDown(host, confs, open, s) && |open| <= MAX_DEPTH + 1
    requires var path := open[|open| - 1];
             host(path).Some? && host(path).value.Dir? && host(path).value.entries.Some? &&
             forall e | e in entries :: e in host(path).value.entries.value
    ensures NoneRefused(s, WalkEntries(host, open[|open| - 1], entries, |open|, s))
    decreases MAX_DEPTH + 1 - |open|, 1 + |entries|
  {
    hide Succ, SimpleChain, LongChain, Join, WalkPath;
    if entries != [] {
      var path := open[|open| - 1];
      EntrySucc(host, path, entries[0]);
      WalkNoneRefused(host, confs, open, Join(path, entries[0]), s);
      EntriesNoneRefused(host, confs, open, entries[1..], WalkPath(host, Join(path, entries[0]), |open|, s));
    }
  }

  lemma {:induction false} IncludesNoneRefused(host: Host, confs: seq<bytes>, open: seq<bytes>, includes: seq<bytes>,
                                               s: State)
    requires !LongChain(host, confs) && OpenDown(host, confs, open, s) && |open| <= MAX_DEPTH + 1
    requires var path := open[|open| - 1];
             host(path).Some? && host(path).value.File? &&
               forall inc | inc in includes :: inc in host(path).value.includes
    ensures NoneRefused(s, WalkIncludes(host, open[|open| - 1], includes, |open|, s))
    decreases MAX_DEPTH + 1 - |open|, 1 + |includes|
  {
    hide Succ, SimpleChain, LongChain, Resolve, WalkPath, Target, Covered;
    if includes != [] {
      var path := open[|open| - 1];
      var p := Resolve(path, includes[0]);
      if host(p).None? {
        IncludesNoneRefused(host, confs, open, includes[1..], s);
      } else {
        IncludeSucc(host, path, includes[0]);
        var s1 := AddPath(host, p, s);
        WalkNoneRefused(host, confs, open, p, s1);
        IncludesNoneRefused(host, confs, open, includes[1..], WalkPath(host, p, |open|, s1));
      }
    }
  }

  lemma {:induction false} ConfsNoneRefused(host: Host, confs: seq<bytes>, todo: seq<bytes>, s: State)
    requires !LongChain(host, confs) && forall c | c in todo :: c in confs
    ensures NoneRefused(s, WalkConfs(host, todo, s))
    decreases |todo|
  {
    hide LongChain, WalkPath, Covered;
    if todo != [] {
      var p := todo[0];
      if host(p).None? {
        ConfsNoneRefused(host, confs, todo[1..], s);
      } else {
        var s1 := AddPath(host, p, s);
        WalkNoneRefused(host, confs, [], p, s1);
        ConfsNoneRefused(host, confs, todo[1..], WalkPath(host, p, 0, s1));
      }
    }
  }

  /**
   * Where no chain of ten different paths leads on from a configuration file, nothing is turned away: whatever
   * is bound already, everything reachable is visited and every include target of a reachable file is mounted.
   */
  lemma ShortChainsLoseNothing(host: Host, confs: seq<bytes>, bound: seq<bytes>)
    requires !LongChain(host, confs)
    ensures var r := WalkConfs(host, confs, Start(bound));
            r.refused == {} && (forall p | Reachable(host, confs, p) :: p in r.visited) &&
            (forall f, t | Reachable(host, confs, f) && Target(host, f, t) :: Reached(r, t))
  {
    hide LongChain, WalkConfs, Reachable, Target, Reached;
    ConfsNoneRefused(host, confs, confs, Start(bound));
    VisitsEverythingIff(host, confs, bound);
    IncludesCovered(host, confs, bound);
  }

  // ----- Exactly when it never does, in whatever order things are listed -----

  predicate Permuted(a: seq<bytes>, b: seq<bytes>) {
    multiset(a) == multiset(b)
  }

  lemma PermutedMembers(a: seq<bytes>, b: seq<bytes>)
    requires Permuted(a, b)
    ensures forall x :: x in a <==> x in b
  {
    assert forall x :: x in a <==> x in multiset(a);
    assert forall x :: x in b <==> x in multiset(b);
  }

  /** The same but for the order of a file's include targets; a directory is always listed in the order of its names. */
  predicate SameNode(a: Option<Node>, b: Option<Node>) {
    if a.Some? && a.value.File? && b.Some? &&
       b.value.File? then Permuted(a.value.includes, b.value.includes) else a == b
  }

  ghost predicate SameGraph(host: Host, host': Host) {
    forall p :: SameNode(host(p), host'(p))
  }

  lemma SameSucc(host: Host, host': Host, f: bytes, t: bytes)
    requires SameGraph(host, host')
    ensures Succ(host, f, t) <==> Succ(host', f, t)
    ensures host(f).Some? <==> host'(f).Some?
  {
    hide Resolve, Join;
    assert SameNode(host(f), host'(f)) && SameNode(host(t), host'(t));
    if host(f).Some? && host(f).value.File? {
      PermutedMembers(host(f).value.includes, host'(f).value.includes);
    }
  }

  lemma SameLongChain(host: Host, confs: seq<bytes>, host': Host, confs': seq<bytes>)
    requires SameGraph(host, host') && Permuted(confs, confs') && LongChain(host', confs')
    ensures LongChain(host, confs)
  {
    hide Succ, SameGraph, Permuted;
    var ps :| |ps| == MAX_DEPTH + 2 && SimpleChain(host', confs', ps);
    forall i | 0 < i < |ps|
      ensures Succ(host, ps[i - 1], ps[i])
    {
      SameSucc(host, host', ps[i - 1], ps[i]);
    }
    SameSucc(host, host', ps[0], ps[0]);
    PermutedMembers(confs, confs');
    assert SimpleChain(host, confs, ps);
  }

  /** A chain each of whose paths is an include target of the one before it. */
  ghost predicate IncludeChain(host: Host, confs: seq<bytes>, ps: seq<bytes>) {
    SimpleChain(host, confs, ps) && forall i | 0 < i < |ps| :: Target(host, ps[i - 1], ps[i])
  }

  ghost predicate LongIncludeChain(host: Host, confs: seq<bytes>) {
    exists ps :: |ps| == MAX_DEPTH + 2 && IncludeChain(host, confs, ps)
  }

  /** x is what the file f lists to lead to t. */
  predicate Leads(host: Host, f: bytes, x: bytes, t: bytes) {
    host(f).Some? && host(f).value.File? && x in host(f).value.includes && host(t).Some? && Resolve(f, x) == t
  }

  lemma {:induction false} LinksOf(host: Host, ps: seq<bytes>) returns (links: seq<bytes>)
    requires ps != [] && forall i | 0 < i < |ps| :: Target(host, ps[i - 1], ps[i])
    ensures |links| == |ps| - 1 && forall i | 0 <= i < |links| :: Leads(host, ps[i], links[i], ps[i + 1])
    decreases |ps|
  {
    hide Resolve;
    if |ps| == 1 {
      links := [];
    } else {
      var n := |ps| - 1;
      var before := LinksOf(host, ps[..n]);
      assert Target(host, ps[n - 1], ps[n]);
      var x :| Leads(host, ps[n - 1], x, ps[n]);
      links := before + [x];
    }
  }

  function IndexIn(ps: seq<bytes>, p: bytes): (i: nat)
    requires p in ps
    ensures i < |ps| && ps[i] == p
  {
    if ps[0] == p then 0 else 1 + IndexIn(ps[1..], p)
  }

  /** The list without its first x. */
  function Rest(s: seq<bytes>, x: bytes): seq<bytes>
    requires x in s
  {
    s[..IndexIn(s, x)] + s[IndexIn(s, x) + 1..]
  }

  lemma FrontPermutes(s: seq<bytes>, x: bytes)
    requires x in s
    ensures Permuted(s, [x] + Rest(s, x))
  {
    var i := IndexIn(s, x);
    assert s == s[..i] + ([x] + s[i + 1..]);
  }

  function WithFirst(n: Option<Node>, x: bytes): Option<Node> {
    if n.Some? && n.value.File? && x in n.value.includes then Some(File([x] + Rest(n.value.includes, x))) else n
  }

  /** The host where each of ps lists its link first. */
  function Leading(host: Host, ps: seq<bytes>, links: seq<bytes>): Host {
    p => if p in ps && IndexIn(ps, p) < |links| then WithFirst(host(p), links[IndexIn(ps, p)]) else host(p)
  }

  lemma LeadingAt(host: Host, ps: seq<bytes>, links: seq<bytes>, i: nat)
    requires i < |links| < |ps| && forall a, b | 0 <= a < b < |ps| :: ps[a] != ps[b]
    ensures Leading(host, ps, links)(ps[i]) == WithFirst(host(ps[i]), links[i])
  {
    hide WithFirst;
    var k := IndexIn(ps, ps[i]);
    assert ps[k] == ps[i];
  }

  lemma LeadingSame(host: Host, ps: seq<bytes>, links: seq<bytes>)
    requires |links| <= |ps|
    ensures SameGraph(host, Leading(host, ps, links))
  {
    hide Rest;
    forall p
      ensures SameNode(host(p), Leading(host, ps, links)(p))
    {
      if p in ps && IndexIn(ps, p) < |links| {
        WithFirstSame(host(p), links[IndexIn(ps, p)]);
      }
    }
  }

  lemma WithFirstSame(n: Option<Node>, x: bytes)
    ensures SameNode(n, WithFirst(n, x))
  {
    hide Rest;
    if n.Some? && n.value.File? && x in n.value.includes {
      FrontPermutes(n.value.includes, x);
    }
  }

  // With the links first the walk goes straight down the chain and turns its last path away.
  lemma {:induction false} LeadingWalk(host: Host, confs: seq<bytes>, ps: seq<bytes>, links: seq<bytes>, i: nat,
                                       s: State)
    requires |ps| == MAX_DEPTH + 2 && SimpleChain(host, confs, ps) && |links| == |ps| - 1 && i < |ps| && Consistent(s)
    requires forall k | 0 <= k < |links| :: Leads(host, ps[k], links[k], ps[k + 1])
    requires forall k | i <= k < |ps| :: ps[k] !in s.visited
    ensures ps[|ps| - 1] in WalkPath(Leading(host, ps, links), ps[i], i, s).refused
    decreases |ps| - i
  {
    hide Leading, Resolve, Join, Succ, AddPath, Consistent, Reached, Done, WalkIncludes, WalkEntries, Rest, Permuted;
    if i <= MAX_DEPTH {
      var host' := Leading(host, ps, links);
      var s1 := s.(visited := s.visited + {ps[i]});
      LeadingAt(host, ps, links, i);
      LeadingSame(host, ps, links);
      assert Leads(host, ps[i], links[i], ps[i + 1]);
      assert SameNode(host(ps[i + 1]), host'(ps[i + 1]));
      VisitConsistent(s, ps[i]);
      var s2 := AddPath(host', ps[i + 1], s1);
      AddAdvances(host', ps[i + 1], s1);
      AddVisits(host', ps[i + 1], s1);
      LeadingWalk(host, confs, ps, links, i + 1, s2);
      WalkDone(host', ps[i + 1], i + 1, s2);
      FirstInclude(host', ps[i], links[i], Rest(host(ps[i]).value.includes, links[i]), i + 1, s1);
    }
  }

  lemma AddVisits(host: Host, p: bytes, s: State)
    ensures AddPath(host, p, s).visited == s.visited && AddPath(host, p, s).refused == s.refused
  {
  }

  lemma FirstInclude(host: Host, path: bytes, x: bytes, includes: seq<bytes>, depth: nat, s: State)
    requires depth > 0 && host(Resolve(path, x)).Some?
    requires Consistent(WalkPath(host, Resolve(path, x), depth, AddPath(host, Resolve(path, x), s)))
    ensures WalkPath(host, Resolve(path, x), depth, AddPath(host, Resolve(path, x), s)).refused <=
            WalkIncludes(host, path, [x] + includes, depth, s).refused
  {
    hide Resolve, WalkPath, Consistent, Done, AddPath, Reached;
    assert ([x] + includes)[1..] == includes;
    IncludesDone(host, path, includes, depth,
                 WalkPath(host, Resolve(path, x), depth, AddPath(host, Resolve(path, x), s)));
  }

  /** A long chain of includes is walked into when it is listed first. */
  lemma LongChainRefuses(host: Host, confs: seq<bytes>) returns (host': Host, confs': seq<bytes>)
    requires LongIncludeChain(host, confs)
    ensures SameGraph(host, host') && Permuted(confs, confs') && WalkConfs(host', confs', Start([])).refused != {}
  {
    hide WalkPath, AddPath, Consistent, Reached, Done, Succ, Leads, SameGraph, Leading, SameNode, Permuted, Rest,
      Target;
    var ps :| |ps| == MAX_DEPTH + 2 && IncludeChain(host, confs, ps);
    var links := LinksOf(host, ps);
    host', confs' := Leading(host, ps, links), [ps[0]] + Rest(confs, ps[0]);
    FrontPermutes(confs, ps[0]);
    LeadingSame(host, ps, links);
    SameSucc(host, host', ps[0], ps[0]);
    var s := AddPath(host', ps[0], Start([]));
    StartConsistent();
    AddAdvances(host', ps[0], Start([]));
    AddVisits(host', ps[0], Start([]));
    LeadingWalk(host, confs, ps, links, 0, s);
    WalkDone(host', ps[0], 0, s);
    assert confs'[1..] == Rest(confs, ps[0]);
    ConfsDone(host', confs'[1..], WalkPath(host', ps[0], 0, s));
  }

  lemma StartConsistent()
    ensures Consistent(Start([]))
  {
  }

  /**
   * Nothing is turned away, in whatever order configuration files and include targets are listed, whatever is bound.
   */
  ghost predicate NeverRefuses(host: Host, confs: seq<bytes>) {
    forall host', confs', bound | SameGraph(host, host') && Permuted(confs, confs') ::
      WalkConfs(host', confs', Start(bound)).refused == {}
  }

  /** No directory with entries comes up. */
  ghost predicate IncludesOnly(host: Host, confs: seq<bytes>) {
    forall f, t | Reachable(host, confs, f) && Succ(host, f, t) :: Target(host, f, t)
  }

  lemma LongChainOfIncludes(host: Host, confs: seq<bytes>)
    requires IncludesOnly(host, confs) && LongChain(host, confs)
    ensures LongIncludeChain(host, confs)
  {
    hide Succ, Target, Reachable;
    var ps :| |ps| == MAX_DEPTH + 2 && SimpleChain(host, confs, ps);
    ChainReachable(host, confs, ps);
    assert forall i | 0 < i < |ps| :: Target(host, ps[i - 1], ps[i]);
    assert IncludeChain(host, confs, ps);
  }

  lemma {:induction false} ChainReachable(host: Host, confs: seq<bytes>, ps: seq<bytes>)
    requires SimpleChain(host, confs, ps)
    ensures forall i | 0 <= i < |ps| :: Reachable(host, confs, ps[i])
    decreases |ps|
  {
    hide Succ, Reachable;
    var n := |ps| - 1;
    if n == 0 {
      ConfReachable(host, confs, ps[0]);
    } else {
      ChainReachable(host, confs, ps[..n]);
      assert Succ(host, ps[n - 1], ps[n]) && Reachable(host, confs, ps[..n][n - 1]);
      ReachableStep(host, confs, ps[n - 1], ps[n]);
      assert forall i | 0 <= i < n :: ps[i] == ps[..n][i];
    }
  }

  /**
   * A chain of ten different paths that leads on from a configuration file is needed for a path to be turned
   * away, and one made of includes is enough for that in some order; so where only includes lead on, having no
   * such chain is exact.
   */
  lemma NeverRefusesIff(host: Host, confs: seq<bytes>)
    ensures !LongChain(host, confs) ==> NeverRefuses(host, confs)
    ensures NeverRefuses(host, confs) ==> !LongIncludeChain(host, confs)
    ensures IncludesOnly(host, confs) ==> (NeverRefuses(host, confs) <==> !LongChain(host, confs))
  {
    hide WalkConfs, SameGraph, LongChain, LongIncludeChain, Permuted, IncludesOnly;
    if LongIncludeChain(host, confs) {
      var host', confs' := LongChainRefuses(host, confs);
    }
    if IncludesOnly(host, confs) && LongChain(host, confs) {
      LongChainOfIncludes(host, confs);
    }
    if !LongChain(host, confs) {
      forall host', confs', bound | SameGraph(host, host') && Permuted(confs, confs')
        ensures WalkConfs(host', confs', Start(bound)).refused == {}
      {
        if LongChain(host', confs') {
          SameLongChain(host, confs, host', confs');
        } else {
          ShortChainsLoseNothing(host', confs', bound);
        }
      }
    }
  }

  // ----- What the depth limit can cost -----

  function Link(k: nat): bytes {
    [SLASH] + seq(k, i => 97)
  }

  /** n files, each including the next. */
  function Chain(n: nat): Host {
    p => if 2 <= |p| <= n + 1 && p == Link(|p| - 1) then Some(File(if |p| <= n then [Link(|p|)] else [])) else None
  }

  lemma LinkFacts(n: nat, k: nat)
    requires 1 <= k <= n
    ensures Chain(n)(Link(k)) == Some(File(if k < n then [Link(k + 1)] else []))
    ensures k < n ==> Chain(n)(Link(k + 1)).Some? && Resolve(Link(k), Link(k + 1)) == Link(k + 1)
  {
    hide Clean;
    assert |Link(k)| == k + 1 && |Link(k + 1)| == k + 2;
    if k < n {
      LinkResolves(k);
    }
  }

  lemma LinkResolves(k: nat)
    requires k > 0
    ensures Resolve(Link(k), Link(k + 1)) == Link(k + 1)
  {
    var x := seq(k + 1, i => 97);
    assert x[0] == 97;
    CleanPlain(x);
  }

  lemma LinksDiffer(a: nat, b: nat)
    ensures Link(a) == Link(b) <==> a == b
  {
    assert |Link(a)| == a + 1 && |Link(b)| == b + 1;
  }

  lemma ChainStep(n: nat, k: nat, depth: nat, s: State)
    requires 1 <= k <= n && depth <= MAX_DEPTH && Link(k) !in s.visited
    ensures var s1 := s.(visited := s.visited + {Link(k)});
            WalkPath(Chain(n), Link(k), depth, s) ==
            if k < n then WalkPath(Chain(n), Link(k + 1), depth + 1, AddPath(Chain(n), Link(k + 1), s1)) else s1
  {
    hide Link, Chain, AddPath, Resolve;
    LinkFacts(n, k);
    if k < n {
      var s1 := s.(visited := s.visited + {Link(k)});
      OneInclude(Chain(n), Link(k), Link(k + 1), depth + 1, s1);
    } else {
      NoInclude(Chain(n), Link(k), depth + 1, s.(visited := s.visited + {Link(k)}));
    }
  }

  lemma OneInclude(host: Host, path: bytes, x: bytes, depth: nat, s: State)
    requires host(Resolve(path, x)).Some?
    ensures WalkIncludes(host, path, [x], depth, s) ==
            WalkPath(host, Resolve(path, x), depth, AddPath(host, Resolve(path, x), s))
  {
    hide Resolve, WalkPath, AddPath;
    assert [x][1..] == [];
    NoInclude(host, path, depth, WalkPath(host, Resolve(path, x), depth, AddPath(host, Resolve(path, x), s)));
  }

  lemma NoInclude(host: Host, path: bytes, depth: nat, s: State)
    ensures WalkIncludes(host, path, [], depth, s) == s
  {
  }

  lemma AddElsewhere(n: nat, k: nat, m: nat, s: State)
    requires 1 <= k <= n && k != m && Link(m) !in s.out && s.covered == []
    ensures var r := AddPath(Chain(n), Link(k), s); Link(m) !in r.out && r.covered == []
  {
    hide Link, Chain;
    LinkFacts(n, k);
    LinksDiffer(k, m);
  }

  lemma {:induction false} ChainWalk(k: nat, s: State)
    requires 1 <= k <= 10 && Link(11) !in s.out && s.covered == []
    ensures var r := WalkPath(Chain(11), Link(k), k - 1, s); Link(11) !in r.out && r.covered == []
    decreases 10 - k
  {
    hide Link, Chain, AddPath, WalkIncludes, WalkEntries;
    if k < 10 && Link(k) !in s.visited {
      var s1 := s.(visited := s.visited + {Link(k)});
      ChainStep(11, k, k - 1, s);
      AddElsewhere(11, k + 1, 11, s1);
      ChainWalk(k + 1, AddPath(Chain(11), Link(k + 1), s1));
    }
  }

  lemma OneConf(host: Host, c: bytes, s: State)
    requires host(c).Some?
    ensures WalkConfs(host, [c], s) == WalkPath(host, c, 0, AddPath(host, c, s))
  {
    hide WalkPath, AddPath;
    assert [c][1..] == [];
  }

  /** In a chain of eleven files the last, an existing include target, is not mounted. */
  lemma DepthLimitLosesTarget()
    ensures Target(Chain(11), Link(10), Link(11)) && Chain(11)(Link(1)).Some?
    ensures !Reached(WalkConfs(Chain(11), [Link(1)], Start([])), Link(11))
  {
    hide WalkPath, Resolve, Link, Chain, AddPath, WalkConfs;
    LinkFacts(11, 1);
    LinkFacts(11, 10);
    LinkFacts(11, 11);
    assert Link(11) in Chain(11)(Link(10)).value.includes;
    AddElsewhere(11, 1, 11, Start([]));
    ChainWalk(1, AddPath(Chain(11), Link(1), Start([])));
    OneConf(Chain(11), Link(1), Start([]));
  }

  // ----- What visiting order can save -----

  // A walk that is near the end of the chain, or comes to a file already visited before it is too deep.
  lemma {:induction false} ChainFits(n: nat, k: nat, depth: nat, m: nat, s: State)
    requires 1 <= k <= m <= n && depth + (m - k) <= MAX_DEPTH && (m == n || Link(m) in s.visited)
    ensures var r := WalkPath(Chain(n), Link(k), depth, s); NoneRefused(s, r) && Link(k) in r.visited
    decreases n - k
  {
    hide Link, Chain, AddPath, WalkIncludes, WalkEntries;
    if Link(k) !in s.visited {
      ChainStep(n, k, depth, s);
      if k < m {
        var s1 := s.(visited := s.visited + {Link(k)});
        AddVisits(Chain(n), Link(k + 1), s1);
        ChainFits(n, k + 1, depth + 1, m, AddPath(Chain(n), Link(k + 1), s1));
      }
    }
  }

  lemma TwoConfs(host: Host, c: bytes, c': bytes, s: State)
    requires host(c).Some? && host(c').Some?
    ensures var s1 := WalkPath(host, c, 0, AddPath(host, c, s));
            WalkConfs(host, [c, c'], s) == WalkPath(host, c', 0, AddPath(host, c', s1))
  {
    hide WalkPath, AddPath;
    assert [c, c'][1..] == [c'];
    OneConf(host, c', WalkPath(host, c, 0, AddPath(host, c, s)));
  }

  lemma ChainIsLong(n: nat, confs: seq<bytes>)
    requires n >= 10 && Link(1) in confs
    ensures LongChain(Chain(n), confs)
  {
    hide Link, Chain, Succ;
    var ps := seq(10, i requires 0 <= i < 10 => Link(i + 1));
    LinkFacts(n, 1);
    forall i | 0 < i < |ps|
      ensures Succ(Chain(n), ps[i - 1], ps[i])
    {
      LinkFacts(n, i);
      assert Link(i + 1) in Chain(n)(Link(i)).value.includes;
      IncludeSucc(Chain(n), Link(i), Link(i + 1));
    }
    forall i, j | 0 <= i < j < |ps|
      ensures ps[i] != ps[j]
    {
      LinksDiffer(i + 1, j + 1);
    }
    assert SimpleChain(Chain(n), confs, ps);
  }

  /**
   * That there is no long chain is not necessary for a given order: in a chain of ten files nothing is turned
   * away when the fifth is a configuration file listed before the first.
   */
  lemma OrderCanSave()
    ensures LongChain(Chain(10), [Link(5), Link(1)])
    ensures WalkConfs(Chain(10), [Link(5), Link(1)], Start([])).refused == {}
  {
    hide Link, Chain, WalkPath, AddPath, WalkConfs, LongChain;
    var host, start := Chain(10), AddPath(Chain(10), Link(5), Start([]));
    var s := WalkPath(host, Link(5), 0, start);
    ChainIsLong(10, [Link(5), Link(1)]);
    LinkFacts(10, 1);
    LinkFacts(10, 5);
    TwoConfs(host, Link(5), Link(1), Start([]));
    AddVisits(host, Link(5), Start([]));
    ChainFits(10, 5, 0, 10, start);
    AddVisits(host, Link(1), s);
    ChainFits(10, 1, 0, 5, AddPath(host, Link(1), s));
  }

  // ----- What the order of a directory's names can save -----

  /** An entry of the directory Link(7). */
  function Child(x: byte): bytes {
    Rooted([seq(7, i => 97), [x]])
  }

  /**
   * Six files in a row, the last including a directory with the entries 1 and 2; the first of these includes
   * Link(8), the second Link(9), which includes Link(8) as well.
   */
  function Detour(): Host {
    p =>
      if p == Link(7) then Some(Dir(Some([[49], [50]])))
      else if p == Child(49) then Some(File([Link(8)]))
      else if p == Child(50) then Some(File([Link(9)]))
      else if p == Link(8) then Some(File([]))
      else if p == Link(9) then Some(File([Link(8)]))
      else if 2 <= |p| <= 7 && p == Link(|p| - 1) then Some(File([Link(|p|)]))
      else None
  }

  lemma ChildIs(x: byte)
    requires x == 49 || x == 50
    ensures Join(Link(7), [x]) == Child(x) && |Child(x)| == 10 && Child(x)[8] == SLASH && Child(x)[9] == x
  {
    var a: bytes := seq(7, i => 97);
    assert a[0] == 97;
    assert SLASH !in a && SLASH !in [x] && Elements([a, [x]]);
    assert [a, [x]][1..] == [[x]];
    assert JoinElements([a, [x]]) == a + [SLASH] + JoinElements([[x]]);
    assert Rooted([a, [x]]) == Link(7) + [SLASH] + [x];
    assert IsAbs(Child(x));
    CleanIsRooted(Child(x));
    PartsRooted([a, [x]]);
  }

  lemma PathsApart(k: nat, x: byte)
    requires x == 49 || x == 50
    ensures Link(k) != Child(x) && Child(49) != Child(50) && |Link(k)| == k + 1
  {
    hide Child;
    ChildIs(x);
    ChildIs(49);
    ChildIs(50);
    if k == 9 {
      assert Link(k)[8] == 97;
    }
  }

  lemma DetourAt(k: nat)
    requires 1 <= k <= 9
    ensures Detour()(Link(k)) ==
            if k <= 6 then Some(File([Link(k + 1)])) else if k == 7 then Some(Dir(Some([[49], [50]])))
            else if k == 8 then Some(File([])) else Some(File([Link(8)]))
    ensures Detour()(Child(49)) == Some(File([Link(8)])) && Detour()(Child(50)) == Some(File([Link(9)]))
  {
    hide Link, Child;
    PathsApart(k, 49);
    PathsApart(k, 50);
    PathsApart(7, 49);
    PathsApart(7, 50);
    LinksDiffer(k, 7);
    LinksDiffer(k, 8);
    LinksDiffer(k, 9);
  }

  lemma ResolvesAnywhere(f: bytes, k: nat)
    requires k > 0
    ensures Resolve(f, Link(k)) == Link(k)
  {
    var x := seq(k, i => 97);
    assert x[0] == 97;
    CleanPlain(x);
  }

  // No file of the detour lists two targets, so there is but one order of listing.
  lemma DetourSame(host: Host, p: bytes)
    requires SameGraph(Detour(), host)
    ensures host(p) == Detour()(p)
  {
    hide Link, Child;
    assert SameNode(Detour()(p), host(p));
    if host(p).Some? && host(p).value.File? {
      OnePermutation(Detour()(p).value.includes, host(p).value.includes);
    }
  }

  lemma OnePermutation(a: seq<bytes>, b: seq<bytes>)
    requires |a| <= 1 && Permuted(a, b)
    ensures a == b
  {
    assert |multiset(a)| == |a| && |multiset(b)| == |b|;
    if a != [] {
      assert b[0] in multiset(b);
      assert a == [a[0]];
    }
  }

  // A file that includes one other.
  lemma OneFile(host: Host, f: bytes, t: bytes, depth: nat, s: State)
    requires host(f) == Some(File([t])) && Resolve(f, t) == t && host(t).Some? && depth <= MAX_DEPTH
    ensures var s1 := s.(visited := s.visited + {f});
            WalkPath(host, f, depth, s) == if f in s.visited then s
              else WalkPath(host, t, depth + 1, AddPath(host, t, s1))
  {
    hide Resolve, AddPath, WalkIncludes;
    if f !in s.visited {
      OneInclude(host, f, t, depth + 1, s.(visited := s.visited + {f}));
    }
  }

  lemma DetourEnd(host: Host, depth: nat, s: State)
    requires SameGraph(Detour(), host) && (depth <= MAX_DEPTH || Link(8) in s.visited)
    ensures var r := WalkPath(host, Link(8), depth, s);
            NoneRefused(s, r) && Link(8) in r.visited && r.visited <= s.visited + {Link(8)}
  {
    hide Link, Child, SameGraph, WalkIncludes, WalkEntries;
    DetourSame(host, Link(8));
    DetourAt(8);
    NoInclude(host, Link(8), depth + 1, s.(visited := s.visited + {Link(8)}));
  }

  // The directory, with Link(8) first visited through entry 1.
  lemma DetourDir(host: Host, s: State)
    requires SameGraph(Detour(), host) && Child(49) !in s.visited
    ensures NoneRefused(s, WalkPath(host, Link(7), 6, s))
  {
    hide Link, Child, SameGraph, WalkIncludes, WalkPath, Join, Resolve, AddPath, Detour;
    var s1 := s.(visited := s.visited + {Link(7)});
    DirStep(host, s);
    if Link(7) !in s.visited {
      PathsApart(7, 49);
      DetourChild1(host, s1);
      DetourChild2(host, WalkPath(host, Child(49), 7, s1));
    }
  }

  lemma DirStep(host: Host, s: State)
    requires SameGraph(Detour(), host)
    ensures var s1 := s.(visited := s.visited + {Link(7)});
            WalkPath(host, Link(7), 6, s) ==
            if Link(7) in s.visited then s
            else WalkPath(host, Child(50), 7, WalkPath(host, Child(49), 7, s1))
  {
    hide Link, Child, SameGraph, WalkIncludes, Join, Detour;
    DetourSame(host, Link(7));
    DetourAt(7);
    ChildIs(49);
    ChildIs(50);
    var s1 := s.(visited := s.visited + {Link(7)});
    TwoEntries(host, Link(7), [49], [50], 7, s1);
  }

  lemma TwoEntries(host: Host, path: bytes, a: bytes, b: bytes, depth: nat, s: State)
    ensures WalkEntries(host, path, [a, b], depth, s) ==
            WalkPath(host, Join(path, b), depth, WalkPath(host, Join(path, a), depth, s))
  {
    hide Join, WalkPath;
    var s1 := WalkPath(host, Join(path, a), depth, s);
    assert [a, b][1..] == [b] && [b][1..] == [];
    assert WalkEntries(host, path, [b], depth, s1) ==
           WalkEntries(host, path, [], depth, WalkPath(host, Join(path, b), depth, s1));
  }

  lemma DetourChild1(host: Host, s: State)
    requires SameGraph(Detour(), host) && Child(49) !in s.visited
    ensures var r := WalkPath(host, Child(49), 7, s); NoneRefused(s, r) && Link(8) in r.visited
  {
    hide Link, Child, SameGraph, WalkPath, Resolve, AddPath, Detour;
    DetourSame(host, Child(49));
    DetourSame(host, Link(8));
    DetourAt(8);
    ResolvesAnywhere(Child(49), 8);
    OneFile(host, Child(49), Link(8), 7, s);
    var s1 := s.(visited := s.visited + {Child(49)});
    AddVisits(host, Link(8), s1);
    DetourEnd(host, 8, AddPath(host, Link(8), s1));
  }

  lemma DetourChild2(host: Host, s: State)
    requires SameGraph(Detour(), host) && Link(8) in s.visited
    ensures NoneRefused(s, WalkPath(host, Child(50), 7, s))
  {
    hide Link, Child, SameGraph, WalkPath, Resolve, AddPath, Detour;
    DetourSame(host, Child(50));
    DetourSame(host, Link(8));
    DetourSame(host, Link(9));
    DetourAt(8);
    DetourAt(9);
    ResolvesAnywhere(Child(50), 9);
    OneFile(host, Child(50), Link(9), 7, s);
    if Child(50) !in s.visited {
      var s1 := s.(visited := s.visited + {Child(50)});
      var s2 := AddPath(host, Link(9), s1);
      AddVisits(host, Link(9), s1);
      ResolvesAnywhere(Link(9), 8);
      OneFile(host, Link(9), Link(8), 8, s2);
      var s3 := s2.(visited := s2.visited + {Link(9)});
      AddVisits(host, Link(8), s3);
      DetourEnd(host, 9, AddPath(host, Link(8), s3));
    }
  }

  lemma {:induction false} DetourDown(host: Host, k: nat, s: State)
    requires SameGraph(Detour(), host) && 1 <= k <= 7 && Child(49) !in s.visited
    ensures NoneRefused(s, WalkPath(host, Link(k), k - 1, s))
    decreases 7 - k
  {
    hide Link, Child, SameGraph, WalkPath, Resolve, AddPath, Detour;
    if k == 7 {
      DetourDir(host, s);
    } else {
      DetourSame(host, Link(k));
      DetourSame(host, Link(k + 1));
      DetourAt(k);
      DetourAt(k + 1);
      ResolvesAnywhere(Link(k), k + 1);
      OneFile(host, Link(k), Link(k + 1), k - 1, s);
      var s1 := s.(visited := s.visited + {Link(k)});
      AddVisits(host, Link(k + 1), s1);
      PathsApart(k, 49);
      DetourDown(host, k + 1, AddPath(host, Link(k + 1), s1));
    }
  }

  /** The detour's ten paths in a row, through the directory's second entry. */
  function DetourChain(): seq<bytes> {
    [Link(1), Link(2), Link(3), Link(4), Link(5), Link(6), Link(7), Child(50), Link(9), Link(8)]
  }

  lemma DetourIncludes(f: bytes, k: nat)
    requires 1 <= k <= 9 && Detour()(f) == Some(File([Link(k)]))
    ensures Succ(Detour(), f, Link(k))
  {
    hide Link, Child, Detour, Succ;
    DetourAt(k);
    ResolvesAnywhere(f, k);
    assert Link(k) in Detour()(f).value.includes;
    IncludeSucc(Detour(), f, Link(k));
  }

  lemma DetourStep(i: nat)
    requires 0 < i < 10
    ensures Succ(Detour(), DetourChain()[i - 1], DetourChain()[i])
  {
    hide Link, Child, Detour, Succ;
    if i <= 6 {
      DetourAt(i);
      DetourIncludes(Link(i), i + 1);
    } else if i == 7 {
      DetourAt(7);
      ChildIs(50);
      assert [50] in Detour()(Link(7)).value.entries.value;
      EntrySucc(Detour(), Link(7), [50]);
    } else if i == 8 {
      DetourAt(9);
      DetourIncludes(Child(50), 9);
    } else {
      DetourAt(9);
      DetourIncludes(Link(9), 8);
    }
  }

  lemma DetourDiffers(i: nat, j: nat)
    requires 0 <= i < j < 10
    ensures DetourChain()[i] != DetourChain()[j]
  {
    hide Link, Child;
    var a := if i <= 6 then i + 1 else if i == 8 then 9 else 8;
    var b := if j <= 6 then j + 1 else if j == 8 then 9 else 8;
    LinksDiffer(a, b);
    PathsApart(a, 50);
    PathsApart(b, 50);
  }

  lemma DetourIsLong()
    ensures LongChain(Detour(), [Link(1)])
  {
    hide Link, Child, Detour, Succ, DetourChain;
    var ps := DetourChain();
    DetourLength();
    DetourAt(1);
    forall i | 0 < i < |ps|
      ensures Succ(Detour(), ps[i - 1], ps[i])
    {
      DetourStep(i);
    }
    forall i, j | 0 <= i < j < |ps|
      ensures ps[i] != ps[j]
    {
      DetourDiffers(i, j);
    }
    assert SimpleChain(Detour(), [Link(1)], ps);
  }

  lemma DetourLength()
    ensures |DetourChain()| == 10 && DetourChain()[0] == Link(1)
  {
  }

  /**
   * With directories in the way a chain of ten need not be found: this one is never walked into, because the
   * directory's first name leads to the chain's last path before the second does.
   */
  lemma DirectoryCanSave()
    ensures LongChain(Detour(), [Link(1)]) && NeverRefuses(Detour(), [Link(1)])
  {
    hide Link, Detour, LongChain, WalkConfs, SameGraph, Permuted, WalkPath, AddPath;
    DetourIsLong();
    forall host, confs, bound | SameGraph(Detour(), host) && Permuted([Link(1)], confs)
      ensures WalkConfs(host, confs, Start(bound)).refused == {}
    {
      OnePermutation([Link(1)], confs);
      DetourSame(host, Link(1));
      DetourAt(1);
      OneConf(host, Link(1), Start(bound));
      AddVisits(host, Link(1), Start(bound));
      DetourDown(host, 1, AddPath(host, Link(1), Start(bound)));
    }
  }
}
