/** What the include walk mounts, in terms of the elements of paths: /usr-local is not inside /usr. */
module OpensslMounts {
  import opened Bytes
  import opened Options
  import opened Paths
  import opened OpensslIncludes

  /** As the program is called: clean absolute configuration files, and roots that can be bound. */
  ghost predicate Given(confs: seq<bytes>, bound: seq<bytes>) {
    (forall c | c in confs :: Plain(c)) && forall r | r in bound :: Bindable(r)
  }

  /** p can be read in the sandbox: it is an output, or inside a bound path or an output directory. */
  ghost predicate Mounted(host: Host, out: seq<bytes>, bound: seq<bytes>, p: bytes) {
    p in out || (exists r | r in bound :: Inside(p, r)) || exists d | d in out && IsDir(host, d) :: Inside(p, d)
  }

  lemma PlainAbs(p: bytes)
    requires Plain(p)
    ensures IsAbs(p)
  {
  }

  lemma SuccPlain(host: Host, f: bytes, t: bytes)
    requires Plain(f) && Succ(host, f, t)
    ensures Plain(t)
  {
    hide Plain, Clean, Parent;
    PlainAbs(f);
    if Target(host, f, t) {
      var inc :| inc in host(f).value.includes && Resolve(f, inc) == t;
      ResolvePlain(f, inc);
    } else {
      var e :| e in host(f).value.entries.value && Join(f, e) == t;
      JoinPlain(f, e);
    }
  }

  lemma JoinPlain(a: bytes, b: bytes)
    requires IsAbs(a)
    ensures Plain(Join(a, b))
  {
    hide Plain, Clean;
    CleanIsPlain(a);
    CleanIsPlain(a + [SLASH] + b);
  }

  lemma ResolvePlain(f: bytes, inc: bytes)
    requires IsAbs(f)
    ensures Plain(Resolve(f, inc))
  {
    hide Plain, Clean, Parent;
    ParentAbs(f);
    CleanIsRooted(Parent(f));
    var p := if IsAbs(inc) then inc else Join(Paths.Dir(f), inc);
    if !IsAbs(inc) {
      JoinAbs(Paths.Dir(f), inc);
    }
    CleanIsPlain(p);
  }

  lemma {:induction false} ReachablePlain(host: Host, confs: seq<bytes>, n: nat, p: bytes)
    requires (forall c | c in confs :: Plain(c)) && ReachableIn(host, confs, n, p)
    ensures Plain(p)
    decreases n
  {
    hide Succ, Plain;
    if n > 0 {
      var q :| ReachableIn(host, confs, n - 1, q) && Succ(host, q, p);
      ReachablePlain(host, confs, n - 1, q);
      SuccPlain(host, q, p);
    }
  }

  lemma AllPlain(host: Host, confs: seq<bytes>, p: bytes)
    requires (forall c | c in confs :: Plain(c)) && Reachable(host, confs, p)
    ensures Plain(p)
  {
    hide ReachableIn, Plain;
    var n: nat :| ReachableIn(host, confs, n, p);
    ReachablePlain(host, confs, n, p);
  }

  // What a run covers is what was bound and the directories it put out.
  lemma ReachedIsMounted(host: Host, confs: seq<bytes>, bound: seq<bytes>, p: bytes)
    requires Given(confs, bound) && Plain(p) && Reached(WalkConfs(host, confs, Start(bound)), p)
    ensures Mounted(host, WalkConfs(host, confs, Start(bound)).out, bound, p)
  {
    hide WalkConfs, Plain, Bindable, Under, Inside, Reachable;
    var s := WalkConfs(host, confs, Start(bound));
    ResultGood(host, confs, bound);
    if p !in s.out {
      var r :| r in s.covered && Under(p, r);
      if r in bound {
        UnderIsInside(p, r);
      } else {
        AllPlain(host, confs, r);
        assert Bindable(r) by { PlainBindable(r); }
        UnderIsInside(p, r);
      }
    }
  }

  lemma PlainBindable(p: bytes)
    requires Plain(p)
    ensures Bindable(p)
  {
  }

  /** Every existing configuration file and every existing include target of every file parsed is mounted. */
  lemma TargetsMounted(host: Host, confs: seq<bytes>, bound: seq<bytes>)
    requires Given(confs, bound)
    ensures var r := WalkConfs(host, confs, Start(bound));
            (forall c | c in confs && host(c).Some? :: Mounted(host, r.out, bound, c)) &&
            (forall f, t | f in r.visited && Target(host, f, t) :: Mounted(host, r.out, bound, t))
  {
    hide WalkConfs, Plain, Bindable, Reached, Mounted, Target, Reachable, Tidy;
    var r := WalkConfs(host, confs, Start(bound));
    IncludesCovered(host, confs, bound);
    ResultGood(host, confs, bound);
    forall c | c in confs && host(c).Some?
      ensures Mounted(host, r.out, bound, c)
    {
      ReachedIsMounted(host, confs, bound, c);
    }
    forall f, t | f in r.visited && Target(host, f, t)
      ensures Mounted(host, r.out, bound, t)
    {
      AllPlain(host, confs, f);
      SuccPlain(host, f, t);
      ReachedIsMounted(host, confs, bound, t);
    }
  }

  /** Without a chain of ten paths every existing include target of every reachable file is mounted. */
  lemma ShortChainsMounted(host: Host, confs: seq<bytes>, bound: seq<bytes>)
    requires Given(confs, bound)
    requires forall ps | |ps| == 10 :: !SimpleChain(host, confs, ps)
    ensures forall f, t | Reachable(host, confs, f) && Target(host, f, t) ::
              Mounted(host, WalkConfs(host, confs, Start(bound)).out, bound, t)
  {
    hide WalkConfs, SimpleChain, Reachable, Target, Mounted, Given, Reached;
    ShortChainsLoseNothing(host, confs, bound);
    TargetsMounted(host, confs, bound);
  }

  /** No output is inside a bound path, and none inside a directory that was put out before it. */
  lemma OutputsApart(host: Host, confs: seq<bytes>, bound: seq<bytes>)
    requires Given(confs, bound)
    ensures var out := WalkConfs(host, confs, Start(bound)).out;
            (forall p, r | p in out && r in bound :: !Inside(p, r)) &&
            (forall i, j | 0 <= i < j < |out| && IsDir(host, out[i]) :: !Inside(out[j], out[i]))
  {
    hide WalkConfs, Plain, Bindable, Under, Inside, Reachable;
    var out := WalkConfs(host, confs, Start(bound)).out;
    OutputsIrredundant(host, confs, bound);
    forall p | p in out
      ensures Plain(p) && Bindable(p)
    {
      AllPlain(host, confs, p);
      PlainBindable(p);
    }
    forall p, r | p in out && r in bound
      ensures !Inside(p, r)
    {
      UnderIsInside(p, r);
    }
    forall i, j | 0 <= i < j < |out| && IsDir(host, out[i])
      ensures !Inside(out[j], out[i])
    {
      UnderIsInside(out[j], out[i]);
    }
  }

  // ----- Which paths targets and entries stand for -----

  lemma {:induction false} ReduceAppend(a: seq<bytes>, b: seq<bytes>, kept: seq<bytes>)
    ensures Reduce(a + b, kept, true) == Reduce(b, Reduce(a, kept, true), true)
    decreases |a|
  {
    if a == [] {
      assert a + b == b;
    } else {
      HeadOfTwo(a, b);
      if a[0] == [] || a[0] == [DOT] {
        ReduceAppend(a[1..], b, kept);
      } else if a[0] != DOTS {
        ReduceAppend(a[1..], b, kept + [a[0]]);
      } else if kept != [] && kept[|kept| - 1] != DOTS {
        ReduceAppend(a[1..], b, kept[..|kept| - 1]);
      } else {
        ReduceAppend(a[1..], b, kept);
      }
    }
  }

  lemma {:induction false} ParentOf(a: bytes, name: bytes)
    requires SLASH !in name
    ensures Parent(a + [SLASH] + name) == a + [SLASH]
    decreases |name|
  {
    var p := a + [SLASH] + name;
    if name == [] {
      assert p == a + [SLASH];
    } else {
      assert p[|p| - 1] == name[|name| - 1] && name[|name| - 1] in name;
      assert p[..|p| - 1] == a + [SLASH] + name[..|name| - 1];
      ParentOf(a, name[..|name| - 1]);
    }
  }

  // What a relative path joined to a clean absolute one comes to.
  lemma JoinedParts(es: seq<bytes>, rel: bytes)
    requires Elements(es)
    ensures Clean(Rooted(es) + [SLASH] + rel) == Rooted(Reduce(Split(rel), es, true))
  {
    hide Split, Reduce, Element, JoinElements, Elements;
    var r := Rooted(es);
    SplitAppend(r, rel);
    assert r + [SLASH] + rel == r + ([SLASH] + rel);
    PartsRooted(es);
    ReduceAppend(Split(r), Split(rel), []);
    CleanIsRooted(r + [SLASH] + rel);
  }

  lemma DirOfFile(es: seq<bytes>, name: bytes)
    requires Elements(es) && Element(name)
    ensures Paths.Dir(Rooted(es + [name])) == Rooted(es)
  {
    hide Split, Reduce, Element, JoinElements, Elements, Parent, Clean;
    var p := Rooted(es + [name]);
    ElementPlain(name);
    PartsRooted(es);
    CleanIsRooted(Rooted(es));
    SplitNothing();
    if es == [] {
      LoneElement(name);
      assert p == [] + [SLASH] + name;
      ParentOf([], name);
      EmptyJoined();
      assert [] + [SLASH] == Rooted(es);
    } else {
      LoneElement(name);
      JoinAppend(es, [name]);
      assert p == Rooted(es) + [SLASH] + name;
      ParentOf(Rooted(es), name);
      JoinedParts(es, []);
      assert Rooted(es) + [SLASH] + [] == Rooted(es) + [SLASH];
      assert Reduce(Split([]), es, true) == es;
    }
  }

  lemma LoneElement(name: bytes)
    ensures JoinElements([name]) == name && [] + [name] == [name]
  {
  }

  lemma SplitNothing()
    ensures forall es: seq<bytes> :: Reduce(Split([]), es, true) == es
  {
    assert Split([]) == [[]];
  }

  lemma CleanRooted(es: seq<bytes>)
    requires Elements(es)
    ensures Clean(Rooted(es)) == Rooted(es)
  {
    hide Parts, Rooted, Clean;
    PartsRooted(es);
    assert IsAbs(Rooted(es)) by { RootedAbs(es); }
    CleanIsRooted(Rooted(es));
  }

  lemma RootedAbs(es: seq<bytes>)
    ensures IsAbs(Rooted(es))
  {
  }

  lemma RelativeResolves(dir: seq<bytes>, name: bytes, rel: bytes)
    requires Elements(dir) && Element(name) && rel != [] && !IsAbs(rel)
    ensures Resolve(Rooted(dir + [name]), rel) == Rooted(Reduce(Split(rel), dir, true))
  {
    hide Rooted, Clean, Paths.Dir, Split, Reduce, Element, IsAbs;
    DirOfFile(dir, name);
    RootedAbs(dir);
    JoinedParts(dir, rel);
    SplitNoSlash(rel);
    ReduceElements(Split(rel), dir);
    CleanRooted(Reduce(Split(rel), dir, true));
    assert Rooted(dir) != [] by { RootedNotEmpty(dir); }
  }

  lemma RootedNotEmpty(es: seq<bytes>)
    ensures Rooted(es) != []
  {
  }

  // Text made of elements, perhaps after one that leads up, is relative, and splits into them.
  lemma RelativeText(up: bool, more: seq<bytes>)
    requires Elements(more) && more != []
    ensures var es := if up then [DOTS] + more else more;
            JoinElements(es) != [] && !IsAbs(JoinElements(es)) && Split(JoinElements(es)) == es
  {
    hide Split, Element;
    var es := if up then [DOTS] + more else more;
    forall e | e in es
      ensures SLASH !in e && e != []
    {
      if e in more {
        ElementPlain(e);
      }
    }
    SplitJoined(es);
    assert es[0] in es;
  }

  lemma ReduceUp(dir: seq<bytes>, above: bytes, more: seq<bytes>)
    requires Elements(more) && Element(above)
    ensures Reduce([DOTS] + more, dir + [above], true) == dir + more
  {
    assert ([DOTS] + more)[1..] == more;
    assert (dir + [above])[..|dir + [above]| - 1] == dir;
    ReduceKeeps(more, dir);
  }

  /**
   * An absolute target stands for itself, a relative one for a path from the directory of the file
   * that names it, from the directory above where it begins with ".."; an entry for a path in its directory.
   */
  lemma ResolvesByElements(es: seq<bytes>, above: bytes, name: bytes, more: seq<bytes>)
    requires Elements(es) && Element(above) && Element(name) && Elements(more) && more != []
    ensures Resolve(Rooted(es + [above, name]), Rooted(more)) == Rooted(more)
    ensures Resolve(Rooted(es + [above, name]), JoinElements(more)) == Rooted(es + [above] + more)
    ensures Resolve(Rooted(es + [above, name]), JoinElements([DOTS] + more)) == Rooted(es + more)
    ensures Join(Rooted(es), name) == Rooted(es + [name])
  {
    hide Rooted, Clean, Paths.Dir, Split, Reduce, Element, IsAbs, JoinElements;
    RootedAbs(more);
    CleanRooted(more);
    assert es + [above, name] == es + [above] + [name];
    RelativeText(false, more);
    RelativeResolves(es + [above], name, JoinElements(more));
    ReduceKeeps(more, es + [above]);
    RelativeText(true, more);
    RelativeResolves(es + [above], name, JoinElements([DOTS] + more));
    ReduceUp(es, above, more);
    ElementPlain(name);
    RootedNotEmpty(es);
    JoinedParts(es, name);
    SplitPlain(name);
    ReduceKeeps([name], es);
  }

  lemma Spellings()
    ensures var usr, ssl, local, other := Ascii("/usr"), Ascii("/etc/ssl/"), Ascii("/usr-local/x"),
                                          Ascii("/etc/sslsomething");
            usr[1] == 117 && usr[3] == 114 && ssl[1] == 101 && ssl[8] == 47 &&
            local[1] == 117 && local[4] == 45 && other[1] == 101 && other[8] == 115
    ensures Ascii("/etc/ssl/") <= Ascii("/etc/ssl/openssl.cnf")
  {
  }

  /** The spellings that a comparison of bytes alone would take for containment. */
  lemma NeighboursNotCovered()
    ensures var roots := [Ascii("/usr"), Ascii("/etc/ssl/")];
            Covered(Ascii("/usr"), roots) && Covered(Ascii("/etc/ssl/openssl.cnf"), roots) &&
            !Covered(Ascii("/usr-local/x"), roots) && !Covered(Ascii("/etc/sslsomething"), roots)
  {
    hide Ascii;
    var usr, ssl := Ascii("/usr"), Ascii("/etc/ssl/");
    var conf, other, local := Ascii("/etc/ssl/openssl.cnf"), Ascii("/etc/sslsomething"), Ascii("/usr-local/x");
    Spellings();
    RootEnds(usr, ssl);
    assert Under(usr, usr);
    assert Under(conf, ssl);
    assert (usr + [SLASH])[4] == 47 && (ssl[..8] + [SLASH])[8] == 47;
    assert !Under(local, usr) && !Under(local, ssl) && !Under(other, usr) && !Under(other, ssl);
  }

  lemma RootEnds(usr: bytes, ssl: bytes)
    requires |usr| == 4 && usr[3] != SLASH && |ssl| == 9 && ssl[8] == SLASH
    ensures TrimSlash(usr) == usr && TrimSlash(ssl) == ssl[..8] && ssl[..8] + [SLASH] == ssl
  {
  }
}
