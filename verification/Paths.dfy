/** Lexical path operations, as the documentation of Go's path/filepath gives them for Unix. */
module Paths {
  import opened Bytes
  import opened Options

  const SLASH: byte := 47
  const DOT: byte := 46

  /** The element that leads up. */
  const DOTS: bytes := [DOT, DOT]

  predicate IsAbs(p: bytes) {
    p != [] && p[0] == SLASH
  }

  /** The elements between slashes. */
  function Split(p: bytes): (r: seq<bytes>)
    ensures r != []
    decreases |p|
  {
    if p == [] then [[]]
    else
      var rest := Split(p[1..]);
      if p[0] == SLASH then [[]] + rest else [[p[0]] + rest[0]] + rest[1..]
  }

  function JoinElements(es: seq<bytes>): bytes {
    if es == [] then [] else if |es| == 1 then es[0] else es[0] + [SLASH] + JoinElements(es[1..])
  }

  /** Drops empty and "." elements and lets ".." remove the element before it. */
  function Reduce(es: seq<bytes>, kept: seq<bytes>, rooted: bool): seq<bytes>
    decreases |es|
  {
    if es == [] then kept
    else if es[0] == [] || es[0] == [DOT] then Reduce(es[1..], kept, rooted)
    else if es[0] != DOTS then Reduce(es[1..], kept + [es[0]], rooted)
    else if kept != [] && kept[|kept| - 1] != DOTS then Reduce(es[1..], kept[..|kept| - 1], rooted)
    else if rooted then Reduce(es[1..], kept, rooted)
    else Reduce(es[1..], kept + [DOTS], rooted)
  }

  function Clean(p: bytes): bytes {
    var es := Reduce(Split(p), [], IsAbs(p));
    if IsAbs(p) then [SLASH] + JoinElements(es) else if es == [] then [DOT] else JoinElements(es)
  }

  function Join(a: bytes, b: bytes): bytes {
    if a == [] && b == [] then [] else if a == [] then Clean(b) else if b == [] then Clean(a)
       else Clean(a + [SLASH] + b)
  }

  /** p up to and including its last slash. */
  function Parent(p: bytes): bytes {
    if p == [] || p[|p| - 1] == SLASH then p else Parent(p[..|p| - 1])
  }

  function Dir(p: bytes): bytes {
    Clean(Parent(p))
  }

  lemma ParentAbs(p: bytes)
    requires IsAbs(p)
    ensures IsAbs(Parent(p))
    decreases |p|
  {
    if p[|p| - 1] != SLASH {
      ParentAbs(p[..|p| - 1]);
    }
  }

  lemma JoinAbs(a: bytes, b: bytes)
    requires IsAbs(a)
    ensures IsAbs(Join(a, b))
  {
  }

  lemma {:induction false} SplitPlain(x: bytes)
    requires SLASH !in x
    ensures Split(x) == [x]
  {
    if x != [] {
      SplitPlain(x[1..]);
      assert [x[0]] + x[1..] == x;
    }
  }

  /** A rooted path of one ordinary element is already clean. */
  lemma CleanPlain(x: bytes)
    requires SLASH !in x && x != [] && x != [DOT] && x != DOTS
    ensures Clean([SLASH] + x) == [SLASH] + x
  {
    var p := [SLASH] + x;
    assert p[1..] == x;
    SplitPlain(x);
    assert Split(p) == [[], x];
    assert Reduce([[], x], [], true) == Reduce([x], [], true) by { assert [[], x][1..] == [x]; }
    assert Reduce([x], [], true) == Reduce([], [] + [x], true) by { assert [x][1..] == []; }
    assert [] + [x] == [x];
  }

  // ----- Absolute paths by their elements -----

  /** An element of a clean absolute path. */
  predicate Element(e: bytes) {
    e != [] && e != [DOT] && e != DOTS && SLASH !in e
  }

  predicate Elements(es: seq<bytes>) {
    forall e | e in es :: Element(e)
  }

  function Rooted(es: seq<bytes>): bytes {
    [SLASH] + JoinElements(es)
  }

  /** The elements of an absolute path once it is clean. */
  function Parts(p: bytes): seq<bytes> {
    Reduce(Split(p), [], true)
  }

  lemma CleanIsRooted(p: bytes)
    requires IsAbs(p)
    ensures Clean(p) == Rooted(Parts(p))
  {
  }

  lemma {:induction false} SplitNoSlash(p: bytes)
    ensures forall e | e in Split(p) :: SLASH !in e
  {
    if p != [] {
      SplitNoSlash(p[1..]);
      var rest := Split(p[1..]);
      assert rest[0] in rest;
    }
  }

  lemma {:induction false} ReduceElements(es: seq<bytes>, kept: seq<bytes>)
    requires (forall e | e in es :: SLASH !in e) && Elements(kept)
    ensures Elements(Reduce(es, kept, true))
    decreases |es|
  {
    if es != [] {
      assert es[0] in es;
      if es[0] == [] || es[0] == [DOT] {
        ReduceElements(es[1..], kept);
      } else if es[0] != DOTS {
        ReduceElements(es[1..], kept + [es[0]]);
      } else if kept != [] && kept[|kept| - 1] != DOTS {
        ReduceElements(es[1..], kept[..|kept| - 1]);
      } else {
        ReduceElements(es[1..], kept);
      }
    }
  }

  lemma PartsElements(p: bytes)
    ensures Elements(Parts(p))
  {
    hide Element, Reduce, Split;
    SplitNoSlash(p);
    ReduceElements(Split(p), []);
  }

  lemma {:induction false} SplitFirst(e: bytes, rest: bytes)
    requires SLASH !in e
    ensures Split(e + ([SLASH] + rest)) == [e] + Split(rest)
    decreases |e|
  {
    var p := e + ([SLASH] + rest);
    if e == [] {
      assert p == [SLASH] + rest && p[1..] == rest;
    } else {
      assert p[1..] == e[1..] + ([SLASH] + rest);
      SplitFirst(e[1..], rest);
      assert [e[0]] + e[1..] == e;
      assert ([e[1..]] + Split(rest))[1..] == Split(rest);
    }
  }

  lemma {:induction false} SplitJoined(es: seq<bytes>)
    requires es != [] && forall e | e in es :: SLASH !in e
    ensures Split(JoinElements(es)) == es
    decreases |es|
  {
    assert es[0] in es;
    if |es| == 1 {
      SplitPlain(es[0]);
    } else {
      SplitJoined(es[1..]);
      assert es[0] + [SLASH] + JoinElements(es[1..]) == es[0] + ([SLASH] + JoinElements(es[1..]));
      SplitFirst(es[0], JoinElements(es[1..]));
      assert [es[0]] + es[1..] == es;
    }
  }

  lemma {:induction false} ReduceKeeps(es: seq<bytes>, kept: seq<bytes>)
    requires Elements(es)
    ensures Reduce(es, kept, true) == kept + es
    decreases |es|
  {
    if es == [] {
      assert kept + es == kept;
    } else {
      assert es[0] in es;
      ReduceKeeps(es[1..], kept + [es[0]]);
      assert kept + [es[0]] + es[1..] == kept + es;
    }
  }

  /** A path made of elements is clean. */
  lemma PartsRooted(es: seq<bytes>)
    requires Elements(es)
    ensures Parts(Rooted(es)) == es
  {
    hide Reduce, Split;
    var p := Rooted(es);
    assert p == [] + ([SLASH] + JoinElements(es));
    SplitFirst([], JoinElements(es));
    ReduceEmpty(Split(JoinElements(es)));
    if es == [] {
      var nothing: bytes := [];
      SplitPlain(nothing);
      ReduceEmpty([]);
      assert [nothing] == [nothing] + [];
    } else {
      SplitJoined(es);
      ReduceKeeps(es, []);
      assert [] + es == es;
    }
  }

  lemma ReduceEmpty(es: seq<bytes>)
    ensures Reduce([[]] + es, [], true) == Reduce(es, [], true) && Reduce([], [], true) == []
  {
    assert ([[]] + es)[1..] == es;
  }

  // ----- Paths that begin with other paths -----

  lemma HeadOfTwo(a: seq<bytes>, b: seq<bytes>)
    requires a != []
    ensures (a + b)[0] == a[0] && (a + b)[1..] == a[1..] + b
  {
  }

  lemma {:induction false} SplitAppend(a: bytes, b: bytes)
    ensures Split(a + ([SLASH] + b)) == Split(a) + Split(b)
    decreases |a|
  {
    var p := a + ([SLASH] + b);
    if a == [] {
      assert p == [SLASH] + b && p[1..] == b;
    } else {
      assert p[0] == a[0] && p[1..] == a[1..] + ([SLASH] + b);
      SplitAppend(a[1..], b);
      HeadOfTwo(Split(a[1..]), Split(b));
    }
  }

  lemma {:induction false} JoinAppend(a: seq<bytes>, b: seq<bytes>)
    requires a != [] && b != []
    ensures JoinElements(a + b) == JoinElements(a) + ([SLASH] + JoinElements(b))
    decreases |a|
  {
    assert (a + b)[1..] == a[1..] + b;
    if |a| > 1 {
      JoinAppend(a[1..], b);
    } else {
      assert a[1..] + b == b;
    }
  }

  lemma RootedSplit(es: seq<bytes>)
    requires Elements(es) && es != []
    ensures Split(Rooted(es)) == [[]] + es
  {
    hide Split, Element;
    forall e | e in es
      ensures SLASH !in e
    {
      ElementPlain(e);
    }
    SplitFirst([], JoinElements(es));
    assert Rooted(es) == [] + ([SLASH] + JoinElements(es));
    SplitJoined(es);
  }

  lemma ElementPlain(e: bytes)
    requires Element(e)
    ensures SLASH !in e && e != []
  {
  }

  lemma RootedInjective(es: seq<bytes>, rs: seq<bytes>)
    requires Elements(es) && Elements(rs)
    ensures Rooted(es) == Rooted(rs) <==> es == rs
  {
    hide Parts, Rooted;
    PartsRooted(es);
    PartsRooted(rs);
  }

  /** Text that begins with a path and a slash has the path's elements at its front, and conversely. */
  lemma PrefixIff(es: seq<bytes>, rs: seq<bytes>)
    requires Elements(es) && Elements(rs) && rs != []
    ensures Rooted(rs) + [SLASH] <= Rooted(es) <==> rs < es
  {
    hide Split, Element, JoinElements;
    if Rooted(rs) + [SLASH] <= Rooted(es) {
      var tail := Rooted(es)[|Rooted(rs)| + 1..];
      assert Rooted(es) == Rooted(rs) + ([SLASH] + tail);
      SplitAppend(Rooted(rs), tail);
      RootedSplit(rs);
      EmptyJoined();
      if es != [] {
        RootedSplit(es);
        assert ([[]] + es)[1..] == es && ([[]] + rs + Split(tail))[1..] == rs + Split(tail);
      }
    }
    if rs < es {
      var more := es[|rs|..];
      JoinAppend(rs, more);
      assert es == rs + more;
      assert Rooted(es) == Rooted(rs) + [SLASH] + JoinElements(more);
    }
  }

  lemma EmptyJoined()
    ensures JoinElements([]) == []
  {
  }

  lemma {:induction false} NoSlashAtEnd(es: seq<bytes>)
    requires Elements(es) && es != []
    ensures JoinElements(es) != [] && JoinElements(es)[|JoinElements(es)| - 1] != SLASH
    decreases |es|
  {
    assert es[0] in es;
    if |es| > 1 {
      NoSlashAtEnd(es[1..]);
    }
  }

  /** A clean absolute path. */
  predicate Plain(p: bytes) {
    p == Rooted(Parts(p))
  }

  lemma CleanIsPlain(p: bytes)
    requires IsAbs(p)
    ensures Plain(Clean(p))
  {
    hide Parts, Clean, Rooted;
    CleanIsRooted(p);
    PartsElements(p);
    PartsRooted(Parts(p));
  }

  // ----- Relative paths -----

  function Ups(n: nat): (r: seq<bytes>)
    ensures |r| == n && forall e | e in r :: e == DOTS
  {
    if n == 0 then [] else [DOTS] + Ups(n - 1)
  }

  /** The way from one clean absolute path to another: up to where they part, then down. */
  function Way(base: seq<bytes>, target: seq<bytes>): seq<bytes> {
    if base != [] && target != [] && base[0] == target[0] then Way(base[1..], target[1..]) else Ups(|base|) + target
  }

  /** filepath.Rel from the absolute path with the given elements; it fails on a relative target. */
  function Rel(base: seq<bytes>, target: bytes): Option<bytes> {
    if !IsAbs(target) then None
    else
      var way := Way(base, Parts(target));
      Some(if way == [] then [DOT] else JoinElements(way))
  }

  /** rel leads up: it is "..", or begins with "../". */
  predicate LeadsUp(rel: bytes) {
    rel == DOTS || DOTS + [SLASH] <= rel
  }

  lemma {:induction false} WayDown(base: seq<bytes>, target: seq<bytes>)
    ensures base <= target ==> Way(base, target) == target[|base|..]
    ensures !(base <= target) ==> Way(base, target) != [] && Way(base, target)[0] == DOTS
    decreases |base|
  {
    if base != [] && target != [] && base[0] == target[0] {
      WayDown(base[1..], target[1..]);
      assert base == [base[0]] + base[1..] && target == [target[0]] + target[1..];
    } else if base <= target {
      assert base == [];
      assert Ups(0) + target == target;
    }
  }

  lemma JoinedFirst(es: seq<bytes>)
    requires es != [] && SLASH !in es[0]
    ensures LeadsUp(JoinElements(es)) <==> es[0] == DOTS
  {
    hide LeadsUp;
    var rel := JoinElements(es);
    LeadsUpIff(rel);
    LeadsUpIff(es[0]);
    if |es| > 1 {
      assert rel == es[0] + ([SLASH] + JoinElements(es[1..]));
      assert rel[|es[0]|] == SLASH;
      assert forall k | 0 <= k < |es[0]| :: rel[k] == es[0][k];
    }
  }

  lemma LeadsUpIff(rel: bytes)
    ensures LeadsUp(rel) <==> |rel| >= 2 && rel[0] == DOT && rel[1] == DOT && (|rel| == 2 || rel[2] == SLASH)
  {
    if |rel| >= 3 && rel[0] == DOT && rel[1] == DOT && rel[2] == SLASH {
      assert rel[..3] == DOTS + [SLASH];
    }
  }

  /** The confinement check: exactly base itself and what lies below it has a relative path that does not lead up. */
  lemma ConfinedIff(base: seq<bytes>, target: bytes)
    ensures Rel(base, target).Some? && !LeadsUp(Rel(base, target).value) <==> IsAbs(target) && base <= Parts(target)
    ensures Rel(base, target).Some? && !LeadsUp(Rel(base, target).value) ==>
              var below := Parts(target)[|base|..];
              Rel(base, target).value == if below == [] then [DOT] else JoinElements(below)
  {
    hide Reduce, Split, Way, JoinElements, LeadsUp;
    if IsAbs(target) {
      var way := Way(base, Parts(target));
      PartsElements(target);
      WayDown(base, Parts(target));
      DotStays();
      if way != [] {
        if base <= Parts(target) {
          assert way[0] in Parts(target);
        }
        JoinedFirst(way);
      }
    }
  }

  lemma DotStays()
    ensures !LeadsUp([DOT])
  {
  }

  /** The elements of a relative path that does not lead up. */
  function RelParts(rel: bytes): seq<bytes> {
    if rel == [DOT] then [] else Split(rel)
  }

  lemma RelPartsOf(below: seq<bytes>)
    requires Elements(below)
    ensures RelParts(if below == [] then [DOT] else JoinElements(below)) == below
  {
    hide Split;
    if below != [] {
      SplitJoined(below);
      assert below[0] in below;
      SplitPlain([DOT]);
    }
  }
}
