/**
 * A directory tree that is written to, operation by operation, any of which may fail.
 * Paths are relative to the tree's root, which need not be there yet; what holds it is there and can be written to.
 */
module Disk {
  import opened Bytes
  import opened Options

  type Path = seq<bytes>

  /** writable is the owner's write permission. */
  datatype Node = Dir(writable: bool) | File(content: bytes, writable: bool)

  type Disk = map<Path, Node>

  /**
   * The permission of an operation is that of what it creates; what is there already keeps its own.
   * Abort stands for an error on the reading side: nothing is written and the work ends.
   */
  datatype Op = Mkdir(p: Path, writable: bool) | Write(p: Path, content: bytes, writable: bool) | Abort

  function Parent(p: Path): Path
    requires p != []
  {
    p[..|p| - 1]
  }

  /** p and the directories above it, as directories. */
  function Dirs(p: Path, writable: bool): (d: Disk)
    ensures forall q | q in d :: d[q] == Dir(writable) && q <= p
    decreases |p|
  {
    if p == [] then map[p := Dir(writable)] else Dirs(Parent(p), writable)[p := Dir(writable)]
  }

  lemma {:induction false} DirsAre(p: Path, writable: bool, q: Path)
    ensures q in Dirs(p, writable) <==> q <= p
    decreases |p|
  {
    if p == [] {
      assert q <= p ==> q == p;
    } else {
      DirsAre(Parent(p), writable, q);
      if q <= p && q != p {
        assert |q| < |p| && q == Parent(p)[..|q|];
      }
    }
  }

  /** p is a directory in which something can be created. */
  predicate CanAdd(d: Disk, p: Path) {
    p in d && d[p].Dir? && d[p].writable
  }

  predicate IsDir(d: Disk, p: Path) {
    p in d && d[p].Dir?
  }

  /**
   * os.MkdirAll fails on a file in the way and where it cannot add a missing directory to the one
   * above it, which it may just have created.
   */
  predicate CanMkdir(p: Path, writable: bool, d: Disk) {
    forall q | q in Dirs(p, writable) ::
      if q in d then d[q].Dir? else q == [] || CanAdd(d, Parent(q)) || (Parent(q) !in d && writable)
  }

  /** The uppermost of the directories down to p that is missing. */
  function Missing(p: Path, d: Disk): Option<Path>
    decreases |p|
  {
    if p != [] && Missing(Parent(p), d).Some? then Missing(Parent(p), d) else if p in d then None else Some(p)
  }

  /** A refused os.MkdirAll has created the uppermost directory where only that can no longer be added to. */
  function Refused(op: Op, d: Disk): Disk {
    if op.Mkdir? && !op.writable && Missing(op.p, d).Some? then
      var q := Missing(op.p, d).value;
      if q == [] || CanAdd(d, Parent(q)) then Merge(d, map[q := Dir(false)]) else d
    else d
  }

  /** Opening a file to write it needs write permission for the file, or for its directory if there is no file yet. */
  predicate CanWrite(p: Path, d: Disk) {
    p != [] && IsDir(d, Parent(p)) && if p in d then d[p].File? && d[p].writable else CanAdd(d, Parent(p))
  }

  predicate Can(op: Op, d: Disk) {
    match op
    case Mkdir(p, w) => CanMkdir(p, w, d)
    case Write(p, _, _) => CanWrite(p, d)
    case Abort => false
  }

  /** What a successful operation puts in place. */
  function Effect(op: Op): Disk {
    match op
    case Mkdir(p, w) => Dirs(p, w)
    case Write(p, c, w) => map[p := File(c, w)]
    case Abort => map[]
  }

  /** m put over d: the contents are those of m, what was in d already keeps its permission. */
  function Merge(d: Disk, m: Disk): Disk {
    map q | q in d.Keys + m.Keys ::
      if q !in m then d[q] else if q in d then m[q].(writable := d[q].writable) else m[q]
  }

  lemma MergeAssociative(a: Disk, b: Disk, c: Disk)
    ensures Merge(a, Merge(b, c)) == Merge(Merge(a, b), c)
  {
  }

  lemma MergeNothing(d: Disk)
    ensures Merge(d, map[]) == d && Merge(map[], d) == d
  {
  }

  /** The tree and how many more operations succeed before the machine lets one down. */
  datatype State = State(disk: Disk, budget: nat)

  /**
   * What an operation that is let down leaves behind.  cut == 0 stands for one that did not get to create
   * anything, cut == n + 1 for a write of which n bytes got through, or for a chain of directories created
   * down to the n-th below the root.
   */
  function Torn(op: Op, d: Disk, cut: nat): Disk {
    match op
    case Mkdir(p, w) => if cut == 0 then d else Merge(d, Dirs(if |p| < cut then p else p[..cut - 1], w))
    case Write(p, c, w) =>
      if cut == 0 then d else Merge(d, map[p := File(if |c| < cut then c else c[..cut - 1], w)])
    case Abort => d
  }

  function Step(op: Op, s: State, cut: nat): (bool, State) {
    if !Can(op, s.disk) then (false, s.(disk := Refused(op, s.disk)))
    else if s.budget == 0 then (false, s.(disk := Torn(op, s.disk, cut)))
    else (true, State(Merge(s.disk, Effect(op)), s.budget - 1))
  }

  /** Carries out operations in order up to the first that fails. */
  function Exec(ops: seq<Op>, s: State, cut: nat): (bool, State)
    decreases |ops|
  {
    if ops == [] then (true, s)
    else
      var (ok, s1) := Step(ops[0], s, cut);
      if ok then Exec(ops[1..], s1, cut) else (false, s1)
  }

  lemma {:induction false} ExecConcat(a: seq<Op>, b: seq<Op>, s: State, cut: nat)
    ensures Exec(a + b, s, cut) == if Exec(a, s, cut).0 then Exec(b, Exec(a, s, cut).1, cut) else Exec(a, s, cut)
    decreases |a|
  {
    hide Step;
    if a == [] {
      assert a + b == b;
    } else {
      assert (a + b)[1..] == a[1..] + b;
      ExecConcat(a[1..], b, Step(a[0], s, cut).1, cut);
    }
  }

  lemma ExecOne(op: Op, s: State, cut: nat)
    ensures Exec([op], s, cut) == Step(op, s, cut)
  {
    hide Step;
  }

  // One operation followed by the rest of a plan.
  lemma FirstOp(op: Op, rest: seq<Op>, s: State, cut: nat)
    ensures var r := Step(op, s, cut);
            Exec([op] + rest, s, cut) == if r.0 then Exec(rest, r.1, cut) else r
  {
    hide Step;
    assert ([op] + rest)[1..] == rest;
  }

  class Volume {
    var disk: Disk
    var budget: nat
    const cut: nat

    ghost function Now(): State
      reads this
    {
      State(disk, budget)
    }

    constructor (disk: Disk, budget: nat, cut: nat)
      ensures this.disk == disk && this.budget == budget && this.cut == cut
    {
      this.disk, this.budget, this.cut := disk, budget, cut;
    }

    // One operation of the file system.
    method Do(op: Op) returns (ok: bool)
      modifies this
      ensures (ok, Now()) == Step(op, old(Now()), cut)
    {
      hide Can, Torn, Effect, Merge, Refused;
      ok := false;
      if !Can(op, disk) {
        disk := Refused(op, disk);
        return;
      }
      if budget == 0 {
        disk := Torn(op, disk, cut);
        return;
      }
      disk, budget, ok := Merge(disk, Effect(op)), budget - 1, true;
    }
  }

  // ----- What a run that succeeds leaves behind -----

  /** Everything the operations put in place, later contents over earlier ones. */
  function Overlay(ops: seq<Op>): Disk
    decreases |ops|
  {
    if ops == [] then map[] else Merge(Effect(ops[0]), Overlay(ops[1..]))
  }

  lemma {:induction false} ExecOverlay(ops: seq<Op>, s: State, cut: nat)
    requires Exec(ops, s, cut).0
    ensures |ops| <= s.budget && Exec(ops, s, cut).1 == State(Merge(s.disk, Overlay(ops)), s.budget - |ops|)
    decreases |ops|
  {
    hide Effect, Can, Merge;
    if ops == [] {
      MergeNothing(s.disk);
    } else {
      var s1 := Step(ops[0], s, cut).1;
      ExecOverlay(ops[1..], s1, cut);
      MergeAssociative(s.disk, Effect(ops[0]), Overlay(ops[1..]));
    }
  }

  lemma {:induction false} OverlayConcat(a: seq<Op>, b: seq<Op>)
    ensures Overlay(a + b) == Merge(Overlay(a), Overlay(b))
    decreases |a|
  {
    hide Effect, Merge;
    if a == [] {
      assert a + b == b;
      MergeNothing(Overlay(b));
    } else {
      assert (a + b)[1..] == a[1..] + b;
      OverlayConcat(a[1..], b);
      MergeAssociative(Effect(a[0]), Overlay(a[1..]), Overlay(b));
    }
  }

  /** How long the machine holds out does not matter to a run that it does not let down. */
  lemma {:induction false} ExecEnough(ops: seq<Op>, s: State, cut: nat, budget: nat, cut': nat)
    requires Exec(ops, s, cut).0 && |ops| <= budget
    ensures Exec(ops, State(s.disk, budget), cut').0
    ensures Exec(ops, State(s.disk, budget), cut').1.disk == Exec(ops, s, cut).1.disk
    ensures Exec(ops, State(s.disk, budget), cut').1.budget == budget - |ops|
    decreases |ops|
  {
    hide Effect, Can, Merge, Torn;
    if ops != [] {
      ExecEnough(ops[1..], Step(ops[0], s, cut).1, cut, budget - 1, cut');
    }
  }

  // ----- A tree path by path -----

  function Get(d: Disk, q: Path): Option<Node> {
    if q in d then Some(d[q]) else None
  }

  function Put(a: Option<Node>, b: Option<Node>): Option<Node> {
    if b.None? || a.None? then (if b.None? then a else b) else Some(b.value.(writable := a.value.writable))
  }

  lemma GetMerge(d: Disk, m: Disk)
    ensures forall q :: Get(Merge(d, m), q) == Put(Get(d, q), Get(m, q))
  {
  }

  lemma SameAtAll(a: Disk, b: Disk)
    requires forall q :: Get(a, q) == Get(b, q)
    ensures a == b
  {
    assert forall q :: q in a <==> Get(a, q).Some?;
    assert forall q :: q in b <==> Get(b, q).Some?;
    forall q | q in a
      ensures a[q] == b[q]
    {
      assert Get(a, q) == Some(a[q]) && Get(b, q) == Some(b[q]);
    }
  }

  predicate Alike(a: Option<Node>, b: Option<Node>) {
    a.Some? && b.Some? ==> (a.value.Dir? <==> b.value.Dir?)
  }

  /** The two trees nowhere have a file where the other has a directory. */
  ghost predicate Agree(a: Disk, b: Disk) {
    forall q :: Alike(Get(a, q), Get(b, q))
  }

  /** What a run adds it adds to a directory that can be written to, and still can be afterwards. */
  lemma {:induction false} RunAdds(ops: seq<Op>, s: State, cut: nat, q: Path)
    requires Exec(ops, s, cut).0 && q in Overlay(ops) && q !in s.disk
    ensures q != [] ==> CanAdd(Exec(ops, s, cut).1.disk, Parent(q))
    decreases |ops|
  {
    hide Effect, Can, Merge, Overlay;
    OverlayHas(ops, q);
    var s1 := Step(ops[0], s, cut).1;
    RunAgrees(ops[1..], s1, cut);
    ExecOverlay(ops[1..], s1, cut);
    StepAdds(ops[0], s, cut, q);
    if q == [] {
    } else if q in s1.disk {
      DirsStay(s1.disk, Overlay(ops[1..]), Parent(q));
    } else {
      RunAdds(ops[1..], s1, cut, q);
    }
  }

  lemma OverlayHas(ops: seq<Op>, q: Path)
    requires q in Overlay(ops)
    ensures ops != [] && (q in Effect(ops[0]) || q in Overlay(ops[1..]))
  {
  }

  lemma StepAdds(op: Op, s: State, cut: nat, q: Path)
    requires Step(op, s, cut).0 && q !in s.disk
    ensures q in Effect(op) <==> q in Step(op, s, cut).1.disk
    ensures q in Effect(op) && q != [] ==> CanAdd(Step(op, s, cut).1.disk, Parent(q))
  {
    if op.Mkdir? && q in Dirs(op.p, op.writable) && q != [] {
      assert Parent(q) <= q;
      DirsAre(op.p, op.writable, Parent(q));
    }
  }

  lemma DirsStay(d: Disk, m: Disk, p: Path)
    requires CanAdd(d, p) && Agree(d, m)
    ensures CanAdd(Merge(d, m), p)
  {
    assert Alike(Get(d, p), Get(m, p));
  }

  // ----- Trying again after a failure -----

  /** The same but for the content of a file. */
  predicate SameMode(a: Option<Node>, b: Option<Node>) {
    a.Some? && b.Some? && (a.value.Dir? <==> b.value.Dir?) && a.value.writable == b.value.writable
  }

  predicate PartDone(d: Option<Node>, x: Option<Node>, m: Option<Node>) {
    Alike(d, m) && (d.Some? ==> x.Some?) && (x.Some? ==> SameMode(x, Put(d, m))) && (m.None? ==> x == d)
  }

  /** x is d with some of what m puts in place, complete or torn. */
  ghost predicate Between(d: Disk, x: Disk, m: Disk) {
    forall q :: PartDone(Get(d, q), Get(x, q), Get(m, q))
  }

  predicate NotSealed(d: Option<Node>, m: Option<Node>) {
    m.Some? && m.value.File? ==> Put(d, m).value.writable
  }

  /** No file that m puts in place over d ends up without write permission. */
  ghost predicate Rewritable(d: Disk, m: Disk) {
    forall q :: NotSealed(Get(d, q), Get(m, q))
  }

  lemma DirsAgree(p: Path, w: bool, d: Disk)
    requires CanMkdir(p, w, d)
    ensures Agree(d, Dirs(p, w))
  {
    hide Parent, CanAdd;
  }

  lemma StepAgrees(op: Op, d: Disk)
    requires Can(op, d)
    ensures Agree(d, Effect(op))
  {
    hide CanMkdir;
    if op.Mkdir? {
      DirsAgree(op.p, op.writable, d);
    }
  }

  lemma AgreeTrans(d: Disk, e: Disk, m: Disk)
    requires Agree(d, e) && Agree(Merge(d, e), m)
    ensures Agree(d, Merge(e, m)) && Agree(e, m)
  {
    hide Merge, Get;
    GetMerge(d, e);
    GetMerge(e, m);
  }

  lemma {:induction false} RunAgrees(ops: seq<Op>, s: State, cut: nat)
    requires Exec(ops, s, cut).0
    ensures Agree(s.disk, Overlay(ops))
    decreases |ops|
  {
    hide Effect, Can, Agree, Merge;
    if ops == [] {
      AgreeNothing(s.disk);
    } else {
      StepAgrees(ops[0], s.disk);
      RunAgrees(ops[1..], Step(ops[0], s, cut).1, cut);
      AgreeTrans(s.disk, Effect(ops[0]), Overlay(ops[1..]));
    }
  }

  lemma AgreeNothing(d: Disk)
    ensures Agree(d, map[])
  {
  }

  // An operation that the clean run can do can also be done where more is already in place.
  lemma MkdirAgain(p: Path, w: bool, rest: Disk, d: Disk, x: Disk)
    requires CanMkdir(p, w, d) && Between(d, x, Merge(Dirs(p, w), rest)) && Agree(Dirs(p, w), rest)
    ensures CanMkdir(p, w, x)
  {
    hide Merge;
    GetMerge(Dirs(p, w), rest);
    forall q | q in Dirs(p, w)
      ensures if q in x then x[q].Dir? else q == [] || CanAdd(x, Parent(q)) || (Parent(q) !in x && w)
    {
      assert PartDone(Get(d, q), Get(x, q), Put(Get(Dirs(p, w), q), Get(rest, q)));
      assert Alike(Get(Dirs(p, w), q), Get(rest, q));
      if q !in x && q != [] {
        DirsAre(p, w, Parent(q));
        assert Parent(q) in Dirs(p, w) by { assert Parent(q) <= q; }
        assert PartDone(Get(d, Parent(q)), Get(x, Parent(q)), Put(Get(Dirs(p, w), Parent(q)), Get(rest, Parent(q))));
        assert Alike(Get(Dirs(p, w), Parent(q)), Get(rest, Parent(q)));
      }
    }
  }

  lemma WriteAgain(p: Path, c: bytes, w: bool, rest: Disk, d: Disk, x: Disk)
    requires CanWrite(p, d) && Between(d, x, Merge(map[p := File(c, w)], rest))
    requires Agree(map[p := File(c, w)], rest) && Rewritable(d, Merge(map[p := File(c, w)], rest))
    ensures CanWrite(p, x)
  {
    hide Merge;
    var e: Disk := map[p := File(c, w)];
    GetMerge(e, rest);
    assert PartDone(Get(d, p), Get(x, p), Put(Get(e, p), Get(rest, p)));
    assert Alike(Get(e, p), Get(rest, p)) && NotSealed(Get(d, p), Put(Get(e, p), Get(rest, p)));
    assert PartDone(Get(d, Parent(p)), Get(x, Parent(p)), Put(Get(e, Parent(p)), Get(rest, Parent(p))));
  }

  lemma CanAgain(op: Op, rest: Disk, d: Disk, x: Disk)
    requires Can(op, d) && Between(d, x, Merge(Effect(op), rest))
    requires Agree(Effect(op), rest) && Rewritable(d, Merge(Effect(op), rest))
    ensures Can(op, x)
  {
    hide Merge, Agree, Between, Rewritable, CanMkdir, CanWrite;
    if op.Mkdir? {
      MkdirAgain(op.p, op.writable, rest, d, x);
    } else {
      WriteAgain(op.p, op.content, op.writable, rest, d, x);
    }
  }

  lemma BetweenStep(d: Disk, x: Disk, e: Disk, m: Disk)
    requires Between(d, x, Merge(e, m)) && Agree(Merge(d, e), m)
    ensures Between(Merge(d, e), Merge(x, e), m)
  {
    hide Merge, Get;
    GetMerge(d, e);
    GetMerge(x, e);
    GetMerge(e, m);
    forall q
      ensures PartDone(Get(Merge(d, e), q), Get(Merge(x, e), q), Get(m, q))
    {
      assert PartDone(Get(d, q), Get(x, q), Get(Merge(e, m), q)) && Alike(Get(Merge(d, e), q), Get(m, q));
    }
  }

  // Back from what holds after the first operation to what holds of the whole list.
  lemma BetweenBack(d: Disk, y: Disk, e: Disk, m: Disk)
    requires Between(Merge(d, e), y, m) && Agree(d, e)
    ensures Between(d, y, Merge(e, m))
  {
    hide Merge, Get;
    GetMerge(d, e);
    GetMerge(e, m);
    forall q
      ensures PartDone(Get(d, q), Get(y, q), Get(Merge(e, m), q))
    {
      assert PartDone(Get(Merge(d, e), q), Get(y, q), Get(m, q)) && Alike(Get(d, q), Get(e, q));
    }
  }

  lemma RewritableStep(d: Disk, e: Disk, m: Disk)
    requires Rewritable(d, Merge(e, m))
    ensures Rewritable(Merge(d, e), m)
  {
    hide Merge, Get;
    GetMerge(d, e);
    GetMerge(e, m);
    forall q
      ensures NotSealed(Get(Merge(d, e), q), Get(m, q))
    {
      assert NotSealed(Get(d, q), Get(Merge(e, m), q));
    }
  }

  lemma BetweenNothing(d: Disk, x: Disk)
    requires Between(d, x, map[])
    ensures d == x
  {
    forall q
      ensures Get(d, q) == Get(x, q)
    {
      var none: Disk := map[];
      assert PartDone(Get(d, q), Get(x, q), Get(none, q));
    }
    SameAtAll(d, x);
  }

  /** Where a clean run succeeds, a run over its own partial results succeeds with the same outcome. */
  lemma {:induction false} RunAgain(ops: seq<Op>, s: State, x: State, cut: nat, cut': nat)
    requires Exec(ops, s, cut).0 && Between(s.disk, x.disk, Overlay(ops)) && Rewritable(s.disk, Overlay(ops))
    requires x.budget >= |ops|
    ensures Exec(ops, x, cut').0 && Exec(ops, x, cut').1.disk == Exec(ops, s, cut).1.disk
    decreases |ops|
  {
    hide Effect, Can, Merge, Agree, Between, Rewritable, Torn;
    if ops == [] {
      BetweenNothing(s.disk, x.disk);
    } else {
      var e := Effect(ops[0]);
      var s1, m := Step(ops[0], s, cut).1, Overlay(ops[1..]);
      RunAgrees(ops[1..], s1, cut);
      StepAgrees(ops[0], s.disk);
      AgreeTrans(s.disk, e, m);
      CanAgain(ops[0], m, s.disk, x.disk);
      BetweenStep(s.disk, x.disk, e, m);
      RewritableStep(s.disk, e, m);
      RunAgain(ops[1..], s1, State(Merge(x.disk, e), x.budget - 1), cut, cut');
    }
  }

  // What a let-down operation leaves is part of what it would have put in place.
  lemma TornPart(op: Op, x: Disk, cut: nat)
    requires Can(op, x)
    ensures exists f :: Torn(op, x, cut) == Merge(x, f) &&
                        forall q :: Get(f, q).Some? ==> SameMode(Get(f, q), Get(Effect(op), q))
  {
    hide Merge, CanMkdir, CanWrite;
    var none: Disk := map[];
    MergeNothing(x);
    if op.Mkdir? && cut > 0 {
      var part := if |op.p| < cut then op.p else op.p[..cut - 1];
      var f := Dirs(part, op.writable);
      forall q
        ensures Get(f, q).Some? ==> SameMode(Get(f, q), Get(Effect(op), q))
      {
        DirsAre(part, op.writable, q);
        DirsAre(op.p, op.writable, q);
      }
    } else if op.Write? && cut > 0 {
      var f: Disk := map[op.p := File(if |op.content| < cut then op.content else op.content[..cut - 1], op.writable)];
      assert forall q :: Get(f, q).Some? ==> SameMode(Get(f, q), Get(Effect(op), q));
    } else {
      assert forall q :: Get(none, q).Some? ==> SameMode(Get(none, q), Get(Effect(op), q));
    }
  }

  lemma TornAt(d: Option<Node>, x: Option<Node>, e: Option<Node>, m: Option<Node>, f: Option<Node>)
    requires PartDone(d, x, Put(e, m)) && Alike(e, m) && (f.Some? ==> SameMode(f, e))
    ensures PartDone(d, Put(x, f), Put(e, m))
  {
  }

  lemma BetweenTorn(op: Op, m: Disk, d: Disk, x: Disk, cut: nat)
    requires Can(op, x) && Agree(Effect(op), m) && Between(d, x, Merge(Effect(op), m))
    ensures Between(d, Torn(op, x, cut), Merge(Effect(op), m))
  {
    hide Merge, Get, Torn, Effect, Can, PartDone, Put, Alike;
    var e := Effect(op);
    TornPart(op, x, cut);
    var f :| Torn(op, x, cut) == Merge(x, f) && forall q :: Get(f, q).Some? ==> SameMode(Get(f, q), Get(e, q));
    GetMerge(x, f);
    GetMerge(e, m);
    forall q
      ensures PartDone(Get(d, q), Get(Torn(op, x, cut), q), Get(Merge(e, m), q))
    {
      assert PartDone(Get(d, q), Get(x, q), Get(Merge(e, m), q)) && Alike(Get(e, q), Get(m, q));
      assert Get(f, q).Some? ==> SameMode(Get(f, q), Get(e, q));
      TornAt(Get(d, q), Get(x, q), Get(e, q), Get(m, q), Get(f, q));
    }
  }

  /** However far a run over partial results gets, it only adds more of the same. */
  lemma {:induction false} PartialRun(ops: seq<Op>, s: State, x: State, cut: nat, cut': nat)
    requires Exec(ops, s, cut).0 && Between(s.disk, x.disk, Overlay(ops)) && Rewritable(s.disk, Overlay(ops))
    ensures Between(s.disk, Exec(ops, x, cut').1.disk, Overlay(ops))
    decreases |ops|
  {
    hide Effect, Can, Torn, Merge, Agree, Between, Rewritable;
    if ops != [] {
      var e := Effect(ops[0]);
      var s1, m := Step(ops[0], s, cut).1, Overlay(ops[1..]);
      RunAgrees(ops[1..], s1, cut);
      StepAgrees(ops[0], s.disk);
      AgreeTrans(s.disk, e, m);
      CanAgain(ops[0], m, s.disk, x.disk);
      if x.budget == 0 {
        BetweenTorn(ops[0], m, s.disk, x.disk, cut');
      } else {
        BetweenStep(s.disk, x.disk, e, m);
        RewritableStep(s.disk, e, m);
        PartialRun(ops[1..], s1, State(Merge(x.disk, e), x.budget - 1), cut, cut');
        BetweenBack(s.disk, Exec(ops, x, cut').1.disk, e, m);
      }
    }
  }

  /** A failure of the machine: when it comes and how much of the operation it interrupts gets through. */
  datatype Fault = Fault(budget: nat, cut: nat)

  /** The tree after a number of runs, each let down at its own point. */
  function Attempts(ops: seq<Op>, d: Disk, faults: seq<Fault>): Disk
    decreases |faults|
  {
    if faults == [] then d
    else Attempts(ops, Exec(ops, State(d, faults[0].budget), faults[0].cut).1.disk, faults[1..])
  }

  lemma {:induction false} AttemptsBetween(ops: seq<Op>, s: State, cut: nat, x: Disk, faults: seq<Fault>)
    requires Exec(ops, s, cut).0 && Between(s.disk, x, Overlay(ops)) && Rewritable(s.disk, Overlay(ops))
    ensures Between(s.disk, Attempts(ops, x, faults), Overlay(ops))
    decreases |faults|
  {
    hide Exec, Between, Rewritable, Overlay;
    if faults != [] {
      PartialRun(ops, s, State(x, faults[0].budget), cut, faults[0].cut);
      AttemptsBetween(ops, s, cut, Exec(ops, State(x, faults[0].budget), faults[0].cut).1.disk, faults[1..]);
    }
  }

  lemma BetweenStart(d: Disk, m: Disk)
    requires Agree(d, m)
    ensures Between(d, d, m)
  {
    hide Get;
    assert forall q :: Alike(Get(d, q), Get(m, q));
  }

  // ----- A file without write permission is the end -----

  predicate Sealed(d: Disk, q: Path) {
    q in d && d[q].File? && !d[q].writable
  }

  lemma StepSealed(op: Op, s: State, cut: nat, q: Path)
    requires Sealed(s.disk, q)
    ensures Sealed(Step(op, s, cut).1.disk, q)
    ensures Step(op, s, cut).0 ==> !(op.Write? && op.p == q)
  {
    hide CanMkdir, Refused;
    if op.Mkdir? && Can(op, s.disk) {
      DirsAgree(op.p, op.writable, s.disk);
      assert Alike(Get(s.disk, q), Get(Dirs(op.p, op.writable), q));
      if s.budget == 0 && cut > 0 {
        DirsAre(op.p, op.writable, q);
        DirsAre(if |op.p| < cut then op.p else op.p[..cut - 1], op.writable, q);
      }
    }
    RefusedAdds(op, s.disk);
  }

  /** A refused operation changes nothing that was there, and adds at most one directory to one that can be added to. */
  lemma RefusedAdds(op: Op, d: Disk)
    ensures var x := Refused(op, d);
            d.Keys <= x.Keys && (forall q | q in d :: x[q] == d[q]) &&
            forall q | q in x && q !in d ::
              q in Effect(op) && x[q] == Dir(false) && (q == [] || CanAdd(d, Parent(q)))
  {
    if op.Mkdir? && Missing(op.p, d).Some? {
      MissingIs(op.p, d);
      DirsAre(op.p, op.writable, Missing(op.p, d).value);
    }
  }

  lemma {:induction false} MissingIs(p: Path, d: Disk)
    ensures Missing(p, d).Some? ==> Missing(p, d).value <= p && Missing(p, d).value !in d
    decreases |p|
  {
    if p != [] {
      MissingIs(Parent(p), d);
    }
  }

  /** Whatever is run, a file without write permission stays, and a run that has to write it fails. */
  lemma {:induction false} SealedBlocks(ops: seq<Op>, s: State, cut: nat, q: Path)
    requires Sealed(s.disk, q)
    ensures Sealed(Exec(ops, s, cut).1.disk, q)
    ensures Exec(ops, s, cut).0 ==> forall op | op in ops :: !(op.Write? && op.p == q)
    decreases |ops|
  {
    hide Step, Sealed;
    if ops != [] {
      StepSealed(ops[0], s, cut, q);
      SealedBlocks(ops[1..], Step(ops[0], s, cut).1, cut, q);
      assert ops == [ops[0]] + ops[1..];
    }
  }

  lemma {:induction false} OverlayFileWritten(ops: seq<Op>, q: Path)
    requires q in Overlay(ops) && Overlay(ops)[q].File?
    ensures exists op :: op in ops && op.Write? && op.p == q
    decreases |ops|
  {
    var rest := Overlay(ops[1..]);
    if q in rest && rest[q].File? {
      OverlayFileWritten(ops[1..], q);
      var op :| op in ops[1..] && op.Write? && op.p == q;
      assert op in ops;
    } else {
      assert ops[0] in ops;
    }
  }

  /**
   * After any number of runs, however far each of them got, one more that is not let down ends as the
   * first clean run from d does, for all such runs exactly when that leaves no file it wrote without
   * write permission.
   */
  lemma RetryIsClean(ops: seq<Op>, d: Disk)
    requires Exec(ops, State(d, |ops|), 0).0
    ensures Rewritable(d, Overlay(ops)) <==>
            forall faults ::
              var last := Exec(ops, State(Attempts(ops, d, faults), |ops|), 0);
              last.0 && last.1.disk == Exec(ops, State(d, |ops|), 0).1.disk
  {
    hide Exec, Attempts, Between, Rewritable, Agree, Overlay;
    if Rewritable(d, Overlay(ops)) {
      forall faults
        ensures Exec(ops, State(Attempts(ops, d, faults), |ops|), 0).0
        ensures Exec(ops, State(Attempts(ops, d, faults), |ops|), 0).1.disk == Exec(ops, State(d, |ops|), 0).1.disk
      {
        RunAgrees(ops, State(d, |ops|), 0);
        BetweenStart(d, Overlay(ops));
        AttemptsBetween(ops, State(d, |ops|), 0, d, faults);
        RunAgain(ops, State(d, |ops|), State(Attempts(ops, d, faults), |ops|), 0, 0);
      }
    } else {
      SealedRetryFails(ops, d);
    }
  }

  lemma SealedRetryFails(ops: seq<Op>, d: Disk)
    requires Exec(ops, State(d, |ops|), 0).0 && !Rewritable(d, Overlay(ops))
    ensures var once := Attempts(ops, d, [Fault(|ops|, 0)]); !Exec(ops, State(once, |ops|), 0).0
  {
    hide Exec, Overlay, Merge;
    var q :| !NotSealed(Get(d, q), Get(Overlay(ops), q));
    ExecOverlay(ops, State(d, |ops|), 0);
    GetMerge(d, Overlay(ops));
    OverlayFileWritten(ops, q);
    assert [Fault(|ops|, 0)][1..] == [];
    SealedBlocks(ops, State(Merge(d, Overlay(ops)), |ops|), 0, q);
  }

  /** A run, however far it gets, touches nothing but what its operations put in place. */
  lemma {:induction false} ExecKeys(ops: seq<Op>, s: State, cut: nat)
    ensures s.disk.Keys <= Exec(ops, s, cut).1.disk.Keys <= s.disk.Keys + Overlay(ops).Keys
    decreases |ops|
  {
    hide Can, Dirs;
    if ops != [] {
      StepKeys(ops[0], s, cut);
      ExecKeys(ops[1..], Step(ops[0], s, cut).1, cut);
    }
  }

  lemma StepKeys(op: Op, s: State, cut: nat)
    ensures s.disk.Keys <= Step(op, s, cut).1.disk.Keys <= s.disk.Keys + Effect(op).Keys
  {
    hide Can, Refused;
    RefusedAdds(op, s.disk);
    if op.Mkdir? && cut > 0 {
      forall q | q in Dirs(if |op.p| < cut then op.p else op.p[..cut - 1], op.writable)
        ensures q in Dirs(op.p, op.writable)
      {
        DirsAre(op.p, op.writable, q);
      }
    }
  }

  // ----- A directory without write permission keeps what it has -----

  /** p is a directory without write permission. */
  predicate Locked(d: Disk, p: Path) {
    p in d && d[p] == Dir(false)
  }

  lemma StepLocked(op: Op, s: State, cut: nat, p: Path)
    requires Locked(s.disk, p)
    ensures var x := Step(op, s, cut).1.disk;
            Locked(x, p) && forall q | q in x && q !in s.disk :: q == [] || Parent(q) != p
  {
    hide Refused;
    RefusedAdds(op, s.disk);
    if op.Mkdir? && Can(op, s.disk) {
      DirsAgree(op.p, op.writable, s.disk);
      var part := if |op.p| < cut then op.p else if cut > 0 then op.p[..cut - 1] else [];
      forall q
        ensures q in Dirs(part, op.writable) ==> q in Dirs(op.p, op.writable)
      {
        DirsAre(part, op.writable, q);
        DirsAre(op.p, op.writable, q);
      }
    }
  }

  /** Whatever is run, a directory without write permission stays one and gets no new entry. */
  lemma {:induction false} LockedStays(ops: seq<Op>, s: State, cut: nat, p: Path)
    requires Locked(s.disk, p)
    ensures var x := Exec(ops, s, cut).1.disk;
            Locked(x, p) && forall q | q in x && q !in s.disk :: q == [] || Parent(q) != p
    decreases |ops|
  {
    hide Step, Locked;
    if ops != [] {
      StepLocked(ops[0], s, cut, p);
      LockedStays(ops[1..], Step(ops[0], s, cut).1, cut, p);
    }
  }
}
