/** The order of Go strings and the ascending enumeration of a set of them. */
module ByteOrder {
  import opened Bytes

  predicate Less(a: bytes, b: bytes) {
    b != [] && (a == [] || a[0] < b[0] || (a[0] == b[0] && Less(a[1..], b[1..])))
  }

  /** Where they first differ, after k equal bytes, a has the smaller byte. */
  predicate SmallerAt(a: bytes, b: bytes, k: nat) {
    k < |a| && k < |b| && a[..k] == b[..k] && a[k] < b[k]
  }

  lemma SmallerLater(a: bytes, b: bytes, k: nat)
    requires a != [] && b != []
    ensures SmallerAt(a, b, k + 1) <==> a[0] == b[0] && SmallerAt(a[1..], b[1..], k)
    ensures SmallerAt(a, b, 0) <==> a[0] < b[0]
  {
    assert a[..0] == b[..0];
    if k + 1 < |a| && k + 1 < |b| {
      TakeMore(a, k);
      TakeMore(b, k);
    }
  }

  lemma TakeMore(a: bytes, k: nat)
    requires k + 1 < |a|
    ensures a[..k + 1] == [a[0]] + a[1..][..k] && a[..k + 1][0] == a[0] && a[..k + 1][1..] == a[1..][..k]
  {
  }

  /** b goes on where a ends, or the first bytes in which they differ are in order. */
  lemma {:induction false} LessIff(a: bytes, b: bytes)
    ensures Less(a, b) <==> a < b || exists k: nat :: SmallerAt(a, b, k)
    decreases |a|
  {
    hide SmallerAt;
    if a != [] && b != [] {
      LessIff(a[1..], b[1..]);
      SmallerLater(a, b, 0);
      assert a == [a[0]] + a[1..] && b == [b[0]] + b[1..];
      assert a < b <==> a[0] == b[0] && a[1..] < b[1..];
      if k: nat :| SmallerAt(a[1..], b[1..], k) {
        SmallerLater(a, b, k);
      }
      if k: nat :| SmallerAt(a, b, k) && k > 0 {
        SmallerLater(a, b, k - 1);
      }
    } else if k: nat :| SmallerAt(a, b, k) {
      NotSmaller(a, b, k);
    }
  }

  lemma NotSmaller(a: bytes, b: bytes, k: nat)
    requires a == [] || b == []
    ensures !SmallerAt(a, b, k)
  {
  }

  lemma {:induction false} LessTransitive(a: bytes, b: bytes, c: bytes)
    requires Less(a, b) && Less(b, c)
    ensures Less(a, c)
    decreases |a|
  {
    if a != [] && a[0] == b[0] && b[0] == c[0] {
      LessTransitive(a[1..], b[1..], c[1..]);
    }
  }

  lemma {:induction false} LessTotal(a: bytes, b: bytes)
    ensures Less(a, b) || Less(b, a) || a == b
    ensures !(Less(a, b) && Less(b, a)) && !Less(a, a)
    decreases |a|
  {
    if a != [] {
      LessTotal(a[1..], a[1..]);
      if b != [] && a[0] == b[0] {
        LessTotal(a[1..], b[1..]);
        assert [a[0]] + a[1..] == a && [b[0]] + b[1..] == b;
      }
    }
  }

  predicate Ascending(s: seq<bytes>) {
    forall i, j | 0 <= i < j < |s| :: Less(s[i], s[j])
  }

  predicate Enumerates(s: seq<bytes>, keys: set<bytes>) {
    (forall x | x in s :: x in keys) && forall x | x in keys :: x in s
  }

  /** Places x in an ascending sequence. */
  function Insert(x: bytes, s: seq<bytes>): seq<bytes> {
    if s == [] || Less(x, s[0]) then [x] + s else [s[0]] + Insert(x, s[1..])
  }

  lemma {:induction false} InsertKeepsOrder(x: bytes, s: seq<bytes>)
    requires Ascending(s) && x !in s
    ensures Ascending(Insert(x, s)) && forall y :: y in Insert(x, s) <==> y == x || y in s
    decreases |s|
  {
    if s != [] {
      LessTotal(x, s[0]);
      assert s == [s[0]] + s[1..];
      if Less(x, s[0]) {
        forall j | 0 < j < |s|
          ensures Less(x, s[j])
        {
          LessTransitive(x, s[0], s[j]);
        }
      } else {
        InsertKeepsOrder(x, s[1..]);
        forall y | y in Insert(x, s[1..])
          ensures Less(s[0], y)
        {
          if y != x {
            var j :| 0 <= j < |s[1..]| && s[1..][j] == y;
            assert y == s[j + 1];
          }
        }
      }
    }
  }

  /** The ascending enumeration of a set, however its elements are come by. */
  ghost function Sorted(keys: set<bytes>): (s: seq<bytes>)
    ensures Ascending(s) && Enumerates(s, keys)
    decreases |keys|
  {
    if keys == {} then []
    else
      var x :| x in keys;
      InsertKeepsOrder(x, Sorted(keys - {x}));
      Insert(x, Sorted(keys - {x}))
  }

  /** A set has one ascending enumeration only. */
  lemma {:induction false} AscendingUnique(a: seq<bytes>, b: seq<bytes>, keys: set<bytes>)
    requires Ascending(a) && Ascending(b) && Enumerates(a, keys) && Enumerates(b, keys)
    ensures a == b
    decreases |a|
  {
    NoKeys(a, keys);
    NoKeys(b, keys);
    if a != [] {
      SameFirst(a, b, keys);
      TailEnumerates(a, keys);
      TailEnumerates(b, keys);
      AscendingUnique(a[1..], b[1..], keys - {a[0]});
      assert a == [a[0]] + a[1..] && b == [b[0]] + b[1..];
    }
  }

  lemma NoKeys(a: seq<bytes>, keys: set<bytes>)
    requires Enumerates(a, keys)
    ensures a == [] <==> keys == {}
  {
    if a != [] {
      assert a[0] in keys;
    }
  }

  lemma SameFirst(a: seq<bytes>, b: seq<bytes>, keys: set<bytes>)
    requires a != [] && b != [] && Ascending(a) && Ascending(b) && Enumerates(a, keys) && Enumerates(b, keys)
    ensures a[0] == b[0]
  {
    hide Less;
    assert a[0] in b && b[0] in a;
    var i :| 0 <= i < |b| && b[i] == a[0];
    var j :| 0 <= j < |a| && a[j] == b[0];
    LessTotal(a[0], b[0]);
  }

  lemma TailEnumerates(a: seq<bytes>, keys: set<bytes>)
    requires a != [] && Ascending(a) && Enumerates(a, keys)
    ensures Ascending(a[1..]) && Enumerates(a[1..], keys - {a[0]})
  {
    hide Less;
    LessTotal(a[0], a[0]);
    forall x | x in keys - {a[0]}
      ensures x in a[1..]
    {
      assert x in a;
      assert a == [a[0]] + a[1..];
    }
    forall x | x in a[1..]
      ensures x in keys - {a[0]}
    {
      var i :| 0 <= i < |a[1..]| && a[1..][i] == x;
      assert Less(a[0], a[i + 1]);
      assert a[i + 1] in a;
    }
  }

  // sort.Strings on the keys of a map, which a range loop yields in any order.
  method SortKeys(keys: set<bytes>) returns (ids: seq<bytes>)
    ensures ids == Sorted(keys)
  {
    ids := [];
    var todo := keys;
    while todo != {}
      invariant todo <= keys
      invariant Ascending(ids) && Enumerates(ids, keys - todo)
      decreases |todo|
    {
      hide Less;
      var x :| x in todo;
      InsertKeepsOrder(x, ids);
      ids := Insert(x, ids);
      todo := todo - {x};
    }
    assert keys - todo == keys;
    AscendingUnique(ids, Sorted(keys), keys);
  }
}
