/** The per-workspace agy store: which conversations belong to a workspace, and the indices it is seeded with. */
module AgyStore {
  import opened Bytes
  import opened Options
  import opened Lines

  /**
   * encoding/json.  line decodes a history line's workspace and conversation id, workspaceOf the
   * workspace alone (so it may succeed where line fails); recency decodes last_conversations.json.
   */
  datatype Json = Json(
    text: bytes -> bool,
    line: bytes -> Option<(bytes, bytes)>,
    workspaceOf: bytes -> Option<bytes>,
    recency: bytes -> Option<map<bytes, bytes>>,
    encodeRecency: map<bytes, bytes> -> bytes
  )

  /** Decoding ignores a trailing carriage return, the two line decoders agree, and a map of text survives encoding. */
  ghost predicate Lawful(j: Json) {
    (forall l: bytes :: j.line(DropCr(l)) == j.line(l) && j.workspaceOf(DropCr(l)) == j.workspaceOf(l)) &&
    (forall l: bytes | j.line(l).Some? :: j.workspaceOf(l) == Some(j.line(l).value.0)) &&
    (forall w: bytes, id: bytes | j.text(w) && j.text(id) ::
       j.recency(j.encodeRecency(map[w := id])) == Some(map[w := id]))
  }

  /** The two plain-text indices of a store; None where the file is missing. */
  datatype Indices = Indices(recency: Option<bytes>, history: Option<bytes>)

  // ----- Attribution -----

  function ReadRecency(j: Json, s: Indices): Option<map<bytes, bytes>> {
    var data :- s.recency;
    j.recency(data)
  }

  /** The workspace's most recent conversation, if the recency map names one. */
  function Recent(j: Json, s: Indices, workspace: bytes): Option<bytes> {
    var m :- ReadRecency(j, s);
    if workspace in m && m[workspace] != [] then Some(m[workspace]) else None
  }

  /** The conversations of the workspace that the given history lines name. */
  function Named(j: Json, workspace: bytes, lines: seq<bytes>): set<bytes> {
    set l | l in lines && j.line(l).Some? && j.line(l).value.0 == workspace && j.line(l).value.1 != [] ::
      j.line(l).value.1
  }

  function HistoryLines(s: Indices): seq<bytes> {
    match s.history
    case None => []
    case Some(data) => Scan(data)
  }

  /** The conversations attributed to a workspace: the recent one and those its history names. */
  function Conversations(j: Json, s: Indices, workspace: bytes): set<bytes> {
    (match Recent(j, s, workspace) case Some(id) => {id} case None => {}) + Named(j, workspace, HistoryLines(s))
  }

  /**
   * An id is attributed exactly when it is not empty and the recency map gives it for the workspace or some
   * history line names both.
   */
  lemma ConversationsExact(j: Json, s: Indices, workspace: bytes, id: bytes)
    ensures id in Conversations(j, s, workspace) <==>
            id != [] &&
            ((s.recency.Some? && j.recency(s.recency.value).Some? &&
              workspace in j.recency(s.recency.value).value && j.recency(s.recency.value).value[workspace] == id) ||
             (s.history.Some? && exists l | l in Scan(s.history.value) :: j.line(l) == Some((workspace, id))))
  {
    hide Scan;
  }

  method AgyWorkspaceConversations(j: Json, s: Indices, workspace: bytes) returns (out: set<bytes>)
    ensures out == Conversations(j, s, workspace)
  {
    out := {};
    var recent := ReadRecency(j, s);
    if recent.Some? {
      if workspace in recent.value && recent.value[workspace] != [] {
        out := out + {recent.value[workspace]};
      }
    }
    ghost var first := out;
    if s.history.None? {
      return;
    }
    var lines := Scan(s.history.value);
    for i := 0 to |lines|
      invariant out == first + Named(j, workspace, lines[..i])
    {
      NamedStep(j, workspace, lines, i);
      var e := j.line(lines[i]);
      if e.None? {
        continue;
      }
      if e.value.0 == workspace && e.value.1 != [] {
        out := out + {e.value.1};
      }
    }
    assert lines[..|lines|] == lines;
  }

  lemma NamedStep(j: Json, workspace: bytes, lines: seq<bytes>, i: nat)
    requires i < |lines|
    ensures var e := j.line(lines[i]);
            Named(j, workspace, lines[..i + 1]) ==
            Named(j, workspace, lines[..i]) +
              (if e.Some? && e.value.0 == workspace && e.value.1 != [] then {e.value.1} else {})
  {
  }

  // ----- Seeding -----

  /** The scoped recency map: the workspace's own entry, if it has one. */
  function ScopedRecency(j: Json, s: Indices, workspace: bytes): Option<bytes> {
    var id :- Recent(j, s, workspace);
    Some(j.encodeRecency(map[workspace := id]))
  }

  method SeedAgyRecency(j: Json, s: Indices, workspace: bytes) returns (file: Option<bytes>)
    ensures file == ScopedRecency(j, s, workspace)
  {
    var recent := ReadRecency(j, s);
    if recent.None? {
      return None;
    }
    if workspace !in recent.value || recent.value[workspace] == [] {
      return None;
    }
    return Some(j.encodeRecency(map[workspace := recent.value[workspace]]));
  }

  /** The lines of the workspace, in order. */
  function Own(j: Json, workspace: bytes, lines: seq<bytes>): (own: seq<bytes>)
    ensures forall l | l in own :: l in lines && j.workspaceOf(l) == Some(workspace)
    ensures forall l | l in lines && j.workspaceOf(l) == Some(workspace) :: l in own
    decreases |lines|
  {
    if lines == [] then []
    else
      var n := |lines| - 1;
      assert lines == lines[..n] + [lines[n]];
      Own(j, workspace, lines[..n]) + (if j.workspaceOf(lines[n]) == Some(workspace) then [lines[n]] else [])
  }

  /** Each line is kept or dropped by itself, and those kept stay in order. */
  lemma {:induction false} OwnInOrder(j: Json, workspace: bytes, a: seq<bytes>, l: bytes, b: seq<bytes>)
    ensures Own(j, workspace, [l]) == if j.workspaceOf(l) == Some(workspace) then [l] else []
    ensures Own(j, workspace, a + b) == Own(j, workspace, a) + Own(j, workspace, b)
    decreases |b|
  {
    assert [l][..0] == [];
    if b == [] {
      assert a + b == a;
    } else {
      var n := |b| - 1;
      assert (a + b)[..|a + b| - 1] == a + b[..n];
      OwnInOrder(j, workspace, a, l, b[..n]);
    }
  }

  /** The scoped history: the workspace's own lines; no file when there are none. */
  function ScopedHistory(j: Json, s: Indices, workspace: bytes): Option<bytes> {
    var b := Unlines(Own(j, workspace, HistoryLines(s)));
    if b == [] then None else Some(b)
  }

  method SeedAgyHistory(j: Json, s: Indices, workspace: bytes) returns (file: Option<bytes>)
    ensures file == ScopedHistory(j, s, workspace)
  {
    if s.history.None? {
      return None;
    }
    var lines := Scan(s.history.value);
    var b: bytes := [];
    for i := 0 to |lines|
      invariant b == Unlines(Own(j, workspace, lines[..i]))
    {
      assert lines[..i + 1][..i] == lines[..i];
      if j.workspaceOf(lines[i]) == Some(workspace) {
        UnlinesAppend(Own(j, workspace, lines[..i]), lines[i]);
        b := b + (lines[i] + [LF]);
      } else {
        assert Own(j, workspace, lines[..i + 1]) == Own(j, workspace, lines[..i]);
      }
    }
    assert lines[..|lines|] == lines;
    if |b| > 0 {
      return Some(b);
    }
    return None;
  }

  /** A fresh store seeded for a workspace. */
  function Seeded(j: Json, s: Indices, workspace: bytes): Indices {
    Indices(ScopedRecency(j, s, workspace), ScopedHistory(j, s, workspace))
  }

  /**
   * Which files a fresh store is given: a recency map of one entry exactly when the host's gives the workspace a
   * conversation, and a history, of the workspace's own lines, exactly when some line is the workspace's.
   */
  lemma SeededFiles(j: Json, s: Indices, workspace: bytes)
    ensures var m := if s.recency.Some? then j.recency(s.recency.value) else None;
            Seeded(j, s, workspace).recency ==
            if m.Some? && workspace in m.value && m.value[workspace] != [] then
              Some(j.encodeRecency(map[workspace := m.value[workspace]]))
            else None
    ensures var file := Seeded(j, s, workspace).history;
            if s.history.Some? && exists l | l in Scan(s.history.value) :: j.workspaceOf(l) == Some(workspace) then
              file.Some? && file.value == Unlines(Own(j, workspace, Scan(s.history.value)))
            else file == None
  {
    hide Scan, Own, Unlines;
    var own := Own(j, workspace, HistoryLines(s));
    NoBytesNoLines(own);
    if own != [] {
      assert own[0] in own;
    }
    if l :| l in HistoryLines(s) && j.workspaceOf(l) == Some(workspace) {
      assert l in own;
    }
  }

  // ----- Attribution is a fixpoint of seeding -----

  lemma ScopedHistoryLines(j: Json, s: Indices, workspace: bytes)
    ensures HistoryLines(Seeded(j, s, workspace)) == DropCrs(Own(j, workspace, HistoryLines(s)))
  {
    hide Scan, Own;
    var own := Own(j, workspace, HistoryLines(s));
    LinesFit(s);
    ScanUnlines(own);
    NoBytesNoLines(own);
  }

  lemma LinesFit(s: Indices)
    ensures forall l | l in HistoryLines(s) :: LF !in l && |l| < MAX_LINE
  {
  }

  lemma NoBytesNoLines(lines: seq<bytes>)
    ensures Unlines(lines) == [] <==> lines == []
  {
  }

  lemma NamedDropCrs(j: Json, workspace: bytes, lines: seq<bytes>)
    requires Lawful(j)
    ensures Named(j, workspace, DropCrs(lines)) == Named(j, workspace, lines)
  {
    hide DropCr;
    var clean := DropCrs(lines);
    forall l | l in lines
      ensures DropCr(l) in clean
    {
      var i :| 0 <= i < |lines| && lines[i] == l;
      assert clean[i] == DropCr(l);
    }
    forall c | c in clean
      ensures exists l | l in lines :: c == DropCr(l)
    {
      var i :| 0 <= i < |clean| && clean[i] == c;
      assert lines[i] in lines;
    }
    forall id | id in Named(j, workspace, lines)
      ensures id in Named(j, workspace, clean)
    {
      var l :| l in lines && j.line(l).Some? && j.line(l).value.0 == workspace && j.line(l).value.1 != [] &&
        j.line(l).value.1 == id;
      assert j.line(DropCr(l)) == j.line(l);
    }
    forall id | id in Named(j, workspace, clean)
      ensures id in Named(j, workspace, lines)
    {
      var c :| c in clean && j.line(c).Some? && j.line(c).value.0 == workspace && j.line(c).value.1 != [] &&
        j.line(c).value.1 == id;
      var l :| l in lines && c == DropCr(l);
      assert j.line(DropCr(l)) == j.line(l);
    }
  }

  lemma NamedOwn(j: Json, workspace: bytes, other: bytes, lines: seq<bytes>)
    requires Lawful(j)
    ensures Named(j, workspace, Own(j, workspace, lines)) == Named(j, workspace, lines)
    ensures other != workspace ==> Named(j, other, Own(j, workspace, lines)) == {}
  {
  }

  /**
   * Seeding a fresh store for a workspace and attributing conversations in it again gives
   * exactly the host's conversations of that workspace, and none for any other workspace.
   */
  lemma AttributionFixpoint(j: Json, s: Indices, workspace: bytes, other: bytes)
    requires Lawful(j) && j.text(workspace)
    requires Recent(j, s, workspace).Some? ==> j.text(Recent(j, s, workspace).value)
    ensures Conversations(j, Seeded(j, s, workspace), workspace) == Conversations(j, s, workspace)
    ensures other != workspace ==> Conversations(j, Seeded(j, s, workspace), other) == {}
  {
    hide Named, HistoryLines, ScopedHistory, Own, Lawful;
    var own := Own(j, workspace, HistoryLines(s));
    ScopedHistoryLines(j, s, workspace);
    NamedDropCrs(j, workspace, own);
    NamedDropCrs(j, other, own);
    NamedOwn(j, workspace, other, HistoryLines(s));
    RecentAgain(j, s, workspace, other);
  }

  lemma RecentAgain(j: Json, s: Indices, workspace: bytes, other: bytes)
    requires Lawful(j) && j.text(workspace)
    requires Recent(j, s, workspace).Some? ==> j.text(Recent(j, s, workspace).value)
    ensures Recent(j, Seeded(j, s, workspace), workspace) == Recent(j, s, workspace)
    ensures other != workspace ==> Recent(j, Seeded(j, s, workspace), other) == None
  {
  }
}
