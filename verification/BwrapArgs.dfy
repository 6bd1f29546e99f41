/** The bubblewrap argument list: its serialization and its redacted form for the verbose dump. */
module BwrapArgs {
  import opened Bytes

  // ----- Serialization -----

  function Encode(args: seq<bytes>): bytes
    decreases |args|
  {
    if args == [] then [] else args[0] + [0] + Encode(args[1..])
  }

  method EncodeBwrapArgs(args: seq<bytes>) returns (buf: bytes)
    ensures buf == Encode(args)
  {
    buf := [];
    for i := 0 to |args|
      invariant buf + Encode(args[i..]) == Encode(args)
    {
      assert args[i..][1..] == args[i + 1..];
      ghost var before := buf;
      buf := buf + args[i];
      buf := buf + [0];
      assert buf + Encode(args[i + 1..]) == before + (args[i] + [0] + Encode(args[i + 1..]));
    }
  }

  /** The arguments a reader finds between the NULs; bytes after the last NUL make none. */
  function SplitNul(b: bytes, arg: bytes): seq<bytes>
    decreases |b|
  {
    if b == [] then []
    else if b[0] == 0 then [arg] + SplitNul(b[1..], [])
    else SplitNul(b[1..], arg + [b[0]])
  }

  lemma {:induction false} SplitOne(a: bytes, rest: bytes, arg: bytes)
    requires 0 !in a
    ensures SplitNul(a + [0] + rest, arg) == [arg + a] + SplitNul(rest, [])
    decreases |a|
  {
    var b := a + [0] + rest;
    if a == [] {
      assert b[1..] == rest && arg + a == arg;
    } else {
      assert b[1..] == a[1..] + [0] + rest;
      SplitOne(a[1..], rest, arg + [a[0]]);
      assert arg + [a[0]] + a[1..] == arg + a;
    }
  }

  /** Splitting at the NULs recovers every argument list that could be passed to a program at all. */
  lemma {:induction false} SplitEncode(args: seq<bytes>)
    requires forall a | a in args :: 0 !in a
    ensures SplitNul(Encode(args), []) == args
    decreases |args|
  {
    if args != [] {
      SplitOne(args[0], Encode(args[1..]), []);
      assert [] + args[0] == args[0];
      SplitEncode(args[1..]);
    }
  }

  function Nuls(b: bytes): nat {
    if b == [] then 0 else (if b[0] == 0 then 1 else 0) + Nuls(b[1..])
  }

  lemma {:induction false} NulsConcat(a: bytes, b: bytes)
    ensures Nuls(a + b) == Nuls(a) + Nuls(b)
    ensures Nuls(a) > 0 <==> 0 in a
    decreases |a|
  {
    if a == [] {
      assert a + b == b;
    } else {
      assert (a + b)[1..] == a[1..] + b;
      NulsConcat(a[1..], b);
      assert a == [a[0]] + a[1..];
    }
  }

  lemma {:induction false} SplitCount(b: bytes, arg: bytes)
    ensures |SplitNul(b, arg)| == Nuls(b)
    decreases |b|
  {
    if b != [] {
      SplitCount(b[1..], if b[0] == 0 then [] else arg + [b[0]]);
    }
  }

  lemma {:induction false} EncodeNuls(args: seq<bytes>)
    ensures Nuls(Encode(args)) >= |args|
    ensures (exists a | a in args :: 0 in a) ==> Nuls(Encode(args)) > |args|
    decreases |args|
  {
    if args != [] {
      NulsConcat(args[0], [0]);
      NulsConcat(args[0] + [0], Encode(args[1..]));
      EncodeNuls(args[1..]);
      assert args == [args[0]] + args[1..];
      assert Nuls([0]) == 1;
    }
  }

  /** The list is recovered exactly when no argument contains a NUL. */
  lemma SplitEncodeIff(args: seq<bytes>)
    ensures SplitNul(Encode(args), []) == args <==> forall a | a in args :: 0 !in a
  {
    if forall a | a in args :: 0 !in a {
      SplitEncode(args);
    } else {
      SplitCount(Encode(args), []);
      EncodeNuls(args);
    }
  }

  // ----- Redaction -----

  const SETENV := "--setenv"
  const REDACTED := "<redacted>"

  /** The variables whose values may be shown. */
  function VisibleVars(): set<string> {
    {"HOME", "PATH", "TERM", "USER", "USERNAME",
     "LOGNAME", "XDG_CONFIG_HOME", "XDG_STATE_HOME",
     "HTTP_PROXY", "HTTPS_PROXY", "http_proxy", "https_proxy",
     "DBUS_SESSION_BUS_ADDRESS", "FLAR_AGY_SECRET_FILE",
     "XDG_RUNTIME_DIR", "TMPDIR", "PODMAN_IGNORE_CGROUPSV1_WARNING"}
  }

  function Shown(name: string, value: string): string {
    if name in VisibleVars() then value else REDACTED
  }

  /** What redaction makes of a flat list. */
  function Redact(args: seq<string>): (r: seq<string>)
    ensures |r| == |args|
    decreases |args|
  {
    if args == [] then []
    else if args[0] == SETENV && |args| > 2 then [args[0], args[1], Shown(args[1], args[2])] + Redact(args[3..])
    else [args[0]] + Redact(args[1..])
  }

  method RedactedArgs(args: seq<string>) returns (out: seq<string>)
    ensures out == Redact(args)
  {
    hide VisibleVars, Redact;
    out := [];
    var i := 0;
    assert args[0..] == args;
    while i < |args|
      invariant 0 <= i <= |args|
      invariant out + Redact(args[i..]) == Redact(args)
    {
      RedactStep(args, i, out);
      out := out + [args[i]];
      if args[i] == SETENV && i + 2 < |args| {
        out := out + [args[i + 1]];
        if args[i + 1] in VisibleVars() {
          out := out + [args[i + 2]];
        } else {
          out := out + [REDACTED];
        }
        i := i + 2;
      }
      i := i + 1;
    }
    RedactEnd(args, out);
  }

  lemma RedactStep(args: seq<string>, i: nat, out: seq<string>)
    requires i < |args|
    ensures out + Redact(args[i..]) ==
            if args[i] == SETENV && i + 2 < |args|
            then out + [args[i]] + [args[i + 1]] + [Shown(args[i + 1], args[i + 2])] + Redact(args[i + 3..])
            else out + [args[i]] + Redact(args[i + 1..])
  {
    hide VisibleVars;
    var rest := args[i..];
    if args[i] == SETENV && i + 2 < |args| {
      assert rest[3..] == args[i + 3..];
    } else {
      assert rest[1..] == args[i + 1..];
    }
  }

  lemma RedactEnd(args: seq<string>, out: seq<string>)
    ensures out + Redact(args[|args|..]) == out
  {
  }

  /** The list as its writer sees it: variable settings and runs of other arguments. */
  datatype Option = Setting(name: string, value: string) | Other(words: seq<string>)

  function Flatten(os: seq<Option>): seq<string>
    decreases |os|
  {
    if os == [] then []
    else (match os[0] case Setting(n, v) => [SETENV, n, v] case Other(ws) => ws) + Flatten(os[1..])
  }

  function Hide(os: seq<Option>): (r: seq<Option>)
    ensures |r| == |os|
    decreases |os|
  {
    if os == [] then []
    else [match os[0] case Setting(n, v) => Setting(n, Shown(n, v)) case Other(ws) => Other(ws)] + Hide(os[1..])
  }

  /** No other argument is itself the --setenv token. */
  predicate Plain(os: seq<Option>) {
    forall o | o in os && o.Other? :: SETENV !in o.words
  }

  lemma {:induction false} RedactWords(ws: seq<string>, rest: seq<string>)
    requires SETENV !in ws
    ensures Redact(ws + rest) == ws + Redact(rest)
    decreases |ws|
  {
    hide VisibleVars;
    if ws == [] {
      assert ws + rest == rest;
    } else {
      assert (ws + rest)[1..] == ws[1..] + rest;
      RedactWords(ws[1..], rest);
    }
  }

  /** Redacting the flat list is flattening the redacted options: it hides every setting's value and nothing else. */
  lemma {:induction false} RedactFlatten(os: seq<Option>)
    requires Plain(os)
    ensures Redact(Flatten(os)) == Flatten(Hide(os))
    decreases |os|
  {
    hide VisibleVars;
    if os != [] {
      var rest := Flatten(os[1..]);
      RedactFlatten(os[1..]);
      match os[0]
      case Setting(n, v) =>
        assert ([SETENV, n, v] + rest)[3..] == rest;
      case Other(ws) =>
        assert os[0] in os;
        RedactWords(ws, rest);
    }
  }

  lemma ShownOrNot(name: string, value: string)
    ensures Shown(name, value) ==
            if name == "HOME" || name == "PATH" || name == "TERM" || name == "USER" || name == "USERNAME" ||
               name == "LOGNAME" || name == "XDG_CONFIG_HOME" || name == "XDG_STATE_HOME" || name == "HTTP_PROXY" ||
               name == "HTTPS_PROXY" || name == "http_proxy" || name == "https_proxy" ||
               name == "DBUS_SESSION_BUS_ADDRESS" || name == "FLAR_AGY_SECRET_FILE" || name == "XDG_RUNTIME_DIR" ||
               name == "TMPDIR" || name == "PODMAN_IGNORE_CGROUPSV1_WARNING"
            then value else "<redacted>"
  {
  }

  /**
   * A setting anywhere in a list: its name stays, its value shows for seventeen names and is replaced for all others.
   */
  lemma SettingInDump(before: seq<Option>, name: string, value: string, after: seq<string>)
    requires Plain(before)
    ensures Redact(Flatten(before) + (["--setenv", name, value] + after)) ==
            Redact(Flatten(before)) +
            (["--setenv", name,
              if name == "HOME" || name == "PATH" || name == "TERM" || name == "USER" || name == "USERNAME" ||
                 name == "LOGNAME" || name == "XDG_CONFIG_HOME" || name == "XDG_STATE_HOME" || name == "HTTP_PROXY" ||
                 name == "HTTPS_PROXY" || name == "http_proxy" || name == "https_proxy" ||
                 name == "DBUS_SESSION_BUS_ADDRESS" || name == "FLAR_AGY_SECRET_FILE" || name == "XDG_RUNTIME_DIR" ||
                 name == "TMPDIR" || name == "PODMAN_IGNORE_CGROUPSV1_WARNING"
              then value else "<redacted>"] + Redact(after))
  {
    hide VisibleVars, Shown;
    ShownOrNot(name, value);
    RedactConcat(before, ["--setenv", name, value] + after);
    RedactSetting(name, value, after);
  }

  lemma {:induction false} RedactConcat(os: seq<Option>, rest: seq<string>)
    requires Plain(os)
    ensures Redact(Flatten(os) + rest) == Redact(Flatten(os)) + Redact(rest)
    decreases |os|
  {
    hide VisibleVars, Shown, Redact;
    if os == [] {
      assert Flatten(os) + rest == rest;
      assert Redact([]) == [] by { RedactNothing(); }
    } else {
      var tail := Flatten(os[1..]);
      RedactConcat(os[1..], rest);
      assert os[0] in os;
      match os[0]
      case Setting(n, v) =>
        assert Flatten(os) + rest == [SETENV, n, v] + (tail + rest);
        RedactSetting(n, v, tail + rest);
        RedactSetting(n, v, tail);
      case Other(ws) =>
        assert Flatten(os) + rest == ws + (tail + rest);
        RedactWords(ws, tail + rest);
        RedactWords(ws, tail);
    }
  }

  lemma RedactSetting(name: string, value: string, rest: seq<string>)
    ensures Redact([SETENV, name, value] + rest) == [SETENV, name, Shown(name, value)] + Redact(rest)
  {
    hide VisibleVars, Shown;
    assert ([SETENV, name, value] + rest)[3..] == rest;
  }

  lemma RedactNothing()
    ensures Redact([]) == []
  {
  }

  /** Two option lists that differ only in values of variables that are not shown. */
  predicate SameButHidden(a: seq<Option>, b: seq<Option>) {
    |a| == |b| &&
    forall i | 0 <= i < |a| ::
      a[i] == b[i] ||
      (a[i].Setting? && b[i].Setting? && a[i].name == b[i].name && a[i].name !in VisibleVars())
  }

  lemma {:induction false} HideSame(a: seq<Option>, b: seq<Option>)
    requires SameButHidden(a, b)
    ensures Hide(a) == Hide(b)
    decreases |a|
  {
    hide VisibleVars;
    if a != [] {
      HideSame(a[1..], b[1..]);
    }
  }

  /** Nothing about a hidden value shows in the dump. */
  lemma HiddenValuesDoNotShow(a: seq<Option>, b: seq<Option>)
    requires Plain(a) && Plain(b) && SameButHidden(a, b)
    ensures Redact(Flatten(a)) == Redact(Flatten(b))
  {
    RedactFlatten(a);
    RedactFlatten(b);
    HideSame(a, b);
  }

  /** Redacting twice changes nothing more, for any list at all. */
  lemma {:induction false} RedactIdempotent(args: seq<string>)
    ensures Redact(Redact(args)) == Redact(args)
    decreases |args|
  {
    hide VisibleVars;
    if args != [] {
      if args[0] == SETENV && |args| > 2 {
        RedactIdempotent(args[3..]);
        assert Redact(args)[3..] == Redact(args[3..]);
      } else {
        RedactIdempotent(args[1..]);
        assert Redact(args)[1..] == Redact(args[1..]);
      }
    }
  }
}
