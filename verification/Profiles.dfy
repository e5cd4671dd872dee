/** The profile printer of src/container_sessions.rs, whose text is used as an
    identity signature: two profiles print alike only if they agree in every field,
    so a captured action can never be resolved to an edited profile. */
module Profiles {
  import opened Basics

  /** 16 random bytes; all zero for a draft that was never saved. */
  type ProfileId = x: seq<Byte> | |x| == 16 witness [0, 0, 0, 0, 0, 0, 0, 0, 0, 0, 0, 0, 0, 0, 0, 0]

  const UNSAVED: ProfileId := [0, 0, 0, 0, 0, 0, 0, 0, 0, 0, 0, 0, 0, 0, 0, 0]

  datatype Session = Session(
    id: ProfileId, name: string, image: string, runtime: string,
    display: Option<string>, presentation: Option<string>, profile: Option<string>, app: Option<string>,
    command: Option<string>, socket: Option<string>, containerSocket: Option<string>, waypipePath: Option<string>,
    waypipeCompress: Option<string>, waypipeThreads: Option<nat>, audio: bool,
    runtimeArgs: seq<string>, mounts: seq<string>, env: seq<string>)

  // -------------------------------------------------------------------- escaping

  function EscapeChar(c: char): string {
    if c == '\\' then "\\\\" else if c == '\"' then "\\\"" else if c == '\n' then "\\n"
    else if c == '\r' then "\\r" else if c == '\t' then "\\t" else [c]
  }

  function Escape(s: string): string { if s == [] then [] else EscapeChar(s[0]) + Escape(s[1..]) }

  function Quoted(s: string): string { "\"" + Escape(s) + "\"" }

  /** A quoted text can be read back from the front of anything. */
  lemma {:induction false} EscapePrefix(a: string, b: string, x: string, y: string)
    requires Escape(a) + "\"" + x == Escape(b) + "\"" + y
    ensures a == b && x == y
    decreases |a|
  {
    var l, r := Escape(a) + "\"" + x, Escape(b) + "\"" + y;
    EscapeStarts(a, x);
    EscapeStarts(b, y);
    if a == [] {
      assert l[1..] == x && r[1..] == y;
    } else {
      EscapeStep(a, x);
      EscapeStep(b, y);
      FirstChar(a[0], b[0], Escape(a[1..]) + "\"" + x, Escape(b[1..]) + "\"" + y);
      EscapePrefix(a[1..], b[1..], x, y);
      assert a == [a[0]] + a[1..] && b == [b[0]] + b[1..];
    }
  }

  /** The closing quote is never mistaken for text. */
  lemma EscapeStarts(a: string, x: string)
    ensures (Escape(a) + "\"" + x)[0] == '\"' <==> a == []
  {
    if a != [] { assert (Escape(a) + "\"" + x)[0] == EscapeChar(a[0])[0]; }
  }

  lemma EscapeStep(a: string, x: string)
    requires a != []
    ensures Escape(a) + "\"" + x == EscapeChar(a[0]) + (Escape(a[1..]) + "\"" + x)
  {
  }

  /** The code of one character can be read back from the front of anything. */
  lemma FirstChar(c: char, d: char, x: string, y: string)
    requires EscapeChar(c) + x == EscapeChar(d) + y
    ensures c == d && x == y
  {
    var l, r := EscapeChar(c) + x, EscapeChar(d) + y;
    assert l[0] == EscapeChar(c)[0] && r[0] == EscapeChar(d)[0];
    if |EscapeChar(c)| == 2 && |EscapeChar(d)| == 2 {
      assert l[1] == EscapeChar(c)[1] && r[1] == EscapeChar(d)[1];
    }
    assert l[|EscapeChar(c)|..] == x && r[|EscapeChar(d)|..] == y;
  }

  predicate OneLine(s: string) { forall i | 0 <= i < |s| :: s[i] != '\n' }

  lemma {:induction false} EscapeOneLine(s: string)
    ensures OneLine(Escape(s))
  {
    if s != [] { EscapeOneLine(s[1..]); }
  }

  lemma QuotedInjective(a: string, b: string)
    requires Quoted(a) == Quoted(b)
    ensures a == b
  {
    assert Quoted(a)[1..] == Escape(a) + "\"" + [] && Quoted(b)[1..] == Escape(b) + "\"" + [];
    EscapePrefix(a, b, [], []);
  }

  // ----------------------------------------------------------------------- lists

  /** toml_string_list. */
  function Joined(values: seq<string>): string {
    if values == [] then [] else Quoted(values[0]) + if |values| == 1 then [] else ", " + Joined(values[1..])
  }

  lemma {:induction false} JoinedInjective(a: seq<string>, b: seq<string>)
    requires a != [] && b != [] && Joined(a) == Joined(b)
    ensures a == b
    decreases |a|
  {
    var x := if |a| == 1 then [] else ", " + Joined(a[1..]);
    var y := if |b| == 1 then [] else ", " + Joined(b[1..]);
    JoinedStarts(a, x);
    JoinedStarts(b, y);
    EscapePrefix(a[0], b[0], x, y);
    assert a == [a[0]] + a[1..] && b == [b[0]] + b[1..];
    if |a| > 1 && |b| > 1 {
      assert x[2..] == Joined(a[1..]) && y[2..] == Joined(b[1..]);
      JoinedInjective(a[1..], b[1..]);
    }
  }

  lemma JoinedStarts(a: seq<string>, x: string)
    requires a != [] && x == if |a| == 1 then [] else ", " + Joined(a[1..])
    ensures |Joined(a)| > 0 && Joined(a)[1..] == Escape(a[0]) + "\"" + x
  {
    assert Joined(a) == "\"" + (Escape(a[0]) + "\"" + x);
  }

  lemma {:induction false} JoinedOneLine(values: seq<string>)
    ensures OneLine(Joined(values))
  {
    if values != [] {
      EscapeOneLine(values[0]);
      JoinedOneLine(values[1..]);
    }
  }

  // --------------------------------------------------------- numbers and identities

  function Digit(n: nat): char
    requires n < 16
  {
    "0123456789abcdef"[n]
  }

  lemma DigitInjective(m: nat, n: nat)
    requires m < 16 && n < 16 && Digit(m) == Digit(n)
    ensures m == n
  {
  }

  function Decimal(n: nat): (r: string)
    ensures r != [] && (|r| == 1 <==> n < 10)
  {
    if n < 10 then [Digit(n)] else Decimal(n / 10) + [Digit(n % 10)]
  }

  lemma {:induction false} DecimalInjective(m: nat, n: nat)
    requires Decimal(m) == Decimal(n)
    ensures m == n
  {
    var a, b := Decimal(m), Decimal(n);
    assert a[|a| - 1] == Digit(m % 10) && b[|b| - 1] == Digit(n % 10);
    DigitInjective(m % 10, n % 10);
    if m >= 10 && n >= 10 {
      assert a[..|a| - 1] == Decimal(m / 10) && b[..|b| - 1] == Decimal(n / 10);
      DecimalInjective(m / 10, n / 10);
    }
  }

  lemma {:induction false} DecimalOneLine(n: nat)
    ensures OneLine(Decimal(n))
  {
    if n >= 10 { DecimalOneLine(n / 10); }
  }

  /** Two lowercase hexadecimal digits a byte. */
  function Hex(bytes: seq<Byte>): string {
    if bytes == [] then [] else [Digit(bytes[0] / 16), Digit(bytes[0] % 16)] + Hex(bytes[1..])
  }

  lemma {:induction false} HexInjective(a: seq<Byte>, b: seq<Byte>)
    requires |a| == |b| && Hex(a) == Hex(b)
    ensures a == b
  {
    if a != [] {
      assert Hex(a)[0] == Digit(a[0] / 16) && Hex(a)[1] == Digit(a[0] % 16) && Hex(a)[2..] == Hex(a[1..]);
      assert Hex(b)[0] == Digit(b[0] / 16) && Hex(b)[1] == Digit(b[0] % 16) && Hex(b)[2..] == Hex(b[1..]);
      DigitInjective(a[0] / 16, b[0] / 16);
      DigitInjective(a[0] % 16, b[0] % 16);
      HexInjective(a[1..], b[1..]);
      assert a == [a[0]] + a[1..] && b == [b[0]] + b[1..];
    }
  }

  lemma {:induction false} HexOneLine(bytes: seq<Byte>)
    ensures OneLine(Hex(bytes))
  {
    if bytes != [] { HexOneLine(bytes[1..]); }
  }

  // ----------------------------------------------------------------------- lines

  function Line(key: string, value: Option<string>): string {
    if value.None? then [] else key + " = " + value.value + "\n"
  }

  /** The lines from the i-th on; an absent field has none. */
  function Lines(keys: seq<string>, values: seq<Option<string>>, i: nat): string
    requires |keys| == |values| && i <= |keys|
    decreases |keys| - i
  {
    if i == |keys| then [] else Line(keys[i], values[i]) + Lines(keys, values, i + 1)
  }

  predicate Word(key: string) { forall i | 0 <= i < |key| :: key[i] != ' ' }

  ghost predicate Proper(keys: seq<string>, values: seq<Option<string>>) {
    && |keys| == |values|
    && (forall i | 0 <= i < |keys| :: Word(keys[i]))
    && (forall i, j | 0 <= i < j < |keys| :: keys[i] != keys[j])
    && (forall i | 0 <= i < |values| :: Fine(values[i]))
  }

  /** The first c tells where a text without it ends. */
  lemma Delimited(c: char, u: string, v: string, x: string, y: string)
    requires c !in u && c !in v && u + [c] + x == v + [c] + y
    ensures u == v && x == y
  {
    var a, b := u + [c] + x, v + [c] + y;
    Delimiter(c, u, x);
    Delimiter(c, v, y);
    assert |u| == |v|;
    assert a[..|u|] == u && b[..|v|] == v;
    assert a[|u| + 1..] == x && b[|v| + 1..] == y;
  }

  lemma Delimiter(c: char, u: string, x: string)
    requires c !in u
    ensures (u + [c] + x)[|u|] == c && forall i | 0 <= i < |u| :: (u + [c] + x)[i] != c
  {
  }

  /** A text starts with at most one word before " = ". */
  lemma WordPrefix(k: string, l: string, x: string, y: string)
    requires Word(k) && Word(l) && k + " = " + x == l + " = " + y
    ensures k == l && x == y
  {
    assert k + " = " + x == k + [' '] + ("= " + x) && l + " = " + y == l + [' '] + ("= " + y);
    Delimited(' ', k, l, "= " + x, "= " + y);
    assert ("= " + x)[2..] == x && ("= " + y)[2..] == y;
  }

  lemma LinePrefix(u: string, v: string, x: string, y: string)
    requires OneLine(u) && OneLine(v) && u + "\n" + x == v + "\n" + y
    ensures u == v && x == y
  {
    Delimited('\n', u, v, x, y);
  }

  /** Lines from i on never start with an earlier key. */
  lemma {:induction false} LaterKey(keys: seq<string>, values: seq<Option<string>>, i: nat, k: string, x: string)
    requires Proper(keys, values) && i <= |keys| && Word(k) && Lines(keys, values, i) == k + " = " + x
    ensures exists j | i <= j < |keys| :: keys[j] == k
    decreases |keys| - i
  {
    if i < |keys| {
      if values[i].None? {
        LaterKey(keys, values, i + 1, k, x);
      } else {
        var rest := values[i].value + "\n" + Lines(keys, values, i + 1);
        assert Lines(keys, values, i) == keys[i] + " = " + rest;
        WordPrefix(k, keys[i], x, rest);
      }
    }
  }

  lemma SplitLine(keys: seq<string>, v: seq<Option<string>>, i: nat)
    requires |keys| == |v| && i < |keys|
    ensures v[i].Some? ==> Lines(keys, v, i) == keys[i] + " = " + (v[i].value + "\n" + Lines(keys, v, i + 1))
    ensures v[i].None? ==> Lines(keys, v, i) == Lines(keys, v, i + 1)
  {
  }

  /** Neither text can lack a line the other has. */
  lemma BothPresent(keys: seq<string>, v: seq<Option<string>>, w: seq<Option<string>>, i: nat)
    requires Proper(keys, v) && Proper(keys, w) && i < |keys| && Lines(keys, v, i) == Lines(keys, w, i)
    ensures v[i].Some? ==> w[i].Some?
  {
    SplitLine(keys, v, i);
    SplitLine(keys, w, i);
    if v[i].Some? && w[i].None? {
      LaterKey(keys, w, i + 1, keys[i], v[i].value + "\n" + Lines(keys, v, i + 1));
    }
  }

  lemma SameLine(k: string, u: string, v: string, x: string, y: string)
    requires Word(k) && OneLine(u) && OneLine(v) && k + " = " + (u + "\n" + x) == k + " = " + (v + "\n" + y)
    ensures u == v && x == y
  {
    WordPrefix(k, k, u + "\n" + x, v + "\n" + y);
    LinePrefix(u, v, x, y);
  }

  /** Equal text, equal fields. */
  lemma {:induction false} LinesInjective(keys: seq<string>, v: seq<Option<string>>, w: seq<Option<string>>, i: nat)
    requires Proper(keys, v) && Proper(keys, w) && i <= |keys| && Lines(keys, v, i) == Lines(keys, w, i)
    ensures forall j | i <= j < |keys| :: v[j] == w[j]
    decreases |keys| - i
  {
    if i < |keys| {
      FirstLine(keys, v, w, i);
      LinesInjective(keys, v, w, i + 1);
    }
  }

  lemma FirstLine(keys: seq<string>, v: seq<Option<string>>, w: seq<Option<string>>, i: nat)
    requires Proper(keys, v) && Proper(keys, w) && i < |keys| && Lines(keys, v, i) == Lines(keys, w, i)
    ensures v[i] == w[i] && Lines(keys, v, i + 1) == Lines(keys, w, i + 1)
  {
    BothPresent(keys, v, w, i);
    BothPresent(keys, w, v, i);
    SplitLine(keys, v, i);
    SplitLine(keys, w, i);
    if v[i].Some? {
      SameLine(keys[i], v[i].value, w[i].value, Lines(keys, v, i + 1), Lines(keys, w, i + 1));
    }
  }

  // -------------------------------------------------------------------- sessions

  const KEYS := ["id", "name", "runtime", "image", "display", "presentation", "profile", "command", "app", "socket",
                 "container_socket", "waypipe_path", "waypipe_compress", "waypipe_threads", "audio", "runtime_args",
                 "mounts", "env"]

  function Optional(v: Option<string>): Option<string> {
    if v.None? || v.value == [] then None else Some(Quoted(v.value))
  }

  function ListOf(values: seq<string>): Option<string> {
    if values == [] then None else Some("[" + Joined(values) + "]")
  }

  function Fields(s: Session): (r: seq<Option<string>>)
    ensures |r| == 18
  {
    [ if s.id == UNSAVED then None else Some("\"" + Hex(s.id) + "\""),
      Some(Quoted(s.name)), Some(Quoted(s.runtime)), Some(Quoted(s.image)),
      Optional(s.display), Optional(s.presentation), Optional(s.profile), Optional(s.command), Optional(s.app),
      Optional(s.socket), Optional(s.containerSocket), Optional(s.waypipePath), Optional(s.waypipeCompress),
      if s.waypipeThreads.None? then None else Some(Decimal(s.waypipeThreads.value)),
      Some(if s.audio then "true" else "false"),
      ListOf(s.runtimeArgs), ListOf(s.mounts), ListOf(s.env) ]
  }

  function Toml(s: Session): string { "[[session]]\n" + Lines(KEYS, Fields(s), 0) }

  /** session_to_toml appends one line after the other. */
  method SessionToToml(s: Session) returns (content: string)
    ensures content == Toml(s)
  {
    content := "[[session]]\n";
    var fields := Fields(s);
    for i := 0 to |KEYS|
      invariant content + Lines(KEYS, fields, i) == Toml(s)
    {
      content := content + Line(KEYS[i], fields[i]);
    }
  }

  /** An empty optional field prints, and counts, as an absent one. */
  predicate SameOptional(a: Option<string>, b: Option<string>) {
    (if a.None? then [] else a.value) == (if b.None? then [] else b.value)
  }

  predicate Same(a: Session, b: Session) {
    && a.id == b.id && a.name == b.name && a.runtime == b.runtime && a.image == b.image
    && SameOptional(a.display, b.display) && SameOptional(a.presentation, b.presentation)
    && SameOptional(a.profile, b.profile) && SameOptional(a.command, b.command) && SameOptional(a.app, b.app)
    && SameOptional(a.socket, b.socket) && SameOptional(a.containerSocket, b.containerSocket)
    && SameOptional(a.waypipePath, b.waypipePath) && SameOptional(a.waypipeCompress, b.waypipeCompress)
    && a.waypipeThreads == b.waypipeThreads && a.audio == b.audio
    && a.runtimeArgs == b.runtimeArgs && a.mounts == b.mounts && a.env == b.env
  }

  // ------------------------------------------------------------------ injectivity

  /** Where a field's key stands in the file. */
  function Rank(key: string): int {
    if key == "id" then 0 else if key == "name" then 1 else if key == "runtime" then 2 else if key == "image" then 3
    else if key == "display" then 4 else if key == "presentation" then 5 else if key == "profile" then 6
    else if key == "command" then 7 else if key == "app" then 8 else if key == "socket" then 9
    else if key == "container_socket" then 10 else if key == "waypipe_path" then 11
    else if key == "waypipe_compress" then 12 else if key == "waypipe_threads" then 13 else if key == "audio" then 14
    else if key == "runtime_args" then 15 else if key == "mounts" then 16 else if key == "env" then 17 else -1
  }

  lemma KeysRanked(i: nat)
    requires i < |KEYS|
    ensures Rank(KEYS[i]) == i && Word(KEYS[i])
  {
  }

  lemma KeysDistinct()
    ensures forall i, j | 0 <= i < j < |KEYS| :: KEYS[i] != KEYS[j]
    ensures forall i | 0 <= i < |KEYS| :: Word(KEYS[i])
  {
    forall i | 0 <= i < |KEYS| ensures Rank(KEYS[i]) == i && Word(KEYS[i]) { KeysRanked(i); }
  }

  /** A printed value, if there is one, has no line break. */
  predicate Fine(v: Option<string>) { v.Some? ==> OneLine(v.value) }

  lemma QuotedFine(v: string)
    ensures OneLine(Quoted(v))
  {
    EscapeOneLine(v);
  }

  lemma OptionalFine(v: Option<string>)
    ensures Fine(Optional(v))
  {
    if v.Some? { QuotedFine(v.value); }
  }

  lemma ListFine(values: seq<string>)
    ensures Fine(ListOf(values))
  {
    JoinedOneLine(values);
  }

  lemma FieldsFine(s: Session, i: nat)
    requires i < 18
    ensures Fine(Fields(s)[i])
  {
    if i < 4 { RequiredFine(s, i); } else if i < 13 { OptionalFieldsFine(s); } else { LastFine(s, i); }
  }

  lemma RequiredFine(s: Session, i: nat)
    requires i < 4
    ensures Fine(Fields(s)[i])
  {
    HexOneLine(s.id);
    QuotedFine(s.name);
    QuotedFine(s.runtime);
    QuotedFine(s.image);
  }

  lemma LastFine(s: Session, i: nat)
    requires 13 <= i < 18
    ensures Fine(Fields(s)[i])
  {
    if s.waypipeThreads.Some? { DecimalOneLine(s.waypipeThreads.value); }
    ListFine(s.runtimeArgs);
    ListFine(s.mounts);
    ListFine(s.env);
  }

  lemma OptionalFieldsFine(s: Session)
    ensures forall i | 4 <= i < 13 :: Fine(Fields(s)[i])
  {
    OptionalFine(s.display);
    OptionalFine(s.presentation);
    OptionalFine(s.profile);
    OptionalFine(s.command);
    OptionalFine(s.app);
    OptionalFine(s.socket);
    OptionalFine(s.containerSocket);
    OptionalFine(s.waypipePath);
    OptionalFine(s.waypipeCompress);
  }

  lemma FieldsProper(s: Session)
    ensures Proper(KEYS, Fields(s))
  {
    KeysDistinct();
    forall i | 0 <= i < 18 ensures Fine(Fields(s)[i]) { FieldsFine(s, i); }
  }

  lemma OptionalInjective(a: Option<string>, b: Option<string>)
    ensures Optional(a) == Optional(b) <==> SameOptional(a, b)
  {
    if a.Some? && b.Some? && Quoted(a.value) == Quoted(b.value) { QuotedInjective(a.value, b.value); }
  }

  lemma ListInjective(a: seq<string>, b: seq<string>)
    ensures ListOf(a) == ListOf(b) <==> a == b
  {
    if a != [] && b != [] && ListOf(a) == ListOf(b) {
      Unwrap("[", Joined(a), Joined(b), "]");
      JoinedInjective(a, b);
    }
  }

  lemma Unwrap(l: string, x: string, y: string, r: string)
    requires l + x + r == l + y + r
    ensures x == y
  {
    assert (l + x + r)[|l|..|l| + |x|] == x && (l + y + r)[|l|..|l| + |y|] == y;
  }

  lemma IdInjective(a: ProfileId, b: ProfileId)
    requires "\"" + Hex(a) + "\"" == "\"" + Hex(b) + "\""
    ensures a == b
  {
    Unwrap("\"", Hex(a), Hex(b), "\"");
    HexInjective(a, b);
  }

  lemma SameFields(a: Session, b: Session)
    ensures Fields(a) == Fields(b) <==> Same(a, b)
  {
    OptionalsInjective(a, b);
    ListInjective(a.runtimeArgs, b.runtimeArgs);
    ListInjective(a.mounts, b.mounts);
    ListInjective(a.env, b.env);
    if Fields(a) == Fields(b) {
      RequiredInjective(a, b);
      OptionalsEqual(a, b);
    }
  }

  lemma OptionalsEqual(a: Session, b: Session)
    requires Fields(a) == Fields(b)
    ensures Optional(a.display) == Optional(b.display) && Optional(a.presentation) == Optional(b.presentation)
    ensures Optional(a.profile) == Optional(b.profile) && Optional(a.command) == Optional(b.command)
    ensures Optional(a.app) == Optional(b.app) && Optional(a.socket) == Optional(b.socket)
    ensures Optional(a.containerSocket) == Optional(b.containerSocket)
    ensures Optional(a.waypipePath) == Optional(b.waypipePath)
    ensures Optional(a.waypipeCompress) == Optional(b.waypipeCompress)
    ensures ListOf(a.runtimeArgs) == ListOf(b.runtimeArgs) && ListOf(a.mounts) == ListOf(b.mounts)
    ensures ListOf(a.env) == ListOf(b.env)
  {
    var f, g := Fields(a), Fields(b);
    assert f[4] == g[4] && f[5] == g[5] && f[6] == g[6] && f[7] == g[7] && f[8] == g[8] && f[9] == g[9];
    assert f[10] == g[10] && f[11] == g[11] && f[12] == g[12] && f[15] == g[15] && f[16] == g[16] && f[17] == g[17];
  }

  lemma OptionalsInjective(a: Session, b: Session)
    ensures Optional(a.display) == Optional(b.display) <==> SameOptional(a.display, b.display)
    ensures Optional(a.presentation) == Optional(b.presentation) <==> SameOptional(a.presentation, b.presentation)
    ensures Optional(a.profile) == Optional(b.profile) <==> SameOptional(a.profile, b.profile)
    ensures Optional(a.command) == Optional(b.command) <==> SameOptional(a.command, b.command)
    ensures Optional(a.app) == Optional(b.app) <==> SameOptional(a.app, b.app)
    ensures Optional(a.socket) == Optional(b.socket) <==> SameOptional(a.socket, b.socket)
    ensures Optional(a.containerSocket) == Optional(b.containerSocket) <==>
              SameOptional(a.containerSocket, b.containerSocket)
    ensures Optional(a.waypipePath) == Optional(b.waypipePath) <==> SameOptional(a.waypipePath, b.waypipePath)
    ensures Optional(a.waypipeCompress) == Optional(b.waypipeCompress) <==>
              SameOptional(a.waypipeCompress, b.waypipeCompress)
  {
    OptionalInjective(a.display, b.display);
    OptionalInjective(a.presentation, b.presentation);
    OptionalInjective(a.profile, b.profile);
    OptionalInjective(a.command, b.command);
    OptionalInjective(a.app, b.app);
    OptionalInjective(a.socket, b.socket);
    OptionalInjective(a.containerSocket, b.containerSocket);
    OptionalInjective(a.waypipePath, b.waypipePath);
    OptionalInjective(a.waypipeCompress, b.waypipeCompress);
  }

  lemma RequiredInjective(a: Session, b: Session)
    requires Fields(a) == Fields(b)
    ensures a.id == b.id && a.name == b.name && a.runtime == b.runtime && a.image == b.image
    ensures a.waypipeThreads == b.waypipeThreads && a.audio == b.audio
  {
    var f, g := Fields(a), Fields(b);
    assert f[0] == g[0] && f[1] == g[1] && f[2] == g[2] && f[3] == g[3] && f[13] == g[13] && f[14] == g[14];
    if a.id != UNSAVED { IdInjective(a.id, b.id); }
    QuotedInjective(a.name, b.name);
    QuotedInjective(a.runtime, b.runtime);
    QuotedInjective(a.image, b.image);
    if a.waypipeThreads.Some? { DecimalInjective(a.waypipeThreads.value, b.waypipeThreads.value); }
  }

  /** Two profiles print alike exactly when they agree in every field. */
  lemma SignatureInjective(a: Session, b: Session)
    ensures Toml(a) == Toml(b) <==> Same(a, b)
  {
    SameFields(a, b);
    if Toml(a) == Toml(b) {
      FieldsProper(a);
      FieldsProper(b);
      var h := "[[session]]\n";
      assert Toml(a)[|h|..] == Lines(KEYS, Fields(a), 0) && Toml(b)[|h|..] == Lines(KEYS, Fields(b), 0);
      LinesInjective(KEYS, Fields(a), Fields(b), 0);
    }
  }

  // ---------------------------------------------------------------- action targets

  datatype Target = Target(id: ProfileId, signature: string)

  function Capture(s: Session): Target { Target(s.id, Toml(s)) }

  /** The first element with a property, as Iterator::find gives it. */
  function Find<T>(p: T -> bool, xs: seq<T>): Option<T> {
    if xs == [] then None else if p(xs[0]) then Some(xs[0]) else Find(p, xs[1..])
  }

  lemma {:induction false} FindIs<T>(p: T -> bool, xs: seq<T>)
    ensures Find(p, xs).Some? ==> Find(p, xs).value in xs && p(Find(p, xs).value)
    ensures Find(p, xs).None? ==> forall x | x in xs :: !p(x)
    decreases |xs|
  {
    if xs != [] {
      FindIs(p, xs[1..]);
      assert xs == [xs[0]] + xs[1..];
    }
  }

  /** resolve: the first session with the captured id and signature. */
  function Resolve(t: Target, sessions: seq<Session>): Option<Session> {
    Find((s: Session) => s.id == t.id && Toml(s) == t.signature, sessions)
  }

  /** However the list was reordered or edited meanwhile, a captured profile resolves
      to one that agrees with it in every field, and to none only if none does. */
  lemma ResolveIsUnedited(captured: Session, sessions: seq<Session>)
    ensures var r := Resolve(Capture(captured), sessions);
            && (r.Some? ==> r.value in sessions && Same(r.value, captured))
            && (r.None? ==> forall s | s in sessions :: !Same(s, captured))
  {
    var t := Capture(captured);
    FindIs((s: Session) => s.id == t.id && Toml(s) == t.signature, sessions);
    forall s | s in sessions ensures (s.id == t.id && Toml(s) == t.signature) <==> Same(s, captured) {
      SignatureInjective(s, captured);
    }
  }
}
