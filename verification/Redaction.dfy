/** redact_patterns of src/diagnostic_redaction.rs.  A text is a sequence of bytes,
    written as chars.  `Redacted` rewrites a suffix by recursion; the scanner with
    its two cursors computes it in one pass, and doing it twice changes nothing. */
module Redaction {
  import opened Basics

  const MASK := "[REDACTED]"

  predicate Identifier(c: char) {
    'a' <= c <= 'z' || 'A' <= c <= 'Z' || '0' <= c <= '9' || c == '_' || c == '-' || c == '.'
  }

  predicate Quote(c: char) { c == '\'' || c == '\"' }

  predicate Blank(c: char) { c == ' ' || c == '\t' }

  predicate Newline(c: char) { c == '\n' || c == '\r' }

  predicate White(c: char) { Blank(c) || Newline(c) || c as int == 12 }

  predicate Separator(c: char) { c == '=' || c == ':' }

  /** What cannot end the authority of a URL, a header line, or a bare value. */
  predicate InAuthority(c: char) { !(c == '/' || c == '?' || c == '#' || Quote(c) || White(c)) }

  predicate InLine(c: char) { !Newline(c) }

  predicate InValue(c: char) { !(White(c) || c == '&' || c == ',' || c == ';' || c == '}' || c == ']' || Quote(c)) }

  // ------------------------------------------------------------ sensitive keys

  /** Which tokens are sensitive, and which of them own the rest of their line. */
  datatype Policy = Policy(sensitive: string -> bool, wholeLine: string -> bool)

  function Lower(c: char): char { if 'A' <= c <= 'Z' then (c as int + 32) as char else c }

  function Folded(key: string): string {
    if key == [] then []
    else
      var c := key[0];
      (if Identifier(c) && c != '_' && c != '-' && c != '.' then [Lower(c)] else []) + Folded(key[1..])
  }

  function Lowered(key: string): string { if key == [] then [] else [Lower(key[0])] + Lowered(key[1..]) }

  predicate HasPart(key: string, part: string) { exists i | 0 <= i <= |key| :: part <= key[i..] }

  const PARTS := ["password", "passwd", "secret", "token", "credential", "authorization", "apikey", "privatekey",
                  "accesskey", "clientkey", "cookie", "username"]

  predicate SensitiveKey(key: string) {
    var k := Folded(key);
    || (exists i | 0 <= i < |PARTS| :: HasPart(k, PARTS[i]))
    || k == "pwd" || k == "auth" || k == "user" || k == "orgcocoawayowner"
    || "cocoawaycontainerowner" <= k
  }

  predicate OwnsLine(key: string) { HasPart(Lowered(key), "authorization") || HasPart(Lowered(key), "cookie") }

  const DEFAULT := Policy(SensitiveKey, OwnsLine)

  // -------------------------------------------------------------------- scanning

  /** The length of the longest prefix within a class of bytes. */
  function Span(p: char -> bool, s: string): (n: nat)
    ensures n <= |s| && (n < |s| ==> !p(s[n]))
  {
    if s == [] || !p(s[0]) then 0 else 1 + Span(p, s[1..])
  }

  lemma SpanAll(p: char -> bool, s: string)
    ensures forall i | 0 <= i < Span(p, s) :: p(s[i])
  {
  }

  lemma SpanUnique(p: char -> bool, s: string, n: nat)
    requires n <= |s| && (forall i | 0 <= i < n :: p(s[i])) && (n < |s| ==> !p(s[n]))
    ensures Span(p, s) == n
  {
    SpanAll(p, s);
  }

  /** The last '@', or -1. */
  function LastAt(s: string): (r: int)
    ensures -1 <= r < |s| && (r >= 0 ==> s[r] == '@')
  {
    if s == [] then -1 else if s[|s| - 1] == '@' then |s| - 1 else LastAt(s[..|s| - 1])
  }

  lemma LastAtAll(s: string)
    ensures forall i | LastAt(s) < i < |s| :: s[i] != '@'
  {
  }

  lemma LastAtUnique(s: string, r: int)
    requires -1 <= r < |s| && (r >= 0 ==> s[r] == '@') && forall i | r < i < |s| :: s[i] != '@'
    ensures LastAt(s) == r
  {
    LastAtAll(s);
  }

  /** Where a quoted value that started with q ends, scanning from i. */
  function QuotedEnd(s: string, q: char, i: nat): (r: nat)
    requires i <= |s|
    ensures i <= r <= |s|
    decreases |s| - i
  {
    if i == |s| then i
    else if s[i] == '\\' then QuotedEnd(s, q, if i + 2 < |s| then i + 2 else |s|)
    else if s[i] == q then i + 1
    else QuotedEnd(s, q, i + 1)
  }

  // ------------------------------------------------------------------- rewriting

  predicate UrlAt(s: string) { |s| >= 3 && s[0] == ':' && s[1] == '/' && s[2] == '/' }

  predicate Flag(key: string) { |key| >= 2 && key[0] == '-' && key[1] == '-' }

  /** Past a quote and blanks, one separator (a flag needs none) and blanks. */
  function Look(key: string, t: string): (r: Option<nat>)
    ensures r.Some? ==> r.value < |t| && !Blank(t[r.value]) && !Newline(t[r.value])
  {
    var b := Past(t);
    if b < |t| && Separator(t[b]) then Settled(t, b + 1)
    else if Flag(key) then Settled(t, b)
    else None
  }

  /** Past an optional quote and blanks. */
  function Past(t: string): (b: nat)
    ensures b <= |t| && (b < |t| ==> !Blank(t[b]))
  {
    var a := if t != [] && Quote(t[0]) then 1 else 0;
    a + Span(Blank, t[a..])
  }

  lemma PastAll(t: string)
    ensures forall i | 0 <= i < Past(t) :: Blank(t[i]) || (i == 0 && Quote(t[0]))
  {
    var a := if t != [] && Quote(t[0]) then 1 else 0;
    SpanAll(Blank, t[a..]);
    forall i | a <= i < Past(t) ensures Blank(t[i]) { assert t[i] == t[a..][i - a]; }
  }

  function Settled(t: string, c: nat): (r: Option<nat>)
    requires c <= |t|
    ensures r.Some? ==> c <= r.value < |t| && !Blank(t[r.value]) && !Newline(t[r.value])
  {
    var d := c + Span(Blank, t[c..]);
    if d == |t| || Newline(t[d]) then None else Some(d)
  }

  /** The length of the value v starts with. */
  function ValueLength(wholeLine: bool, v: string): (r: nat)
    requires v != []
    ensures r <= |v|
  {
    if MASK <= v then |MASK|
    else if Quote(v[0]) then QuotedEnd(v, v[0], 1)
    else if wholeLine then Span(InLine, v)
    else Span(InValue, v)
  }

  /** What replaces it. */
  function Masked(c: char): string { if Quote(c) then [c] + MASK + [c] else MASK }

  function Redacted(p: Policy, s: string): string
    decreases |s|
  {
    if s == [] then []
    else if UrlAt(s) then
      var e := Span(InAuthority, s[3..]);
      Url(s[3..][..e]) + Redacted(p, s[3..][e..])
    else if !Identifier(s[0]) then [s[0]] + Redacted(p, s[1..])
    else
      var k := Span(Identifier, s);
      var look := if p.sensitive(s[..k]) then Look(s[..k], s[k..]) else None;
      if look.None? then s[..k] + Redacted(p, s[k..])
      else
        var v := s[k..][look.value..];
        s[..k] + s[k..][..look.value] + Masked(v[0]) + Redacted(p, v[ValueLength(p.wholeLine(s[..k]), v)..])
  }

  /** A URL's scheme end and authority, without any userinfo. */
  function Url(authority: string): string {
    var at := LastAt(authority);
    "://" + if at < 0 then authority else MASK + authority[at..]
  }

  // ------------------------------------------------- what rewriting leaves alone

  /** The first byte stays, and so does emptiness. */
  lemma FirstStays(p: Policy, s: string)
    ensures Redacted(p, s) == [] <==> s == []
    ensures s != [] ==> Redacted(p, s)[0] == s[0]
  {
  }

  /** Bytes outside identifiers and URLs are copied. */
  predicate Plain(t: string, n: nat) { n <= |t| && forall i | 0 <= i < n :: !Identifier(t[i]) && !UrlAt(t[i..]) }

  lemma {:induction false} PlainCopied(p: Policy, t: string, n: nat)
    requires Plain(t, n)
    ensures Redacted(p, t) == t[..n] + Redacted(p, t[n..])
    decreases n
  {
    if n > 0 {
      PlainTail(t, n);
      PlainFirst(p, t);
      PlainCopied(p, t[1..], n - 1);
      Cons(t, n, Redacted(p, t), Redacted(p, t[1..]), Redacted(p, t[1..][n - 1..]));
    } else {
      assert t[..0] == [] && t[0..] == t;
    }
  }

  lemma Cons(t: string, n: nat, whole: string, tail: string, rest: string)
    requires 0 < n <= |t| && whole == [t[0]] + tail && tail == t[1..][..n - 1] + rest
    ensures whole == t[..n] + rest && t[1..][n - 1..] == t[n..]
  {
    assert t[..n] == [t[0]] + t[1..][..n - 1];
  }

  lemma PlainFirst(p: Policy, t: string)
    requires Plain(t, 1)
    ensures Redacted(p, t) == [t[0]] + Redacted(p, t[1..])
  {
    assert t[0..] == t;
  }

  lemma PlainTail(t: string, n: nat)
    requires n > 0 && Plain(t, n)
    ensures Plain(t[1..], n - 1) && Plain(t, 1)
  {
    var u := t[1..];
    forall i | 0 <= i < n - 1
      ensures !Identifier(u[i]) && !UrlAt(u[i..])
    {
      assert u[i..] == t[i + 1..] && u[i] == t[i + 1];
    }
  }

  /** A colon starts a URL in the rewritten text exactly when it did before. */
  lemma ColonStays(p: Policy, c: char, t: string)
    requires c != ':' || !UrlAt([c] + t)
    ensures !UrlAt([c] + Redacted(p, t))
  {
    FirstStays(p, t);
    var u := [c] + t;
    if c == ':' && t != [] && t[0] == '/' {
      assert Redacted(p, t) == ['/'] + Redacted(p, t[1..]);
      FirstStays(p, t[1..]);
      assert |t| > 1 ==> u[2] == t[1] && u[1] == t[0];
    }
  }

  // --------------------------------------------------- rewriting a rewritten text

  lemma AgainPlain(p: Policy, s: string)
    requires s != [] && !UrlAt(s) && !Identifier(s[0])
    ensures var r := Redacted(p, s[1..]); Redacted(p, [s[0]] + r) == [s[0]] + Redacted(p, r)
  {
    assert s == [s[0]] + s[1..];
    ColonStays(p, s[0], s[1..]);
    assert ([s[0]] + Redacted(p, s[1..]))[1..] == Redacted(p, s[1..]);
  }

  /** A URL and what follows its authority. */
  lemma UrlOf(p: Policy, authority: string, rest: string)
    requires (forall i | 0 <= i < |authority| :: InAuthority(authority[i])) && (rest != [] ==> !InAuthority(rest[0]))
    ensures Redacted(p, "://" + authority + rest) == Url(authority) + Redacted(p, rest)
  {
    var s, t := "://" + authority + rest, authority + rest;
    assert s[3..] == t;
    SpanUnique(InAuthority, t, |authority|);
    assert t[..|authority|] == authority && t[|authority|..] == rest;
  }

  /** The authority of a rewritten URL ends where it did, and its userinfo, if it
      had one, is the mask. */
  lemma AgainUrl(p: Policy, authority: string, rest: string)
    requires (forall i | 0 <= i < |authority| :: InAuthority(authority[i])) && (rest != [] ==> !InAuthority(rest[0]))
    ensures Redacted(p, Url(authority) + rest) == Url(authority) + Redacted(p, rest)
  {
    var at := LastAt(authority);
    var kept := if at < 0 then authority else MASK + authority[at..];
    KeptUrl(authority);
    UrlOf(p, kept, rest);
  }

  lemma KeptUrl(authority: string)
    ensures var at := LastAt(authority);
            Url(if at < 0 then authority else MASK + authority[at..]) == Url(authority)
  {
    var at := LastAt(authority);
    if at >= 0 {
      var kept := MASK + authority[at..];
      LastAtAll(authority);
      LastAtUnique(kept, |MASK|);
      assert kept[|MASK|..] == authority[at..];
    }
  }

  /** Two continuations after a key that look the same up to and at d. */
  predicate Agree(t: string, u: string, d: nat) {
    d <= |t| && d <= |u| && t[..d] == u[..d] && (d < |t| <==> d < |u|) && (d < |t| ==> t[d] == u[d])
  }

  lemma SpanAgrees(p: char -> bool, t: string, u: string, a: nat, n: nat)
    requires a + n <= |t| && a + n <= |u| && t[..a + n] == u[..a + n]
    requires Span(p, t[a..]) == n && (a + n < |u| ==> !p(u[a + n]))
    ensures Span(p, u[a..]) == n
  {
    SpanAll(p, t[a..]);
    forall i | 0 <= i < n
      ensures p(u[a..][i])
    {
      assert u[a..][i] == u[..a + n][a + i] == t[..a + n][a + i] == t[a..][i];
    }
    SpanUnique(p, u[a..], n);
  }

  /** A value found is found again, at the same place, behind the mask. */
  lemma SettledAgain(t: string, u: string, c: nat, d: nat)
    requires c <= |t| && Settled(t, c) == Some(d) && d < |u| && t[..d] == u[..d] && !Blank(u[d]) && !Newline(u[d])
    ensures c <= |u| && Settled(u, c) == Some(d)
  {
    SpanAgrees(Blank, t, u, c, d - c);
  }

  lemma PastAgain(t: string, u: string, b: nat)
    requires b == Past(t) && b <= |u| && t[..b] == u[..b] && (b < |u| ==> !Blank(u[b]))
    requires t != [] && u != [] ==> (Quote(t[0]) <==> Quote(u[0]))
    requires t == [] <==> u == []
    ensures Past(u) == b
  {
    var a := if t != [] && Quote(t[0]) then 1 else 0;
    SpanAgrees(Blank, t, u, a, b - a);
  }

  lemma PrefixAgrees(t: string, u: string, d: nat, b: nat)
    requires b <= d <= |t| && d <= |u| && t[..d] == u[..d]
    ensures t[..b] == u[..b]
    ensures forall i | 0 <= i < d :: t[i] == u[i]
  {
    assert t[..b] == t[..d][..b] && u[..b] == u[..d][..b];
    assert forall i | 0 <= i < d :: t[i] == t[..d][i] && u[i] == u[..d][i];
  }

  lemma LookAgain(key: string, t: string, u: string, d: nat)
    requires Look(key, t) == Some(d) && d < |u| && t[..d] == u[..d]
    requires u[d] == t[d] || (u[d] == '[' && !Quote(t[d]))
    ensures Look(key, u) == Some(d)
  {
    var b := Past(t);
    PrefixAgrees(t, u, d, b);
    PastAgain(t, u, b);
    SettledAgain(t, u, if Separator(t[b]) then b + 1 else b, d);
  }

  /** How far a search that finds no value has looked. */
  function Extent(t: string): (n: nat)
    ensures n <= |t|
  {
    var b := Past(t);
    if b < |t| && Separator(t[b]) then b + 1 + Span(Blank, t[b + 1..]) else b
  }

  lemma ExtentPlain(key: string, t: string)
    requires Look(key, t).None?
    ensures Plain(t, Extent(t))
  {
    var b, n := Past(t), Extent(t);
    PastAll(t);
    if b < |t| { SpanAll(Blank, t[b + 1..]); }
    forall i | 0 <= i < n ensures !Identifier(t[i]) && !UrlAt(t[i..]) {
      if b < i { assert t[i] == t[b + 1..][i - b - 1]; }
      if i == b && b + 1 < |t| { assert t[i..][1] == t[b + 1]; assert b + 1 < n ==> t[b + 1] == t[b + 1..][0]; }
    }
  }

  lemma LookStays(key: string, t: string, u: string)
    requires Look(key, t).None? && Agree(t, u, Extent(t)) && (t == [] <==> u == []) && (t != [] ==> t[0] == u[0])
    ensures Look(key, u).None?
  {
    var b, n := Past(t), Extent(t);
    PrefixAgrees(t, u, n, b);
    PastAgain(t, u, b);
    if b < |t| && Separator(t[b]) {
      SettledStays(t, u, b + 1, n);
    } else if Flag(key) {
      SettledStays(t, u, b, n);
    }
  }

  /** Where no value follows, none follows in a text that agrees that far. */
  lemma SettledStays(t: string, u: string, c: nat, n: nat)
    requires c <= n && Agree(t, u, n) && n == c + Span(Blank, t[c..]) && Settled(t, c).None?
    ensures c <= |u| && Settled(u, c).None?
  {
    SpanAgrees(Blank, t, u, c, n - c);
  }

  /** A key and what follows it in the text. */
  lemma KeyOf(key: string, t: string)
    requires (forall i | 0 <= i < |key| :: Identifier(key[i])) && (t != [] ==> !Identifier(t[0]))
    ensures Span(Identifier, key + t) == |key| && (key + t)[..|key|] == key && (key + t)[|key|..] == t
  {
    SpanUnique(Identifier, key + t, |key|);
  }

  /** A key without a value keeps none. */
  lemma AgainKey(p: Policy, key: string, t: string)
    requires key != [] && (forall i | 0 <= i < |key| :: Identifier(key[i])) && (t != [] ==> !Identifier(t[0]))
    requires p.sensitive(key) ==> Look(key, t).None?
    ensures var r := Redacted(p, t); Redacted(p, key + r) == key + Redacted(p, r)
  {
    var r := Redacted(p, t);
    FirstStays(p, t);
    KeyOf(key, r);
    if p.sensitive(key) {
      ExtentPlain(key, t);
      var n := Extent(t);
      PlainCopied(p, t, n);
      FirstStays(p, t[n..]);
      LookStays(key, t, r);
    }
  }

  lemma {:induction false} QuotedFound(q: char, v: string, rest: string, i: nat)
    requires 1 <= i <= |v| + 1 && Quote(q) && forall j | 0 <= j < |v| :: v[j] != q && v[j] != '\\'
    ensures QuotedEnd([q] + v + [q] + rest, q, i) == |v| + 2
    decreases |v| + 1 - i
  {
    var w := [q] + v + [q] + rest;
    if i <= |v| {
      assert w[i] == v[i - 1];
      QuotedFound(q, v, rest, i + 1);
    } else {
      assert w[i] == q;
    }
  }

  /** A masked value is recognised as such. */
  lemma MaskedLength(whole: bool, c: char, r: string)
    ensures ValueLength(whole, Masked(c) + r) == |Masked(c)|
    ensures Masked((Masked(c) + r)[0]) == Masked(c)
  {
    if Quote(c) {
      QuotedFound(c, MASK, r, 1);
      assert (Masked(c) + r)[0] == c != MASK[0];
    } else {
      assert MASK <= MASK + r;
    }
  }

  /** A sensitive key with a value. */
  lemma MaskedOf(p: Policy, key: string, u: string, d: nat, v: string)
    requires key != [] && (forall i | 0 <= i < |key| :: Identifier(key[i])) && (u != [] ==> !Identifier(u[0]))
    requires p.sensitive(key) && Look(key, u) == Some(d) && v == u[d..]
    ensures Redacted(p, key + u) == key + u[..d] + Masked(v[0]) + Redacted(p, v[ValueLength(p.wholeLine(key), v)..])
  {
    KeyOf(key, u);
  }

  lemma MaskedLook(key: string, t: string, d: nat, r: string)
    requires Look(key, t) == Some(d) && !Identifier(t[0])
    ensures var u := t[..d] + (Masked(t[d]) + r);
            Look(key, u) == Some(d) && u[..d] == t[..d] && u[d..] == Masked(t[d]) + r && !Identifier(u[0])
  {
    var u := t[..d] + (Masked(t[d]) + r);
    assert u[..d] == t[..d] && u[d] == Masked(t[d])[0];
    assert u[0] == if d > 0 then t[0] else Masked(t[d])[0];
    LookAgain(key, t, u, d);
  }

  /** A masked value is masked again, and nothing else changes. */
  lemma AgainMasked(p: Policy, key: string, t: string, d: nat, r: string)
    requires key != [] && (forall i | 0 <= i < |key| :: Identifier(key[i])) && (t != [] ==> !Identifier(t[0]))
    requires p.sensitive(key) && Look(key, t) == Some(d)
    ensures var m := Masked(t[d]); Redacted(p, key + t[..d] + m + r) == key + t[..d] + m + Redacted(p, r)
  {
    var m := Masked(t[d]);
    var u := t[..d] + (m + r);
    assert key + t[..d] + m + r == key + u;
    MaskedLook(key, t, d, r);
    MaskedLength(p.wholeLine(key), t[d], r);
    assert (m + r)[|m|..] == r;
    MaskedOf(p, key, u, d, m + r);
  }

  predicate Stable(p: Policy, s: string) { Redacted(p, Redacted(p, s)) == Redacted(p, s) }

  lemma StableUrl(p: Policy, s: string, authority: string, rest: string)
    requires UrlAt(s) && s[3..] == authority + rest && |authority| == Span(InAuthority, s[3..]) && Stable(p, rest)
    ensures Stable(p, s)
  {
    SpanAll(InAuthority, s[3..]);
    assert s[3..][..|authority|] == authority && s[3..][|authority|..] == rest;
    FirstStays(p, rest);
    AgainUrl(p, authority, Redacted(p, rest));
  }

  lemma StablePlain(p: Policy, s: string)
    requires s != [] && !UrlAt(s) && !Identifier(s[0]) && Stable(p, s[1..])
    ensures Stable(p, s)
  {
    AgainPlain(p, s);
  }

  lemma StableKey(p: Policy, key: string, t: string)
    requires key != [] && (forall i | 0 <= i < |key| :: Identifier(key[i])) && (t != [] ==> !Identifier(t[0]))
    requires (p.sensitive(key) ==> Look(key, t).None?) && Stable(p, t)
    ensures Stable(p, key + t)
  {
    KeyOf(key, t);
    AgainKey(p, key, t);
  }

  lemma StableSecret(p: Policy, key: string, t: string, d: nat, rest: string)
    requires key != [] && (forall i | 0 <= i < |key| :: Identifier(key[i])) && (t != [] ==> !Identifier(t[0]))
    requires p.sensitive(key) && Look(key, t) == Some(d)
    requires rest == t[d..][ValueLength(p.wholeLine(key), t[d..])..] && Stable(p, rest)
    ensures Stable(p, key + t)
  {
    MaskedOf(p, key, t, d, t[d..]);
    AgainMasked(p, key, t, d, Redacted(p, rest));
  }

  /** Redacting a redacted text changes nothing, whatever the policy. */
  lemma {:induction false} Idempotent(p: Policy, s: string)
    ensures Stable(p, s)
    decreases |s|
  {
    if s == [] {
    } else if UrlAt(s) {
      var e := Span(InAuthority, s[3..]);
      Idempotent(p, s[3..][e..]);
      StableUrl(p, s, s[3..][..e], s[3..][e..]);
    } else if !Identifier(s[0]) {
      Idempotent(p, s[1..]);
      StablePlain(p, s);
    } else {
      var k := Span(Identifier, s);
      var key, t := s[..k], s[k..];
      TokenOf(s, k);
      if p.sensitive(key) && Look(key, t).Some? {
        var d := Look(key, t).value;
        var rest := t[d..][ValueLength(p.wholeLine(key), t[d..])..];
        Idempotent(p, rest);
        StableSecret(p, key, t, d, rest);
      } else {
        Idempotent(p, t);
        StableKey(p, key, t);
      }
    }
  }

  // --------------------------------------------------------------------- secrecy

  /** What stands between a key and its value w: perhaps a quote, blanks, a separator at
      i, blanks.  A flag does without the separator. */
  predicate Between(key: string, b: string, i: nat, w: string) {
    && w != [] && !Blank(w[0]) && !Newline(w[0]) && i <= |b|
    && (forall j | 0 <= j < i :: Blank(b[j]) || (j == 0 && Quote(b[0])))
    && (forall j | i < j < |b| :: Blank(b[j]))
    && if i < |b| then Separator(b[i])
       else Flag(key) && !Separator(w[0]) && (b == [] ==> !Quote(w[0]) && !Identifier(w[0]))
  }

  lemma LookFinds(key: string, b: string, i: nat, w: string)
    requires Between(key, b, i, w)
    ensures Look(key, b + w) == Some(|b|)
  {
    var t := b + w;
    PastFinds(key, b, i, w);
    assert t[|b|] == w[0] && (i < |b| ==> t[i] == b[i]);
    SettledFinds(b, if i < |b| then i + 1 else i, w);
  }

  lemma SettledFinds(b: string, c: nat, w: string)
    requires w != [] && !Blank(w[0]) && !Newline(w[0]) && c <= |b| && forall j | c <= j < |b| :: Blank(b[j])
    ensures Settled(b + w, c) == Some(|b|)
  {
    var t := b + w;
    assert t[|b|] == w[0];
    SpanFinds(t, c, |b|);
  }

  lemma PastFinds(key: string, b: string, i: nat, w: string)
    requires Between(key, b, i, w)
    ensures Past(b + w) == i
  {
    var t := b + w;
    assert t[|b|] == w[0] && (b != [] ==> t[0] == b[0]) && (i < |b| ==> t[i] == b[i]);
    SpanFinds(t, if Quote(t[0]) then 1 else 0, i);
  }

  lemma SpanFinds(t: string, a: nat, n: nat)
    requires a <= n < |t| && (forall j | a <= j < n :: Blank(t[j])) && !Blank(t[n])
    ensures Span(Blank, t[a..]) == n - a
  {
    SpanUnique(Blank, t[a..], n - a);
  }

  /** These are all the values that are found. */
  lemma LookOnly(key: string, t: string, d: nat) returns (i: nat)
    requires Look(key, t) == Some(d) && (t != [] ==> !Identifier(t[0]))
    ensures Between(key, t[..d], i, t[d..])
  {
    i := Past(t);
    PastAll(t);
    var c := if Separator(t[i]) then i + 1 else i;
    SpanAll(Blank, t[c..]);
    forall j | c <= j < d ensures Blank(t[j]) { assert t[j] == t[c..][j - c]; }
  }

  /** A sensitive key, what stands between, and w, which starts with a value of n bytes. */
  lemma CoveredValue(p: Policy, key: string, b: string, i: nat, w: string, n: nat)
    requires IsKey(p, key) && Between(key, b, i, w) && n == ValueLength(p.wholeLine(key), w)
    ensures Redacted(p, key + (b + w)) == key + b + Masked(w[0]) + Redacted(p, w[n..])
  {
    LookFinds(key, b, i, w);
    assert (b + w)[0] == if b == [] then w[0] else b[0];
    assert (b + w)[..|b|] == b && (b + w)[|b|..] == w;
    MaskedParts(p, key + (b + w), key, b + w, |b|, w, b, w[n..]);
  }

  /** A token that is sensitive. */
  predicate IsKey(p: Policy, key: string) {
    key != [] && (forall i | 0 <= i < |key| :: Identifier(key[i])) && p.sensitive(key)
  }

  lemma MaskedParts(p: Policy, s: string, key: string, u: string, d: nat, v: string, between: string, rest: string)
    requires key != [] && (forall i | 0 <= i < |key| :: Identifier(key[i])) && (u != [] ==> !Identifier(u[0]))
    requires p.sensitive(key) && Look(key, u) == Some(d) && v == u[d..] && between == u[..d]
    requires s == key + u && rest == v[ValueLength(p.wholeLine(key), v)..]
    ensures Redacted(p, s) == key + between + Masked(v[0]) + Redacted(p, rest)
  {
    MaskedOf(p, key, u, d, v);
  }

  /** A bare value, whatever it is, leaves no trace: the result does not mention v. */
  lemma BareValueHidden(p: Policy, key: string, b: string, i: nat, v: string, rest: string)
    requires IsKey(p, key) && Between(key, b, i, v + rest) && !p.wholeLine(key)
    requires v != [] && (forall j | 0 <= j < |v| :: InValue(v[j])) && (rest != [] ==> !InValue(rest[0]))
    requires !(MASK <= v + rest)
    ensures Redacted(p, key + (b + (v + rest))) == key + b + MASK + Redacted(p, rest)
  {
    Front(v, rest);
    SpanUnique(InValue, v + rest, |v|);
    CoveredValue(p, key, b, i, v + rest, |v|);
  }

  /** A text that is masked already is taken for the whole value: what follows the mask
      is ordinary text. */
  lemma MaskEndsTheValue(p: Policy, key: string, b: string, i: nat, rest: string)
    requires IsKey(p, key) && Between(key, b, i, MASK + rest)
    ensures Redacted(p, key + (b + (MASK + rest))) == key + b + MASK + Redacted(p, rest)
  {
    Front(MASK, rest);
    CoveredValue(p, key, b, i, MASK + rest, |MASK|);
  }

  /** The value of an authorization or cookie header: everything to the end of the line. */
  lemma HeaderValueHidden(p: Policy, key: string, b: string, i: nat, v: string, rest: string)
    requires IsKey(p, key) && Between(key, b, i, v + rest) && p.wholeLine(key)
    requires v != [] && (forall j | 0 <= j < |v| :: InLine(v[j])) && (rest != [] ==> !InLine(rest[0]))
    requires !Quote(v[0]) && !(MASK <= v + rest)
    ensures Redacted(p, key + (b + (v + rest))) == key + b + MASK + Redacted(p, rest)
  {
    Front(v, rest);
    SpanUnique(InLine, v + rest, |v|);
    CoveredValue(p, key, b, i, v + rest, |v|);
  }

  lemma Front(v: string, rest: string)
    requires v != []
    ensures (v + rest)[0] == v[0] && (v + rest)[|v|..] == rest
  {
  }

  /** How many backslashes stand right before i, after the opening quote. */
  function Backslashes(w: string, i: nat): nat
    requires i <= |w|
  {
    if i <= 1 || w[i - 1] != '\\' then 0 else 1 + Backslashes(w, i - 1)
  }

  /** The byte at i is a quote like the first one, and no backslash escapes it. */
  predicate Closing(w: string, i: nat)
    requires 0 < i < |w|
  {
    w[i] == w[0] && Backslashes(w, i) % 2 == 0
  }

  /** The quoted value w starts with has n bytes: to the first closing quote, or to the
      end of the text if there is none. */
  predicate Quoted(w: string, n: nat) {
    && 0 < n <= |w| && Quote(w[0])
    && (forall i | 0 < i < n - 1 :: !Closing(w, i))
    && (n < |w| ==> 1 < n && Closing(w, n - 1))
  }

  lemma {:induction false} QuotedFrom(w: string, i: nat)
    requires 0 < i <= |w| && Quote(w[0]) && Backslashes(w, i) % 2 == 0
    requires forall j | 0 < j < i :: !Closing(w, j)
    ensures Quoted(w, QuotedEnd(w, w[0], i))
    decreases |w| - i
  {
    if i < |w| && w[i] == '\\' {
      assert Backslashes(w, i + 1) == 1 + Backslashes(w, i);
      if i + 1 < |w| {
        assert !Closing(w, i + 1);
        QuotedFrom(w, i + 2);
      }
    } else if i < |w| && w[i] != w[0] {
      QuotedFrom(w, i + 1);
    }
  }

  /** Of a quoted value only the quotes survive, with escapes in it or without, and also
      if it is never closed. */
  lemma QuotedValueHidden(p: Policy, key: string, b: string, i: nat, w: string, n: nat)
    requires IsKey(p, key) && Between(key, b, i, w) && Quoted(w, n)
    ensures Redacted(p, key + (b + w)) == key + b + ([w[0]] + MASK + [w[0]]) + Redacted(p, w[n..])
  {
    QuotedFrom(w, 1);
    QuotedOnce(w, n, QuotedEnd(w, w[0], 1));
    assert w[0] != MASK[0];
    CoveredValue(p, key, b, i, w, n);
  }

  lemma QuotedOnce(w: string, m: nat, n: nat)
    requires Quoted(w, m) && Quoted(w, n)
    ensures m == n
  {
  }

  // ------------------------------------------------------------- the one-pass scan

  /** The end of a run of bytes of one class. */
  method RunEnd(p: char -> bool, text: string, from: nat) returns (i: nat)
    requires from <= |text|
    ensures i == from + Span(p, text[from..])
  {
    i := from;
    while i < |text| && p(text[i])
      invariant from <= i <= |text| && Span(p, text[from..]) == i - from + Span(p, text[i..])
    {
      assert text[i..][1..] == text[i + 1..];
      i := i + 1;
    }
  }

  method RFindAt(text: string, start: nat, end: nat) returns (at: int)
    requires start <= end <= |text|
    ensures LastAt(text[start..end]) == if at < 0 then -1 else at - start
    ensures at < 0 || start <= at < end
  {
    var i := end;
    while i > start
      invariant start <= i <= end && LastAt(text[start..end]) == LastAt(text[start..i])
    {
      assert text[start..i][..i - start - 1] == text[start..i - 1];
      if text[i - 1] == '@' {
        return i - 1;
      }
      i := i - 1;
    }
    at := -1;
  }

  /** quoted_end. */
  method FindQuotedEnd(v: string) returns (end: nat)
    requires v != []
    ensures end == QuotedEnd(v, v[0], 1)
  {
    var quote, index := v[0], 1;
    while index < |v|
      invariant 1 <= index <= |v|
      invariant QuotedEnd(v, quote, index) == QuotedEnd(v, quote, 1)
    {
      if v[index] == '\\' {
        index := if index + 2 < |v| then index + 2 else |v|;
      } else if v[index] == quote {
        return index + 1;
      } else {
        index := index + 1;
      }
    }
    end := |v|;
  }

  /** Where, in what follows a key, its value starts. */
  method FindValue(key: string, t: string) returns (found: bool, start: nat)
    ensures Look(key, t) == if found then Some(start) else None
    ensures found ==> start < |t|
  {
    var a := 0;
    if a < |t| && Quote(t[a]) {
      a := a + 1;
    }
    var b := RunEnd(Blank, t, a);
    if b < |t| && Separator(t[b]) {
      found, start := SkipBlanks(t, b + 1);
    } else if Flag(key) {
      found, start := SkipBlanks(t, b);
    } else {
      found, start := false, b;
    }
  }

  method SkipBlanks(t: string, c: nat) returns (found: bool, start: nat)
    requires c <= |t|
    ensures Settled(t, c) == if found then Some(start) else None
    ensures found ==> start < |t|
  {
    start := RunEnd(Blank, t, c);
    found := start < |t| && !Newline(t[start]);
  }

  method FindValueEnd(wholeLine: bool, v: string) returns (end: nat)
    requires v != []
    ensures end == ValueLength(wholeLine, v)
  {
    assert v[0..] == v;
    if MASK <= v {
      end := |MASK|;
    } else if Quote(v[0]) {
      end := FindQuotedEnd(v);
    } else if wholeLine {
      end := RunEnd(InLine, v, 0);
    } else {
      end := RunEnd(InValue, v, 0);
    }
  }

  /** One step of the scan over a suffix: copy up to `copy`, put something in, copy
      from `resume`, scan on from `next`. */
  datatype Piece = Piece(copy: nat, insert: string, resume: nat, next: nat) {
    predicate Fits(s: string) {
      copy <= next <= |s| && resume <= next && 0 < next && (insert == [] ==> copy == resume)
    }

    function Text(s: string): string
      requires Fits(s)
    {
      s[..copy] + insert + s[resume..next]
    }
  }

  lemma WholePiece(s: string, n: nat)
    requires 0 < n <= |s|
    ensures Piece(n, [], n, n).Fits(s) && Piece(n, [], n, n).Text(s) == s[..n]
  {
  }

  /** A URL's authority ends at `end` and has its last '@' at `at`, if any. */
  lemma UrlPiece(s: string, end: nat, at: int)
    requires UrlAt(s) && 3 <= end <= |s| && (at < 0 || 3 <= at < end)
    requires LastAt(s[3..end]) == if at < 0 then -1 else at - 3
    ensures at < 0 ==> Url(s[3..end]) == s[..end]
    ensures at >= 0 ==> Piece(3, MASK, at, end).Fits(s) && Piece(3, MASK, at, end).Text(s) == Url(s[3..end])
  {
    assert s[..3] == "://";
    if at >= 0 {
      assert s[3..end][at - 3..] == s[at..end];
      assert s[..3] + MASK + s[at..end] == s[..3] + (MASK + s[at..end]);
    } else {
      assert s[..3] + s[3..end] == s[..end];
    }
  }

  lemma UrlEnds(p: Policy, s: string, end: nat)
    requires UrlAt(s) && end == 3 + Span(InAuthority, s[3..])
    ensures Redacted(p, s) == Url(s[3..end]) + Redacted(p, s[end..])
  {
    assert s[3..][..end - 3] == s[3..end] && s[3..][end - 3..] == s[end..];
  }

  /** The userinfo of a URL. */
  method NextUrl(p: Policy, s: string) returns (q: Piece)
    requires UrlAt(s)
    ensures q.Fits(s) && Redacted(p, s) == q.Text(s) + Redacted(p, s[q.next..])
  {
    var end := RunEnd(InAuthority, s, 3);
    var at := RFindAt(s, 3, end);
    UrlEnds(p, s, end);
    UrlPiece(s, end, at);
    WholePiece(s, end);
    q := if at >= 0 then Piece(3, MASK, at, end) else Piece(end, [], end, end);
  }

  /** s starts with a sensitive key of length k, whose value runs from v to e. */
  ghost predicate SecretIn(p: Policy, s: string, k: nat, v: nat, e: nat) {
    && k == Span(Identifier, s) && k <= v < |s| && v <= e <= |s|
    && p.sensitive(s[..k]) && Look(s[..k], s[k..]) == Some(v - k)
    && e - v == ValueLength(p.wholeLine(s[..k]), s[v..])
  }

  lemma SecretMasked(p: Policy, s: string, k: nat, v: nat, e: nat)
    requires s != [] && Identifier(s[0]) && SecretIn(p, s, k, v, e)
    ensures Redacted(p, s) == s[..k] + s[k..][..v - k] + Masked(s[v..][0]) + Redacted(p, s[e..])
  {
    TokenOf(s, k);
    CutSecret(s, k, v, e);
    MaskedParts(p, s, s[..k], s[k..], v - k, s[v..], s[k..][..v - k], s[e..]);
  }

  lemma CutSecret(s: string, k: nat, v: nat, e: nat)
    requires k <= v <= e <= |s|
    ensures s[k..][v - k..] == s[v..] && s[v..][e - v..] == s[e..]
  {
  }

  lemma TokenOf(s: string, k: nat)
    requires s != [] && Identifier(s[0]) && k == Span(Identifier, s)
    ensures s == s[..k] + s[k..] && s[..k] != [] && forall i | 0 <= i < k :: Identifier(s[..k][i])
    ensures s[k..] != [] ==> !Identifier(s[k..][0])
  {
    SpanAll(Identifier, s);
  }

  /** The token s starts with: whether it is sensitive and has a value, and where. */
  method FindSecret(p: Policy, s: string) returns (k: nat, found: bool, v: nat, e: nat)
    requires s != [] && Identifier(s[0])
    ensures k == Span(Identifier, s) && 0 < k <= |s|
    ensures found ==> SecretIn(p, s, k, v, e)
    ensures !found && p.sensitive(s[..k]) ==> Look(s[..k], s[k..]).None?
  {
    assert s[0..] == s;
    k := RunEnd(Identifier, s, 0);
    found, v, e := false, k, k;
    if p.sensitive(s[..k]) {
      var d;
      found, d := FindValue(s[..k], s[k..]);
      if found {
        v := k + d;
        var n := FindValueEnd(p.wholeLine(s[..k]), s[v..]);
        e := v + n;
      }
    }
  }

  lemma KeyOnly(p: Policy, s: string, k: nat)
    requires s != [] && Identifier(s[0]) && k == Span(Identifier, s)
    requires p.sensitive(s[..k]) ==> Look(s[..k], s[k..]).None?
    ensures Redacted(p, s) == s[..k] + Redacted(p, s[k..])
  {
  }

  lemma SecretPiece(s: string, k: nat, v: nat, e: nat, m: string)
    requires k <= v < |s| && v <= e <= |s| && 0 < e && m != []
    ensures Piece(v, m, e, e).Fits(s) && Piece(v, m, e, e).Text(s) == s[..k] + s[k..][..v - k] + m
    ensures s[v..][0] == s[v]
  {
    assert s[..k] + s[k..][..v - k] == s[..v];
  }

  method NextKey(p: Policy, s: string) returns (q: Piece)
    requires s != [] && Identifier(s[0])
    ensures q.Fits(s) && Redacted(p, s) == q.Text(s) + Redacted(p, s[q.next..])
  {
    var k, found, v, e := FindSecret(p, s);
    if found {
      q := Piece(v, Masked(s[v]), e, e);
      SecretPiece(s, k, v, e, Masked(s[v]));
      SecretMasked(p, s, k, v, e);
    } else {
      q := Piece(k, [], k, k);
      WholePiece(s, k);
      KeyOnly(p, s, k);
    }
  }

  method NextPiece(p: Policy, s: string) returns (q: Piece)
    requires s != []
    ensures q.Fits(s) && Redacted(p, s) == q.Text(s) + Redacted(p, s[q.next..])
  {
    if UrlAt(s) {
      q := NextUrl(p, s);
    } else if !Identifier(s[0]) {
      q := Piece(1, [], 1, 1);
      WholePiece(s, 1);
      assert s[..1] == [s[0]];
    } else {
      q := NextKey(p, s);
    }
  }

  /** One piece emitted, for any rewriting f of suffixes that agrees with it. */
  lemma Emit(f: string -> string, text: string, output: string, copied: nat, index: nat, q: Piece)
    requires Scanned(f, text, output, copied, index) && q.Fits(text[index..])
    requires f(text[index..]) == q.Text(text[index..]) + f(text[index..][q.next..])
    ensures q.insert == [] ==> Scanned(f, text, output, copied, index + q.next)
    ensures q.insert != [] ==>
              Scanned(f, text, output + text[copied..index + q.copy] + q.insert, index + q.resume, index + q.next)
  {
    var s := text[index..];
    PieceOf(text, copied, index, q);
    Regroup(output, text[copied..index], s[..q.copy], q.insert, s[q.resume..q.next], f(s[q.next..]));
  }

  lemma PieceOf(text: string, copied: nat, index: nat, q: Piece)
    requires copied <= index <= |text| && q.Fits(text[index..])
    ensures text[index..][q.next..] == text[index + q.next..]
    ensures text[copied..index] + text[index..][..q.copy] == text[copied..index + q.copy]
    ensures text[index..][q.resume..q.next] == text[index + q.resume..index + q.next]
    ensures q.insert == [] ==>
              text[copied..index + q.copy] + text[index + q.resume..index + q.next] == text[copied..index + q.next]
  {
    var s := text[index..];
    assert forall i | 0 <= i < |s| :: s[i] == text[index + i];
  }

  lemma Regroup(o: string, a: string, b: string, m: string, c: string, r: string)
    ensures o + a + ((b + m + c) + r) == (o + (a + b) + m) + c + r
    ensures m == [] ==> o + a + ((b + m + c) + r) == o + ((a + b) + c) + r
  {
  }

  /** What has been written, what is copied so far, and the rest rewritten. */
  ghost predicate Scanned(f: string -> string, text: string, output: string, copied: nat, index: nat) {
    copied <= index <= |text| && output + text[copied..index] + f(text[index..]) == f(text)
  }

  /** f is the rewriting of a policy. */
  ghost predicate Rewrites(p: Policy, f: string -> string) { forall s {:trigger Agrees(p, f, s)} :: Agrees(p, f, s) }

  ghost predicate Agrees(p: Policy, f: string -> string, s: string) { f(s) == Redacted(p, s) }

  method NextStep(p: Policy, s: string, ghost f: string -> string) returns (q: Piece)
    requires s != [] && Rewrites(p, f)
    ensures q.Fits(s) && f(s) == q.Text(s) + f(s[q.next..])
  {
    q := NextPiece(p, s);
    assert Agrees(p, f, s) && Agrees(p, f, s[q.next..]);
  }

  method ScanText(p: Policy, text: string, ghost f: string -> string) returns (output: string)
    requires Rewrites(p, f) && f([]) == []
    ensures output == f(text)
  {
    output := "";
    var index: nat, copied: nat := 0, 0;
    assert text[0..] == text;
    while index < |text|
      invariant Scanned(f, text, output, copied, index)
      decreases |text| - index
    {
      var q := NextStep(p, text[index..], f);
      Emit(f, text, output, copied, index, q);
      if q.insert != [] {
        output := output + text[copied..index + q.copy] + q.insert;
        copied := index + q.resume;
      }
      index := index + q.next;
    }
    assert text[copied..] == text[copied..index] && text[index..] == [];
    output := output + text[copied..];
  }

  /** redact_patterns: one pass, two cursors.  The scan always advances, and what is
      copied never passes the point being written; the result is the recursive
      rewriting, and redacting it again changes nothing. */
  method RedactPatterns(p: Policy, text: string) returns (output: string)
    ensures output == Redacted(p, text)
    ensures Redacted(p, output) == output
  {
    ghost var f := s => Redacted(p, s);
    assert Rewrites(p, f) by { forall s ensures Agrees(p, f, s) { } }
    output := ScanText(p, text, f);
    Idempotent(p, text);
  }

  /** ... with the keys the program calls sensitive. */
  method RedactText(text: string) returns (output: string)
    ensures output == Redacted(DEFAULT, text) && Redacted(DEFAULT, output) == output
  {
    output := RedactPatterns(DEFAULT, text);
  }
}
