/** The statement splitter of the migration check (internal/schemastep/classify.go):
    its specification token by token, and the index loop that refines it. */
module Splitter {

  /** The characters strings.TrimSpace trims. */
  predicate IsSpace(c: char) {
    || c in "\t\n\r " || c == '\U{B}' || c == '\U{C}' || c == '\U{85}' || c == '\U{A0}' || c == '\U{1680}'
    || '\U{2000}' <= c <= '\U{200A}' || c == '\U{2028}' || c == '\U{2029}' || c == '\U{202F}'
    || c == '\U{205F}' || c == '\U{3000}'
  }

  function TrimLeft(s: string): (r: string)
    ensures |r| <= |s|
  {
    if s != "" && IsSpace(s[0]) then TrimLeft(s[1..]) else s
  }

  function TrimRight(s: string): string {
    if s != "" && IsSpace(s[|s| - 1]) then TrimRight(s[..|s| - 1]) else s
  }

  function Trim(s: string): string {
    TrimRight(TrimLeft(s))
  }

  /** The first occurrence of `sub`, or -1. */
  function Find(s: string, sub: string): (k: int)
    ensures -1 <= k && (k >= 0 ==> k + |sub| <= |s| && s[k..k + |sub|] == sub)
  {
    if |s| < |sub| then -1
    else if s[..|sub|] == sub then 0
    else if s == "" then -1
    else
      var k := Find(s[1..], sub);
      if k < 0 then -1 else k + 1
  }

  predicate TagChar(c: char) {
    'A' <= c <= 'Z' || 'a' <= c <= 'z' || c == '_'
  }

  /** The end of the run of tag characters that starts at k. */
  function TagEnd(s: string, k: nat): (e: nat)
    requires k <= |s|
    ensures k <= e <= |s| && (e < |s| ==> !TagChar(s[e])) && forall i :: k <= i < e ==> TagChar(s[i])
    decreases |s| - k
  {
    if k < |s| && TagChar(s[k]) then TagEnd(s, k + 1) else k
  }

  /** The dollar-quote tag `s` begins with: its length, 0 when there is none. */
  function TagLength(s: string): (n: nat)
    requires s != ""
    ensures n <= |s| && (n > 0 ==> n >= 2 && s[n - 1] == '$')
  {
    var e := TagEnd(s, 1);
    if e < |s| && s[e] == '$' then e + 1 else 0
  }

  /** Where the quoted string that is open at j ends, and whether it is closed. */
  function CloseQuote(s: string, j: nat): (r: (nat, bool))
    requires j <= |s|
    ensures j <= r.0 <= |s| && (!r.1 ==> r.0 == |s|)
    ensures r.1 ==> r.0 > j && s[r.0 - 1] == '\'' && (r.0 < |s| ==> s[r.0] != '\'')
    decreases |s| - j
  {
    if j == |s| then (j, false)
    else if s[j] != '\'' then CloseQuote(s, j + 1)
    else if j + 1 < |s| && s[j + 1] == '\'' then CloseQuote(s, j + 2)
    else (j + 1, true)
  }

  datatype Kind = Skip | Copy | Cut

  /** A token: dropped, copied or a separator; `open` when the text ends inside it. */
  datatype Token = Token(kind: Kind, len: nat, open: bool)

  predicate StartsWith(s: string, p: string) {
    |p| <= |s| && s[..|p|] == p
  }

  function NextToken(s: string): (t: Token)
    requires s != ""
    ensures 1 <= t.len <= |s| && (t.open ==> t.len == |s|)
  {
    if StartsWith(s, "--") then
      var nl := Find(s, "\n");
      if nl < 0 then Token(Skip, |s|, true) else assert s[..2][0] == '-'; Token(Skip, nl, false)
    else if StartsWith(s, "/*") then
      var end := Find(s[2..], "*/");
      if end < 0 then Token(Skip, |s|, true) else Token(Skip, 2 + end + 2, false)
    else if s[0] == '\'' then
      var r := CloseQuote(s, 1);
      Token(Copy, r.0, !r.1)
    else if s[0] == '$' && TagLength(s) > 0 then
      var n := TagLength(s);
      var end := Find(s[n..], s[..n]);
      if end < 0 then Token(Copy, |s|, true) else Token(Copy, n + end + n, false)
    else Token(if s[0] == ';' then Cut else Copy, 1, false)
  }

  function Flush(buf: string): seq<string> {
    if Trim(buf) == "" then [] else [Trim(buf)]
  }

  function SplitFrom(s: string, buf: string): seq<string>
    decreases |s|
  {
    if s == "" then Flush(buf)
    else
      var t := NextToken(s);
      match t.kind
      case Skip => SplitFrom(s[t.len..], buf)
      case Copy => SplitFrom(s[t.len..], buf + s[..t.len])
      case Cut => Flush(buf) + SplitFrom(s[1..], "")
  }

  /** The non-empty statements between top-level semicolons. */
  function Split(s: string): seq<string> {
    SplitFrom(s, "")
  }

  // ---- the loop ----

  method Index(s: string, sub: string) returns (k: int)
    requires sub != ""
    ensures k == Find(s, sub)
  {
    var i := 0;
    while i + |sub| <= |s|
      invariant 0 <= i <= |s|
      invariant Find(s, sub) == if Find(s[i..], sub) < 0 then -1 else i + Find(s[i..], sub)
    {
      if s[i..i + |sub|] == sub {
        assert s[i..][..|sub|] == sub;
        return i;
      }
      assert s[i..][..|sub|] == s[i..i + |sub|];
      assert s[i..][1..] == s[i + 1..];
      i := i + 1;
    }
    return -1;
  }

  method DollarTag(s: string) returns (tag: string)
    requires s != ""
    ensures tag == s[..TagLength(s)]
  {
    var e := 1;
    while e < |s| && TagChar(s[e])
      invariant 1 <= e <= |s| && TagEnd(s, 1) == TagEnd(s, e)
    {
      e := e + 1;
    }
    tag := if e < |s| && s[e] == '$' then s[..e + 1] else "";
  }

  method Quoted(s: string) returns (j: nat, closed: bool)
    requires s != "" && s[0] == '\''
    ensures (j, closed) == CloseQuote(s, 1)
  {
    j, closed := 1, false;
    while j < |s|
      invariant 1 <= j <= |s| && CloseQuote(s, j) == CloseQuote(s, 1) && !closed
    {
      if s[j] == '\'' {
        if j + 1 < |s| && s[j + 1] == '\'' {
          j := j + 2;
          continue;
        }
        j, closed := j + 1, true;
        break;
      }
      j := j + 1;
    }
  }

  /** How much one turn of the loop reads, and whether it copies it. */
  method Scan(s: string) returns (t: Token)
    requires s != ""
    ensures t == NextToken(s)
  {
    if StartsWith(s, "--") {
      var nl := Index(s, "\n");
      t := if nl < 0 then Token(Skip, |s|, true) else Token(Skip, nl, false);
    } else if StartsWith(s, "/*") {
      var end := Index(s[2..], "*/");
      t := if end < 0 then Token(Skip, |s|, true) else Token(Skip, 2 + end + 2, false);
    } else if s[0] == '\'' {
      var j, closed := Quoted(s);
      t := Token(Copy, j, !closed);
    } else if s[0] == '$' {
      var tag := DollarTag(s);
      if tag == "" { return Token(Copy, 1, false); }
      var end := Index(s[|tag|..], tag);
      t := if end < 0 then Token(Copy, |s|, true) else Token(Copy, |tag| + end + |tag|, false);
    } else if s[0] == ';' {
      t := Token(Cut, 1, false);
    } else {
      t := Token(Copy, 1, false);
    }
  }

  lemma {:induction false} SplitStep(s: string, buf: string, t: Token)
    requires s != "" && t == NextToken(s)
    ensures t.kind == Skip ==> SplitFrom(s, buf) == SplitFrom(s[t.len..], buf)
    ensures t.kind == Copy ==> SplitFrom(s, buf) == SplitFrom(s[t.len..], buf + s[..t.len])
    ensures t.kind == Cut ==> SplitFrom(s, buf) == Flush(buf) + SplitFrom(s[t.len..], "")
  {
  }

  lemma {:induction false} Regroup(s: string, i: nat, n: nat, a: seq<string>, b: seq<string>, c: seq<string>)
    requires i + n <= |s|
    ensures s[i..][n..] == s[i + n..] && a + (b + c) == (a + b) + c
  {
  }

  /** One turn: the statement it emits, if any, and the buffer it leaves. */
  method Turn(rest: string, buf: string) returns (n: nat, emitted: seq<string>, buf': string)
    requires rest != ""
    ensures 1 <= n <= |rest| && SplitFrom(rest, buf) == emitted + SplitFrom(rest[n..], buf')
  {
    var t := Scan(rest);
    SplitStep(rest, buf, t);
    n, emitted, buf' := t.len, [], buf;
    if t.kind == Copy {
      buf' := buf + rest[..t.len];
    } else if t.kind == Cut {
      if Trim(buf) != "" { emitted := [Trim(buf)]; }
      buf' := "";
    }
  }

  /** The splitter: every turn advances the index, and the result is the
      specification's. */
  method SplitStatements(sql: string) returns (out: seq<string>)
    ensures out == Split(sql)
  {
    out := [];
    var buf, i := "", 0;
    while i < |sql|
      invariant 0 <= i <= |sql|
      invariant Split(sql) == out + SplitFrom(sql[i..], buf)
      decreases |sql| - i
    {
      var n, emitted, left := Turn(sql[i..], buf);
      Regroup(sql, i, n, out, emitted, SplitFrom(sql[i + n..], left));
      out, buf, i := out + emitted, left, i + n;
    }
    assert sql[i..] == "";
    if Trim(buf) != "" { out := out + [Trim(buf)]; }
  }
}
