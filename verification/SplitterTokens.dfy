/** What each token of the splitter is, in terms of the characters of the script
    alone, and what that makes of a statement. */
module SplitterTokens {
  import opened Splitter
  import opened SplitterLaws

  /** `sub` stands at position k of `s`. */
  predicate OccursAt(s: string, sub: string, k: nat) {
    k + |sub| <= |s| && s[k..k + |sub|] == sub
  }

  lemma {:induction false} OccursBeyond(s: string, sub: string, m: nat, i: nat)
    requires m <= i && m <= |s|
    ensures OccursAt(s, sub, i) <==> OccursAt(s[m..], sub, i - m)
  {
    if i + |sub| <= |s| { assert s[m..][i - m..i - m + |sub|] == s[i..i + |sub|]; }
  }

  /** Find is the first occurrence, and there is one unless it says none. */
  lemma {:induction false} FindIsFirst(s: string, sub: string)
    ensures var k := Find(s, sub);
      && (k >= 0 ==> OccursAt(s, sub, k))
      && forall i: nat :: i < |s| && (k < 0 || i < k) ==> !OccursAt(s, sub, i)
  {
    if |s| >= |sub| && s[..|sub|] != sub && s != "" {
      FindIsFirst(s[1..], sub);
      var k := Find(s, sub);
      forall i: nat | i < |s| && (k < 0 || i < k) ensures !OccursAt(s, sub, i) {
        if OccursAt(s, sub, i) {
          assert s[0..|sub|] == s[..|sub|];
          OccursBeyond(s, sub, 1, i);
        }
      }
    }
  }

  predicate TagLetter(c: char) {
    c == '_' || ('a' <= c && c <= 'z') || ('A' <= c && c <= 'Z')
  }

  /** `s` begins with a dollar tag of n characters: two dollar signs with nothing but
      letters and underscores between them, so no digit and no space. */
  predicate IsTag(s: string, n: nat) {
    2 <= n <= |s| && s[0] == '$' && s[n - 1] == '$' && forall i :: 1 <= i < n - 1 ==> TagLetter(s[i])
  }

  lemma {:induction false} TagsExactly(s: string, n: nat)
    requires s != "" && s[0] == '$'
    ensures IsTag(s, n) <==> n > 0 && TagLength(s) == n
  {
    var e := TagEnd(s, 1);
    if IsTag(s, n) {
      assert !TagLetter('$');
    }
  }

  /** A line comment is dropped up to its line break, which stays. */
  lemma {:induction false} LineComment(s: string)
    requires OccursAt(s, "--", 0)
    ensures var t := NextToken(s);
      t.kind == Skip && '\n' !in s[..t.len] && (t.len < |s| ==> s[t.len] == '\n') && (t.open <==> t.len == |s|)
  {
    FindIsFirst(s, "\n");
    var t := NextToken(s);
    assert s[..2] == s[0..2];
    forall i | 0 <= i < t.len ensures s[i] != '\n' { assert OccursAt(s, "\n", i) <==> s[i..i + 1] == "\n"; assert s[i..i + 1] == [s[i]]; }
    if Find(s, "\n") >= 0 { assert s[t.len..t.len + 1] == [s[t.len]]; }
  }

  /** A block comment is dropped to the first mark that closes it. */
  lemma {:induction false} BlockComment(s: string)
    requires OccursAt(s, "/*", 0)
    ensures var t := NextToken(s);
      && t.kind == Skip
      && (!t.open ==> t.len >= 4 && OccursAt(s, "*/", t.len - 2))
      && forall i: nat :: 2 <= i < (if t.open then |s| else t.len - 2) ==> !OccursAt(s, "*/", i)
  {
    FindIsFirst(s[2..], "*/");
    var t := NextToken(s);
    assert s[..2] == s[0..2] && s[0] == "/*"[0];
    forall i: nat | 2 <= i < (if t.open then |s| else t.len - 2) ensures !OccursAt(s, "*/", i) {
      OccursBeyond(s, "*/", 2, i);
    }
    if !t.open { OccursBeyond(s, "*/", 2, t.len - 2); }
  }

  function DollarToken(s: string, n: nat): (t: Token)
    requires 0 < n <= |s|
  {
    var end := Find(s[n..], s[..n]);
    if end < 0 then Token(Copy, |s|, true) else Token(Copy, n + end + n, false)
  }

  lemma {:induction false} FirstRepetition(s: string, n: nat)
    requires 0 < n <= |s|
    ensures var t := DollarToken(s, n);
      && (!t.open ==> t.len >= 2 * n && OccursAt(s, s[..n], t.len - n))
      && forall i: nat :: n <= i < (if t.open then |s| else t.len - n) ==> !OccursAt(s, s[..n], i)
  {
    FindIsFirst(s[n..], s[..n]);
    var t := DollarToken(s, n);
    forall i: nat | n <= i < (if t.open then |s| else t.len - n) ensures !OccursAt(s, s[..n], i) {
      OccursBeyond(s, s[..n], n, i);
    }
    if !t.open { OccursBeyond(s, s[..n], n, t.len - n); }
  }

  /** A dollar-quoted text is copied to the first repetition of its tag. */
  lemma {:induction false} DollarQuote(s: string, n: nat)
    requires IsTag(s, n)
    ensures var t := NextToken(s);
      && t.kind == Copy
      && (!t.open ==> t.len >= 2 * n && OccursAt(s, s[..n], t.len - n))
      && forall i: nat :: n <= i < (if t.open then |s| else t.len - n) ==> !OccursAt(s, s[..n], i)
  {
    TagsExactly(s, n);
    assert !StartsWith(s, "--") && !StartsWith(s, "/*") by { assert s[0] != "--"[0] && s[0] != "/*"[0]; }
    assert NextToken(s) == DollarToken(s, n);
    FirstRepetition(s, n);
  }

  /** Quote characters of a closed string but its two ends come in pairs. */
  predicate Pairs(x: string)
    decreases |x|
  {
    x == "" || (if x[0] != '\'' then Pairs(x[1..]) else |x| >= 2 && x[1] == '\'' && Pairs(x[2..]))
  }

  lemma {:induction false} CloseQuotePairs(s: string, j: nat)
    requires j <= |s| && CloseQuote(s, j).1
    ensures var e := CloseQuote(s, j).0; e > j && s[e - 1] == '\'' && Pairs(s[j..e - 1])
    decreases |s| - j
  {
    var e := CloseQuote(s, j).0;
    if s[j] != '\'' {
      CloseQuotePairs(s, j + 1);
      assert s[j..e - 1][1..] == s[j + 1..e - 1];
    } else if j + 1 < |s| && s[j + 1] == '\'' {
      CloseQuotePairs(s, j + 2);
      assert s[j..e - 1][2..] == s[j + 2..e - 1];
    }
  }

  /** A quoted string is copied to the quote that closes it, which none follows. */
  lemma {:induction false} QuotedString(s: string)
    requires s != "" && s[0] == '\''
    ensures var t := NextToken(s);
      && t.kind == Copy
      && (!t.open ==> t.len >= 2 && s[t.len - 1] == '\'' && Pairs(s[1..t.len - 1]) && (t.len < |s| ==> s[t.len] != '\''))
  {
    assert !StartsWith(s, "--") && !StartsWith(s, "/*") by { assert s[0] != "--"[0] && s[0] != "/*"[0]; }
    if CloseQuote(s, 1).1 { CloseQuotePairs(s, 1); }
  }

  /** Anything else is one character, copied unless it is a semicolon. */
  lemma {:induction false} OneCharacter(s: string)
    requires s != "" && s[0] != '\'' && !OccursAt(s, "--", 0) && !OccursAt(s, "/*", 0) && (forall n: nat :: !IsTag(s, n))
    ensures NextToken(s) == Token(if s[0] == ';' then Cut else Copy, 1, false)
  {
    if s[0] == '$' { TagsExactly(s, TagLength(s)); }
    assert |s| >= 2 ==> s[..2] == s[0..2];
  }

  /** No statement begins or ends with a blank. */
  predicate Trimmed(p: string) {
    p != "" && p[0] !in " \t\r\n" && p[|p| - 1] !in " \t\r\n"
  }

  lemma {:induction false} TrimLeftStartsSolid(s: string)
    ensures TrimLeft(s) != "" ==> !IsSpace(TrimLeft(s)[0])
  {
    if s != "" && IsSpace(s[0]) { TrimLeftStartsSolid(s[1..]); }
  }

  lemma {:induction false} FlushIsTrimmed(buf: string)
    ensures forall p :: p in Flush(buf) ==> Trimmed(p)
  {
    TrimLeftStartsSolid(buf);
    TrimRightSplits(TrimLeft(buf));
    assert forall c :: c in " \t\r\n" ==> IsSpace(c);
  }

  lemma {:induction false} SplitFromTrims(s: string, buf: string)
    ensures forall p :: p in SplitFrom(s, buf) ==> Trimmed(p)
    decreases |s|
  {
    FlushIsTrimmed(buf);
    if s != "" {
      var t := NextToken(s);
      match t.kind
      case Skip => SplitFromTrims(s[t.len..], buf);
      case Copy => SplitFromTrims(s[t.len..], buf + s[..t.len]);
      case Cut => SplitFromTrims(s[1..], "");
    }
  }

  /** Every statement of a script is non-empty and trimmed at both ends. */
  lemma {:induction false} StatementsAreTrimmed(s: string)
    ensures forall p :: p in Split(s) ==> Trimmed(p)
  {
    SplitFromTrims(s, "");
  }
}
