/** What splitting means: it distributes over top-level separators, and without
    comments joining and splitting again is the identity. */
module SplitterLaws {
  import opened Splitter

  /** The scan ends outside every comment, string and dollar quote. */
  predicate TopLevel(s: string)
    decreases |s|
  {
    s == "" || (!NextToken(s).open && TopLevel(s[NextToken(s).len..]))
  }

  predicate NoComment(s: string)
    decreases |s|
  {
    s == "" || (NextToken(s).kind != Skip && NoComment(s[NextToken(s).len..]))
  }

  /** Nothing but copied tokens: one statement's text. */
  predicate Whole(s: string)
    decreases |s|
  {
    s == "" || (NextToken(s).kind == Copy && Whole(s[NextToken(s).len..]))
  }

  /** Text that can follow a token without becoming part of it. */
  predicate Soft(y: string) {
    y == "" || y[0] == ';' || IsSpace(y[0])
  }

  // ---- a token does not depend on what softly follows it ----

  lemma {:induction false} FindInFront(x: string, y: string, sub: string)
    requires Find(x, sub) >= 0
    ensures Find(x + y, sub) == Find(x, sub)
  {
    assert (x + y)[..|sub|] == x[..|sub|];
    if x[..|sub|] != sub && x != "" {
      assert (x + y)[1..] == x[1..] + y;
      FindInFront(x[1..], y, sub);
    }
  }

  lemma {:induction false} FindInside(x: string, y: string, sub: string)
    requires sub != "" && (Find(x + y, sub) < 0 || Find(x + y, sub) + |sub| <= |x|)
    ensures Find(x, sub) == Find(x + y, sub)
  {
    if |x| >= |sub| { assert (x + y)[..|sub|] == x[..|sub|]; }
    if x != "" {
      assert (x + y)[1..] == x[1..] + y;
      if |x| >= |sub| && x[..|sub|] != sub { FindInside(x[1..], y, sub); }
    }
  }

  lemma {:induction false} CloseInFront(x: string, y: string, j: nat)
    requires j <= |x| && CloseQuote(x, j).1 && Soft(y)
    ensures CloseQuote(x + y, j) == CloseQuote(x, j)
    decreases |x| - j
  {
    if j < |x| {
      assert (x + y)[j] == x[j];
      if x[j] != '\'' { CloseInFront(x, y, j + 1); }
      else if j + 1 < |x| && x[j + 1] == '\'' { CloseInFront(x, y, j + 2); }
    }
  }

  lemma {:induction false} CloseInside(x: string, y: string, j: nat)
    requires j <= |x| && Soft(y) && (!CloseQuote(x + y, j).1 || CloseQuote(x + y, j).0 <= |x|)
    ensures CloseQuote(x, j) == (if CloseQuote(x + y, j).1 then CloseQuote(x + y, j) else (|x|, false))
    decreases |x| - j
  {
    if j < |x| {
      assert (x + y)[j] == x[j];
      if x[j] != '\'' { CloseInside(x, y, j + 1); }
      else if j + 1 < |x| && x[j + 1] == '\'' { CloseInside(x, y, j + 2); }
    }
  }

  lemma {:induction false} TagEndInFront(x: string, y: string, k: nat)
    requires k <= |x|
    ensures TagEnd(x, k) < |x| ==> TagEnd(x + y, k) == TagEnd(x, k)
    ensures TagEnd(x, k) == |x| ==> TagEnd(x + y, k) >= |x|
    ensures TagEnd(x, k) == |x| && Soft(y) ==> TagEnd(x + y, k) == |x|
    decreases |x| - k
  {
    if k < |x| {
      assert (x + y)[k] == x[k];
      if TagChar(x[k]) { TagEndInFront(x, y, k + 1); }
    }
  }

  lemma {:induction false} SameTag(x: string, y: string)
    requires x != "" && Soft(y)
    ensures TagLength(x + y) == TagLength(x)
  {
    TagEndInFront(x, y, 1);
  }

  lemma {:induction false} SameStart(x: string, y: string, p: string)
    requires x != "" && Soft(y) && (p == "--" || p == "/*")
    ensures StartsWith(x + y, p) == StartsWith(x, p)
  {
    assert (x + y)[0] == x[0];
    if |x| >= 2 { assert (x + y)[..2] == x[..2]; }
    if |x| == 1 && y != "" { assert (x + y)[1] == y[0] && (x + y)[..2] == [x[0], y[0]]; }
  }

  /** Appending a separator and more text leaves a closed token as it is. */
  lemma {:induction false} TokenInFront(x: string, y: string)
    requires x != "" && Soft(y) && !NextToken(x).open
    ensures NextToken(x + y) == NextToken(x)
  {
    SameStart(x, y, "--");
    SameStart(x, y, "/*");
    assert (x + y)[0] == x[0];
    if StartsWith(x, "--") || StartsWith(x, "/*") {
      CommentInFront(x, y);
    } else if x[0] == '\'' {
      CloseInFront(x, y, 1);
    } else if x[0] == '$' {
      SameTag(x, y);
      DollarInFront(x, y);
    }
  }

  lemma {:induction false} CommentInFront(x: string, y: string)
    requires x != "" && Soft(y) && !NextToken(x).open && (StartsWith(x, "--") || StartsWith(x, "/*"))
    ensures NextToken(x + y) == NextToken(x)
  {
    SameStart(x, y, "--");
    SameStart(x, y, "/*");
    if StartsWith(x, "--") {
      FindInFront(x, y, "\n");
    } else {
      DropsInto(x, y, 2);
      FindInFront(x[2..], y, "*/");
    }
  }

  lemma {:induction false} DollarInFront(x: string, y: string)
    requires x != "" && Soft(y) && TagLength(x + y) == TagLength(x)
    requires TagLength(x) > 0 ==> Find(x[TagLength(x)..], x[..TagLength(x)]) >= 0
    ensures TagLength(x) > 0 ==>
      Find((x + y)[TagLength(x)..], (x + y)[..TagLength(x)]) == Find(x[TagLength(x)..], x[..TagLength(x)])
  {
    var n := TagLength(x);
    assert (x + y)[n..] == x[n..] + y && (x + y)[..n] == x[..n];
    if n > 0 { FindInFront(x[n..], y, x[..n]); }
  }

  /** A copied token is the same without what softly follows: closed tokens that
      end before it, and open ones, which then end with the text. */
  lemma {:induction false} TokenInside(x: string, y: string)
    requires x != "" && Soft(y) && NextToken(x + y).kind == Copy
    requires NextToken(x + y).open || NextToken(x + y).len <= |x|
    ensures NextToken(x) == if NextToken(x + y).open then Token(Copy, |x|, true) else NextToken(x + y)
  {
    SameStart(x, y, "--");
    SameStart(x, y, "/*");
    assert (x + y)[0] == x[0];
    if x[0] == '\'' {
      CloseInside(x, y, 1);
    } else if x[0] == '$' {
      SameTag(x, y);
      if TagLength(x) > 0 { DollarInside(x, y, TagLength(x)); }
    }
  }

  lemma {:induction false} DollarInside(x: string, y: string, n: nat)
    requires 0 < n <= |x|
    requires Find((x + y)[n..], (x + y)[..n]) < 0 || Find((x + y)[n..], (x + y)[..n]) + n + n <= |x|
    ensures Find(x[n..], x[..n]) == Find((x + y)[n..], (x + y)[..n])
  {
    DropsInto(x, y, n);
    FindInside(x[n..], y, x[..n]);
  }

  // ---- law one ----

  lemma {:induction false} DropsInto(x: string, y: string, n: nat)
    requires n <= |x|
    ensures (x + y)[n..] == x[n..] + y && (x + y)[..n] == x[..n]
  {
  }

  lemma {:induction false} StartsWithSeparator(b: string, buf: string)
    ensures SplitFrom(";" + b, buf) == Flush(buf) + Split(b)
  {
    var y := ";" + b;
    assert y[0] == ';' && y[1..] == b;
    assert NextToken(y) == Token(Cut, 1, false);
    SplitStep(y, buf, Token(Cut, 1, false));
  }

  lemma {:induction false} SplitFromAtSeparator(a: string, b: string, buf: string)
    requires TopLevel(a)
    ensures SplitFrom(a + ";" + b, buf) == SplitFrom(a, buf) + Split(b)
    decreases |a|
  {
    var y := ";" + b;
    assert a + ";" + b == a + y;
    if a == "" {
      assert a + y == y;
      StartsWithSeparator(b, buf);
    } else {
      var t := NextToken(a);
      TokenInFront(a, y);
      DropsInto(a, y, t.len);
      assert a[t.len..] + y == a[t.len..] + ";" + b;
      if t.kind == Skip {
        SplitFromAtSeparator(a[t.len..], b, buf);
      } else if t.kind == Copy {
        SplitFromAtSeparator(a[t.len..], b, buf + a[..t.len]);
      } else {
        SplitFromAtSeparator(a[1..], b, "");
        Concat(Flush(buf), SplitFrom(a[1..], ""), Split(b));
      }
    }
  }

  lemma {:induction false} Concat(a: seq<string>, b: seq<string>, c: seq<string>)
    ensures a + (b + c) == (a + b) + c
  {
  }

  /** Splitting distributes over a separator at top level. */
  lemma {:induction false} SplitAtSeparator(a: string, b: string)
    requires TopLevel(a)
    ensures Split(a + ";" + b) == Split(a) + Split(b)
  {
    SplitFromAtSeparator(a, b, "");
  }

  // ---- law two ----

  /** The first statement's text with its comments dropped, and what follows its
      separator. */
  function Text(s: string): string
    decreases |s|
  {
    if s == "" || NextToken(s).kind == Cut then ""
    else Copied(s) + Text(s[NextToken(s).len..])
  }

  function Copied(s: string): string
    requires s != ""
  {
    if NextToken(s).kind == Copy then s[..NextToken(s).len] else ""
  }

  predicate HasCut(s: string)
    decreases |s|
  {
    s != "" && (NextToken(s).kind == Cut || HasCut(s[NextToken(s).len..]))
  }

  function AfterCut(s: string): (r: string)
    ensures s != "" ==> |r| < |s|
    decreases |s|
  {
    if s == "" then "" else if NextToken(s).kind == Cut then s[1..] else AfterCut(s[NextToken(s).len..])
  }

  lemma {:induction false} SplitAtText(s: string, buf: string)
    ensures SplitFrom(s, buf) == Flush(buf + Text(s)) + Split(AfterCut(s))
    decreases |s|
  {
    if s == "" || NextToken(s).kind == Cut {
      SplitAtOnce(s, buf);
    } else {
      var r := s[NextToken(s).len..];
      SplitOn(s, buf);
      SplitAtText(r, buf + Copied(s));
      TextStep(s);
      Regrouped(buf, Copied(s), Text(r));
    }
  }

  lemma {:induction false} Regrouped(a: string, b: string, c: string)
    ensures (a + b) + c == a + (b + c) && "" + c == c
  {
  }

  lemma {:induction false} TextStep(s: string)
    requires s != "" && NextToken(s).kind != Cut
    ensures var r := s[NextToken(s).len..];
      Text(s) == Copied(s) + Text(r) && HasCut(s) == HasCut(r) && AfterCut(s) == AfterCut(r)
  {
  }

  lemma {:induction false} SplitOn(s: string, buf: string)
    requires s != "" && NextToken(s).kind != Cut
    ensures SplitFrom(s, buf) == SplitFrom(s[NextToken(s).len..], buf + Copied(s))
  {
    SplitStep(s, buf, NextToken(s));
    assert buf + "" == buf;
  }

  lemma {:induction false} SplitAtOnce(s: string, buf: string)
    requires s == "" || NextToken(s).kind == Cut
    ensures Text(s) == "" && SplitFrom(s, buf) == Flush(buf + Text(s)) + Split(AfterCut(s))
  {
    assert buf + Text(s) == buf;
    assert Trim("") == "";
  }

  /** A copied token is read as before when `z` follows it: it does not become the
      start of a comment, of a longer string or of a dollar tag. */
  predicate Undisturbed(x: string, z: string)
    requires x != ""
  {
    z == "" || !(
      || (x == "-" && z[0] == '-')
      || (x == "/" && z[0] == '*')
      || (x[0] == '\'' && z[0] == '\'')
      || (x == "$" && TagLength(x + z) > 0))
  }

  /** No dropped comment makes its neighbours into a new token. */
  predicate CleanSeams(s: string)
    decreases |s|
  {
    s == "" ||
      (var t := NextToken(s);
       (t.kind == Copy && !t.open ==> Undisturbed(s[..t.len], Text(s[t.len..]))) && CleanSeams(s[t.len..]))
  }

  lemma {:induction false} CloseAnyway(x: string, y: string, z: string, j: nat)
    requires j <= |x| && CloseQuote(x + y, j) == (|x|, true) && (z == "" || z[0] != '\'')
    ensures CloseQuote(x + z, j) == (|x|, true)
    decreases |x| - j
  {
    assert j < |x| && (x + y)[j] == x[j] == (x + z)[j];
    if x[j] != '\'' {
      CloseAnyway(x, y, z, j + 1);
    } else if j + 1 < |x| && x[j + 1] == '\'' {
      assert (x + y)[j + 1] == x[j + 1] == (x + z)[j + 1];
      CloseAnyway(x, y, z, j + 2);
    }
  }

  lemma {:induction false} DollarAnyway(x: string, y: string, z: string)
    requires |x| > 1 && x[0] == '$' && NextToken(x + y) == Token(Copy, |x|, false)
    ensures NextToken(x + z) == Token(Copy, |x|, false)
  {
    TagAnyway(x, y, z);
    SameClose(x, y, z, TagLength(x));
    assert (x + z)[0] == x[0];
  }

  lemma {:induction false} SameClose(x: string, y: string, z: string, n: nat)
    requires 0 < n <= |x| && Find((x + y)[n..], (x + y)[..n]) == |x| - n - n >= 0
    ensures Find((x + z)[n..], (x + z)[..n]) == Find((x + y)[n..], (x + y)[..n])
  {
    DropsInto(x, y, n);
    DropsInto(x, z, n);
    FindInside(x[n..], y, x[..n]);
    FindInFront(x[n..], z, x[..n]);
  }

  lemma {:induction false} TagAnyway(x: string, y: string, z: string)
    requires |x| > 1 && x[0] == '$' && NextToken(x + y) == Token(Copy, |x|, false)
    ensures var n := TagLength(x);
      n > 0 && TagLength(x + y) == n == TagLength(x + z) && Find((x + y)[n..], (x + y)[..n]) == |x| - n - n >= 0
  {
    assert (x + y)[0] == x[0];
    var n := TagLength(x + y);
    assert n > 0 && (x + y)[n - 1] == x[n - 1] == (x + z)[n - 1];
    TagEndInFront(x, y, 1);
    TagEndInFront(x, z, 1);
  }

  lemma {:induction false} PlainAnyway(c: char, y: string, z: string)
    requires NextToken([c] + y) == Token(Copy, 1, false) && c != '\'' && Undisturbed([c], z)
    ensures NextToken([c] + z) == Token(Copy, 1, false)
  {
    var s, s' := [c] + y, [c] + z;
    assert s[0] == c == s'[0];
    if z != "" { assert s'[..2] == [c, z[0]]; }
    assert c != ';';
    if z == "" { assert TagLength(s') == 0; }
  }

  lemma {:induction false} UndisturbedToken(x: string, y: string, z: string)
    requires x != "" && NextToken(x + y) == Token(Copy, |x|, false) && Undisturbed(x, z)
    ensures NextToken(x + z) == Token(Copy, |x|, false)
  {
    assert (x + y)[0] == x[0] == (x + z)[0];
    if x[0] == '\'' {
      CloseAnyway(x, y, z, 1);
    } else if |x| > 1 {
      DollarAnyway(x, y, z);
    } else {
      assert x == [x[0]];
      PlainAnyway(x[0], y, z);
    }
  }

  /** The first statement's text is scanned as one statement, and to its end when
      a separator follows. */
  predicate Ready(s: string) {
    Whole(Text(s)) && (HasCut(s) ==> TopLevel(Text(s)))
  }

  lemma {:induction false} NothingIsReady(s: string)
    requires s == "" || NextToken(s).kind == Cut
    ensures Ready(s)
  {
    assert Text(s) == "";
  }

  lemma {:induction false} SkippedIsReady(s: string)
    requires s != "" && NextToken(s).kind == Skip && Ready(s[NextToken(s).len..])
    ensures Ready(s)
  {
    TextStep(s);
    Regrouped("", "", Text(s[NextToken(s).len..]));
  }

  lemma {:induction false} CopiedIsReady(s: string)
    requires s != "" && NextToken(s).kind == Copy && CleanSeams(s) && Ready(s[NextToken(s).len..])
    ensures Ready(s)
  {
    var t := NextToken(s);
    var x, r := s[..t.len], s[t.len..];
    assert s == x + r;
    TextStep(s);
    if t.open {
      assert r == "" && Text(r) == "" && x + "" == s;
    } else {
      UndisturbedToken(x, r, Text(r));
      DropsInto(x, Text(r), |x|);
    }
  }

  lemma {:induction false} CleanTextIsReady(s: string)
    requires CleanSeams(s)
    ensures Ready(s)
    decreases |s|
  {
    if s == "" || NextToken(s).kind == Cut {
      NothingIsReady(s);
    } else {
      CleanTextIsReady(s[NextToken(s).len..]);
      if NextToken(s).kind == Copy { CopiedIsReady(s); } else { SkippedIsReady(s); }
    }
  }

  lemma {:induction false} CleanAfterCut(s: string)
    requires CleanSeams(s)
    ensures CleanSeams(AfterCut(s))
    decreases |s|
  {
    if s != "" {
      CleanStep(s);
      if NextToken(s).kind != Cut {
        TextStep(s);
        CleanAfterCut(s[NextToken(s).len..]);
      }
    }
  }

  lemma {:induction false} CleanStep(s: string)
    requires s != "" && CleanSeams(s)
    ensures CleanSeams(s[NextToken(s).len..])
    ensures NextToken(s).kind == Cut ==> AfterCut(s) == s[NextToken(s).len..]
  {
  }

  /** Without comments a statement's text is the script up to its separator. */
  lemma {:induction false} NoCommentText(s: string)
    requires NoComment(s)
    ensures Text(s) <= s && Soft(s[|Text(s)|..])
    decreases |s|
  {
    if s != "" && NextToken(s).kind != Cut {
      var n := NextToken(s).len;
      NoCommentText(s[n..]);
      TextStep(s);
      PrefixGrows(s, n, Text(s[n..]));
    }
  }

  lemma {:induction false} PrefixGrows(s: string, n: nat, z: string)
    requires n <= |s| && z <= s[n..]
    ensures s[..n] + z <= s && s[|s[..n] + z|..] == s[n..][|z|..]
  {
  }

  /** Without comments every seam is clean. */
  lemma {:induction false} NoCommentIsClean(s: string)
    requires NoComment(s)
    ensures CleanSeams(s)
    decreases |s|
  {
    if s != "" {
      var n := NextToken(s).len;
      NoCommentIsClean(s[n..]);
      NoCommentText(s[n..]);
      assert s == s[..n] + s[n..];
      if NextToken(s).kind == Copy && !NextToken(s).open { UndisturbedWithin(s[..n], s[n..], Text(s[n..])); }
    }
  }

  lemma {:induction false} UndisturbedWithin(x: string, r: string, z: string)
    requires x != "" && NextToken(x + r) == Token(Copy, |x|, false) && z <= r && Soft(r[|z|..])
    ensures Undisturbed(x, z)
  {
    if z != "" {
      assert (x + r)[0] == x[0] && (x + r)[|x|] == z[0];
      if x == "-" || x == "/" { assert (x + r)[..2] == [x[0], z[0]]; }
      if x == "$" {
        assert x + r == (x + z) + r[|z|..];
        SameTag(x + z, r[|z|..]);
      }
    }
  }

  // ---- trimming a statement ----

  lemma {:induction false} SpaceIsOneToken(s: string)
    requires s != "" && IsSpace(s[0])
    ensures NextToken(s) == Token(Copy, 1, false)
  {
    if |s| >= 2 { assert s[..2][0] == s[0]; }
  }

  lemma {:induction false} TrimLeftKeeps(s: string)
    requires Whole(s)
    ensures Whole(TrimLeft(s)) && (TopLevel(s) ==> TopLevel(TrimLeft(s)))
    decreases |s|
  {
    if s != "" && IsSpace(s[0]) {
      SpaceIsOneToken(s);
      TrimLeftKeeps(s[1..]);
    }
  }

  predicate AllSpace(w: string) {
    forall i :: 0 <= i < |w| ==> IsSpace(w[i])
  }

  /** A closed token of several characters ends in a quote or a dollar sign. */
  lemma {:induction false} ClosedEndsSolid(s: string)
    requires s != "" && NextToken(s).kind == Copy && !NextToken(s).open && NextToken(s).len > 1
    ensures s[NextToken(s).len - 1] == '\'' || s[NextToken(s).len - 1] == '$'
  {
    if s[0] == '$' { DollarEndsSolid(s, TagLength(s)); }
  }

  lemma {:induction false} DollarEndsSolid(s: string, n: nat)
    requires 0 < n <= |s| && Find(s[n..], s[..n]) >= 0
    ensures s[n + Find(s[n..], s[..n]) + n - 1] == s[n - 1]
  {
    var tail, end := s[n..], Find(s[n..], s[..n]);
    assert tail[end..end + n][n - 1] == tail[end + n - 1] == s[n + end + n - 1];
    assert s[..n][n - 1] == s[n - 1];
  }

  /** Dropping trailing space leaves the tokens before it. */
  lemma {:induction false} DropSpaceKeeps(c: string, w: string)
    requires AllSpace(w) && (c != "" ==> !IsSpace(c[|c| - 1])) && Whole(c + w)
    ensures Whole(c) && (TopLevel(c + w) ==> TopLevel(c))
    decreases |c|
  {
    if c != "" {
      var s := c + w;
      var t := NextToken(s);
      assert s[0] == c[0];
      if !t.open {
        if t.len > 1 { ClosedEndsSolid(s); }
        assert forall i :: |c| <= i < |s| ==> s[i] == w[i - |c|];
      }
      TokenInside(c, w);
      if !t.open {
        DropsInto(c, w, t.len);
        DropSpaceKeeps(c[t.len..], w);
      }
    }
  }

  lemma {:induction false} TrimRightSplits(s: string)
    ensures var c := TrimRight(s);
      |c| <= |s| && c == s[..|c|] && AllSpace(s[|c|..]) && (c != "" ==> !IsSpace(c[|c| - 1]))
  {
    if s != "" && IsSpace(s[|s| - 1]) {
      var r := s[..|s| - 1];
      TrimRightSplits(r);
      var c := TrimRight(r);
      assert s[|c|..] == r[|c|..] + [s[|s| - 1]];
    }
  }

  lemma {:induction false} TrimLeftStays(s: string, c: string)
    requires TrimLeft(s) == s && c <= s
    ensures TrimLeft(c) == c
  {
  }

  lemma {:induction false} TrimLeftIsFixed(s: string)
    ensures TrimLeft(TrimLeft(s)) == TrimLeft(s)
  {
    if s != "" && IsSpace(s[0]) { TrimLeftIsFixed(s[1..]); }
  }

  /** A statement's text trimmed is scanned as before and is its own statement. */
  lemma {:induction false} TrimKeeps(s: string)
    requires Whole(s)
    ensures Whole(Trim(s)) && (TopLevel(s) ==> TopLevel(Trim(s))) && Trim(Trim(s)) == Trim(s)
  {
    TrimLeftKeeps(s);
    TrimRightKeeps(TrimLeft(s));
    TrimIsFixed(s);
  }

  lemma {:induction false} TrimRightKeeps(l: string)
    requires Whole(l)
    ensures Whole(TrimRight(l)) && (TopLevel(l) ==> TopLevel(TrimRight(l)))
  {
    TrimRightSplits(l);
    PrefixKeeps(l, TrimRight(l), l[|TrimRight(l)|..]);
  }

  lemma {:induction false} PrefixKeeps(l: string, c: string, w: string)
    requires l == c + w && Whole(l) && AllSpace(w) && (c != "" ==> !IsSpace(c[|c| - 1]))
    ensures Whole(c) && (TopLevel(l) ==> TopLevel(c))
  {
    DropSpaceKeeps(c, w);
  }

  lemma {:induction false} TrimIsFixed(s: string)
    ensures Trim(Trim(s)) == Trim(s)
  {
    var l := TrimLeft(s);
    TrimRightSplits(l);
    TrimLeftIsFixed(s);
    TrimLeftStays(l, TrimRight(l));
  }

  /** A list of statements as the splitter produces it. */
  predicate Statements(ps: seq<string>) {
    && (forall i :: 0 <= i < |ps| ==> ps[i] != "" && Trim(ps[i]) == ps[i] && Whole(ps[i]))
    && (forall i :: 0 <= i < |ps| - 1 ==> TopLevel(ps[i]))
  }

  lemma {:induction false} CleanGivesStatements(s: string)
    requires CleanSeams(s)
    ensures Statements(Split(s))
    decreases |s|
  {
    assert "" + Text(s) == Text(s);
    SplitAtText(s, "");
    CleanTextIsReady(s);
    CleanAfterCut(s);
    FlushIsStatement(Text(s));
    if s != "" {
      CleanGivesStatements(AfterCut(s));
      NoCutNothingAfter(s);
      if HasCut(s) { PrependStatement(Flush(Text(s)), Split(AfterCut(s))); }
    }
  }

  lemma {:induction false} NoCutNothingAfter(s: string)
    ensures !HasCut(s) ==> Split(AfterCut(s)) == []
    decreases |s|
  {
    if s == "" { assert Trim("") == ""; } else if !HasCut(s) { NoCutNothingAfter(s[NextToken(s).len..]); }
  }

  lemma {:induction false} FlushIsStatement(x: string)
    requires Whole(x)
    ensures Statements(Flush(x)) && (TopLevel(x) ==> forall p :: p in Flush(x) ==> TopLevel(p))
  {
    TrimKeeps(x);
  }

  lemma {:induction false} PrependStatement(first: seq<string>, rest: seq<string>)
    requires |first| <= 1 && Statements(first) && Statements(rest)
    requires forall p :: p in first ==> TopLevel(p)
    ensures Statements(first + rest)
  {
  }

  function Join(ps: seq<string>): string {
    if ps == [] then "" else if |ps| == 1 then ps[0] else ps[0] + ";" + Join(ps[1..])
  }

  lemma {:induction false} WholeStep(p: string)
    requires p != "" && Whole(p)
    ensures NextToken(p).kind == Copy && Whole(p[NextToken(p).len..])
    ensures p == Copied(p) + p[NextToken(p).len..]
  {
  }

  lemma {:induction false} WholeText(p: string)
    requires Whole(p)
    ensures Text(p) == p && AfterCut(p) == ""
    decreases |p|
  {
    if p != "" {
      WholeStep(p);
      TextStep(p);
      WholeText(p[NextToken(p).len..]);
    }
  }

  lemma {:induction false} StatementIsItsSplit(p: string)
    requires Whole(p) && Trim(p) == p && p != ""
    ensures Split(p) == [p]
  {
    WholeText(p);
    SplitAtText(p, "");
    assert "" + p == p && Trim("") == "";
  }

  lemma {:induction false} JoinedSplitsBack(ps: seq<string>)
    requires Statements(ps)
    ensures Split(Join(ps)) == ps
  {
    if ps == [] {
      assert Trim("") == "";
    } else {
      StatementIsItsSplit(ps[0]);
      if |ps| > 1 {
        assert Statements(ps[1..]);
        JoinedSplitsBack(ps[1..]);
        SplitAtSeparator(ps[0], Join(ps[1..]));
        assert ps == [ps[0]] + ps[1..];
      }
    }
  }

  /** The characters of a list of statements, and one for each. */
  function Weight(ps: seq<string>): nat {
    if ps == [] then 0 else |ps[0]| + 1 + Weight(ps[1..])
  }

  lemma {:induction false} WeightConcat(a: seq<string>, b: seq<string>)
    ensures Weight(a + b) == Weight(a) + Weight(b)
  {
    if a == [] {
      assert a + b == b;
    } else {
      assert (a + b)[1..] == a[1..] + b;
      WeightConcat(a[1..], b);
    }
  }

  lemma {:induction false} JoinWeight(ps: seq<string>)
    requires ps != []
    ensures Weight(ps) == |Join(ps)| + 1
  {
    if |ps| > 1 { JoinWeight(ps[1..]); }
  }

  lemma {:induction false} FlushWeight(buf: string)
    ensures Weight(Flush(buf)) <= |buf| + 1
  {
    TrimRightSplits(TrimLeft(buf));
  }

  /** Splitting gains no characters, and loses some at every comment. */
  lemma {:induction false} SplitWeight(s: string, buf: string)
    ensures Weight(SplitFrom(s, buf)) <= |s| + |buf| + 1
    ensures !NoComment(s) ==> Weight(SplitFrom(s, buf)) <= |s| + |buf|
    decreases |s|
  {
    if s == "" {
      FlushWeight(buf);
    } else {
      var t := NextToken(s);
      SplitStep(s, buf, t);
      match t.kind
      case Skip => SplitWeight(s[t.len..], buf);
      case Copy => SplitWeight(s[t.len..], buf + s[..t.len]);
      case Cut =>
        FlushWeight(buf);
        SplitWeight(s[t.len..], "");
        WeightConcat(Flush(buf), SplitFrom(s[t.len..], ""));
    }
  }

  /** A list of statements survives joining and splitting exactly when each is
      trimmed and scanned as one statement, and all but the last end at top level. */
  lemma {:induction false} JoinedSplitsBackExactly(ps: seq<string>)
    ensures Split(Join(ps)) == ps <==> Statements(ps)
  {
    if Statements(ps) { JoinedSplitsBack(ps); }
    if Split(Join(ps)) == ps && ps != [] {
      JoinWeight(ps);
      SplitWeight(Join(ps), "");
      NoCommentIsClean(Join(ps));
      CleanGivesStatements(Join(ps));
    }
  }

  /** Joining the statements of a script and splitting again gives the same
      statements exactly when each is still one statement once its comments are
      gone; so it is where no dropped comment makes its neighbours into a new
      token, and where there are no comments. */
  lemma {:induction false} SplitJoinSplit(s: string)
    ensures Split(Join(Split(s))) == Split(s) <==> Statements(Split(s))
    ensures CleanSeams(s) ==> Split(Join(Split(s))) == Split(s)
    ensures NoComment(s) ==> CleanSeams(s)
  {
    JoinedSplitsBackExactly(Split(s));
    if CleanSeams(s) { CleanGivesStatements(s); }
    if NoComment(s) { NoCommentIsClean(s); }
  }

  lemma {:induction false} CopiesOne(c: char, rest: string, buf: string)
    requires c !in "'$;" && !StartsWith([c] + rest, "--") && !StartsWith([c] + rest, "/*")
    ensures SplitFrom([c] + rest, buf) == SplitFrom(rest, buf + [c])
  {
    var s := [c] + rest;
    assert NextToken(s) == Token(Copy, 1, false);
    SplitStep(s, buf, Token(Copy, 1, false));
    assert s[1..] == rest && s[..1] == [c];
  }

  lemma {:induction false} SkipsComment(buf: string)
    ensures SplitFrom("/**/-", buf) == SplitFrom("-", buf) && !NoComment("/**/-")
  {
    var s := "/**/-";
    assert s[2..] == "*/-" && "*/-"[..2] == "*/" && s[4..] == "-";
    assert NextToken(s) == Token(Skip, 4, false);
    SplitStep(s, buf, Token(Skip, 4, false));
  }

  lemma {:induction false} SkipsLine()
    ensures Split("--") == []
  {
    assert "--"[..1] == "-" && "--"[1..] == "-" && "-"[..1] == "-" && "-"[1..] == "";
    assert "-" != "\n" by { assert "-"[0] != "\n"[0]; }
    assert Find("-", "\n") == -1 && Find("--", "\n") == -1;
    assert NextToken("--") == Token(Skip, 2, true);
    SplitStep("--", "", Token(Skip, 2, true));
    assert "--"[2..] == "" && Trim("") == "";
  }

  lemma {:induction false} GluedText()
    ensures SplitFrom("-/**/-", "") == Flush("--")
  {
    SkipsComment("-");
    assert (['-'] + "/**/-")[..2] == "-/";
    CopiesOne('-', "/**/-", "");
    CopiesOne('-', "", "-");
    assert ['-'] + "/**/-" == "-/**/-" && "" + ['-'] == "-" && ['-'] + "" == "-" && "-" + ['-'] == "--";
  }

  lemma {:induction false} GluedComment()
    ensures !NoComment("-/**/-")
  {
    var s := "-/**/-";
    SkipsComment("");
    assert s[..2] == "-/" && s[1..] == "/**/-";
    assert NextToken(s).len == 1;
  }

  /** With comments it need not be: a dropped comment leaves no space, so its
      neighbours can form a new token. */
  lemma {:induction false} CommentsGlueTokens()
    ensures !NoComment("-/**/-") && Split("-/**/-") == ["--"] && Split(Join(["--"])) == []
  {
    GluedComment();
    GluedText();
    SkipsLine();
    DashesStay();
  }

  lemma {:induction false} DashesStay()
    ensures Flush("--") == ["--"]
  {
    assert Trim("--") == "--";
  }
}
