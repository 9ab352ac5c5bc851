/** The canonical order of an archive manifest (internal/ops/inline.go): when is
    one set of elements always serialised to the same bytes? */
module Manifest {
  import opened Collector

  datatype Element = Element(id: string, kind: string, flavor: string, mimetype: string, sha: Digest, sizeBytes: int, tags: seq<string>)

  /** String order, element by element. */
  predicate Below(a: string, b: string) {
    b != [] && (a == [] || a[0] < b[0] || (a[0] == b[0] && Below(a[1..], b[1..])))
  }

  lemma {:induction false} Irreflexive(a: string)
    ensures !Below(a, a)
  {
    if a != [] { Irreflexive(a[1..]); }
  }

  lemma {:induction false} Trichotomy(a: string, b: string)
    ensures a == b || Below(a, b) || Below(b, a)
    ensures !(Below(a, b) && Below(b, a))
    ensures !Below(a, a)
  {
    if a != [] && b != [] && a[0] == b[0] {
      Trichotomy(a[1..], b[1..]);
      assert a == [a[0]] + a[1..] && b == [b[0]] + b[1..];
    }
    Irreflexive(a);
  }

  lemma {:induction false} BelowTransitive(a: string, b: string, c: string)
    requires Below(a, b) && Below(b, c)
    ensures Below(a, c)
  {
    if a != [] && a[0] == b[0] == c[0] { BelowTransitive(a[1..], b[1..], c[1..]); }
  }

  /** The comparison: kind, then flavor, then id. */
  predicate Less(a: Element, b: Element) {
    if a.kind != b.kind then Below(a.kind, b.kind)
    else if a.flavor != b.flavor then Below(a.flavor, b.flavor)
    else Below(a.id, b.id)
  }

  /** The order of two strings is that of the first characters in which they differ,
      and a proper prefix comes first. */
  lemma {:induction false} BelowExactly(a: string, b: string)
    ensures Below(a, b) <==> exists k: nat :: DifferAt(a, b, k)
  {
    if a != [] && b != [] && a[0] == b[0] {
      BelowExactly(a[1..], b[1..]);
      if k: nat :| DifferAt(a[1..], b[1..], k) {
        assert a[..k + 1] == [a[0]] + a[1..][..k] && b[..k + 1] == [b[0]] + b[1..][..k];
        assert DifferAt(a, b, k + 1);
      }
      if k: nat :| DifferAt(a, b, k) {
        assert k > 0;
        assert a[1..][..k - 1] == a[..k][1..] && b[1..][..k - 1] == b[..k][1..];
        assert DifferAt(a[1..], b[1..], k - 1);
      }
    } else if b != [] {
      assert Below(a, b) ==> DifferAt(a, b, 0);
    }
  }

  /** `a` and `b` agree on k characters, and there `a` ends or has the smaller one. */
  predicate DifferAt(a: string, b: string, k: nat) {
    k <= |a| && k < |b| && a[..k] == b[..k] && (k == |a| || a[k] < b[k])
  }

  /** The kind decides, then the flavor, then the id. */
  lemma {:induction false} LessExactly(a: Element, b: Element)
    ensures Less(a, b) <==>
      || Below(a.kind, b.kind)
      || (a.kind == b.kind && Below(a.flavor, b.flavor))
      || (a.kind == b.kind && a.flavor == b.flavor && Below(a.id, b.id))
  {
    Irreflexive(a.kind);
    Irreflexive(a.flavor);
  }

  predicate SameKey(a: Element, b: Element) {
    a.kind == b.kind && a.flavor == b.flavor && a.id == b.id
  }

  lemma {:induction false} LessIsTotal(a: Element, b: Element)
    ensures SameKey(a, b) || Less(a, b) || Less(b, a)
    ensures !(Less(a, b) && Less(b, a))
    ensures SameKey(a, b) ==> !Less(a, b)
  {
    Trichotomy(a.kind, b.kind);
    Trichotomy(a.flavor, b.flavor);
    Trichotomy(a.id, b.id);
  }

  lemma {:induction false} LessTransitive(a: Element, b: Element, c: Element)
    requires Less(a, b) && Less(b, c)
    ensures Less(a, c)
  {
    if Below(a.kind, b.kind) && Below(b.kind, c.kind) { BelowTransitive(a.kind, b.kind, c.kind); }
    if Below(a.flavor, b.flavor) && Below(b.flavor, c.flavor) { BelowTransitive(a.flavor, b.flavor, c.flavor); }
    if Below(a.id, b.id) && Below(b.id, c.id) { BelowTransitive(a.id, b.id, c.id); }
    Trichotomy(a.kind, c.kind);
    Trichotomy(a.flavor, c.flavor);
    Trichotomy(a.kind, b.kind);
    Trichotomy(a.flavor, b.flavor);
  }

  /** Not above is transitive as well. */
  lemma {:induction false} NotLessTransitive(a: Element, b: Element, c: Element)
    requires !Less(b, a) && !Less(c, b)
    ensures !Less(c, a)
  {
    LessIsTotal(a, b);
    LessIsTotal(b, c);
    if Less(c, a) {
      if Less(a, b) { LessTransitive(c, a, b); }
    }
  }

  predicate Sorted(s: seq<Element>) {
    forall i, j :: 0 <= i < j < |s| ==> !Less(s[j], s[i])
  }

  predicate Placed(s: seq<Element>, n: nat) {
    forall p, q :: 0 <= p < n && p < q < |s| ==> !Less(s[q], s[p])
  }

  function Swap(s: seq<Element>, i: nat, m: nat): seq<Element>
    requires i < |s| && m < |s|
  {
    s[i := s[m]][m := s[i]]
  }

  lemma {:induction false} SwapPlaces(s: seq<Element>, i: nat, m: nat)
    requires Placed(s, i) && i <= m < |s| && forall q :: i <= q < |s| ==> !Less(s[q], s[m])
    ensures Placed(Swap(s, i, m), i + 1) && multiset(Swap(s, i, m)) == multiset(s)
  {
    var t := Swap(s, i, m);
    forall p, q | 0 <= p < i + 1 && p < q < |t| ensures !Less(t[q], t[p]) {
      var source := if q == m then i else if q == i then m else q;
      assert t[q] == s[source] && source >= p;
      if p < i { assert t[p] == s[p]; }
    }
  }

  /** Sorts the elements in place. */
  method Canonical(a: array<Element>)
    modifies a
    ensures Sorted(a[..]) && multiset(a[..]) == multiset(old(a[..]))
  {
    for i := 0 to a.Length
      invariant multiset(a[..]) == multiset(old(a[..])) && Placed(a[..], i)
    {
      var m := Least(a, i);
      SwapPlaces(a[..], i, m);
      ghost var swapped := Swap(a[..], i, m);
      a[i], a[m] := a[m], a[i];
      assert a[..] == swapped;
    }
  }

  method Least(a: array<Element>, i: nat) returns (m: nat)
    requires i < a.Length
    ensures i <= m < a.Length && forall q :: i <= q < a.Length ==> !Less(a[q], a[m])
  {
    m := i;
    LessIsTotal(a[i], a[i]);
    for k := i + 1 to a.Length
      invariant i <= m < k
      invariant forall q :: i <= q < k ==> !Less(a[q], a[m])
    {
      LessIsTotal(a[k], a[m]);
      LessIsTotal(a[k], a[k]);
      if Less(a[k], a[m]) {
        forall q | i <= q < k ensures !Less(a[q], a[k]) { NotLessTransitive(a[k], a[m], a[q]); }
        m := k;
      }
    }
  }

  /** Elements that compare equal are equal: one id per kind and flavor suffices. */
  predicate KeysIdentify(s: seq<Element>) {
    forall i, j :: 0 <= i < |s| && 0 <= j < |s| && SameKey(s[i], s[j]) ==> s[i] == s[j]
  }

  lemma {:induction false} SameHead(s: seq<Element>, t: seq<Element>)
    requires Sorted(s) && Sorted(t) && multiset(s) == multiset(t) && KeysIdentify(s) && s != [] && t != []
    ensures s[0] == t[0]
  {
    assert t[0] in multiset(t) && s[0] in multiset(s);
    assert t[0] in s && s[0] in t;
    var i :| 0 <= i < |s| && s[i] == t[0];
    var j :| 0 <= j < |t| && t[j] == s[0];
    LessIsTotal(s[0], t[0]);
    LessIsTotal(s[0], s[0]);
    assert !Less(s[i], s[0]) && !Less(t[j], t[0]);
    assert SameKey(s[0], s[i]);
  }

  lemma {:induction false} TailMultiset(s: seq<Element>)
    requires s != []
    ensures multiset(s[1..]) == multiset(s) - multiset{s[0]}
  {
    assert s == [s[0]] + s[1..];
  }

  lemma {:induction false} SortedIsUnique(s: seq<Element>, t: seq<Element>)
    requires Sorted(s) && Sorted(t) && multiset(s) == multiset(t) && KeysIdentify(s)
    ensures s == t
    decreases |s|
  {
    assert |s| == |multiset(s)| && |t| == |multiset(t)|;
    if s != [] {
      SameHead(s, t);
      TailMultiset(s);
      TailMultiset(t);
      SortedIsUnique(s[1..], t[1..]);
      assert s == [s[0]] + s[1..] && t == [t[0]] + t[1..];
    }
  }

  lemma {:induction false} SwappedIsSorted(s: seq<Element>, i: nat, j: nat)
    requires i < |s| && j < |s| && Sorted(s) && SameKey(s[i], s[j]) && s[i] != s[j]
    ensures var t := s[i := s[j]][j := s[i]]; Sorted(t) && multiset(t) == multiset(s) && t != s
  {
    var t := s[i := s[j]][j := s[i]];
    assert forall k :: 0 <= k < |s| ==> SameKey(t[k], s[k]);
    assert t[i] == s[j];
  }

  /** An ordering that is not stable still gives one result for each set of
      elements exactly when equal keys mean equal elements. */
  lemma {:induction false} CanonicalExactly(s: seq<Element>)
    requires Sorted(s)
    ensures (forall t :: Sorted(t) && multiset(t) == multiset(s) ==> t == s) <==> KeysIdentify(s)
  {
    if KeysIdentify(s) {
      forall t | Sorted(t) && multiset(t) == multiset(s) ensures t == s { SortedIsUnique(s, t); }
    } else {
      var i, j :| 0 <= i < |s| && 0 <= j < |s| && SameKey(s[i], s[j]) && s[i] != s[j];
      SwappedIsSorted(s, i, j);
    }
  }
}
