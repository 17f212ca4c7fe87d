/** A model of the parts of Go's `strings` package that the proxy's sniffer
    relies on: `strings.Index`, `strings.Split` (with a non-empty separator)
    and `strings.Join`. Bytes and characters are one type here: `string`. */
module GoStrings {

  /** True when `sep` occurs in `s` starting at position `k`. */
  predicate OccursAt(s: string, sep: string, k: nat) {
    k + |sep| <= |s| && s[k..k + |sep|] == sep
  }

  /** `strings.Index`: the position of the first occurrence of `sep` in `s`,
      or -1 when there is none. */
  function Index(s: string, sep: string): (k: int)
    requires |sep| > 0
    ensures k == -1 || 0 <= k
    ensures k == -1 ==> forall j: nat :: !OccursAt(s, sep, j)
    ensures 0 <= k ==> OccursAt(s, sep, k) && forall j: nat :: j < k ==> !OccursAt(s, sep, j)
    decreases |s|
  {
    if |s| < |sep| then -1
    else if s[..|sep|] == sep then 0
    else
      var k := Index(s[1..], sep);
      OccursAtTail(s, sep);
      if k == -1 then -1 else k + 1
  }

  /** Occurrences in `s[1..]` are the occurrences in `s` shifted by one. */
  lemma OccursAtTail(s: string, sep: string)
    requires |s| > 0
    ensures forall j: nat :: 1 <= j ==> (OccursAt(s, sep, j) <==> OccursAt(s[1..], sep, j - 1))
    ensures OccursAt(s, sep, 0) <==> |sep| <= |s| && s[..|sep|] == sep
  {
    forall j: nat | 1 <= j
      ensures OccursAt(s, sep, j) <==> OccursAt(s[1..], sep, j - 1)
    {
      if j + |sep| <= |s| {
        assert s[1..][j - 1..j - 1 + |sep|] == s[j..j + |sep|];
      }
    }
  }

  /** An occurrence that lies inside `a` is an occurrence in `a + b`, and back. */
  lemma OccursAtPrefix(a: string, b: string, sep: string, j: nat)
    requires j + |sep| <= |a|
    ensures OccursAt(a + b, sep, j) <==> OccursAt(a, sep, j)
  {
    assert (a + b)[j..j + |sep|] == a[j..j + |sep|];
  }

  /** Appending text never moves the first occurrence already found. */
  lemma IndexExtend(a: string, b: string, sep: string)
    requires |sep| > 0 && Index(a, sep) >= 0
    ensures Index(a + b, sep) == Index(a, sep)
  {
    var k := Index(a, sep);
    OccursAtPrefix(a, b, sep, k);
    forall j: nat | j < k
      ensures !OccursAt(a + b, sep, j)
    {
      OccursAtPrefix(a, b, sep, j);
    }
  }

  /** Cutting text after the first occurrence does not move it either. */
  lemma IndexTruncate(s: string, sep: string, m: nat)
    requires |sep| > 0 && Index(s, sep) >= 0
    requires Index(s, sep) + |sep| <= m <= |s|
    ensures Index(s[..m], sep) == Index(s, sep)
  {
    assert s == s[..m] + s[m..];
    var k := Index(s, sep);
    OccursAtPrefix(s[..m], s[m..], sep, k);
    forall j: nat | j < k
      ensures !OccursAt(s[..m], sep, j)
    {
      OccursAtPrefix(s[..m], s[m..], sep, j);
    }
  }

  /** A separator with a character that `s` lacks does not occur in `s`. */
  lemma IndexMissingChar(s: string, sep: string, i: nat)
    requires i < |sep| && sep[i] !in s
    ensures Index(s, sep) == -1
  {
    forall j: nat
      ensures !OccursAt(s, sep, j)
    {
      if j + |sep| <= |s| {
        assert s[j..j + |sep|][i] == s[j + i];
      }
    }
  }

  /** When `a` lacks the separator's first character, the first occurrence of
      `sep` in `a + sep` is the appended one. */
  lemma IndexAfterMissingChar(a: string, sep: string)
    requires |sep| > 0 && sep[0] !in a
    ensures Index(a + sep, sep) == |a|
  {
    var s := a + sep;
    assert s[|a|..|a| + |sep|] == sep;
    assert OccursAt(s, sep, |a|);
    forall j: nat | j < |a|
      ensures !OccursAt(s, sep, j)
    {
      assert s[j] == a[j];
      if j + |sep| <= |s| {
        assert s[j..j + |sep|][0] == s[j];
      }
    }
    var k := Index(s, sep);
    assert k != -1;
    assert !(k < |a|);
    assert !(k > |a|);
  }

  /** `strings.Join`. */
  function Join(parts: seq<string>, sep: string): string
  {
    if |parts| == 0 then ""
    else if |parts| == 1 then parts[0]
    else parts[0] + sep + Join(parts[1..], sep)
  }

  /** `strings.Split` with a non-empty separator: the pieces between the
      successive left-most, non-overlapping occurrences of `sep`. Joining the
      pieces back with `sep` gives `s` again. */
  function Split(s: string, sep: string): (parts: seq<string>)
    requires |sep| > 0
    ensures |parts| >= 1
    ensures Join(parts, sep) == s
    decreases |s|
  {
    var k := Index(s, sep);
    if k == -1 then [s]
    else
      var rest := Split(s[k + |sep|..], sep);
      assert ([s[..k]] + rest)[1..] == rest;
      assert s == s[..k] + sep + s[k + |sep|..];
      [s[..k]] + rest
  }

  /** The sequences of pieces that `Split` can produce: every piece but the
      last is followed by the first occurrence of `sep`, and the last piece
      contains no occurrence at all. */
  predicate Canonical(parts: seq<string>, sep: string)
    requires |sep| > 0
    decreases |parts|
  {
    |parts| >= 1 &&
    if |parts| == 1 then Index(parts[0], sep) == -1
    else Index(parts[0] + sep, sep) == |parts[0]| && Canonical(parts[1..], sep)
  }

  /** Every result of `Split` is canonical. */
  lemma {:induction false} SplitCanonical(s: string, sep: string)
    requires |sep| > 0
    ensures Canonical(Split(s, sep), sep)
    decreases |s|
  {
    var k := Index(s, sep);
    if k != -1 {
      var rest := Split(s[k + |sep|..], sep);
      var parts := [s[..k]] + rest;
      assert Split(s, sep) == parts;
      assert parts[0] == s[..k] && parts[1..] == rest;
      SplitCanonical(s[k + |sep|..], sep);
      assert s[..k] + sep == s[..k + |sep|];
      IndexTruncate(s, sep, k + |sep|);
      assert Index(parts[0] + sep, sep) == |parts[0]|;
    }
  }

  /** Splitting a join of canonical pieces gives the pieces back: together
      with `Split`'s own contract, `Split` and `Join` are inverse bijections
      between strings and canonical piece sequences. */
  lemma {:induction false} SplitJoin(parts: seq<string>, sep: string)
    requires |sep| > 0 && Canonical(parts, sep)
    ensures Split(Join(parts, sep), sep) == parts
    decreases |parts|
  {
    if |parts| > 1 {
      var tail := Join(parts[1..], sep);
      var s := Join(parts, sep);
      var k := |parts[0]|;
      assert s == (parts[0] + sep) + tail;
      IndexExtend(parts[0] + sep, tail, sep);
      assert Index(s, sep) == k;
      assert s[..k] == parts[0];
      assert s[k + |sep|..] == tail;
      assert Split(s, sep) == [parts[0]] + Split(tail, sep);
      SplitJoin(parts[1..], sep);
      assert parts == [parts[0]] + parts[1..];
    }
  }

  /** No piece of a canonical sequence contains the separator. */
  lemma {:induction false} CanonicalPieceFree(parts: seq<string>, sep: string, i: nat)
    requires |sep| > 0 && Canonical(parts, sep) && i < |parts|
    ensures Index(parts[i], sep) == -1
    decreases i
  {
    if i > 0 {
      CanonicalPieceFree(parts[1..], sep, i - 1);
    } else if |parts| > 1 {
      var p := parts[0];
      forall j: nat
        ensures !OccursAt(p, sep, j)
      {
        if j + |sep| <= |p| {
          OccursAtPrefix(p, sep, sep, j);
        }
      }
    }
  }

  /** Every piece `Split` returns is free of the separator. */
  lemma SplitPieceFree(s: string, sep: string, i: nat)
    requires |sep| > 0 && i < |Split(s, sep)|
    ensures Index(Split(s, sep)[i], sep) == -1
  {
    SplitCanonical(s, sep);
    CanonicalPieceFree(Split(s, sep), sep, i);
  }
}
