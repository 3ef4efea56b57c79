/**
 * toSet of server/main.go: the in-place, order-preserving removal of
 * repeated policy names from a slice, and what it computes.
 */
module StringSet {

  /** No string occurs twice. */
  predicate NoDuplicates(s: seq<string>) {
    forall i, j :: 0 <= i < j < |s| ==> s[i] != s[j]
  }

  /** The position of the first occurrence of `x` in `s`. */
  function FirstIndex(s: seq<string>, x: string): (i: nat)
    requires x in s
    ensures i < |s| && s[i] == x && x !in s[..i]
  {
    if s[0] == x then 0
    else
      var i := FirstIndex(s[1..], x);
      assert s[..i + 1] == [s[0]] + s[1..][..i];
      i + 1
  }

  /** Any position holding `x` with no `x` before it is the first index. */
  lemma FirstIndexUnique(s: seq<string>, x: string, i: nat)
    requires i < |s| && s[i] == x && x !in s[..i]
    ensures FirstIndex(s, x) == i
  {
  }

  /** Appending leaves the first index of an element already present unchanged. */
  lemma FirstIndexExtend(s: seq<string>, y: string, x: string)
    requires x in s
    ensures FirstIndex(s + [y], x) == FirstIndex(s, x)
  {
    var f := FirstIndex(s, x);
    assert (s + [y])[..f] == s[..f];
    FirstIndexUnique(s + [y], x, f);
  }

  /**
   * The strings of `s` at their first occurrences, in their original order:
   * an element is kept exactly when it does not occur earlier. Nothing is
   * added or lost, and the result is no longer than `s`.
   */
  function FirstOccurrences(s: seq<string>): (r: seq<string>)
    ensures |r| <= |s|
    ensures forall x :: x in r <==> x in s
  {
    if s == [] then []
    else
      var prefix := s[..|s| - 1];
      var last := s[|s| - 1];
      assert s == prefix + [last];
      if last in prefix then FirstOccurrences(prefix) else FirstOccurrences(prefix) + [last]
  }

  /** One step of the de-duplication: a new string is appended, a repeated one dropped. */
  lemma FirstOccurrencesSnoc(s: seq<string>, x: string)
    ensures FirstOccurrences(s + [x]) == if x in s then FirstOccurrences(s) else FirstOccurrences(s) + [x]
  {
    assert (s + [x])[..|s|] == s;
  }

  /** After the de-duplication no string occurs twice. */
  lemma {:induction false} FirstOccurrencesNoDuplicates(s: seq<string>)
    ensures NoDuplicates(FirstOccurrences(s))
  {
    if s != [] {
      FirstOccurrencesNoDuplicates(s[..|s| - 1]);
    }
  }

  /** The kept strings appear in the order of their first occurrences in `s`. */
  lemma {:induction false} FirstOccurrencesOrdered(s: seq<string>)
    ensures var r := FirstOccurrences(s);
      forall i, j :: 0 <= i < j < |r| ==> FirstIndex(s, r[i]) < FirstIndex(s, r[j])
  {
    if s != [] {
      var prefix := s[..|s| - 1];
      var last := s[|s| - 1];
      assert s == prefix + [last];
      FirstOccurrencesOrdered(prefix);
      FirstOccurrencesSnoc(prefix, last);
      var r := FirstOccurrences(s);
      var rp := FirstOccurrences(prefix);
      forall i, j | 0 <= i < j < |r| ensures FirstIndex(s, r[i]) < FirstIndex(s, r[j]) {
        assert r[i] == rp[i] && rp[i] in rp;
        FirstIndexExtend(prefix, last, rp[i]);
        if j < |rp| {
          assert r[j] == rp[j] && rp[j] in rp;
          FirstIndexExtend(prefix, last, rp[j]);
        } else {
          FirstIndexUnique(s, last, |prefix|);
        }
      }
    }
  }

  /** A slice that is already duplicate-free is left unchanged. */
  lemma {:induction false} FirstOccurrencesOfDistinct(s: seq<string>)
    requires NoDuplicates(s)
    ensures FirstOccurrences(s) == s
  {
    if s != [] {
      var prefix := s[..|s| - 1];
      FirstOccurrencesOfDistinct(prefix);
      assert s == prefix + [s[|s| - 1]];
    }
  }

  /** De-duplicating twice is de-duplicating once. */
  lemma FirstOccurrencesIdempotent(s: seq<string>)
    ensures FirstOccurrences(FirstOccurrences(s)) == FirstOccurrences(s)
  {
    FirstOccurrencesNoDuplicates(s);
    FirstOccurrencesOfDistinct(FirstOccurrences(s));
  }

  /**
   * De-duplicating a longer slice keeps the de-duplicated shorter one in
   * front: what `a` contributes comes before what only `b` adds.
   */
  lemma {:induction false} FirstOccurrencesAppend(a: seq<string>, b: seq<string>)
    ensures FirstOccurrences(a) <= FirstOccurrences(a + b)
    decreases |b|
  {
    if b != [] {
      var b' := b[..|b| - 1];
      FirstOccurrencesAppend(a, b');
      assert (a + b)[..|a + b| - 1] == a + b';
    } else {
      assert a + b == a;
    }
  }

  /**
   * toSet: compacts `a` in place, keeping the first occurrence of every
   * string in order, and returns the new length `w`; the caller re-slices
   * to `a[..w]`. Writes go to the index `w`, which never passes the read
   * index, so no unread element is overwritten.
   */
  method ToSet(a: array<string>) returns (w: nat)
    modifies a
    ensures w <= a.Length
    ensures a[..w] == FirstOccurrences(old(a[..]))
  {
    ghost var original := a[..];
    var processed: set<string> := {};
    w := 0;
    for i := 0 to a.Length
      invariant w <= i
      invariant a[..w] == FirstOccurrences(original[..i])
      invariant forall x :: x in processed <==> x in original[..i]
      invariant a[i..] == original[i..]
    {
      var s := a[i];
      assert original[..i + 1] == original[..i] + [s];
      FirstOccurrencesSnoc(original[..i], s);
      if s !in processed {
        processed := processed + {s};
        a[w] := s;
        w := w + 1;
      }
    }
    assert original[..a.Length] == original;
  }
}
