/** Sequences cut into pieces: each piece stands for a stretch of the source and has to fit what follows it. */
module Scans {
  /** The pieces, one after the other, are exactly the first `i` elements of the source, and each fits. */
  ghost predicate Scanned<T, P>(src: seq<T>, ps: seq<P>, i: nat, text: P -> seq<T>, fits: (P, seq<T>) -> bool)
    decreases |ps|
  {
    i <= |src| &&
    if ps == [] then i == 0
    else
      var last := ps[|ps| - 1];
      && 0 < |text(last)| <= i
      && src[i - |text(last)|..i] == text(last)
      && fits(last, src[i..])
      && Scanned(src, ps[..|ps| - 1], i - |text(last)|, text, fits)
  }

  function Texts<T, P>(ps: seq<P>, text: P -> seq<T>): seq<T> {
    if ps == [] then [] else Texts(ps[..|ps| - 1], text) + text(ps[|ps| - 1])
  }

  /** What a source starts with decides its first piece. */
  ghost predicate Deterministic<T(!new), P(!new)>(text: P -> seq<T>, fits: (P, seq<T>) -> bool) {
    forall a, b, restA, restB ::
      fits(a, restA) && fits(b, restB) && text(a) != [] && text(b) != [] && text(a) + restA == text(b) + restB ==>
        a == b
  }

  /** One more piece. */
  lemma ScannedSnoc<T, P>(src: seq<T>, ps: seq<P>, i: nat, p: P, text: P -> seq<T>, fits: (P, seq<T>) -> bool)
    requires Scanned(src, ps, i, text, fits) && i + |text(p)| <= |src|
    requires text(p) != [] && src[i..i + |text(p)|] == text(p) && fits(p, src[i + |text(p)|..])
    ensures Scanned(src, ps + [p], i + |text(p)|, text, fits)
  {
    assert (ps + [p])[..|ps|] == ps;
  }

  /** Nothing of the source is lost, added or moved. */
  lemma {:induction false} Partition<T, P>(src: seq<T>, ps: seq<P>, i: nat,
                                           text: P -> seq<T>, fits: (P, seq<T>) -> bool)
    requires Scanned(src, ps, i, text, fits)
    ensures Texts(ps, text) == src[..i]
    decreases |ps|
  {
    if ps != [] {
      var k := i - |text(ps[|ps| - 1])|;
      Partition(src, ps[..|ps| - 1], k, text, fits);
      assert src[..k] + src[k..i] == src[..i];
    }
  }

  lemma LastIsSame<T(!new), P(!new)>(src: seq<T>, p: nat, x: P, y: P, i: nat, j: nat,
                                     text: P -> seq<T>, fits: (P, seq<T>) -> bool)
    requires Deterministic(text, fits) && p < i <= |src| && p < j <= |src|
    requires src[p..i] == text(x) && src[p..j] == text(y) && fits(x, src[i..]) && fits(y, src[j..])
    ensures x == y && i == j
  {
    assert text(x) + src[i..] == src[p..] == text(y) + src[j..];
    assert |text(x)| == i - p && |text(y)| == j - p;
  }

  lemma {:induction false} SameLength<T(!new), P(!new)>(src: seq<T>, a: seq<P>, b: seq<P>, i: nat, j: nat,
                                                        text: P -> seq<T>, fits: (P, seq<T>) -> bool)
    requires Deterministic(text, fits)
    requires Scanned(src, a, i, text, fits) && Scanned(src, b, j, text, fits) && |a| == |b|
    ensures a == b && i == j
    decreases |a|
  {
    hide Deterministic;
    if a != [] {
      var x, y := a[|a| - 1], b[|b| - 1];
      SameLength(src, a[..|a| - 1], b[..|b| - 1], i - |text(x)|, j - |text(y)|, text, fits);
      LastIsSame(src, i - |text(x)|, x, y, i, j, text, fits);
      assert a == a[..|a| - 1] + [x] && b == b[..|b| - 1] + [y];
    }
  }

  lemma {:induction false} ScannedPrefix<T, P>(src: seq<T>, ps: seq<P>, i: nat, n: nat,
                                               text: P -> seq<T>, fits: (P, seq<T>) -> bool)
      returns (j: nat)
    requires Scanned(src, ps, i, text, fits) && n <= |ps|
    ensures Scanned(src, ps[..n], j, text, fits) && (n < |ps| ==> j < i) && (n == |ps| ==> j == i)
    decreases |ps|
  {
    j := i;
    if n < |ps| {
      var last := ps[|ps| - 1];
      j := ScannedPrefix(src, ps[..|ps| - 1], i - |text(last)|, n, text, fits);
      assert ps[..|ps| - 1][..n] == ps[..n];
    } else {
      assert ps[..n] == ps;
    }
  }

  lemma NotMore<T(!new), P(!new)>(src: seq<T>, a: seq<P>, b: seq<P>, text: P -> seq<T>, fits: (P, seq<T>) -> bool)
    requires Deterministic(text, fits)
    requires Scanned(src, a, |src|, text, fits) && Scanned(src, b, |src|, text, fits)
    ensures |a| <= |b|
  {
    hide Scanned, Deterministic;
    if |b| < |a| {
      var j := ScannedPrefix(src, a, |src|, |b|, text, fits);
      SameLength(src, a[..|b|], b, j, |src|, text, fits);
      assert false;
    }
  }

  /** A source can be cut in at most one way. */
  lemma Unique<T(!new), P(!new)>(src: seq<T>, a: seq<P>, b: seq<P>, text: P -> seq<T>, fits: (P, seq<T>) -> bool)
    requires Deterministic(text, fits)
    requires Scanned(src, a, |src|, text, fits) && Scanned(src, b, |src|, text, fits)
    ensures a == b
  {
    hide Scanned, Deterministic;
    NotMore(src, a, b, text, fits);
    NotMore(src, b, a, text, fits);
    SameLength(src, a, b, |src|, |src|, text, fits);
  }
}
