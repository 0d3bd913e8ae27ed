// Occurrence counting of a non-empty word in one line of bytes, as
// `bytes.Count(line, word)` does it: the scan runs left to right and, after
// every match, resumes just past the matched bytes, so matches never overlap.

module ByteCount {

  /** One byte of a Go `[]byte`. */
  newtype byte = b: int | 0 <= b < 0x100

  /** `w` occurs in `s` starting at position `p`. */
  predicate OccursAt(s: seq<byte>, w: seq<byte>, p: int)
  {
    0 <= p && p + |w| <= |s| && s[p..p + |w|] == w
  }

  /** `ps` lists occurrences of `w` in `s`, in increasing order, no two of them sharing a byte. */
  predicate NonOverlapping(s: seq<byte>, w: seq<byte>, ps: seq<int>)
  {
    (forall i :: 0 <= i < |ps| ==> OccursAt(s, w, ps[i])) &&
    (forall i, j :: 0 <= i < j < |ps| ==> ps[i] + |w| <= ps[j])
  }

  /** `p` is the first occurrence of `w` in `s` at or after position `from`. */
  predicate FirstFrom(s: seq<byte>, w: seq<byte>, from: int, p: int)
  {
    from <= p && OccursAt(s, w, p) && forall q :: from <= q < p ==> !OccursAt(s, w, q)
  }

  /** No occurrence of `w` in `s` starts at or after position `from`. */
  ghost predicate NoneFrom(s: seq<byte>, w: seq<byte>, from: int)
  {
    forall q :: from <= q ==> !OccursAt(s, w, q)
  }

  /**
    * `ps` is the left-to-right greedy scan of `s` from position `from`: its
    * first match is the first occurrence at or after `from`, the rest is the
    * greedy scan from just past that match, and when `ps` is empty nothing
    * occurs any more.
    */
  ghost predicate GreedyFrom(s: seq<byte>, w: seq<byte>, from: int, ps: seq<int>)
    decreases |ps|
  {
    if ps == [] then NoneFrom(s, w, from)
    else FirstFrom(s, w, from, ps[0]) && GreedyFrom(s, w, ps[0] + |w|, ps[1..])
  }

  /** The number of non-overlapping occurrences of `w` in `s`, found left to right. */
  function Count(s: seq<byte>, w: seq<byte>): (n: nat)
    requires |w| > 0
    ensures |w| * n <= |s|
    decreases |s|
  {
    if |s| < |w| then 0
    else if s[..|w|] == w then 1 + Count(s[|w|..], w)
    else Count(s[1..], w)
  }

  /** Adds `d` to every position of `ps`. */
  function Shift(ps: seq<int>, d: int): (r: seq<int>)
    ensures |r| == |ps|
    ensures forall i :: 0 <= i < |ps| ==> r[i] == ps[i] + d
  {
    seq(|ps|, i requires 0 <= i < |ps| => ps[i] + d)
  }

  /** The positions at which the left-to-right scan of `Count` finds its matches. */
  function GreedyMatches(s: seq<byte>, w: seq<byte>): seq<int>
    requires |w| > 0
    decreases |s|
  {
    if |s| < |w| then []
    else if s[..|w|] == w then [0] + Shift(GreedyMatches(s[|w|..], w), |w|)
    else Shift(GreedyMatches(s[1..], w), 1)
  }

  /** Occurrences in a suffix are occurrences in the whole, shifted by the suffix's start. */
  lemma OccursInSuffix(s: seq<byte>, w: seq<byte>, d: nat, q: int)
    requires d <= |s|
    ensures OccursAt(s[d..], w, q) <==> (q >= 0 && OccursAt(s, w, q + d))
  {
    if q >= 0 && q + |w| <= |s| - d {
      assert s[d..][q..q + |w|] == s[q + d..q + d + |w|];
    }
  }

  /** A greedy scan of a suffix, shifted back into place, is a greedy scan of the whole. */
  lemma {:induction false} GreedyShift(s: seq<byte>, w: seq<byte>, d: nat, from: int, rs: seq<int>)
    requires d <= |s| && 0 <= from && GreedyFrom(s[d..], w, from, rs)
    ensures GreedyFrom(s, w, from + d, Shift(rs, d))
    decreases |rs|
  {
    var ps := Shift(rs, d);
    if rs == [] {
      NoneFromShift(s, w, d, from);
    } else {
      FirstFromShift(s, w, d, from, rs[0]);
      GreedyShift(s, w, d, rs[0] + |w|, rs[1..]);
      assert ps[1..] == Shift(rs[1..], d);
    }
  }

  /** Nothing occurring in a suffix from `from` means nothing occurs in the whole from `from + d`. */
  lemma NoneFromShift(s: seq<byte>, w: seq<byte>, d: nat, from: int)
    requires d <= |s| && 0 <= from && NoneFrom(s[d..], w, from)
    ensures NoneFrom(s, w, from + d)
  {
    forall q | from + d <= q ensures !OccursAt(s, w, q) {
      assert !OccursAt(s[d..], w, q - d);
      OccursInSuffix(s, w, d, q - d);
    }
  }

  /** The first occurrence in a suffix, shifted back, is the first one in the whole. */
  lemma FirstFromShift(s: seq<byte>, w: seq<byte>, d: nat, from: int, p: int)
    requires d <= |s| && 0 <= from && FirstFrom(s[d..], w, from, p)
    ensures FirstFrom(s, w, from + d, p + d)
  {
    OccursInSuffix(s, w, d, p);
    forall q | from + d <= q < p + d ensures !OccursAt(s, w, q) {
      assert !OccursAt(s[d..], w, q - d);
      OccursInSuffix(s, w, d, q - d);
    }
  }

  /** The greedy scan finds exactly `Count` matches, and they are the leftmost-first ones. */
  lemma {:induction false} GreedyMatchesAreGreedy(s: seq<byte>, w: seq<byte>)
    requires |w| > 0
    ensures |GreedyMatches(s, w)| == Count(s, w)
    ensures GreedyFrom(s, w, 0, GreedyMatches(s, w))
    decreases |s|
  {
    if |s| < |w| {
      forall q | 0 <= q ensures !OccursAt(s, w, q) { }
    } else if s[..|w|] == w {
      GreedyMatchesAreGreedy(s[|w|..], w);
      GreedyShift(s, w, |w|, 0, GreedyMatches(s[|w|..], w));
      assert OccursAt(s, w, 0);
      assert GreedyMatches(s, w)[1..] == Shift(GreedyMatches(s[|w|..], w), |w|);
    } else {
      GreedyMatchesAreGreedy(s[1..], w);
      var ps := GreedyMatches(s, w);
      GreedyShift(s, w, 1, 0, GreedyMatches(s[1..], w));
      assert !OccursAt(s, w, 0);
      if ps != [] {
        assert FirstFrom(s, w, 1, ps[0]);
      }
    }
  }

  /** A greedy scan never overlaps its own matches, and all of them lie at or after its start. */
  lemma {:induction false} GreedyIsNonOverlapping(s: seq<byte>, w: seq<byte>, from: int, ps: seq<int>)
    requires |w| > 0 && GreedyFrom(s, w, from, ps)
    ensures NonOverlapping(s, w, ps)
    ensures forall i :: 0 <= i < |ps| ==> from <= ps[i]
    decreases |ps|
  {
    if ps != [] {
      GreedyIsNonOverlapping(s, w, ps[0] + |w|, ps[1..]);
      forall i, j | 0 <= i < j < |ps| ensures ps[i] + |w| <= ps[j] {
        assert ps[j] == ps[1..][j - 1];
        if i > 0 { assert ps[i] == ps[1..][i - 1]; }
      }
      forall i | 0 <= i < |ps| ensures OccursAt(s, w, ps[i]) && from <= ps[i] {
        if i > 0 { assert ps[i] == ps[1..][i - 1]; }
      }
    }
  }

  /** No choice of non-overlapping occurrences has more than `Count` of them. */
  lemma {:induction false} CountIsMaximal(s: seq<byte>, w: seq<byte>, ps: seq<int>)
    requires |w| > 0 && NonOverlapping(s, w, ps)
    ensures |ps| <= Count(s, w)
    decreases |s|
  {
    if |ps| > 0 {
      assert OccursAt(s, w, ps[0]);
      if s[..|w|] == w {
        DropFirstMatch(s, w, ps);
        CountIsMaximal(s[|w|..], w, Shift(ps[1..], -|w|));
      } else {
        DropFirstByte(s, w, ps);
        CountIsMaximal(s[1..], w, Shift(ps, -1));
      }
    }
  }

  /** Past a match at the start, the other occurrences of `ps` are occurrences in what is left. */
  lemma DropFirstMatch(s: seq<byte>, w: seq<byte>, ps: seq<int>)
    requires |w| <= |s| && |ps| > 0 && NonOverlapping(s, w, ps)
    ensures NonOverlapping(s[|w|..], w, Shift(ps[1..], -|w|))
  {
    var d := |w|;
    var rest := Shift(ps[1..], -d);
    forall i | 0 <= i < |rest| ensures OccursAt(s[d..], w, rest[i]) {
      assert ps[0] + d <= ps[i + 1];
      OccursInSuffix(s, w, d, rest[i]);
    }
    forall i, j | 0 <= i < j < |rest| ensures rest[i] + |w| <= rest[j] {
      assert ps[i + 1] + |w| <= ps[j + 1];
    }
  }

  /** When nothing occurs at position 0, every occurrence of `ps` is one in `s[1..]`. */
  lemma DropFirstByte(s: seq<byte>, w: seq<byte>, ps: seq<int>)
    requires |w| > 0 && 1 <= |s| && !OccursAt(s, w, 0) && NonOverlapping(s, w, ps)
    ensures NonOverlapping(s[1..], w, Shift(ps, -1))
  {
    var rest := Shift(ps, -1);
    forall i | 0 <= i < |rest| ensures OccursAt(s[1..], w, rest[i]) {
      assert ps[i] != 0;
      OccursInSuffix(s, w, 1, rest[i]);
    }
  }

  /**
    * `Count` is the size of the largest set of non-overlapping occurrences,
    * and the left-to-right scan attains it.
    */
  lemma CountIsMaximum(s: seq<byte>, w: seq<byte>)
    requires |w| > 0
    ensures NonOverlapping(s, w, GreedyMatches(s, w)) && |GreedyMatches(s, w)| == Count(s, w)
    ensures forall ps :: NonOverlapping(s, w, ps) ==> |ps| <= Count(s, w)
  {
    GreedyMatchesAreGreedy(s, w);
    GreedyIsNonOverlapping(s, w, 0, GreedyMatches(s, w));
    forall ps | NonOverlapping(s, w, ps) ensures |ps| <= Count(s, w) {
      CountIsMaximal(s, w, ps);
    }
  }

  /** The count is zero exactly when the word does not occur in the line at all. */
  lemma CountZeroIffAbsent(s: seq<byte>, w: seq<byte>)
    requires |w| > 0
    ensures Count(s, w) == 0 <==> forall p :: !OccursAt(s, w, p)
  {
    GreedyMatchesAreGreedy(s, w);
    var ps := GreedyMatches(s, w);
    if ps == [] {
      assert NoneFrom(s, w, 0);
    } else {
      assert OccursAt(s, w, ps[0]);
    }
  }

  /** The count is at most `|s| / |w|`, and zero when the word is longer than the line. */
  lemma CountBound(s: seq<byte>, w: seq<byte>)
    requires |w| > 0
    ensures Count(s, w) <= |s| / |w|
    ensures |w| > |s| ==> Count(s, w) == 0
  {
    DivLowerBound(|w|, Count(s, w), |s|);
  }

  /** If `m * n <= x` then `n <= x / m`. */
  lemma DivLowerBound(m: nat, n: nat, x: nat)
    requires m > 0 && m * n <= x
    ensures n <= x / m
  {
    var q, r := x / m, x % m;
    assert x == m * q + r && r < m;
    var t := n - q;
    assert m * t == m * n - m * q;
    ProductBelowFactor(m, t);
  }

  lemma ProductBelowFactor(m: nat, t: int)
    requires m > 0 && m * t < m
    ensures t < 1
  {
  }

  /** Overlapping candidates are counted once: "aaa" holds one "aa", not two. */
  lemma OverlapCountedOnce()
    ensures Count([97, 97, 97], [97, 97]) == 1
    ensures Count([97, 97, 97, 97], [97, 97]) == 2
  {
    var aa: seq<byte> := [97, 97];
    var aaa: seq<byte> := [97, 97, 97];
    var aaaa: seq<byte> := [97, 97, 97, 97];
    assert aaa[..2] == aa && aaa[2..] == [97];
    assert aaaa[..2] == aa && aaaa[2..] == aa;
    assert aa[..2] == aa && aa[2..] == [];
  }

  /**
    * The scan of `bytes.Count`: walk the line left to right, and after a
    * match continue just past it.
    */
  method CountOccurrences(s: seq<byte>, w: seq<byte>) returns (n: nat)
    requires |w| > 0
    ensures n == Count(s, w)
  {
    n := 0;
    var i := 0;
    while i + |w| <= |s|
      invariant 0 <= i <= |s|
      invariant n + Count(s[i..], w) == Count(s, w)
      decreases |s| - i
    {
      if s[i..i + |w|] == w {
        assert s[i..][..|w|] == w;
        assert s[i..][|w|..] == s[i + |w|..];
        n := n + 1;
        i := i + |w|;
      } else {
        assert s[i..][..|w|] == s[i..i + |w|];
        assert s[i..][1..] == s[i + 1..];
        i := i + 1;
      }
    }
  }
}
