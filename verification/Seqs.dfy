/** Slices and concatenations, one equation at a time. */
module Seqs {

  lemma Halves<T>(s: seq<T>, k: nat)
    requires k <= |s|
    ensures s == s[..k] + s[k..]
  {
  }

  lemma Thirds<T>(s: seq<T>, a: nat, b: nat)
    requires a <= b <= |s|
    ensures s == s[..a] + s[a..b] + s[b..]
    ensures s[..b] == s[..a] + s[a..b] && s[a..] == s[a..b] + s[b..]
  {
  }

  lemma Pieces<T>(a: seq<T>, b: seq<T>)
    ensures (a + b)[..|a|] == a && (a + b)[|a|..] == b
  {
  }

  lemma Assoc<T>(a: seq<T>, b: seq<T>, c: seq<T>)
    ensures a + b + c == a + (b + c)
  {
  }

  lemma Last<T>(s: seq<T>)
    requires s != []
    ensures s == s[..|s| - 1] + [s[|s| - 1]]
  {
  }

  lemma First<T>(s: seq<T>)
    requires s != []
    ensures s == [s[0]] + s[1..]
  {
  }

  lemma Update<T>(s: seq<T>, k: nat, x: T)
    requires k < |s|
    ensures s[k := x] == s[..k] + [x] + s[k + 1..]
    ensures s[k := x][..k] == s[..k] && s[k := x][k + 1..] == s[k + 1..]
  {
  }

  lemma NoUnit<T>(a: seq<T>)
    ensures [] + a == a && a + [] == a
  {
  }

  lemma One<T>(s: seq<T>, k: nat)
    requires k < |s|
    ensures s[k..k + 1] == [s[k]]
    ensures s[..k + 1] == s[..k] + [s[k]]
  {
  }

  // s cut after index a and before index b.
  lemma Parts<T>(s: seq<T>, a: nat, b: nat, p: seq<T>, mid: seq<T>, c: seq<T>)
    requires a < b < |s| && p == s[..a + 1] && mid == s[a + 1..b] && c == s[b..]
    ensures s == p + mid + c && |p| == a + 1 && |mid| == b - 1 - a && |c| > 0
    ensures p[|p| - 1] == s[a] && c[0] == s[b] && s[a + 1] == (if mid == [] then s[b] else mid[0])
    ensures s[..b + 1] == p + mid + [s[b]]
  {
  }

  // s in three parts, a the last index of the first and c the last of the second.
  lemma Flanks<T>(s: seq<T>, a: nat, c: nat, x: seq<T>, mid: seq<T>, y: seq<T>)
    requires a <= c < |s| && x == s[..a + 1] && mid == s[a + 1..c + 1] && y == s[c + 1..]
    ensures s == x + mid + y && s[..c + 1] == x + mid && |x| == a + 1 && |mid| == c - a && |y| == |s| - c - 1
    ensures x[|x| - 1] == s[a] && (x + mid)[|x + mid| - 1] == s[c]
    ensures y != [] ==> y[0] == s[c + 1] && y[|y| - 1] == s[|s| - 1]
  {
  }

  // s without the elements from index a up to index c.
  ghost function Cut<T>(s: seq<T>, a: nat, c: nat): seq<T>
    requires a <= c <= |s|
  {
    s[..a] + s[c..]
  }

  lemma CutKeeps<T>(s: seq<T>, a: nat, c: nat)
    requires a <= c <= |s|
    ensures forall x :: x in Cut(s, a, c) ==> x in s
    ensures a == 1 && c == 2 ==> Cut(s, a, c) == [s[0]] + s[2..]
  {
  }

  lemma ReplaceLast<T>(s: seq<T>, x: T, y: T)
    ensures (s + [x])[|s|] == x && (s + [x])[|s| := y] == s + [y]
  {
  }

  lemma Slice<T>(s: seq<T>, a: nat, b: nat, i: nat, j: nat)
    requires a + j <= b <= |s| && i <= j
    ensures |s[a..b]| == b - a && s[a..b][i..j] == s[a + i..a + j]
    ensures a + j == b ==> s[a..b][i..] == s[a + i..b]
    ensures s[a..b][..j] == s[a..a + j]
  {
    var t := s[a..b];
    forall k | 0 <= k < j
      ensures t[k] == s[a + k]
    {
    }
  }

  // What was written before index b is still there.
  lemma Adjacent<T>(s: seq<T>, t: seq<T>, a: nat, b: nat, c: nat)
    requires a <= b <= c <= |s| == |t| && s[..b] == t[..b]
    ensures t[a..c] == s[a..b] + t[b..c] && t[..a] == s[..a]
  {
  }

  lemma SliceAfter<T>(s: seq<T>, a: nat, n: nat)
    requires a + n <= |s|
    ensures s[a..][..n] == s[a..a + n]
  {
  }
}
