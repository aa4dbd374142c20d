/** Sequence helpers that mirror the JavaScript array methods the source relies on. */
module Lists {

  /** `Array.prototype.indexOf`: the first index holding `x`, or -1. */
  function IndexOf<T(==)>(s: seq<T>, x: T): (r: int)
    ensures -1 <= r < |s|
    ensures r == -1 <==> x !in s
    ensures r >= 0 ==> s[r] == x && x !in s[..r]
  {
    if s == [] then -1
    else if s[0] == x then 0
    else
      var k := IndexOf(s[1..], x);
      assert s[1..][..k + 1] == s[1..k + 2] by { if k >= 0 { assert k + 1 <= |s[1..]|; } }
      if k == -1 then -1 else k + 1
  }

  /** `xs.some(t => ys.indexOf(t) > -1)`: some element of `xs` also occurs in `ys`. */
  predicate SharesAny<T(==)>(xs: seq<T>, ys: seq<T>)
    ensures SharesAny(xs, ys) <==> exists t :: t in xs && t in ys
  {
    if xs == [] then false
    else if IndexOf(ys, xs[0]) > -1 then true
    else
      assert forall t :: t in xs ==> t == xs[0] || t in xs[1..];
      SharesAny(xs[1..], ys)
  }

  /** No element occurs twice. */
  ghost predicate NoDup<T>(s: seq<T>) {
    forall i, j :: 0 <= i < j < |s| ==> s[i] != s[j]
  }

  /** The number of occurrences of `x` in `s`. */
  function Count<T(==)>(s: seq<T>, x: T): (n: nat)
    ensures n == 0 <==> x !in s
  {
    if s == [] then 0 else (if s[0] == x then 1 else 0) + Count(s[1..], x)
  }

  function Reverse<T>(s: seq<T>): (r: seq<T>)
    ensures |r| == |s|
    ensures forall i :: 0 <= i < |s| ==> r[i] == s[|s| - 1 - i]
  {
    if s == [] then [] else Reverse(s[1..]) + [s[0]]
  }

  lemma {:induction false} CountAppend<T>(s: seq<T>, t: seq<T>, x: T)
    ensures Count(s + t, x) == Count(s, x) + Count(t, x)
  {
    if s != [] {
      assert (s + t)[1..] == s[1..] + t;
      CountAppend(s[1..], t, x);
    } else {
      assert s + t == t;
    }
  }

  /** In a sequence without duplicates an element that occurs occurs once. */
  lemma {:induction false} NoDupCount<T>(s: seq<T>, x: T)
    requires NoDup(s) && x in s
    ensures Count(s, x) == 1
  {
    if s[0] == x {
      assert x !in s[1..] by {
        forall k | 0 <= k < |s[1..]| ensures s[1..][k] != x { assert s[k + 1] != s[0]; }
      }
    } else {
      NoDupCount(s[1..], x);
    }
  }

  /** Reversing keeps a sequence free of duplicates. */
  lemma ReverseNoDup<T>(s: seq<T>)
    requires NoDup(s)
    ensures NoDup(Reverse(s))
  {
    var r := Reverse(s);
    forall i, j | 0 <= i < j < |r| ensures r[i] != r[j] {
      assert r[i] == s[|s| - 1 - i] && r[j] == s[|s| - 1 - j];
    }
  }

  /** Reversing twice gives the sequence back. */
  lemma ReverseReverse<T>(s: seq<T>)
    ensures Reverse(Reverse(s)) == s
  {
    var r := Reverse(Reverse(s));
    forall i | 0 <= i < |s| ensures r[i] == s[i] {
      assert r[i] == Reverse(s)[|s| - 1 - i];
    }
  }

  /** A sequence without duplicates whose elements all lie in `bound` is no longer than `bound` is large. */
  lemma {:induction false} NoDupWithin<T>(s: seq<T>, bound: set<T>)
    requires NoDup(s)
    requires forall i :: 0 <= i < |s| ==> s[i] in bound
    ensures |s| <= |bound|
  {
    if s != [] {
      var rest := bound - {s[0]};
      forall i | 0 <= i < |s[1..]| ensures s[1..][i] in rest {
        assert s[1..][i] == s[i + 1] && s[i + 1] != s[0];
      }
      NoDupWithin(s[1..], rest);
    }
  }

  /** Two sequences without duplicates and without common elements concatenate to one without duplicates. */
  lemma NoDupAppend<T>(s: seq<T>, t: seq<T>)
    requires NoDup(s) && NoDup(t)
    requires forall i, j :: 0 <= i < |t| && 0 <= j < |s| ==> s[j] != t[i]
    ensures NoDup(s + t)
  {
    var r := s + t;
    forall i, j | 0 <= i < j < |r| ensures r[i] != r[j] {
      if j < |s| {
        assert r[i] == s[i] && r[j] == s[j];
      } else if i < |s| {
        assert r[i] == s[i] && r[j] == t[j - |s|];
      } else {
        assert r[i] == t[i - |s|] && r[j] == t[j - |s|];
      }
    }
  }

  /** `NoDupAppend` with the sequences' disjointness stated by membership. */
  lemma NoDupAppendDisjoint<T>(s: seq<T>, t: seq<T>)
    requires NoDup(s) && NoDup(t)
    requires forall x :: x in t ==> x !in s
    ensures NoDup(s + t)
  {
    forall i, j | 0 <= i < |t| && 0 <= j < |s| ensures s[j] != t[i] {
      assert t[i] in t && s[j] in s;
    }
    NoDupAppend(s, t);
  }

  /** An element not in a sequence without duplicates can be put in front of it. */
  lemma NoDupCons<T>(x: T, s: seq<T>)
    requires NoDup(s) && x !in s
    ensures NoDup([x] + s)
  {
    var r := [x] + s;
    forall i, j | 0 <= i < j < |r| ensures r[i] != r[j] {
      assert r[j] == s[j - 1];
      if i > 0 {
        assert r[i] == s[i - 1];
      }
    }
  }

  /** What follows a position of a sequence without duplicates has none either. */
  /** Dropping a prefix of the first part of a concatenation. */
  lemma DropAppend<T>(s: seq<T>, t: seq<T>, k: nat)
    requires k <= |s|
    ensures (s + t)[k..] == s[k..] + t
  {
  }

  /** A log that is a base plus `a`, split into a consumed part and a pending
      part, stays the base plus `a + b` when `b` is appended to the pending part. */
  lemma AppendThrough<T>(base: seq<T>, a: seq<T>, b: seq<T>, log: seq<T>, log': seq<T>,
                         consumed: seq<T>, pending: seq<T>, pending': seq<T>)
    requires log == base + a && log == consumed + pending
    requires log' == consumed + pending' && pending' == pending + b
    ensures log' == base + (a + b)
  {
    assert consumed + (pending + b) == (consumed + pending) + b;
    assert (base + a) + b == base + (a + b);
  }

  lemma NoDupDrop<T>(s: seq<T>, k: nat)
    requires NoDup(s) && k <= |s|
    ensures NoDup(s[k..])
  {
    forall i, j | 0 <= i < j < |s[k..]| ensures s[k..][i] != s[k..][j] {
      assert s[k..][i] == s[k + i] && s[k..][j] == s[k + j];
    }
  }
}
