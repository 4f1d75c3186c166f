/** The order in which the ledger's range scan visits keys: lexicographic by
    code point, which is the byte order of the keys' UTF-8 encodings. */
module KeyOrder {

  /** `a` comes strictly before `b`. */
  predicate Precedes(a: string, b: string)
    decreases |a|
  {
    |b| > 0 && (|a| == 0 || a[0] < b[0] || (a[0] == b[0] && Precedes(a[1..], b[1..])))
  }

  lemma {:induction false} PrecedesIrreflexive(a: string)
    ensures !Precedes(a, a)
    decreases |a|
  {
    if |a| > 0 {
      PrecedesIrreflexive(a[1..]);
    }
  }

  lemma {:induction false} PrecedesTransitive(a: string, b: string, c: string)
    requires Precedes(a, b) && Precedes(b, c)
    ensures Precedes(a, c)
    decreases |a|
  {
    if |a| > 0 && a[0] == b[0] && b[0] == c[0] {
      PrecedesTransitive(a[1..], b[1..], c[1..]);
    }
  }

  /** Any two distinct keys are ordered one way or the other. */
  lemma {:induction false} PrecedesTotal(a: string, b: string)
    ensures a == b || Precedes(a, b) || Precedes(b, a)
    decreases |a|
  {
    if |a| > 0 && |b| > 0 && a[0] == b[0] {
      PrecedesTotal(a[1..], b[1..]);
      if a[1..] == b[1..] {
        assert a == [a[0]] + a[1..] && b == [b[0]] + b[1..];
      }
    }
  }

  lemma PrecedesAsymmetric(a: string, b: string)
    requires Precedes(a, b)
    ensures !Precedes(b, a)
  {
    if Precedes(b, a) {
      PrecedesTransitive(a, b, a);
      PrecedesIrreflexive(a);
    }
  }

  /** `m` is the first key of `ks`. */
  predicate IsLeast(m: string, ks: set<string>) {
    m in ks && forall k :: k in ks && k != m ==> Precedes(m, k)
  }

  lemma {:induction false} LeastExists(ks: set<string>)
    requires ks != {}
    ensures exists m :: IsLeast(m, ks)
    decreases ks
  {
    var x :| x in ks;
    if ks == {x} {
      assert IsLeast(x, ks);
    } else {
      LeastExists(ks - {x});
      var m :| IsLeast(m, ks - {x});
      PrecedesTotal(x, m);
      if Precedes(x, m) {
        forall k | k in ks && k != x
          ensures Precedes(x, k)
        {
          if k != m {
            PrecedesTransitive(x, m, k);
          }
        }
        assert IsLeast(x, ks);
      } else {
        assert IsLeast(m, ks);
      }
    }
  }

  lemma LeastUnique(ks: set<string>)
    ensures forall m, n :: IsLeast(m, ks) && IsLeast(n, ks) ==> m == n
  {
    forall m, n | IsLeast(m, ks) && IsLeast(n, ks)
      ensures m == n
    {
      if m != n {
        PrecedesAsymmetric(m, n);
      }
    }
  }

  function Least(ks: set<string>): (m: string)
    requires ks != {}
    ensures IsLeast(m, ks)
  {
    LeastExists(ks);
    LeastUnique(ks);
    var m :| IsLeast(m, ks);
    m
  }

  /** Every key comes strictly before the ones after it. */
  predicate Ascending(s: seq<string>) {
    forall i, j :: 0 <= i < j < |s| ==> Precedes(s[i], s[j])
  }

  /** Putting the least key in front of the ascending rest keeps the sequence
      ascending and adds exactly that key. */
  lemma PrependLeast(m: string, ks: set<string>, rest: seq<string>)
    requires IsLeast(m, ks)
    requires forall k :: k in rest <==> k in ks - {m}
    requires Ascending(rest)
    ensures forall k :: k in [m] + rest <==> k in ks
    ensures Ascending([m] + rest)
  {
    var r := [m] + rest;
    forall i, j | 0 <= i < j < |r|
      ensures Precedes(r[i], r[j])
    {
      if i > 0 {
        assert r[i] == rest[i - 1] && r[j] == rest[j - 1];
      } else {
        assert r[j] == rest[j - 1] && r[j] in rest;
      }
    }
  }

  /** The keys of `ks` in scan order: each one exactly once, ascending. */
  function SortedKeys(ks: set<string>): (r: seq<string>)
    ensures |r| == |ks|
    ensures forall k :: k in r <==> k in ks
    ensures Ascending(r)
    decreases ks
  {
    if ks == {} then []
    else
      var m := Least(ks);
      var rest := SortedKeys(ks - {m});
      assert |ks - {m}| == |ks| - 1;
      PrependLeast(m, ks, rest);
      [m] + rest
  }
}
