/** Scene-graph paths and the ordering the influence lookup tables are keyed
    by: two paths compare by their full path names, as strings. */
module DagPaths {

  /** A host DAG path. `Invalid` is a default-constructed path; a valid one is
      identified by its full path name. */
  datatype DagPath = Invalid | Path(name: string)

  predicate IsValid(p: DagPath) {
    p.Path?
  }

  /** `fullPathName()`: the empty string for an invalid path. */
  function FullPathName(p: DagPath): (r: string)
    ensures p.Path? ==> r == p.name
    ensures p.Invalid? ==> r == ""
  {
    match p
    case Invalid => ""
    case Path(n) => n
  }

  /** `std::less<std::string>`: the first differing character decides, and a
      proper prefix comes first. */
  predicate StringLess(a: string, b: string)
    decreases |a|
  {
    if |a| == 0 then |b| > 0
    else if |b| == 0 then false
    else if a[0] != b[0] then a[0] < b[0]
    else StringLess(a[1..], b[1..])
  }

  /** `std::less<MDagPath>`: compares the two full path names. */
  predicate Less(lhs: DagPath, rhs: DagPath) {
    StringLess(FullPathName(lhs), FullPathName(rhs))
  }

  /** Reference definition of lexicographic order: `a` is a proper prefix of
      `b`, or the two agree up to a position where `a` has the smaller
      character. */
  ghost predicate Lexicographic(a: string, b: string) {
    (|a| < |b| && a == b[..|a|])
    || exists k :: 0 <= k < |a| && k < |b| && a[..k] == b[..k] && a[k] < b[k]
  }

  lemma {:induction false} StringLessIsLexicographic(a: string, b: string)
    ensures StringLess(a, b) <==> Lexicographic(a, b)
    decreases |a|
  {
    if |a| == 0 {
      assert a == b[..0];
    } else if |b| == 0 {
    } else if a[0] != b[0] {
      if a[0] < b[0] {
        assert a[..0] == b[..0];
      } else {
        forall k | 0 <= k < |a| && k < |b| && a[..k] == b[..k]
          ensures !(a[k] < b[k])
        {
          if k > 0 {
            assert false;
          }
        }
      }
    } else {
      StringLessIsLexicographic(a[1..], b[1..]);
      if StringLess(a, b) {
        assert Lexicographic(a[1..], b[1..]);
        if |a[1..]| < |b[1..]| && a[1..] == b[1..][..|a[1..]|] {
          assert a == [a[0]] + a[1..];
          assert b[..|a|] == [b[0]] + b[1..][..|a| - 1];
        } else {
          var k :| 0 <= k < |a[1..]| && k < |b[1..]| && a[1..][..k] == b[1..][..k] && a[1..][k] < b[1..][k];
          assert a[..k + 1] == [a[0]] + a[1..][..k];
          assert b[..k + 1] == [b[0]] + b[1..][..k];
          assert a[k + 1] < b[k + 1];
        }
      } else {
        if |a| < |b| && a == b[..|a|] {
          assert false;
        }
        forall k | 0 <= k < |a| && k < |b| && a[..k] == b[..k]
          ensures !(a[k] < b[k])
        {
          if k > 0 {
            assert a[1..][..k - 1] == a[..k][1..];
            assert b[1..][..k - 1] == b[..k][1..];
            assert a[1..][k - 1] == a[k];
          }
        }
      }
    }
  }

  lemma {:induction false} StringLessIrreflexive(a: string)
    ensures !StringLess(a, a)
    decreases |a|
  {
    if |a| > 0 {
      StringLessIrreflexive(a[1..]);
    }
  }

  lemma {:induction false} StringLessAsymmetric(a: string, b: string)
    ensures StringLess(a, b) ==> !StringLess(b, a)
    decreases |a|
  {
    if |a| > 0 && |b| > 0 && a[0] == b[0] {
      StringLessAsymmetric(a[1..], b[1..]);
    }
  }

  lemma {:induction false} StringLessTransitive(a: string, b: string, c: string)
    ensures StringLess(a, b) && StringLess(b, c) ==> StringLess(a, c)
    decreases |a|
  {
    if |a| > 0 && |b| > 0 && |c| > 0 && a[0] == b[0] && b[0] == c[0] {
      StringLessTransitive(a[1..], b[1..], c[1..]);
    }
  }

  /** Two different strings are always ordered one way or the other. */
  lemma {:induction false} StringLessTotal(a: string, b: string)
    ensures a != b ==> StringLess(a, b) || StringLess(b, a)
    decreases |a|
  {
    if |a| > 0 && |b| > 0 && a[0] == b[0] {
      StringLessTotal(a[1..], b[1..]);
      if a[1..] == b[1..] {
        assert a == [a[0]] + a[1..] && b == [b[0]] + b[1..];
      }
    }
  }

  /** No path is less than itself. */
  lemma PathLessIrreflexive(p: DagPath)
    ensures !Less(p, p)
  {
    StringLessIrreflexive(FullPathName(p));
  }

  /** The comparator is a strict order. */
  lemma PathLessStrictOrder(p: DagPath, q: DagPath, s: DagPath)
    ensures Less(p, q) ==> !Less(q, p)
    ensures Less(p, q) && Less(q, s) ==> Less(p, s)
  {
    StringLessAsymmetric(FullPathName(p), FullPathName(q));
    StringLessTransitive(FullPathName(p), FullPathName(q), FullPathName(s));
  }

  /** Two paths are equivalent as map keys exactly when their full path names
      are equal; in particular an invalid path and a path named "" collide. */
  lemma PathEquivalentIffSameName(p: DagPath, q: DagPath)
    ensures !Less(p, q) && !Less(q, p) <==> FullPathName(p) == FullPathName(q)
  {
    StringLessTotal(FullPathName(p), FullPathName(q));
    StringLessIrreflexive(FullPathName(p));
  }

  /** The comparator is lexicographic order on full path names. */
  lemma PathLessIsLexicographic(p: DagPath, q: DagPath)
    ensures Less(p, q) <==> Lexicographic(FullPathName(p), FullPathName(q))
  {
    StringLessIsLexicographic(FullPathName(p), FullPathName(q));
  }
}
