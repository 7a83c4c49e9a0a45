/**
 * The order in which a `std::map<std::string, ...>` visits its keys:
 * `std::string::operator<`, lexicographic on characters. Notify writes its
 * groups in this order (hdf5_back.cc, lines 76-79).
 */
module LexOrder {

  /** `a <= b` in lexicographic order. */
  predicate LexLe(a: string, b: string)
    decreases |a|
  {
    if a == [] then true
    else if b == [] then false
    else if a[0] != b[0] then a[0] < b[0]
    else LexLe(a[1..], b[1..])
  }

  lemma {:induction false} LexLeRefl(a: string)
    ensures LexLe(a, a)
    decreases |a|
  {
    if a != [] {
      LexLeRefl(a[1..]);
    }
  }

  lemma {:induction false} LexLeTotal(a: string, b: string)
    ensures LexLe(a, b) || LexLe(b, a)
    decreases |a|
  {
    if a != [] && b != [] && a[0] == b[0] {
      LexLeTotal(a[1..], b[1..]);
    }
  }

  lemma {:induction false} LexLeAntisymmetric(a: string, b: string)
    requires LexLe(a, b) && LexLe(b, a)
    ensures a == b
    decreases |a|
  {
    if a != [] && b != [] {
      LexLeAntisymmetric(a[1..], b[1..]);
      assert a == [a[0]] + a[1..] && b == [b[0]] + b[1..];
    }
  }

  lemma {:induction false} LexLeTransitive(a: string, b: string, c: string)
    requires LexLe(a, b) && LexLe(b, c)
    ensures LexLe(a, c)
    decreases |a|
  {
    if a != [] && b != [] && c != [] && a[0] == b[0] && b[0] == c[0] {
      LexLeTransitive(a[1..], b[1..], c[1..]);
    }
  }

  /** `m` is the least element of `s`. */
  predicate IsLeast(m: string, s: set<string>) {
    m in s && forall x :: x in s ==> LexLe(m, x)
  }

  /** Every finite non-empty set of strings has a least element. */
  lemma {:induction false} LeastExists(s: set<string>)
    requires s != {}
    ensures exists m :: IsLeast(m, s)
    decreases |s|
  {
    var x :| x in s;
    if s == {x} {
      LexLeRefl(x);
      assert IsLeast(x, s);
    } else {
      var rest := s - {x};
      LeastExists(rest);
      var m :| IsLeast(m, rest);
      LexLeTotal(x, m);
      if LexLe(x, m) {
        LexLeRefl(x);
        forall y | y in s ensures LexLe(x, y) {
          if y != x {
            LexLeTransitive(x, m, y);
          }
        }
        assert IsLeast(x, s);
      } else {
        assert IsLeast(m, s);
      }
    }
  }

  lemma LeastUnique(m: string, m': string, s: set<string>)
    requires IsLeast(m, s) && IsLeast(m', s)
    ensures m == m'
  {
    LexLeAntisymmetric(m, m');
  }

  /** `r` lists the elements of `s` once each, in strictly ascending order. */
  ghost predicate Enumerates(r: seq<string>, s: set<string>) {
    && |r| == |s|
    && (forall x :: x in r <==> x in s)
    && forall i, j :: 0 <= i < j < |r| ==> LexLe(r[i], r[j]) && r[i] != r[j]
  }

  /** Every finite set of strings has a sorted enumeration: its least element, then one of the rest. */
  lemma {:induction false} EnumerationExists(s: set<string>)
    ensures exists r :: Enumerates(r, s)
    decreases |s|
  {
    if s == {} {
      assert Enumerates([], s);
    } else {
      LeastExists(s);
      var m :| IsLeast(m, s);
      EnumerationExists(s - {m});
      var rest :| Enumerates(rest, s - {m});
      var r := [m] + rest;
      forall i, j | 0 <= i < j < |r| ensures LexLe(r[i], r[j]) && r[i] != r[j] {
        if i == 0 {
          assert r[j] == rest[j - 1] && rest[j - 1] in s - {m};
        } else {
          assert r[i] == rest[i - 1] && r[j] == rest[j - 1];
        }
      }
      forall x ensures x in r <==> x in s {
        if x in s && x != m {
          assert x in rest;
        }
      }
      assert Enumerates(r, s);
    }
  }

  /** The elements of a set in ascending order: the order a map visits its keys. */
  ghost function Ascending(s: set<string>): (r: seq<string>)
    ensures Enumerates(r, s)
  {
    EnumerationExists(s);
    var r :| Enumerates(r, s);
    r
  }

  /** The head of a sorted enumeration is the least element. */
  lemma EnumerationHead(r: seq<string>, s: set<string>)
    requires Enumerates(r, s) && s != {}
    ensures IsLeast(r[0], s)
  {
    assert r[0] in s;
    forall x | x in s ensures LexLe(r[0], x) {
      var j :| 0 <= j < |r| && r[j] == x;
      if j == 0 {
        LexLeRefl(x);
      }
    }
  }

  /** Dropping the head of a sorted enumeration enumerates the rest of the set. */
  lemma EnumerationTail(r: seq<string>, s: set<string>)
    requires Enumerates(r, s) && s != {}
    ensures Enumerates(r[1..], s - {r[0]})
  {
    var t, rest := r[1..], s - {r[0]};
    forall x ensures x in t <==> x in rest {
      if x in t {
        var j :| 0 <= j < |t| && t[j] == x;
        assert r[j + 1] == x;
      }
      if x in rest {
        var j :| 0 <= j < |r| && r[j] == x;
        assert t[j - 1] == x;
      }
    }
    forall i, j | 0 <= i < j < |t| ensures LexLe(t[i], t[j]) && t[i] != t[j] {
      assert t[i] == r[i + 1] && t[j] == r[j + 1];
    }
  }

  /** A set has one sorted enumeration. */
  lemma {:induction false} EnumerationUnique(r: seq<string>, r': seq<string>, s: set<string>)
    requires Enumerates(r, s) && Enumerates(r', s)
    ensures r == r'
    decreases |s|
  {
    if s != {} {
      EnumerationHead(r, s);
      EnumerationHead(r', s);
      LeastUnique(r[0], r'[0], s);
      EnumerationTail(r, s);
      EnumerationTail(r', s);
      EnumerationUnique(r[1..], r'[1..], s - {r[0]});
      assert r == [r[0]] + r[1..] && r' == [r'[0]] + r'[1..];
    }
  }

  /**
   * Visiting a map's keys: the least key first, then the remaining keys in
   * ascending order.
   */
  lemma AscendingStep(s: set<string>, m: string)
    requires IsLeast(m, s)
    ensures Ascending(s) == [m] + Ascending(s - {m})
  {
    var r := Ascending(s);
    EnumerationHead(r, s);
    LeastUnique(r[0], m, s);
    EnumerationTail(r, s);
    EnumerationUnique(r[1..], Ascending(s - {m}), s - {m});
    assert r == [r[0]] + r[1..];
  }

  /** The empty set has nothing to visit. */
  lemma AscendingEmpty(s: set<string>)
    requires s == {}
    ensures Ascending(s) == []
  {
    assert |Ascending(s)| == |s|;
  }

  /** The position at which a member of a set is visited. */
  lemma AscendingPosition(s: set<string>, x: string) returns (i: nat)
    requires x in s
    ensures i < |Ascending(s)| && Ascending(s)[i] == x
  {
    assert x in Ascending(s);
    i :| 0 <= i < |Ascending(s)| && Ascending(s)[i] == x;
  }

  /** A string outside the set is never visited. */
  lemma AscendingAvoids(s: set<string>, x: string)
    requires x !in s
    ensures forall i :: 0 <= i < |Ascending(s)| ==> Ascending(s)[i] != x
  {
  }
}
