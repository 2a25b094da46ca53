/** The two Python list operations the game relies on: `list.remove`, which
    deletes the first element equal to its argument, and the absence of
    duplicates that makes it delete the only one. */
module Sequences {

  predicate Distinct<T(==)>(s: seq<T>)
  {
    forall i, j :: 0 <= i < j < |s| ==> s[i] != s[j]
  }

  /** `s.remove(x)` when x occurs in s; a sequence without x is returned as it is. */
  function RemoveFirst<T(==)>(s: seq<T>, x: T): (r: seq<T>)
    ensures x in s ==> |r| == |s| - 1
    ensures x !in s ==> r == s
  {
    if s == [] then []
    else if s[0] == x then s[1..]
    else [s[0]] + RemoveFirst(s[1..], x)
  }

  /** Removing an element that does not occur before its first position drops
      exactly that position. */
  lemma {:induction false} RemoveFirstAt<T>(a: seq<T>, x: T, b: seq<T>)
    requires x !in a
    ensures RemoveFirst(a + [x] + b, x) == a + b
  {
    var s := a + [x] + b;
    if a == [] {
      assert s == [x] + b && s[1..] == b;
    } else {
      assert s[0] == a[0] && a[0] != x by {
        assert a[0] in a;
      }
      assert s[1..] == a[1..] + [x] + b;
      assert x !in a[1..] by {
        assert forall y :: y in a[1..] ==> y in a;
      }
      RemoveFirstAt(a[1..], x, b);
      calc {
        RemoveFirst(s, x);
        [s[0]] + RemoveFirst(s[1..], x);
        [a[0]] + (a[1..] + b);
        { assert a == [a[0]] + a[1..]; }
        a + b;
      }
    }
  }

  /** In a sequence without duplicates, `remove` deletes every occurrence,
      keeps the order of the rest, and leaves no duplicates behind. */
  lemma {:induction false} RemoveFirstDistinct<T>(s: seq<T>, x: T)
    requires Distinct(s)
    ensures Distinct(RemoveFirst(s, x))
    ensures forall y :: y in RemoveFirst(s, x) <==> y in s && y != x
  {
    if s != [] && s[0] != x {
      assert Distinct(s[1..]) by {
        forall i, j | 0 <= i < j < |s[1..]| ensures s[1..][i] != s[1..][j] {
          assert s[1..][i] == s[i + 1] && s[1..][j] == s[j + 1];
        }
      }
      RemoveFirstDistinct(s[1..], x);
      var r := RemoveFirst(s, x);
      assert r == [s[0]] + RemoveFirst(s[1..], x);
      assert s[0] !in s[1..] by {
        forall j | 0 <= j < |s[1..]| ensures s[1..][j] != s[0] {
          assert s[1..][j] == s[j + 1];
        }
      }
      forall i, j | 0 <= i < j < |r| ensures r[i] != r[j] {
        if i == 0 {
          assert r[j] in RemoveFirst(s[1..], x);
        } else {
          assert r[i] == RemoveFirst(s[1..], x)[i - 1] && r[j] == RemoveFirst(s[1..], x)[j - 1];
        }
      }
    } else if s != [] {
      assert forall y :: y in s[1..] ==> y in s;
      forall y | y in s[1..] ensures y != x {
        var j :| 0 <= j < |s[1..]| && s[1..][j] == y;
        assert s[j + 1] == y;
      }
      forall i, j | 0 <= i < j < |s[1..]| ensures s[1..][i] != s[1..][j] {
        assert s[1..][i] == s[i + 1] && s[1..][j] == s[j + 1];
      }
    }
  }

  /** The elements of s that are not in `gone`, in their original order. */
  function Without<T(==,!new)>(s: seq<T>, gone: set<T>): (r: seq<T>)
    ensures forall y :: y in r <==> y in s && y !in gone
    ensures Distinct(s) ==> Distinct(r)
    ensures (forall y :: y in s ==> y !in gone) ==> r == s
  {
    if s == [] then []
    else
      var rest := Without(s[1..], gone);
      assert Distinct(s) ==> Distinct(s[1..]) by {
        if Distinct(s) {
          forall i, j | 0 <= i < j < |s[1..]| ensures s[1..][i] != s[1..][j] {
            assert s[1..][i] == s[i + 1] && s[1..][j] == s[j + 1];
          }
        }
      }
      assert forall y :: y in s[1..] ==> y in s;
      assert Distinct(s) ==> s[0] !in s[1..] by {
        if Distinct(s) {
          forall j | 0 <= j < |s[1..]| ensures s[1..][j] != s[0] {
            assert s[1..][j] == s[j + 1];
          }
        }
      }
      if s[0] in gone then rest
      else
        var r := [s[0]] + rest;
        assert Distinct(s) ==> Distinct(r) by {
          if Distinct(s) {
            forall i, j | 0 <= i < j < |r| ensures r[i] != r[j] {
              if i == 0 {
                assert r[j] in rest;
              } else {
                assert r[i] == rest[i - 1] && r[j] == rest[j - 1];
              }
            }
          }
        }
        r
  }

  /** Removing one more element with `remove` extends the removed set by it,
      provided there are no duplicates. */
  lemma {:induction false} RemoveFirstIsWithout<T(!new)>(s: seq<T>, gone: set<T>, x: T)
    requires Distinct(s)
    ensures RemoveFirst(Without(s, gone), x) == Without(s, gone + {x})
  {
    if s != [] {
      assert Distinct(s[1..]) by {
        forall i, j | 0 <= i < j < |s[1..]| ensures s[1..][i] != s[1..][j] {
          assert s[1..][i] == s[i + 1] && s[1..][j] == s[j + 1];
        }
      }
      RemoveFirstIsWithout(s[1..], gone, x);
      if s[0] !in gone && s[0] == x {
        assert s[0] !in s[1..] by {
          forall j | 0 <= j < |s[1..]| ensures s[1..][j] != s[0] {
            assert s[1..][j] == s[j + 1];
          }
        }
        WithoutAbsent(s[1..], gone, x);
      }
    }
  }

  /** Adding to the removed set an element that does not occur changes nothing. */
  lemma {:induction false} WithoutAbsent<T(!new)>(s: seq<T>, gone: set<T>, x: T)
    requires x !in s
    ensures Without(s, gone + {x}) == Without(s, gone)
    ensures RemoveFirst(Without(s, gone), x) == Without(s, gone)
  {
    if s != [] {
      assert s[0] != x;
      assert forall y :: y in s[1..] ==> y in s;
      WithoutAbsent(s[1..], gone, x);
    }
  }
}
