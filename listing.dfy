/**
  Directory listings. `os.ReadDir` returns the entries of a directory sorted
  by file name, comparing the names byte by byte. For UTF-8 text that is
  the order of the code points, which is the order compared here.
 */
module Listing {
  /** `a` sorts strictly before `b`: at the first difference its character is smaller, or it is a proper prefix. */
  predicate Before(a: string, b: string) {
    if a == [] then b != []
    else b != [] && (a[0] < b[0] || (a[0] == b[0] && Before(a[1..], b[1..])))
  }

  lemma {:induction false} BeforeIrreflexive(a: string)
    ensures !Before(a, a)
  {
    if a != [] {
      BeforeIrreflexive(a[1..]);
    }
  }

  lemma {:induction false} BeforeTransitive(a: string, b: string, c: string)
    requires Before(a, b) && Before(b, c)
    ensures Before(a, c)
  {
    if a != [] && a[0] == b[0] && b[0] == c[0] {
      BeforeTransitive(a[1..], b[1..], c[1..]);
    }
  }

  lemma {:induction false} BeforeTotal(a: string, b: string)
    requires a != b
    ensures Before(a, b) || Before(b, a)
  {
    if a != [] && b != [] && a[0] == b[0] {
      BeforeTotal(a[1..], b[1..]);
    }
  }

  /** Every name of the listing sorts before each name after it. */
  predicate Ascending(names: seq<string>) {
    forall i, j :: 0 <= i < j < |names| ==> Before(names[i], names[j])
  }

  /** `m` is the first of `keys` in name order. */
  predicate IsFirst(m: string, keys: set<string>) {
    m in keys && forall x :: x in keys && x != m ==> Before(m, x)
  }

  lemma {:induction false} FirstExists(keys: set<string>)
    requires keys != {}
    ensures exists m :: IsFirst(m, keys)
    decreases |keys|
  {
    var x :| x in keys;
    var others := keys - {x};
    if others == {} {
      assert keys == {x};
      assert IsFirst(x, keys);
    } else {
      FirstExists(others);
      var m :| IsFirst(m, others);
      if Before(m, x) {
        assert IsFirst(m, keys);
      } else {
        BeforeTotal(m, x);
        forall y | y in keys && y != x ensures Before(x, y) {
          if y != m {
            BeforeTransitive(x, m, y);
          }
        }
        assert IsFirst(x, keys);
      }
    }
  }

  lemma FirstUnique(keys: set<string>)
    ensures forall m, n :: IsFirst(m, keys) && IsFirst(n, keys) ==> m == n
  {
    forall m, n | IsFirst(m, keys) && IsFirst(n, keys) ensures m == n {
      if m != n {
        BeforeTransitive(m, n, m);
        BeforeIrreflexive(m);
      }
    }
  }

  /** The first of a non-empty set of names. */
  function First(keys: set<string>): (m: string)
    requires keys != {}
    ensures IsFirst(m, keys)
  {
    FirstExists(keys);
    FirstUnique(keys);
    var m :| IsFirst(m, keys);
    m
  }

  /**
    `os.ReadDir`: the names of a directory's entries, each once, in name
    order.
   */
  function Names(keys: set<string>): (r: seq<string>)
    ensures |r| == |keys|
    ensures forall x :: x in r <==> x in keys
    decreases |keys|
  {
    if keys == {} then []
    else
      var m := First(keys);
      [m] + Names(keys - {m})
  }

  /** The listing is in name order. */
  lemma {:induction false} NamesAscending(keys: set<string>)
    ensures Ascending(Names(keys))
    decreases |keys|
  {
    if keys != {} {
      var r := Names(keys);
      var m := r[0];
      var rest := r[1..];
      assert rest == Names(keys - {m});
      NamesAscending(keys - {m});
      forall k | 0 <= k < |rest| ensures Before(m, rest[k]) {
        assert rest[k] in keys - {m};
      }
    }
  }

  /** A name order listing has no repeated name. */
  lemma {:induction false} AscendingDistinct(names: seq<string>)
    requires Ascending(names)
    ensures forall i, j :: 0 <= i < j < |names| ==> names[i] != names[j]
  {
    forall i, j | 0 <= i < j < |names| ensures names[i] != names[j] {
      if names[i] == names[j] {
        BeforeIrreflexive(names[i]);
      }
    }
  }

  /** Without its first name, a listing of `keys` without repeats lists the other keys. */
  lemma TailLists(names: seq<string>, keys: set<string>)
    requires names != []
    requires forall i, j :: 0 <= i < j < |names| ==> names[i] != names[j]
    requires forall x :: x in names <==> x in keys
    ensures forall x :: x in names[1..] <==> x in keys - {names[0]}
  {
    forall x ensures x in names[1..] <==> x in keys - {names[0]} {
      if x in names[1..] {
        var j :| 0 <= j < |names[1..]| && names[1..][j] == x;
        assert names[j + 1] == x;
      }
      if x in keys - {names[0]} {
        var j :| 0 <= j < |names| && names[j] == x;
        assert names[1..][j - 1] == x;
      }
    }
  }

  /** The first name of a listing in name order is the first of its keys. */
  lemma HeadIsFirst(names: seq<string>, keys: set<string>)
    requires names != [] && Ascending(names)
    requires forall x :: x in names <==> x in keys
    ensures IsFirst(names[0], keys)
  {
    forall x | x in keys && x != names[0] ensures Before(names[0], x) {
      var j :| 0 <= j < |names| && names[j] == x;
    }
  }

  /** The listing is the only name-ordered enumeration of the entries. */
  lemma {:induction false} NamesUnique(keys: set<string>, names: seq<string>)
    requires Ascending(names)
    requires forall x :: x in names <==> x in keys
    ensures names == Names(keys)
    decreases |names|
  {
    var r := Names(keys);
    NamesAscending(keys);
    if names != [] {
      HeadIsFirst(names, keys);
      HeadIsFirst(r, keys);
      FirstUnique(keys);
      var m := names[0];
      AscendingDistinct(names);
      AscendingDistinct(r);
      TailLists(names, keys);
      TailLists(r, keys);
      assert Ascending(names[1..]);
      assert Ascending(r[1..]);
      NamesUnique(keys - {m}, names[1..]);
      NamesUnique(keys - {m}, r[1..]);
      assert names == [m] + names[1..];
      assert r == [m] + r[1..];
    } else {
      assert keys == {} by {
        if x :| x in keys {
          assert x in names;
        }
      }
    }
  }
}
