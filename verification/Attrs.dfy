// Nix attribute sets: maps whose names are listed in sorted order.

module Attrs {
  /** The order in which Nix lists attribute names. */
  predicate Below(a: string, b: string) {
    if b == "" then false
    else if a == "" then true
    else a[0] < b[0] || (a[0] == b[0] && Below(a[1..], b[1..]))
  }

  lemma {:induction false} BelowIsTotal(a: string, b: string)
    ensures a == b || Below(a, b) || Below(b, a)
  {
    if a != "" && b != "" && a[0] == b[0] {
      BelowIsTotal(a[1..], b[1..]);
      if a[1..] == b[1..] {
        assert a == [a[0]] + a[1..] && b == [b[0]] + b[1..];
      }
    }
  }

  lemma {:induction false} BelowIsTransitive(a: string, b: string, c: string)
    requires Below(a, b) && Below(b, c)
    ensures Below(a, c)
  {
    if a != "" && a[0] == b[0] == c[0] {
      BelowIsTransitive(a[1..], b[1..], c[1..]);
    }
  }

  lemma {:induction false} BelowIsStrict(a: string)
    ensures !Below(a, a)
  {
    if a != "" {
      BelowIsStrict(a[1..]);
    }
  }

  /** It is the order of dictionaries: up to some place the names are the same, and there the
      first one ends or has the lesser character. */
  lemma {:induction false} BelowMeans(a: string, b: string)
    ensures
      Below(a, b) <==>
      exists k :: 0 <= k <= |a| && k < |b| && a[..k] == b[..k] && (k == |a| || a[k] < b[k])
  {
    if b != "" && a == "" {
      assert a[..0] == b[..0];
    } else if b != "" && a[0] != b[0] {
      assert a[..0] == b[..0];
      forall k | 0 < k <= |a| && k < |b|
        ensures a[..k] != b[..k]
      {
        assert a[..k][0] == a[0] && b[..k][0] == b[0];
      }
    } else if b != "" {
      BelowMeans(a[1..], b[1..]);
      if Below(a, b) {
        var x, y := a[1..], b[1..];
        var k :| 0 <= k <= |x| && k < |y| && x[..k] == y[..k] && (k == |x| || x[k] < y[k]);
        assert a[..k + 1] == [a[0]] + x[..k] && b[..k + 1] == [b[0]] + y[..k];
      }
      if k: nat :| k <= |a| && k < |b| && a[..k] == b[..k] && (k == |a| || a[k] < b[k]) {
        if k > 0 {
          assert a[1..][..k - 1] == a[..k][1..] && b[1..][..k - 1] == b[..k][1..];
        }
      }
    }
  }

  ghost predicate IsLeast(names: set<string>, least: string) {
    least in names && forall n | n in names && n != least :: Below(least, n)
  }

  lemma LeastExists(names: set<string>)
    requires names != {}
    ensures exists least :: IsLeast(names, least)
    decreases |names|
  {
    var n :| n in names;
    var others := names - {n};
    if others == {} {
      assert names == {n};
      assert IsLeast(names, n);
    } else {
      LeastExists(others);
      var m :| IsLeast(others, m);
      BelowIsTotal(m, n);
      var least := if Below(n, m) then n else m;
      forall k | k in names && k != least
        ensures Below(least, k)
      {
        if k in others && k != m && least == n {
          BelowIsTransitive(n, m, k);
        }
      }
      assert IsLeast(names, least);
    }
  }

  ghost predicate Sorted(names: seq<string>) {
    forall i, j | 0 <= i < j < |names| :: Below(names[i], names[j])
  }

  lemma LeastFirst(names: set<string>, least: string, others: seq<string>)
    requires IsLeast(names, least) && Sorted(others)
    requires forall n :: n in others <==> n in names - {least}
    ensures Sorted([least] + others)
    ensures forall n :: n in [least] + others <==> n in names
  {
    hide Below;
    var list := [least] + others;
    forall i, j | 0 <= i < j < |list|
      ensures Below(list[i], list[j])
    {
      assert list[j] == others[j - 1] && others[j - 1] in others;
    }
  }

  /** attrNames */
  ghost function AttrNames(names: set<string>): (list: seq<string>)
    ensures Sorted(list) && |list| == |names|
    ensures forall n :: n in list <==> n in names
  {
    if names == {} then []
    else
      LeastExists(names);
      var least :| IsLeast(names, least);
      var others := AttrNames(names - {least});
      LeastFirst(names, least, others);
      [least] + others
  }

  lemma HasElement(names: seq<string>)
    ensures names == [] || exists n :: n in names
  {
    if names != [] {
      assert names[0] in names;
    }
  }

  /** There is only one sorted listing, so attrNames does not depend on how the names are found. */
  lemma {:induction false} SortedListingIsUnique(a: seq<string>, b: seq<string>)
    requires Sorted(a) && Sorted(b)
    requires forall n :: n in a <==> n in b
    ensures a == b
  {
    if a == [] {
      HasElement(b);
    } else {
      assert a[0] in b && b != [] && b[0] in a;
      var i :| 0 <= i < |b| && b[i] == a[0];
      var j :| 0 <= j < |a| && a[j] == b[0];
      if a[0] != b[0] {
        BelowIsTransitive(a[0], b[0], a[0]);
        BelowIsStrict(a[0]);
        assert false;
      }
      forall n
        ensures n in a[1..] <==> n in b[1..]
      {
        BelowIsStrict(a[0]);
        assert n in a <==> n == a[0] || n in a[1..];
        assert n in b <==> n == b[0] || n in b[1..];
        assert a[0] !in a[1..] && b[0] !in b[1..];
      }
      SortedListingIsUnique(a[1..], b[1..]);
      assert a == [a[0]] + a[1..] && b == [b[0]] + b[1..];
    }
  }

  /** The values, in the order of their names. */
  ghost function Listing<V(!new)>(attrs: map<string, V>): (list: seq<V>)
    ensures |list| == |attrs|
    ensures forall v :: v in list <==> v in attrs.Values
  {
    var names := AttrNames(attrs.Keys);
    assert |attrs.Keys| == |attrs|;
    var list := seq(|names|, i requires 0 <= i < |names| => (assert names[i] in attrs.Keys; attrs[names[i]]));
    assert forall v :: v in list <==> v in attrs.Values by {
      forall v
        ensures v in list <==> v in attrs.Values
      {
        if v in attrs.Values {
          var k :| k in attrs.Keys && attrs[k] == v;
          assert k in names;
          var i :| 0 <= i < |names| && names[i] == k;
          assert list[i] == v;
        }
        if v in list {
          var i :| 0 <= i < |list| && list[i] == v;
          assert names[i] in attrs.Keys;
        }
      }
    }
    list
  }
}
