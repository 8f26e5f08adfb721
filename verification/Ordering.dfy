/** The order of `sort.Strings`, and the sorted listing of a set of strings. */
module Ordering {

  /** `a < b` as Go compares strings. */
  predicate Less(a: string, b: string) {
    b != "" && (a == "" || a[0] < b[0] || (a[0] == b[0] && Less(a[1..], b[1..])))
  }

  lemma {:induction false} LessIsTotal(a: string, b: string)
    ensures a == b || Less(a, b) || Less(b, a)
    decreases |a|
  {
    if a != "" && b != "" && a[0] == b[0] {
      LessIsTotal(a[1..], b[1..]);
      assert a == [a[0]] + a[1..] && b == [b[0]] + b[1..];
    }
  }

  lemma {:induction false} LessIsStrict(a: string, b: string)
    requires Less(a, b)
    ensures a != b && !Less(b, a)
    decreases |a|
  {
    if a != "" && a[0] == b[0] {
      LessIsStrict(a[1..], b[1..]);
    }
  }

  lemma {:induction false} LessIsTransitive(a: string, b: string, c: string)
    requires Less(a, b) && Less(b, c)
    ensures Less(a, c)
    decreases |a|
  {
    if a != "" && a[0] == b[0] == c[0] {
      LessIsTransitive(a[1..], b[1..], c[1..]);
    }
  }

  ghost predicate Increasing(ks: seq<string>) {
    forall i, j | 0 <= i < j < |ks| :: Less(ks[i], ks[j])
  }

  /** `ks` lists the set `s`, each element once, in increasing order. */
  ghost predicate Lists(ks: seq<string>, s: set<string>) {
    Increasing(ks) && forall k :: k in ks <==> k in s
  }

  /** There is only one such listing. */
  lemma {:induction false} ListingIsUnique(ks: seq<string>, ls: seq<string>, s: set<string>)
    requires Lists(ks, s) && Lists(ls, s)
    ensures ks == ls
    decreases |ks|
  {
    if ks == [] {
      if ls != [] {
        SameHead(ls, ks, s);
      }
    } else {
      assert ks[0] in ks;
      SameHead(ks, ls, s);
      var rest := s - {ks[0]};
      TailLists(ks, s);
      TailLists(ls, s);
      ListingIsUnique(ks[1..], ls[1..], rest);
    }
  }

  lemma SameHead(ks: seq<string>, ls: seq<string>, s: set<string>)
    requires Lists(ks, s) && Lists(ls, s) && ks != []
    ensures ls != [] && ks[0] == ls[0]
  {
    assert ks[0] in ks;
    var i :| 0 <= i < |ls| && ls[i] == ks[0];
    assert ls[0] in ls;
    var j :| 0 <= j < |ks| && ks[j] == ls[0];
    if i > 0 && j > 0 {
      LessIsStrict(ls[0], ls[i]);
    }
  }

  lemma TailLists(ks: seq<string>, s: set<string>)
    requires Lists(ks, s) && ks != []
    ensures Lists(ks[1..], s - {ks[0]})
  {
    forall k
      ensures k in ks[1..] <==> k in s - {ks[0]}
    {
      if k in ks[1..] {
        var i :| 0 <= i < |ks[1..]| && ks[1..][i] == k;
        assert ks[i + 1] == k;
        LessIsStrict(ks[0], ks[i + 1]);
      }
    }
  }

  /** Every set has its listing. */
  lemma {:induction false} ListingExists(s: set<string>) returns (ks: seq<string>)
    ensures Lists(ks, s)
    decreases |s|
  {
    if s == {} {
      ks := [];
    } else {
      var m := Least(s);
      var rest := ListingExists(s - {m});
      ks := [m] + rest;
      assert forall i | 0 < i < |ks| :: ks[i] == rest[i - 1] && rest[i - 1] in rest;
      assert forall k :: k in ks <==> k == m || k in rest;
    }
  }

  lemma {:induction false} Least(s: set<string>) returns (m: string)
    requires s != {}
    ensures m in s && forall k | k in s && k != m :: Less(m, k)
    decreases |s|
  {
    m :| m in s;
    if s != {m} {
      var n := Least(s - {m});
      LessIsTotal(m, n);
      var least := if Less(m, n) then m else n;
      forall k | k in s && k != least
        ensures Less(least, k)
      {
        if k != m && k != n && least == m {
          assert Less(n, k);
          LessIsTransitive(m, n, k);
        }
      }
      m := least;
    }
  }

  lemma HasListing(s: set<string>)
    ensures exists ks :: Lists(ks, s)
  {
    var ks := ListingExists(s);
  }

  ghost function Sorted(s: set<string>): (ks: seq<string>)
    ensures Lists(ks, s)
  {
    HasListing(s);
    var ks :| Lists(ks, s);
    ks
  }

  /** Collects the keys and sorts them by insertion. */
  method SortKeys(s: set<string>) returns (ks: seq<string>)
    ensures ks == Sorted(s)
  {
    ks := [];
    var todo := s;
    while todo != {}
      invariant todo <= s && Lists(ks, s - todo)
    {
      var k :| k in todo;
      ks := Insert(ks, k, s - todo);
      todo := todo - {k};
      assert s - todo == (s - (todo + {k})) + {k};
    }
    assert s - todo == s;
    ListingIsUnique(ks, Sorted(s), s);
  }

  method Insert(ks: seq<string>, k: string, ghost s: set<string>) returns (out: seq<string>)
    requires Lists(ks, s) && k !in s
    ensures Lists(out, s + {k})
  {
    var i := 0;
    while i < |ks| && Less(ks[i], k)
      invariant 0 <= i <= |ks| && forall j | 0 <= j < i :: Less(ks[j], k)
    {
      i := i + 1;
    }
    out := ks[..i] + [k] + ks[i..];
    forall j | i <= j < |ks|
      ensures Less(k, ks[j])
    {
      assert ks[i] in ks;
      LessIsTotal(k, ks[i]);
      if i < j {
        LessIsTransitive(k, ks[i], ks[j]);
      }
    }
    assert forall x :: x in out <==> x in ks || x == k;
  }
}
