/** Enumerations of key sets, and the ordering `sort.Slice` produces. */
module Slices {
  import opened Sums
  import WeightedPick

  /** `s` lists every element of `keys` once: one possible order of a Go `range`. */
  ghost predicate Enumerates(s: seq<string>, keys: set<string>) {
    && (forall k :: k in keys <==> k in s)
    && Distinct(s)
  }

  ghost predicate Distinct(s: seq<string>) {
    forall i, j :: 0 <= i < j < |s| ==> s[i] != s[j]
  }

  /** Adding up along any enumeration gives the same sum. */
  lemma {:induction false} EnumerationTotal(m: map<string, nat>, order: seq<string>)
    requires Enumerates(order, m.Keys)
    ensures WeightedPick.Total(seq(|order|, i requires 0 <= i < |order| => m[order[i]])) == Sum(m)
    decreases |order|
  {
    var ws := seq(|order|, i requires 0 <= i < |order| => m[order[i]]);
    if |order| == 0 {
      assert m == map[];
    } else {
      var k, rest := order[0], order[1..];
      assert k in m;
      forall x ensures x in (m - {k}).Keys <==> x in rest {
        if x in rest {
          var i :| 0 <= i < |rest| && rest[i] == x;
          assert order[i + 1] == x && order[0] != x;
        }
      }
      EnumerationTotal(m - {k}, rest);
      SumTake(m, k);
      assert ws[1..] == seq(|rest|, i requires 0 <= i < |rest| => (m - {k})[rest[i]]);
    }
  }

  datatype Keyed = Keyed(name: string, key: real)

  ghost predicate Ascending(s: seq<Keyed>) {
    forall i, j :: 0 <= i < j < |s| ==> s[i].key <= s[j].key
  }

  /** What sort.Slice is asked for: the same elements in non-decreasing key order. */
  function SortByKey(s: seq<Keyed>): (r: seq<Keyed>)
    ensures multiset(r) == multiset(s)
    ensures Ascending(r)
  {
    if s == [] then []
    else
      var rest := SortByKey(s[1..]);
      InsertAscending(s[0], rest);
      InsertPermutes(s[0], rest);
      FrontAndRest(s);
      Insert(s[0], rest)
  }

  lemma FrontAndRest(s: seq<Keyed>)
    requires s != []
    ensures multiset(s) == multiset(s[1..]) + multiset{s[0]}
  {
    assert s == [s[0]] + s[1..];
  }

  function Insert(x: Keyed, s: seq<Keyed>): seq<Keyed> {
    if s == [] || x.key <= s[0].key then [x] + s else [s[0]] + Insert(x, s[1..])
  }

  lemma {:induction false} InsertAscending(x: Keyed, s: seq<Keyed>)
    requires Ascending(s)
    ensures Ascending(Insert(x, s))
    ensures forall y :: y in Insert(x, s) ==> y == x || y in s
  {
    if s != [] && x.key > s[0].key {
      var rest := Insert(x, s[1..]);
      InsertAscending(x, s[1..]);
      forall y | y in rest ensures s[0].key <= y.key {
        if y != x {
          var i :| 0 <= i < |s[1..]| && s[1..][i] == y;
          assert s[i + 1] == y;
        }
      }
      assert forall i :: 0 <= i < |rest| ==> rest[i] in rest;
    }
  }

  lemma {:induction false} InsertPermutes(x: Keyed, s: seq<Keyed>)
    ensures multiset(Insert(x, s)) == multiset(s) + multiset{x}
  {
    if s != [] && x.key > s[0].key {
      InsertPermutes(x, s[1..]);
      FrontAndRest(s);
    }
  }

  lemma SortKeeps(s: seq<Keyed>, x: Keyed)
    ensures x in SortByKey(s) <==> x in s
    ensures |SortByKey(s)| == |s|
  {
    assert x in multiset(s) <==> x in s;
    assert x in multiset(SortByKey(s)) <==> x in SortByKey(s);
    assert |multiset(s)| == |s| && |multiset(SortByKey(s))| == |SortByKey(s)|;
  }

  lemma OccursTwice(s: seq<Keyed>, i: nat, j: nat)
    requires i < j < |s| && s[i] == s[j]
    ensures multiset(s)[s[i]] >= 2
  {
    assert s == s[..i] + [s[i]] + s[i + 1..j] + [s[j]] + s[j + 1..];
  }
}
