/** Splitting a text at a separator the way splitDomain and splitLines both do:
    every separator ends a segment, and a non-empty rest is one more. */
module Splitting {

  /** The position of the first `sep`; the length if there is none. */
  function Find<T(==)>(s: seq<T>, sep: T): (i: nat)
    ensures i <= |s| && sep !in s[..i]
    ensures i < |s| ==> s[i] == sep
  {
    if s == [] || s[0] == sep then 0
    else
      var i := 1 + Find(s[1..], sep);
      assert s[..i] == [s[0]] + s[1..][..i - 1];
      i
  }

  function Split<T(==)>(s: seq<T>, sep: T): seq<seq<T>>
    decreases |s|
  {
    if s == [] then []
    else
      var i := Find(s, sep);
      if i == |s| then [s] else [s[..i]] + Split(s[i + 1..], sep)
  }

  /** The segments, each ended by a separator. */
  function Terminated<T>(segments: seq<seq<T>>, sep: T): seq<T> {
    if segments == [] then [] else segments[0] + [sep] + Terminated(segments[1..], sep)
  }

  /** The segments with a separator between neighbours. */
  function Join<T>(segments: seq<seq<T>>, sep: T): seq<T> {
    if segments == [] then []
    else if |segments| == 1 then segments[0]
    else segments[0] + [sep] + Join(segments[1..], sep)
  }

  ghost predicate Free<T>(segments: seq<seq<T>>, sep: T) {
    forall i :: 0 <= i < |segments| ==> sep !in segments[i]
  }

  lemma FindFirst<T>(segment: seq<T>, sep: T, rest: seq<T>)
    requires sep !in segment
    ensures Find(segment + [sep] + rest, sep) == |segment|
  {
    var s := segment + [sep] + rest;
    var i := Find(s, sep);
    assert s[|segment|] == sep;
    assert forall j :: 0 <= j < |segment| ==> s[j] == segment[j];
  }

  lemma SplitSegment<T>(segment: seq<T>, sep: T, rest: seq<T>)
    requires sep !in segment
    ensures Split(segment + [sep] + rest, sep) == [segment] + Split(rest, sep)
  {
    var s := segment + [sep] + rest;
    FindFirst(segment, sep, rest);
    assert s[..|segment|] == segment && s[|segment| + 1..] == rest;
  }

  lemma FindNone<T>(s: seq<T>, sep: T)
    requires sep !in s
    ensures Find(s, sep) == |s|
  {
  }

  /** What the scanning loop has found when it has read `s` up to `i` and its last
      segment began at `start`. */
  ghost predicate Scanned<T>(s: seq<T>, sep: T, found: seq<seq<T>>, start: nat, i: nat) {
    start <= i <= |s| && sep !in s[start..i] && found + Split(s[start..], sep) == Split(s, sep)
  }

  lemma ScanStep<T>(s: seq<T>, sep: T, found: seq<seq<T>>, start: nat, i: nat)
    requires Scanned(s, sep, found, start, i) && i < |s|
    ensures s[i] == sep ==> Scanned(s, sep, found + [s[start..i]], i + 1, i + 1)
    ensures s[i] != sep ==> Scanned(s, sep, found, start, i + 1)
  {
    if s[i] == sep {
      var segment, rest := s[start..i], s[i + 1..];
      assert s[start..] == segment + [sep] + rest;
      SplitSegment(segment, sep, rest);
      Regroup(found, [segment], Split(rest, sep));
    } else {
      assert s[start..i + 1] == s[start..i] + [s[i]];
    }
  }

  lemma Regroup<T>(a: seq<T>, b: seq<T>, c: seq<T>)
    ensures a + (b + c) == a + b + c
  {
  }

  lemma ScanEnd<T>(s: seq<T>, sep: T, found: seq<seq<T>>, start: nat)
    requires Scanned(s, sep, found, start, |s|)
    ensures Split(s, sep) == if start < |s| then found + [s[start..]] else found
  {
    assert s[start..|s|] == s[start..];
    if start < |s| {
      FindNone(s[start..], sep);
    } else {
      assert s[start..] == [];
    }
  }

  lemma {:induction false} TerminatedSnoc<T>(segments: seq<seq<T>>, last: seq<T>, sep: T)
    ensures Terminated(segments + [last], sep) == Terminated(segments, sep) + last + [sep]
  {
    if segments == [] {
      assert (segments + [last])[1..] == [];
    } else {
      assert (segments + [last])[1..] == segments[1..] + [last];
      TerminatedSnoc(segments[1..], last, sep);
    }
  }

  lemma {:induction false} SplitTerminated<T>(segments: seq<seq<T>>, sep: T)
    requires Free(segments, sep)
    ensures Split(Terminated(segments, sep), sep) == segments
  {
    if segments != [] {
      SplitTerminated(segments[1..], sep);
      SplitSegment(segments[0], sep, Terminated(segments[1..], sep));
    }
  }

  /** Splitting undoes joining when no segment contains the separator and the last
      is not empty. */
  lemma {:induction false} SplitJoin<T>(segments: seq<seq<T>>, sep: T)
    requires Free(segments, sep)
    requires segments != [] ==> segments[|segments| - 1] != []
    ensures Split(Join(segments, sep), sep) == segments
  {
    if |segments| == 1 {
      FindNone(segments[0], sep);
    } else if |segments| > 1 {
      SplitJoin(segments[1..], sep);
      SplitSegment(segments[0], sep, Join(segments[1..], sep));
    }
  }

  lemma OneMoreSegment<T>(segment: seq<T>, segments: seq<seq<T>>, sep: T)
    requires sep !in segment && Free(segments, sep)
    ensures Free([segment] + segments, sep)
    ensures Terminated([segment] + segments, sep) == segment + [sep] + Terminated(segments, sep)
  {
    assert ([segment] + segments)[1..] == segments;
  }

  /** A text is recovered from its segments up to one trailing separator. */
  lemma {:induction false} SplitRecovers<T>(s: seq<T>, sep: T)
    ensures Terminated(Split(s, sep), sep) == s || Terminated(Split(s, sep), sep) == s + [sep]
    ensures Free(Split(s, sep), sep)
    decreases |s|
  {
    if s != [] {
      var i := Find(s, sep);
      if i == |s| {
        assert s[..i] == s;
        assert Split(s, sep) == [s] && [s][1..] == [];
      } else {
        var segment, rest := s[..i], s[i + 1..];
        assert s == segment + [sep] + rest;
        SplitSegment(segment, sep, rest);
        SplitRecovers(rest, sep);
        hide Split, Find;
        OneMoreSegment(segment, Split(rest, sep), sep);
        hide Terminated, Free;
        Regroup(segment + [sep], rest, [sep]);
      }
    }
  }
}
