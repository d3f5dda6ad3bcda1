/** The secrets file (internal/secret/rotation.go): one name=value line per secret. */
module Secrets {
  import opened Slices
  import opened Splitting

  const NEWLINE := '\n'
  const EQUALS := '='

  function Line(name: string, value: string): string {
    name + [EQUALS] + value
  }

  /** The lines in the order `order` visits the map. */
  function Lines(secrets: map<string, string>, order: seq<string>): seq<string>
    requires forall k :: k in order ==> k in secrets
  {
    if order == [] then []
    else
      var n := |order| - 1;
      assert order[n] in order;
      Lines(secrets, order[..n]) + [Line(order[n], secrets[order[n]])]
  }

  /** What a line adds to the map that is being loaded. */
  function WithLine(secrets: map<string, string>, line: string): map<string, string> {
    var i := Find(line, EQUALS);
    if i == |line| then secrets else secrets[line[..i] := line[i + 1..]]
  }

  function FromLines(lines: seq<string>): map<string, string> {
    if lines == [] then map[] else WithLine(FromLines(lines[..|lines| - 1]), lines[|lines| - 1])
  }

  // ----- The code --------------------------------------------------------------------

  /** The text written to the file, for whatever order the map is visited in. */
  method SaveSecrets(secrets: map<string, string>) returns (data: string, order: seq<string>)
    ensures Enumerates(order, secrets.Keys)
    ensures data == Terminated(Lines(secrets, order), '\n')
  {
    data, order := "", [];
    var todo := secrets.Keys;
    while todo != {}
      invariant todo <= secrets.Keys && Distinct(order)
      invariant forall k :: k in order <==> k in secrets && k !in todo
      invariant data == Terminated(Lines(secrets, order), NEWLINE)
      decreases |todo|
    {
      var name :| name in todo;
      todo := todo - {name};
      assert forall i :: 0 <= i < |order| ==> order[i] in order;
      OneMoreLine(secrets, order, name);
      data := data + (name + [EQUALS] + secrets[name] + [NEWLINE]);
      order := order + [name];
    }
  }

  lemma OneMoreLine(secrets: map<string, string>, order: seq<string>, name: string)
    requires name in secrets && forall k :: k in order ==> k in secrets
    ensures Terminated(Lines(secrets, order + [name]), '\n')
            == Terminated(Lines(secrets, order), '\n') + (name + ['='] + secrets[name] + ['\n'])
  {
    var before, line := Lines(secrets, order), Line(name, secrets[name]);
    assert (order + [name])[..|order|] == order;
    TerminatedSnoc(before, line, NEWLINE);
    Regroup(Terminated(before, NEWLINE), line, [NEWLINE]);
  }

  method LoadSecrets(data: string) returns (secrets: map<string, string>)
    ensures secrets == FromLines(Split(data, '\n'))
  {
    secrets := map[];
    var lines := SplitLines(data);
    for i := 0 to |lines|
      invariant secrets == FromLines(lines[..i])
    {
      assert lines[..i + 1][..i] == lines[..i];
      var line := lines[i];
      if line == "" {
        continue;
      }
      var parts := SplitKeyEqualsValue(line);
      if |parts| == 2 {
        secrets := secrets[parts[0] := parts[1]];
      }
    }
    assert lines[..|lines|] == lines;
  }

  method SplitLines(s: string) returns (lines: seq<string>)
    ensures lines == Split(s, '\n')
  {
    lines := [];
    var start := 0;
    for i := 0 to |s|
      invariant Scanned(s, NEWLINE, lines, start, i)
    {
      ScanStep(s, NEWLINE, lines, start, i);
      if s[i] == NEWLINE {
        lines := lines + [s[start..i]];
        start := i + 1;
      }
    }
    ScanEnd(s, NEWLINE, lines, start);
    if start < |s| {
      lines := lines + [s[start..]];
    }
  }

  method SplitKeyEqualsValue(s: string) returns (parts: seq<string>)
    ensures var i := Find(s, '=');
            parts == if i == |s| then [s] else [s[..i], s[i + 1..]]
  {
    for i := 0 to |s|
      invariant EQUALS !in s[..i]
    {
      if s[i] == EQUALS {
        assert s == s[..i] + [EQUALS] + s[i + 1..];
        FindFirst(s[..i], EQUALS, s[i + 1..]);
        return [s[..i], s[i + 1..]];
      }
    }
    assert s[..|s|] == s;
    FindNone(s, EQUALS);
    parts := [s];
  }

  // ----- The round trip ------------------------------------------------------------------

  /** No name contains '=' or a newline, and no value contains a newline. */
  ghost predicate Storable(secrets: map<string, string>) {
    forall k :: k in secrets ==> '=' !in k && '\n' !in k && '\n' !in secrets[k]
  }

  ghost predicate SafeLines(secrets: map<string, string>, order: seq<string>) {
    forall k :: k in order ==> k in secrets && EQUALS !in k && NEWLINE !in k && NEWLINE !in secrets[k]
  }

  lemma LineParts(name: string, value: string)
    requires EQUALS !in name
    ensures Find(Line(name, value), EQUALS) == |name|
    ensures Line(name, value)[..|name|] == name && Line(name, value)[|name| + 1..] == value
  {
    FindFirst(name, EQUALS, value);
  }

  lemma {:induction false} LinesLoadBack(secrets: map<string, string>, order: seq<string>)
    requires SafeLines(secrets, order)
    ensures FromLines(Lines(secrets, order)) == Visited(secrets, order)
    ensures Free(Lines(secrets, order), NEWLINE)
    decreases |order|
  {
    if order != [] {
      var n := |order| - 1;
      var front, k := order[..n], order[n];
      assert order == front + [k];
      assert k in order;
      LinesLoadBack(secrets, front);
      LoadsLine(Lines(secrets, front), k, secrets[k]);
      VisitedSnoc(secrets, front, k);
    }
  }

  /** The part of the map that `order` has visited. */
  function Visited(secrets: map<string, string>, order: seq<string>): map<string, string>
    requires forall k :: k in order ==> k in secrets
  {
    map k | k in order :: secrets[k]
  }

  lemma VisitedSnoc(secrets: map<string, string>, order: seq<string>, k: string)
    requires k in secrets && forall j :: j in order ==> j in secrets
    ensures Visited(secrets, order + [k]) == Visited(secrets, order)[k := secrets[k]]
  {
  }

  lemma LoadsLine(lines: seq<string>, name: string, value: string)
    requires EQUALS !in name && NEWLINE !in name && NEWLINE !in value && Free(lines, NEWLINE)
    ensures FromLines(lines + [Line(name, value)]) == FromLines(lines)[name := value]
    ensures Free(lines + [Line(name, value)], NEWLINE)
  {
    LineParts(name, value);
    assert (lines + [Line(name, value)])[..|lines|] == lines;
  }

  /** The line sets `k`: it starts with `k` and its first equals sign follows. */
  predicate Sets(line: string, k: string) {
    |k| < |line| && line[..|k|] == k && line[|k|] == '=' && '=' !in k
  }

  lemma SetsFind(line: string, k: string)
    ensures Sets(line, k) <==> Find(line, EQUALS) < |line| && line[..Find(line, EQUALS)] == k
  {
    if Sets(line, k) {
      assert line == k + [EQUALS] + line[|k| + 1..];
      FindFirst(k, EQUALS, line[|k| + 1..]);
    }
  }

  /** Loading leaves exactly the names some line sets, each with what follows the equals
      sign on the last line that sets it; all other lines are skipped. */
  lemma {:induction false} LoadedExactly(lines: seq<string>, k: string)
    ensures k in FromLines(lines) <==> exists i :: 0 <= i < |lines| && Sets(lines[i], k)
    ensures forall i | 0 <= i < |lines| && Sets(lines[i], k)
        && (forall j :: i < j < |lines| ==> !Sets(lines[j], k)) ::
      FromLines(lines)[k] == lines[i][|k| + 1..]
    decreases |lines|
  {
    hide Sets, Find;
    if lines != [] {
      var n := |lines| - 1;
      var front, last := lines[..n], lines[n];
      LoadedExactly(front, k);
      SetsFind(last, k);
      assert forall i :: 0 <= i < n ==> front[i] == lines[i];
      if Sets(last, k) {
        LineSets(FromLines(front), last, k);
      } else {
        assert k in FromLines(lines) <==> k in FromLines(front);
        assert k in FromLines(front) ==> FromLines(lines)[k] == FromLines(front)[k];
        if exists i :: 0 <= i < n && Sets(lines[i], k) {
          var i :| 0 <= i < n && Sets(lines[i], k);
          assert Sets(front[i], k);
        }
      }
    }
  }

  lemma LineSets(secrets: map<string, string>, line: string, k: string)
    requires Sets(line, k)
    ensures WithLine(secrets, line) == secrets[k := line[|k| + 1..]]
  {
    SetsFind(line, k);
  }

  /** Loading from newline-free lines yields only storable entries. */
  lemma {:induction false} LoadedStorable(lines: seq<string>)
    requires Free(lines, NEWLINE)
    ensures Storable(FromLines(lines))
  {
    if lines != [] {
      var n := |lines| - 1;
      LoadedStorable(lines[..n]);
      var line := lines[n];
      var i := Find(line, EQUALS);
      if i < |line| {
        assert NEWLINE !in line[..i] && NEWLINE !in line[i + 1..];
      }
    }
  }

  /** What was saved loads back unchanged exactly when no name contains '=' or a
      newline and no value a newline, in whatever order the map was written. */
  lemma SaveThenLoad(secrets: map<string, string>, order: seq<string>)
    requires Enumerates(order, secrets.Keys)
    ensures FromLines(Split(Terminated(Lines(secrets, order), '\n'), '\n')) == secrets <==> Storable(secrets)
  {
    var text := Terminated(Lines(secrets, order), NEWLINE);
    hide Split, Lines, Terminated, FromLines;
    if Storable(secrets) {
      LinesLoadBack(secrets, order);
      SplitTerminated(Lines(secrets, order), NEWLINE);
      assert Visited(secrets, order) == secrets;
    }
    SplitRecovers(text, NEWLINE);
    LoadedStorable(Split(text, NEWLINE));
  }
}
