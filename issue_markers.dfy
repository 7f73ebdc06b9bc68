/**
 * The "mark phase" of the Gosu lab editor for Gosu language tests
 * (GosuPanel.markErrorsForGosuLanguageTest and its helpers): the parse
 * issues of the current document are grouped by line, old issue-key
 * markers are cut off every line, and each line with issues gets a
 * trailing "  //## issuekeys: K1, K2" marker.  The document text is a
 * parameter and the new text is returned.
 */
module IssueMarkers {
  import opened Common
  import opened Strings

  /** What removeOldIssueKeyMarkers searches for. */
  const Marker := "  //## issuekeys:"
  /** What makeIssueString puts in front of the keys: the marker and one space. */
  const MarkerLead := "  //## issuekeys: "

  predicate NoNewline(s: string) { '\n' !in s }

  predicate AllNoNewline(lines: seq<string>)
  {
    forall i :: 0 <= i < |lines| ==> NoNewline(lines[i])
  }

  // ---------------------------------------------------------------- joinLines

  /** The text joinLines builds: every line, the last one included, followed by '\n'. */
  function Join(lines: seq<string>): string
  {
    if lines == [] then "" else Join(lines[..|lines| - 1]) + lines[|lines| - 1] + "\n"
  }

  /** Join seen from the front: the first line, its newline, then the rest. */
  lemma {:induction false} JoinCons(line: string, rest: seq<string>)
    ensures Join([line] + rest) == line + "\n" + Join(rest)
    decreases |rest|
  {
    if rest != [] {
      var init := rest[..|rest| - 1];
      assert ([line] + rest)[..|rest|] == [line] + init;
      JoinCons(line, init);
    }
  }

  /** joinLines: the lines concatenated, each one terminated by '\n'. */
  method JoinLines(strLines: array<string>) returns (r: string)
    ensures r == Join(strLines[..])
  {
    r := "";
    for i := 0 to strLines.Length
      invariant r == Join(strLines[..i])
    {
      assert strLines[..i + 1][..i] == strLines[..i];
      r := r + strLines[i] + "\n";
    }
    assert strLines[..strLines.Length] == strLines[..];
  }

  /** Every line contributes its own characters and one newline. */
  lemma {:induction false} JoinLength(lines: seq<string>, n: nat)
    requires n == |lines|
    ensures |Join(lines)| >= n
    ensures n > 0 ==> Join(lines)[|Join(lines)| - 1] == '\n'
    decreases n
  {
    if n > 0 {
      JoinLength(lines[..n - 1], n - 1);
    }
  }

  // ------------------------------------------------------- String.split("\n")

  /** The pieces of `text` between its newlines, empty ones included. */
  function Pieces(text: string): (r: seq<string>)
    ensures |r| >= 1
    ensures AllNoNewline(r)
    decreases |text|
  {
    if text == [] then [""]
    else if text[0] == '\n' then [""] + Pieces(text[1..])
    else
      var rest := Pieces(text[1..]);
      [[text[0]] + rest[0]] + rest[1..]
  }

  /** Drops the empty strings at the end, as String.split does. */
  function DropTrailingEmpty(s: seq<string>): (r: seq<string>)
    ensures |r| <= |s| && r == s[..|r|]
    ensures r != [] ==> r[|r| - 1] != ""
  {
    if s != [] && s[|s| - 1] == "" then DropTrailingEmpty(s[..|s| - 1]) else s
  }

  /**
   * text.split("\n"): with no newline the whole text (even an empty one) is the
   * only piece; otherwise the pieces with the trailing empty ones removed.
   */
  function SplitLines(text: string): (r: seq<string>)
    ensures AllNoNewline(r)
  {
    if '\n' !in text then [text] else DropTrailingEmpty(Pieces(text))
  }

  /** Splitting a line followed by a newline yields that line first. */
  lemma {:induction false} PiecesLine(line: string, rest: string)
    requires NoNewline(line)
    ensures Pieces(line + "\n" + rest) == [line] + Pieces(rest)
    decreases |line|
  {
    var t := line + "\n" + rest;
    if line == [] {
      assert t[1..] == rest;
    } else {
      assert t[1..] == line[1..] + "\n" + rest;
      PiecesLine(line[1..], rest);
      assert [t[0]] + line[1..] == line;
    }
  }

  /** The pieces of a joined text are its lines and one empty piece after the last newline. */
  lemma {:induction false} PiecesJoin(lines: seq<string>)
    requires AllNoNewline(lines)
    ensures Pieces(Join(lines)) == lines + [""]
    decreases |lines|
  {
    if lines != [] {
      JoinCons(lines[0], lines[1..]);
      assert [lines[0]] + lines[1..] == lines;
      PiecesLine(lines[0], Join(lines[1..]));
      PiecesJoin(lines[1..]);
    }
  }

  /** Splitting what joinLines produced gives the lines back, provided the last one is not empty. */
  lemma {:induction false} SplitJoin(lines: seq<string>)
    requires AllNoNewline(lines) && lines != [] && lines[|lines| - 1] != ""
    ensures SplitLines(Join(lines)) == lines
  {
    var t := Join(lines);
    JoinLength(lines, |lines|);
    assert '\n' in t;
    PiecesJoin(lines);
    assert (lines + [""])[..|lines|] == lines;
    assert DropTrailingEmpty(lines + [""]) == DropTrailingEmpty(lines);
  }

  // ------------------------------------------------ removeOldIssueKeyMarkers

  /** The prefix before the first occurrence of a pattern does not contain it. */
  lemma PrefixBeforeFirst(s: string, pat: string, i: nat)
    requires i <= |s| && |pat| > 0
    requires forall j: nat :: j < i ==> !OccursAt(s, pat, j)
    ensures !Contains(s[..i], pat)
  {
    forall j: nat | OccursAt(s[..i], pat, j)
      ensures false
    {
      assert s[..i][j..j + |pat|] == s[j..j + |pat|];
      assert OccursAt(s, pat, j);
    }
  }

  /** One line with its old marker, and everything after it, cut off. */
  function Strip(line: string): (r: string)
    ensures !Contains(r, Marker)
    ensures |r| <= |line| && r == line[..|r|]
    ensures !Contains(line, Marker) ==> r == line
    ensures Contains(line, Marker) ==> OccursAt(line, Marker, |r|)
    ensures forall j: nat :: j < |r| ==> !OccursAt(line, Marker, j)
  {
    match IndexOf(line, Marker)
    case None => line
    case Some(i) =>
      PrefixBeforeFirst(line, Marker, i);
      line[..i]
  }

  function StripAll(lines: seq<string>): (r: seq<string>)
    ensures |r| == |lines|
  {
    seq(|lines|, i requires 0 <= i < |lines| => Strip(lines[i]))
  }

  /** Stripping twice is stripping once. */
  lemma StripAllIdempotent(lines: seq<string>)
    ensures StripAll(StripAll(lines)) == StripAll(lines)
  {
  }

  /** removeOldIssueKeyMarkers: every entry cut at its first marker, in place; the length is kept. */
  method RemoveOldIssueKeyMarkers(lines: array<string>)
    modifies lines
    ensures lines[..] == StripAll(old(lines[..]))
  {
    for i := 0 to lines.Length
      invariant forall k :: 0 <= k < i ==> lines[k] == Strip(old(lines[k]))
      invariant forall k :: i <= k < lines.Length ==> lines[k] == old(lines[k])
    {
      match IndexOf(lines[i], Marker)
      case None =>
      case Some(issueIndex) =>
        lines[i] := lines[i][..issueIndex];
    }
  }

  // ---------------------------------------------------------- makeIssueString

  /**
   * The keys as the StringBuilder loop of makeIssueString joins them: ", "
   * goes before a key exactly when something is already in the builder.
   */
  function Accumulate(acc: string, keys: seq<string>): string
    decreases |keys|
  {
    if keys == [] then acc
    else Accumulate(acc + (if |acc| != 0 then ", " else "") + keys[0], keys[1..])
  }

  /** Every key preceded by ", ". */
  function Separated(keys: seq<string>): string
    decreases |keys|
  {
    if keys == [] then "" else ", " + keys[0] + Separated(keys[1..])
  }

  /** The keys joined by ", " in list order. */
  function JoinKeys(keys: seq<string>): string
  {
    if keys == [] then "" else keys[0] + Separated(keys[1..])
  }

  /** The marker text makeIssueString produces for a group of keys. */
  function IssueString(keys: seq<string>): string
  {
    MarkerLead + Accumulate("", keys)
  }

  /** Once the builder holds something, every further key gets its separator. */
  lemma {:induction false} AccumulateNonEmpty(acc: string, keys: seq<string>)
    requires acc != ""
    ensures Accumulate(acc, keys) == acc + Separated(keys)
    decreases |keys|
  {
    if keys != [] {
      AccumulateNonEmpty(acc + ", " + keys[0], keys[1..]);
    }
  }

  /** The builder loop joins the keys by ", " unless the first key is empty. */
  lemma {:induction false} IssueStringJoinsKeys(keys: seq<string>)
    requires keys == [] || keys[0] != ""
    ensures IssueString(keys) == MarkerLead + JoinKeys(keys)
  {
    if keys != [] {
      assert "" + "" + keys[0] == keys[0];
      AccumulateNonEmpty(keys[0], keys[1..]);
    }
  }

  /** With an empty first key, the separator before the second key is lost. */
  lemma EmptyFirstKeySwallowsSeparator()
    ensures IssueString(["", "a"]) == MarkerLead + "a"
    ensures JoinKeys(["", "a"]) == ", a"
  {
    assert Accumulate("", ["", "a"]) == Accumulate("", ["a"]);
    assert Accumulate("", ["a"]) == Accumulate("a", []);
  }

  /** makeIssueString: the marker lead followed by the keys, as the builder loop joins them. */
  method MakeIssueString(issues: seq<string>) returns (r: string)
    ensures r == IssueString(issues)
    ensures StartsWith(r, MarkerLead)
    ensures issues == [] || issues[0] != "" ==> r == MarkerLead + JoinKeys(issues)
  {
    var sb := "";
    for i := 0 to |issues|
      invariant Accumulate(sb, issues[i..]) == Accumulate("", issues)
    {
      assert issues[i..][1..] == issues[i + 1..];
      sb := sb + (if |sb| != 0 then ", " else "") + issues[i];
    }
    r := MarkerLead + sb;
    if issues == [] || issues[0] != "" {
      IssueStringJoinsKeys(issues);
    }
  }

  /** A newline-free key list gives a newline-free marker. */
  lemma {:induction false} AccumulateNoNewline(acc: string, keys: seq<string>)
    requires NoNewline(acc) && AllNoNewline(keys)
    ensures NoNewline(Accumulate(acc, keys))
    decreases |keys|
  {
    if keys != [] {
      var next := acc + (if |acc| != 0 then ", " else "") + keys[0];
      assert NoNewline(keys[0]);
      assert NoNewline(next);
      AccumulateNoNewline(next, keys[1..]);
    }
  }

  /** The marker that makeIssueString puts in front is found again by the stripper, at the right place. */
  lemma {:induction false} StripMarked(s: string, tail: string)
    requires !Contains(s, Marker)
    ensures Strip(s + MarkerLead + tail) == s
  {
    var t := s + MarkerLead + tail;
    var m := |Marker|;
    assert MarkerLead[..m] == Marker;
    assert Marker[..m - 1] == "  //## issuekeys";
    assert ':' !in Marker[..m - 1];
    assert t[|s|..|s| + m] == Marker;
    assert OccursAt(t, Marker, |s|);
    forall j: nat | j < |s|
      ensures !OccursAt(t, Marker, j)
    {
      if j + m <= |s| {
        if OccursAt(t, Marker, j) {
          assert t[j..j + m] == s[j..j + m];
          ContainsIff(s, Marker, j);
        }
      } else if j + m <= |t| {
        var k := j + m - 1 - |s|;
        assert 0 <= k < m - 1;
        assert t[j + m - 1] == MarkerLead[k] == Marker[..m - 1][k];
        assert t[j..j + m][m - 1] != Marker[m - 1];
      }
    }
    var r := IndexOf(t, Marker);
    assert r == Some(|s|);
    assert t[..|s|] == s;
  }

  // ------------------------------------------------------- addIssueKeyMarkers

  /** The markers appended to the 1-based lines listed, one after the other. */
  function AppendMarkers(s: seq<string>, lines: seq<int>, groups: map<int, seq<string>>): (r: seq<string>)
    requires forall i :: 0 <= i < |lines| ==> lines[i] in groups && 1 <= lines[i] <= |s|
    ensures |r| == |s|
    decreases |lines|
  {
    if lines == [] then s
    else
      var l := lines[|lines| - 1];
      var r := AppendMarkers(s, lines[..|lines| - 1], groups);
      r[l - 1 := r[l - 1] + IssueString(groups[l])]
  }

  /** Each entry whose 1-based line is among `at` gets that line's marker; the others are kept. */
  function MarkedAt(s: seq<string>, at: set<int>, groups: map<int, seq<string>>): (r: seq<string>)
    requires at <= groups.Keys
    ensures |r| == |s|
  {
    seq(|s|, i requires 0 <= i < |s| => if i + 1 in at then s[i] + IssueString(groups[i + 1]) else s[i])
  }

  /** Every line with issues gets its marker; the other lines are kept. */
  function Marked(s: seq<string>, groups: map<int, seq<string>>): (r: seq<string>)
    ensures |r| == |s|
  {
    MarkedAt(s, groups.Keys, groups)
  }

  /** Appending along a list of distinct lines marks exactly the lines listed, whatever their order. */
  lemma {:induction false} AppendMarkersMarks(s: seq<string>, lines: seq<int>, groups: map<int, seq<string>>)
    requires forall i :: 0 <= i < |lines| ==> lines[i] in groups && 1 <= lines[i] <= |s|
    requires Distinct(lines)
    ensures Elems(lines) <= groups.Keys
    ensures AppendMarkers(s, lines, groups) == MarkedAt(s, Elems(lines), groups)
    decreases |lines|
  {
    if lines != [] {
      var n := |lines| - 1;
      var front, l := lines[..n], lines[n];
      DistinctSnoc(lines);
      AppendMarkersMarks(s, front, groups);
      var prev := AppendMarkers(s, front, groups);
      assert AppendMarkers(s, lines, groups) == prev[l - 1 := prev[l - 1] + IssueString(groups[l])];
      MarkOneMore(s, Elems(front), l, groups);
      assert Elems(front) + {l} == Elems(lines);
    }
  }

  /** Marking one more line, which was not marked yet, updates just its entry. */
  lemma MarkOneMore(s: seq<string>, at: set<int>, l: int, groups: map<int, seq<string>>)
    requires at <= groups.Keys && l in groups && l !in at && 1 <= l <= |s|
    ensures var m := MarkedAt(s, at, groups);
      m[l - 1 := m[l - 1] + IssueString(groups[l])] == MarkedAt(s, at + {l}, groups)
  {
  }

  /**
   * addIssueKeyMarkers: appends the marker of each listed 1-based line to that
   * entry, in list order.  A line outside the array makes Java throw
   * ArrayIndexOutOfBoundsException; here that is `ok == false`, and the
   * entries of the lines listed before the first bad one keep their markers.
   */
  method AddIssueKeyMarkers(strLines: array<string>, lines: seq<int>, groups: map<int, seq<string>>)
    returns (ok: bool)
    requires forall i :: 0 <= i < |lines| ==> lines[i] in groups
    modifies strLines
    ensures ok <==> forall i :: 0 <= i < |lines| ==> 1 <= lines[i] <= strLines.Length
    ensures ok ==> strLines[..] == AppendMarkers(old(strLines[..]), lines, groups)
    ensures !ok ==> exists n :: (0 <= n < |lines| && !(1 <= lines[n] <= strLines.Length) &&
                                (forall k :: 0 <= k < n ==> 1 <= lines[k] <= strLines.Length) &&
                                strLines[..] == AppendMarkers(old(strLines[..]), lines[..n], groups))
  {
    ok := true;
    for i := 0 to |lines|
      invariant forall k :: 0 <= k < i ==> 1 <= lines[k] <= strLines.Length
      invariant strLines[..] == AppendMarkers(old(strLines[..]), lines[..i], groups)
    {
      var iLine := lines[i];
      if !(1 <= iLine <= strLines.Length) {
        ok := false;
        return;
      }
      var issues := MakeIssueString(groups[iLine]);
      assert lines[..i + 1][..i] == lines[..i];
      strLines[iLine - 1] := strLines[iLine - 1] + issues;
    }
    assert lines[..|lines|] == lines;
  }

  // ------------------------------------------- grouping the issues by line

  /** A parse issue: its message key (null for some issues) and its 1-based line. */
  datatype ParseIssue = ParseIssue(messageKey: Option<string>, line: int)

  /** The keys of the keyed issues on `line`, in encounter order. */
  function KeysOnLine(issues: seq<ParseIssue>, line: int): seq<string>
  {
    if issues == [] then []
    else
      var last := issues[|issues| - 1];
      KeysOnLine(issues[..|issues| - 1], line) +
        (if last.messageKey.Some? && last.line == line then [last.messageKey.value] else [])
  }

  /** The lines that carry at least one keyed issue. */
  function IssueLines(issues: seq<ParseIssue>): set<int>
  {
    set i | 0 <= i < |issues| && issues[i].messageKey.Some? :: issues[i].line
  }

  /** The issue map markErrorsForGosuLanguageTest builds: line to its keys. */
  function Groups(issues: seq<ParseIssue>): map<int, seq<string>>
  {
    map l | l in IssueLines(issues) :: KeysOnLine(issues, l)
  }

  /** A line is a key of the map exactly when some keyed issue is on it, so no group is empty. */
  lemma {:induction false} KeysOnLineNonEmpty(issues: seq<ParseIssue>, line: int)
    ensures line in IssueLines(issues) <==> KeysOnLine(issues, line) != []
    decreases |issues|
  {
    if issues != [] {
      var n := |issues| - 1;
      KeysOnLineNonEmpty(issues[..n], line);
      assert IssueLines(issues) == IssueLines(issues[..n]) +
        (if issues[n].messageKey.Some? then {issues[n].line} else {});
    }
  }

  /** The map after one more issue: its key appended to its line's list, if it has a key. */
  lemma GroupsStep(issues: seq<ParseIssue>)
    requires issues != []
    ensures var n := |issues| - 1; var pi := issues[n]; var g := Groups(issues[..n]);
      Groups(issues) ==
        if pi.messageKey.None? then g
        else g[pi.line := (if pi.line in g then g[pi.line] else []) + [pi.messageKey.value]]
  {
    var n := |issues| - 1;
    var pi := issues[n];
    var g := Groups(issues[..n]);
    IssueLinesSnoc(issues);
    if pi.messageKey.Some? {
      KeysOnLineNonEmpty(issues[..n], pi.line);
      var e := g[pi.line := (if pi.line in g then g[pi.line] else []) + [pi.messageKey.value]];
      assert Groups(issues).Keys == e.Keys;
      forall l | l in e
        ensures Groups(issues)[l] == e[l]
      {
        if l != pi.line {
          assert l in IssueLines(issues[..n]);
        }
      }
    } else {
      assert Groups(issues).Keys == g.Keys;
      forall l | l in g
        ensures Groups(issues)[l] == g[l]
      {
      }
    }
  }

  /** The lines of one more issue: those before it, and its own if it has a key. */
  lemma IssueLinesSnoc(issues: seq<ParseIssue>)
    requires issues != []
    ensures var n := |issues| - 1;
      IssueLines(issues) == IssueLines(issues[..n]) + (if issues[n].messageKey.Some? then {issues[n].line} else {})
  {
    var n := |issues| - 1;
    forall i | 0 <= i < n
      ensures issues[..n][i] == issues[i]
    {
    }
  }

  /** The grouping loop: each keyed issue is appended to the list of its line, null keys are skipped. */
  method GroupIssues(issues: seq<ParseIssue>) returns (groups: map<int, seq<string>>)
    ensures groups == Groups(issues)
    ensures forall l :: l in groups ==> groups[l] != []
  {
    groups := map[];
    for i := 0 to |issues|
      invariant groups == Groups(issues[..i])
    {
      var pi := issues[i];
      GroupsStep(issues[..i + 1]);
      assert issues[..i + 1][..i] == issues[..i];
      if pi.messageKey.Some? {
        var issue := pi.messageKey.value;
        var iLine := pi.line;
        var list := if iLine in groups then groups[iLine] else [];
        groups := groups[iLine := list + [issue]];
      }
    }
    assert issues[..|issues|] == issues;
    forall l | l in groups
      ensures groups[l] != []
    {
      KeysOnLineNonEmpty(issues, l);
    }
  }

  predicate Increasing(s: seq<int>)
  {
    forall i, j :: 0 <= i < j < |s| ==> s[i] < s[j]
  }

  /** `x` put in its place in an increasing sequence. */
  function Insert(s: seq<int>, x: int): (r: seq<int>)
    requires Increasing(s) && x !in s
    ensures Increasing(r) && Elems(r) == Elems(s) + {x} && |r| == |s| + 1
  {
    if s == [] then [x]
    else if x < s[0] then [x] + s
    else
      var rest := Insert(s[1..], x);
      assert Elems(s) == {s[0]} + Elems(s[1..]);
      assert forall y :: y in Elems(rest) ==> y > s[0];
      assert forall j :: 0 <= j < |rest| ==> rest[j] in Elems(rest);
      [s[0]] + rest
  }

  /** The key list of the map, sorted ascending (Collections.sort over the key set). */
  method SortedLines(keys: set<int>) returns (lines: seq<int>)
    ensures Increasing(lines) && Elems(lines) == keys
  {
    lines := [];
    var rest := keys;
    while rest != {}
      invariant Increasing(lines)
      invariant Elems(lines) + rest == keys && Elems(lines) !! rest
      decreases rest
    {
      var x := Pick(rest);
      lines := Insert(lines, x);
      rest := rest - {x};
    }
  }

  /** An increasing list has no repetitions. */
  lemma IncreasingDistinct(s: seq<int>)
    requires Increasing(s)
    ensures Distinct(s)
  {
  }

  // ------------------------------------------ markErrorsForGosuLanguageTest

  /** The parse results of the document: error and warning flags and the issues. */
  datatype ParseResults = ParseResults(hasParseExceptions: bool, hasParseWarnings: bool, issues: seq<ParseIssue>)

  /**
   * What the mark phase does to the document: nothing, replace its whole text,
   * or stop on an issue line that is not a line of the text (an exception in
   * Java, thrown before the document is touched).
   */
  datatype MarkOutcome = Untouched | Replaced(text: string) | LineOutOfBounds

  /** Every issue line is a 1-based line of the split text. */
  predicate LinesInRange(text: string, issues: seq<ParseIssue>)
  {
    forall l :: l in IssueLines(issues) ==> 1 <= l <= |SplitLines(text)|
  }

  /** The lines of the marked document: old markers stripped, then the new ones appended. */
  function MarkedLines(text: string, issues: seq<ParseIssue>): seq<string>
  {
    Marked(StripAll(SplitLines(text)), Groups(issues))
  }

  /**
   * markErrorsForGosuLanguageTest: with no parse results, or none with errors
   * or warnings, the document is left alone; otherwise its lines are
   * stripped of old markers and marked anew, and the text replaced.
   */
  method MarkErrorsForGosuLanguageTest(pre: Option<ParseResults>, text: string) returns (out: MarkOutcome)
    ensures pre.None? || (!pre.value.hasParseExceptions && !pre.value.hasParseWarnings) ==> out == Untouched
    ensures pre.Some? && (pre.value.hasParseExceptions || pre.value.hasParseWarnings) ==>
      out == if LinesInRange(text, pre.value.issues)
             then Replaced(Join(MarkedLines(text, pre.value.issues)))
             else LineOutOfBounds
  {
    if pre.None? || (!pre.value.hasParseExceptions && !pre.value.hasParseWarnings) {
      return Untouched;
    }
    var issues := pre.value.issues;
    var groups := GroupIssues(issues);
    var lines := SortedLines(groups.Keys);
    var pieces := SplitLines(text);
    var strLines := new string[|pieces|](i requires 0 <= i < |pieces| => pieces[i]);
    assert strLines[..] == pieces;
    RemoveOldIssueKeyMarkers(strLines);
    ghost var stripped := strLines[..];
    var ok := AddIssueKeyMarkers(strLines, lines, groups);
    assert groups.Keys == IssueLines(issues);
    assert forall l :: l in IssueLines(issues) <==> l in Elems(lines);
    if !ok {
      return LineOutOfBounds;
    }
    IncreasingDistinct(lines);
    AppendMarkersMarks(stripped, lines, groups);
    var joined := JoinLines(strLines);
    out := Replaced(joined);
  }

  // --------------------------------------------- re-marking does not pile up

  /** Stripping a line with a fresh marker appended removes exactly that marker. */
  lemma StripIssueString(line: string, keys: seq<string>)
    requires !Contains(line, Marker)
    ensures Strip(line + IssueString(keys)) == line
  {
    StripMarked(line, Accumulate("", keys));
    assert line + IssueString(keys) == line + MarkerLead + Accumulate("", keys);
  }

  /** Stripping the marked lines gives back the stripped lines: old markers never accumulate. */
  lemma {:induction false} StripMarkedLines(lines: seq<string>, groups: map<int, seq<string>>)
    ensures StripAll(Marked(StripAll(lines), groups)) == StripAll(lines)
  {
    var st := StripAll(lines);
    var mk := Marked(st, groups);
    forall i | 0 <= i < |lines|
      ensures Strip(mk[i]) == st[i]
    {
      StripMarkedLine(st, groups, i);
    }
  }

  /** One entry of the marked lines, stripped, is the stripped entry. */
  lemma StripMarkedLine(st: seq<string>, groups: map<int, seq<string>>, i: int)
    requires 0 <= i < |st| && !Contains(st[i], Marker)
    ensures Strip(Marked(st, groups)[i]) == st[i]
  {
    if i + 1 in groups {
      StripIssueString(st[i], groups[i + 1]);
    }
  }

  /** Marking already-marked lines with the same issues gives the same lines. */
  lemma {:induction false} MarkingIdempotent(lines: seq<string>, groups: map<int, seq<string>>)
    ensures Marked(StripAll(Marked(StripAll(lines), groups)), groups) == Marked(StripAll(lines), groups)
  {
    StripMarkedLines(lines, groups);
  }

  /** The marked lines hold no newline when no issue key does. */
  lemma {:induction false} MarkedLinesNoNewline(text: string, issues: seq<ParseIssue>)
    requires forall i :: 0 <= i < |issues| && issues[i].messageKey.Some? ==> NoNewline(issues[i].messageKey.value)
    ensures AllNoNewline(MarkedLines(text, issues))
  {
    var pieces := SplitLines(text);
    forall i | 0 <= i < |pieces|
      ensures NoNewline(StripAll(pieces)[i])
    {
      var st := Strip(pieces[i]);
      assert NoNewline(pieces[i]);
      assert forall k :: 0 <= k < |st| ==> st[k] == pieces[i][k];
    }
    var g := Groups(issues);
    forall l | l in g
      ensures AllNoNewline(g[l])
    {
      KeysNoNewline(issues, l);
    }
    MarkedNoNewline(StripAll(pieces), g);
  }

  /** Marking lines free of newlines with keys free of newlines gives lines free of newlines. */
  lemma MarkedNoNewline(st: seq<string>, groups: map<int, seq<string>>)
    requires AllNoNewline(st)
    requires forall l :: l in groups ==> AllNoNewline(groups[l])
    ensures AllNoNewline(Marked(st, groups))
  {
    forall i | 0 <= i < |st|
      ensures NoNewline(Marked(st, groups)[i])
    {
      assert NoNewline(st[i]);
      if i + 1 in groups {
        AccumulateNoNewline("", groups[i + 1]);
        assert NoNewline(MarkerLead);
        assert Marked(st, groups)[i] == st[i] + (MarkerLead + Accumulate("", groups[i + 1]));
      }
    }
  }

  /** The keys grouped on a line are keys of issues. */
  lemma {:induction false} KeysNoNewline(issues: seq<ParseIssue>, line: int)
    requires forall i :: 0 <= i < |issues| && issues[i].messageKey.Some? ==> NoNewline(issues[i].messageKey.value)
    ensures AllNoNewline(KeysOnLine(issues, line))
    decreases |issues|
  {
    if issues != [] {
      KeysNoNewline(issues[..|issues| - 1], line);
    }
  }

  /**
   * Running the mark phase again on the text it produced, with the same issues,
   * produces that text again, provided the marked document does not end in an
   * empty line (split would drop it) and no issue key holds a newline.
   */
  lemma {:induction false} RemarkingIsStable(text: string, issues: seq<ParseIssue>)
    requires LinesInRange(text, issues)
    requires forall i :: 0 <= i < |issues| && issues[i].messageKey.Some? ==> NoNewline(issues[i].messageKey.value)
    requires MarkedLines(text, issues) != [] && MarkedLines(text, issues)[|MarkedLines(text, issues)| - 1] != ""
    ensures LinesInRange(Join(MarkedLines(text, issues)), issues)
    ensures MarkedLines(Join(MarkedLines(text, issues)), issues) == MarkedLines(text, issues)
  {
    var lines, g := SplitLines(text), Groups(issues);
    var m := Marked(StripAll(lines), g);
    assert m == MarkedLines(text, issues);
    MarkedLinesNoNewline(text, issues);
    SplitJoin(m);
    assert |SplitLines(Join(m))| == |lines|;
    MarkingIdempotent(lines, g);
    assert MarkedLines(Join(m), issues) == Marked(StripAll(m), g);
  }
}
