/** The rewriting of the Codex configuration file: old notify lines go, the new one comes in before the tables. */
module CodexConfig {
  import opened GoText
  import opened Wrappers

  // ---------- Lines ----------

  /** strings.Split at line feeds: a text has one line more than it has line feeds. */
  function Split(s: Text): (lines: seq<Text>)
    ensures lines != []
  {
    if s == [] then [[]]
    else if s[0] == '\n' then [[]] + Split(s[1..])
    else
      var rest := Split(s[1..]);
      [[s[0]] + rest[0]] + rest[1..]
  }

  /** strings.Join with line feeds */
  function Join(lines: seq<Text>): Text {
    if lines == [] then []
    else if |lines| == 1 then lines[0]
    else lines[0] + ['\n'] + Join(lines[1..])
  }

  predicate OneLine(s: Text) { '\n' !in s }

  predicate Lines(lines: seq<Text>) {
    forall i :: 0 <= i < |lines| ==> OneLine(lines[i])
  }

  lemma {:induction false} JoinSplit(s: Text)
    ensures Join(Split(s)) == s && Lines(Split(s))
  {
    if s != [] {
      JoinSplit(s[1..]);
      if s[0] != '\n' {
        var rest := Split(s[1..]);
        JoinHead([s[0]], rest);
      }
    }
  }

  lemma JoinFirst(line: Text, rest: seq<Text>)
    ensures Join([line] + rest) == if rest == [] then line else line + ['\n'] + Join(rest)
  {
    assert ([line] + rest)[1..] == rest;
  }

  lemma JoinHead(part: Text, lines: seq<Text>)
    requires lines != []
    ensures Join([part + lines[0]] + lines[1..]) == part + Join(lines)
  {
    hide Join;
    var line, rest := lines[0], lines[1..];
    JoinFirst(part + line, rest);
    JoinFirst(line, rest);
    assert lines == [line] + rest;
    if rest != [] {
      assert part + line + ['\n'] + Join(rest) == part + (line + ['\n'] + Join(rest));
    }
  }

  lemma {:induction false} SplitLine(s: Text)
    requires OneLine(s)
    ensures Split(s) == [s]
  {
    if s != [] {
      assert s[0] in s;
      SplitLine(s[1..]);
      assert [s[0]] + s[1..] == s;
    }
  }

  lemma {:induction false} SplitFirst(s: Text, rest: Text)
    requires OneLine(s)
    ensures Split(s + ['\n'] + rest) == [s] + Split(rest)
    decreases |s|
  {
    var whole := s + ['\n'] + rest;
    if s == [] {
      assert whole[1..] == rest;
    } else {
      assert s[0] in s;
      SplitFirst(s[1..], rest);
      assert whole[1..] == s[1..] + ['\n'] + rest;
      assert [s[0]] + s[1..] == s;
    }
  }

  lemma {:induction false} SplitJoin(lines: seq<Text>)
    requires lines != [] && Lines(lines)
    ensures Split(Join(lines)) == lines
  {
    if |lines| == 1 {
      SplitLine(lines[0]);
    } else {
      SplitJoin(lines[1..]);
      SplitFirst(lines[0], Join(lines[1..]));
    }
  }

  lemma {:induction false} JoinAppend(a: seq<Text>, b: seq<Text>)
    requires a != [] && b != []
    ensures Join(a + b) == Join(a) + ['\n'] + Join(b)
    decreases |a|
  {
    if |a| == 1 {
      assert (a + b)[1..] == b;
    } else {
      JoinAppend(a[1..], b);
      assert (a + b)[1..] == a[1..] + b;
    }
  }

  /** A text with line feeds joined as one line gives the same as its lines. */
  lemma JoinNested(a: seq<Text>, s: Text, b: seq<Text>)
    ensures Join(a + [s] + b) == Join(a + Split(s) + b)
  {
    JoinSplit(s);
    assert Join([s]) == Join(Split(s));
    if a != [] {
      JoinAppend(a, [s]);
      JoinAppend(a, Split(s));
    } else {
      assert a + [s] == [s] && a + Split(s) == Split(s);
    }
    if b != [] {
      JoinAppend(a + [s], b);
      JoinAppend(a + Split(s), b);
    } else {
      assert a + [s] + b == a + [s] && a + Split(s) + b == a + Split(s);
    }
  }

  predicate EndsWithNewline(s: Text) { s != [] && s[|s| - 1] == '\n' }

  lemma {:induction false} JoinEnds(lines: seq<Text>)
    requires lines != [] && Lines(lines)
    ensures EndsWithNewline(Join(lines)) <==> |lines| >= 2 && lines[|lines| - 1] == []
  {
    var n := |lines| - 1;
    if n > 0 {
      JoinAppend(lines[..n], [lines[n]]);
      assert lines == lines[..n] + [lines[n]];
    }
  }

  // ---------- The rewriting ----------

  predicate IsNotify(line: Text) {
    var trimmed := TrimSpace(line);
    "notify" <= trimmed && '=' in trimmed
  }

  predicate IsTable(line: Text) { "[" <= TrimSpace(line) }

  predicate IsRemark(line: Text) { TrimSpace(line) == [] || "#" <= TrimSpace(line) }

  /** After white space, a notify line starts with "notify" and holds an equals sign, a table line starts with a
      bracket, and a remark is nothing at all or starts with a hash. */
  lemma LineKinds(line: Text)
    ensures IsNotify(line) <==> StartsWith(line, "notify") && '=' in line
    ensures IsTable(line) <==> StartsWith(line, "[")
    ensures IsRemark(line) <==> IsWhite(line) || StartsWith(line, "#")
  {
    hide TrimSpace, StartsWith, IsWhite;
    TrimmedStartsIff(line, "notify");
    TrimKeepsPrintable(line, '=');
    TrimmedStartsIff(line, "[");
    TrimmedStartsIff(line, "#");
    BlankIff(line);
  }

  function Kept(lines: seq<Text>): (kept: seq<Text>) {
    if lines == [] then [] else
      Kept(lines[..|lines| - 1]) + (if IsNotify(lines[|lines| - 1]) then [] else [lines[|lines| - 1]])
  }

  /** The place after the last top-level key before the first table. */
  function InsertIndex(lines: seq<Text>, i: nat, index: nat): (r: nat)
    requires index <= i <= |lines|
    ensures index <= r <= |lines|
    decreases |lines| - i
  {
    if i == |lines| then index
    else if IsRemark(lines[i]) then InsertIndex(lines, i + 1, index)
    else if IsTable(lines[i]) then index
    else InsertIndex(lines, i + 1, i + 1)
  }

  function FileLines(file: Option<Text>): seq<Text> {
    if file.Some? then Split(file.value) else []
  }

  function Inserted(notify: Text, kept: seq<Text>): seq<Text> {
    var at := InsertIndex(kept, 0, 0);
    kept[..at] + [notify] + kept[at..]
  }

  function Terminated(s: Text): Text {
    if EndsWithNewline(s) then s else s + ['\n']
  }

  /** The new contents of the file, which may not have existed. */
  function Rewritten(notify: Text, file: Option<Text>): Text {
    Terminated(Join(Inserted(notify, Kept(FileLines(file)))))
  }

  method RewriteConfig(notify: Text, file: Option<Text>) returns (content: Text)
    ensures content == Rewritten(notify, file)
  {
    hide TrimSpace, Join, Split, InsertIndex;
    var lines := if file.Some? then Split(file.value) else [];
    var filtered := [];
    for i := 0 to |lines|
      invariant filtered == Kept(lines[..i])
    {
      var trimmed := TrimSpace(lines[i]);
      assert lines[..i + 1][..i] == lines[..i];
      if "notify" <= trimmed && '=' in trimmed {
        continue;
      }
      filtered := filtered + [lines[i]];
    }
    assert lines[..|lines|] == lines;
    var insertIdx := FindInsertIndex(filtered);
    var newLines := filtered[..insertIdx] + [notify] + filtered[insertIdx..];
    content := Join(newLines);
    if !EndsWithNewline(content) {
      content := content + ['\n'];
    }
  }

  method FindInsertIndex(lines: seq<Text>) returns (insertIdx: nat)
    ensures insertIdx == InsertIndex(lines, 0, 0)
  {
    insertIdx := 0;
    for i := 0 to |lines|
      invariant insertIdx <= i && InsertIndex(lines, 0, 0) == InsertIndex(lines, i, insertIdx)
    {
      var trimmed := TrimSpace(lines[i]);
      if trimmed == [] || "#" <= trimmed {
        continue;
      }
      if "[" <= trimmed {
        return;
      }
      insertIdx := i + 1;
    }
  }

  function PlainHead(): (s: Text) ensures OneLine(s) { "notify = [\"" }
  function PlainArguments(): (s: Text) ensures OneLine(s) { "\", \"notify\", \"-t\", \"codex\", " }
  function PlainEnd(): (s: Text) ensures OneLine(s) { "\"--event-data\"" }
  function ResilientHead(): (s: Text) ensures OneLine(s) { "notify = [\"bash\", \"-c\", \"" }
  function ResilientArguments(): (s: Text) ensures OneLine(s) { " notify -t codex --event-data " }
  function ResilientEnd(): (s: Text) ensures OneLine(s) { "\\\"$1\\\" || true\", \"--\"" }
  function Marker(): (s: Text) ensures OneLine(s) { "] # tmuxatlas-agent-hook" }

  function Head(resilient: bool): Text { if resilient then ResilientHead() else PlainHead() }

  function Tail(resilient: bool): Text {
    if resilient then ResilientArguments() + ResilientEnd() + Marker() else PlainArguments() + PlainEnd() + Marker()
  }

  /** The notify line for a program path, in its plain and its failure-proof form. */
  function NotifyLine(program: Text, resilient: bool): Text {
    Head(resilient) + program + Tail(resilient)
  }

  // ---------- What the file holds afterwards ----------

  lemma {:induction false} KeptIsKept(lines: seq<Text>)
    requires Lines(lines)
    ensures Lines(Kept(lines)) && forall i :: 0 <= i < |Kept(lines)| ==> !IsNotify(Kept(lines)[i])
  {
    hide IsNotify;
    if lines != [] { KeptIsKept(lines[..|lines| - 1]); }
  }

  lemma {:induction false} KeptAll(lines: seq<Text>)
    requires forall i :: 0 <= i < |lines| ==> !IsNotify(lines[i])
    ensures Kept(lines) == lines
  {
    hide IsNotify;
    if lines != [] {
      KeptAll(lines[..|lines| - 1]);
      assert lines == lines[..|lines| - 1] + [lines[|lines| - 1]];
    }
  }

  ghost predicate EachNotify(lines: seq<Text>) {
    forall i :: 0 <= i < |lines| ==> IsNotify(lines[i])
  }

  lemma EachNotifyLast(lines: seq<Text>)
    requires lines != []
    ensures EachNotify(lines) <==> EachNotify(lines[..|lines| - 1]) && IsNotify(lines[|lines| - 1])
  {
    hide IsNotify;
    if EachNotify(lines[..|lines| - 1]) && IsNotify(lines[|lines| - 1]) {
      forall i | 0 <= i < |lines| ensures IsNotify(lines[i]) {
        if i < |lines| - 1 { assert lines[..|lines| - 1][i] == lines[i]; }
      }
    }
  }

  lemma {:induction false} KeptNone(lines: seq<Text>)
    ensures Kept(lines) == [] <==> EachNotify(lines)
  {
    hide IsNotify, EachNotify;
    if lines != [] {
      EachNotifyLast(lines);
      KeptNone(lines[..|lines| - 1]);
    } else {
      assert EachNotify([]) by { NoneIsEach(); }
    }
  }

  lemma NoneIsEach()
    ensures EachNotify([])
  {
  }

  lemma {:induction false} KeptAppend(a: seq<Text>, b: seq<Text>)
    ensures Kept(a + b) == Kept(a) + Kept(b)
    decreases |b|
  {
    hide IsNotify;
    if b == [] {
      assert a + b == a;
    } else {
      KeptAppend(a, b[..|b| - 1]);
      assert (a + b)[..|a + b| - 1] == a + b[..|b| - 1];
    }
  }

  /** The lines, with an empty one at the end for the final line feed. */
  function Closed(lines: seq<Text>): seq<Text> {
    if |lines| >= 2 && lines[|lines| - 1] == [] then lines else lines + [[]]
  }

  function NewLines(notify: Text, kept: seq<Text>): seq<Text> {
    var at := InsertIndex(kept, 0, 0);
    kept[..at] + Split(notify) + kept[at..]
  }

  /** The lines of the new file: those kept, in order, with the lines of the notify entry between them. */
  lemma RewrittenLines(notify: Text, file: Option<Text>)
    ensures Split(Rewritten(notify, file)) == Closed(NewLines(notify, Kept(FileLines(file))))
  {
    hide Join, Split, Kept, InsertIndex, TrimSpace;
    var kept := Kept(FileLines(file));
    if file.Some? { JoinSplit(file.value); }
    KeptIsKept(FileLines(file));
    JoinSplit(notify);
    var at := InsertIndex(kept, 0, 0);
    var lines := NewLines(notify, kept);
    JoinNested(kept[..at], notify, kept[at..]);
    assert Lines(lines);
    JoinEnds(lines);
    if !EndsWithNewline(Join(lines)) {
      JoinAppend(lines, [[]]);
      JoinNothing();
      assert Join(lines) + ['\n'] + [] == Join(lines) + ['\n'];
    }
    SplitJoin(Closed(lines));
  }

  lemma JoinNothing()
    ensures Join([[]]) == []
  {
  }

  /** From this place up to the first table or the end there are only remarks. */
  ghost predicate OnlyRemarksAfter(lines: seq<Text>, at: nat) {
    exists t :: at <= t <= |lines| && (t == |lines| || IsTable(lines[t])) && RemarksBetween(lines, at, t)
  }

  ghost predicate RemarksBetween(lines: seq<Text>, from: nat, to: nat)
    requires to <= |lines|
  {
    forall j :: from <= j < to ==> IsRemark(lines[j])
  }

  /** The insertion is before every table, after the last key outside tables, with only remarks in between. */
  lemma {:induction false} InsertIndexIsRight(lines: seq<Text>, i: nat, index: nat)
    requires index <= i <= |lines| && (forall j :: 0 <= j < i ==> !IsTable(lines[j]))
    requires (index > 0 ==> !IsRemark(lines[index - 1])) && RemarksBetween(lines, index, i)
    ensures var at := InsertIndex(lines, i, index);
      && (forall j :: 0 <= j < at ==> !IsTable(lines[j]))
      && (at > 0 ==> !IsRemark(lines[at - 1]))
      && OnlyRemarksAfter(lines, at)
    decreases |lines| - i
  {
    hide IsRemark, IsTable, IsNotify;
    if i < |lines| {
      TablesAreNoRemarks(lines[i]);
      if IsRemark(lines[i]) {
        InsertIndexIsRight(lines, i + 1, index);
      } else if !IsTable(lines[i]) {
        InsertIndexIsRight(lines, i + 1, i + 1);
      } else {
        assert RemarksBetween(lines, index, i);
      }
    } else {
      assert RemarksBetween(lines, index, i);
    }
  }

  lemma TablesAreNoRemarks(line: Text)
    ensures !(IsTable(line) && IsRemark(line)) && !(IsNotify(line) && (IsTable(line) || IsRemark(line)))
  {
    hide TrimSpace;
    var trimmed := TrimSpace(line);
    if "[" <= trimmed { assert trimmed[0] == "["[0]; }
    if "#" <= trimmed { assert trimmed[0] == "#"[0]; }
    if "notify" <= trimmed { assert trimmed[0] == "notify"[0]; }
  }

  lemma EmptyLine()
    ensures !IsNotify([]) && IsRemark([])
  {
  }

  lemma {:induction false} EmptyLineIsSkipped(lines: seq<Text>, i: nat, index: nat)
    requires index <= i <= |lines|
    ensures InsertIndex(lines + [[]], i, index) == InsertIndex(lines, i, index)
    decreases |lines| - i
  {
    hide IsTable, TrimSpace;
    EmptyLine();
    if i < |lines| {
      EmptyLineIsSkipped(lines, i + 1, index);
      EmptyLineIsSkipped(lines, i + 1, i + 1);
    }
  }

  /** For an entry of one line that counts as a notify line: the lines kept stay in order, with the new one between them
      as the only notify line, before every table; nothing but the final empty line is added. */
  lemma OneNotifyLine(notify: Text, file: Option<Text>)
    requires OneLine(notify) && IsNotify(notify)
    ensures var kept, lines := Kept(FileLines(file)), Split(Rewritten(notify, file));
      var at := InsertIndex(kept, 0, 0);
      && at < |lines| && lines[at] == notify
      && (lines == kept[..at] + [notify] + kept[at..] || lines == kept[..at] + [notify] + kept[at..] + [[]])
      && (forall j :: 0 <= j < |lines| && j != at ==> !IsNotify(lines[j]))
      && (forall j :: 0 <= j <= at ==> !IsTable(lines[j]))
      && OnlyRemarksAfter(kept, at)
  {
    hide TrimSpace, Join, Split, Kept, InsertIndex, IsNotify, IsTable, IsRemark;
    var kept := Kept(FileLines(file));
    var at := InsertIndex(kept, 0, 0);
    RewrittenLines(notify, file);
    SplitLine(notify);
    if file.Some? { JoinSplit(file.value); }
    KeptIsKept(FileLines(file));
    assert RemarksBetween(kept, 0, 0);
    InsertIndexIsRight(kept, 0, 0);
    TablesAreNoRemarks(notify);
    EmptyLine();
  }

  // ---------- Running it again ----------

  /** Every line of the entry counts as a notify line. */
  ghost predicate AllNotify(notify: Text) { EachNotify(Split(notify)) }

  /** The entry is not empty and does not end with a line feed. */
  predicate Proper(notify: Text) { notify != [] && !EndsWithNewline(notify) }

  /** Whatever the file, a second run with another entry gives the same as that run alone. */
  ghost predicate IsForgotten(first: Text) {
    forall second: Text, file: Option<Text> | Proper(second) ::
      Rewritten(second, Some(Rewritten(first, file))) == Rewritten(second, file)
  }

  lemma ProperEnds(notify: Text)
    requires Proper(notify)
    ensures var lines := Split(notify); lines[|lines| - 1] != []
  {
    JoinSplit(notify);
    JoinEnds(Split(notify));
  }

  /** What a second run keeps of the first one's lines. */
  lemma KeptOfRewritten(first: Text, file: Option<Text>)
    ensures var kept, again := Kept(FileLines(file)), Kept(Split(Rewritten(first, file)));
      var at := InsertIndex(kept, 0, 0);
      var lines := kept[..at] + Kept(Split(first)) + kept[at..];
      again == if Closed(NewLines(first, kept)) == NewLines(first, kept) then lines else lines + [[]]
  {
    hide TrimSpace, Join, Split, InsertIndex, IsNotify;
    var kept := Kept(FileLines(file));
    var at := InsertIndex(kept, 0, 0);
    RewrittenLines(first, file);
    if file.Some? { JoinSplit(file.value); }
    KeptIsKept(FileLines(file));
    KeptAll(kept[..at]);
    KeptAll(kept[at..]);
    KeptAppend(kept[..at] + Split(first), kept[at..]);
    KeptAppend(kept[..at], Split(first));
    KeptAppend(NewLines(first, kept), [[]]);
    EmptyLine();
    KeptAll([[]]);
  }

  /** With an empty line more at the end, which the first run may leave, the new lines end alike. */
  lemma ClosedAlike(first: Text, second: Text, kept: seq<Text>)
    requires Proper(first) && Proper(second)
    ensures var again := if Closed(NewLines(first, kept)) == NewLines(first, kept) then kept else kept + [[]];
      Closed(NewLines(second, again)) == Closed(NewLines(second, kept))
  {
    hide TrimSpace, Join, Split, InsertIndex, Proper;
    if Closed(NewLines(first, kept)) != NewLines(first, kept) {
      OpenAlike(first, second, kept);
      NewLinesAppend(second, kept);
      assert Closed(NewLines(second, kept) + [[]]) == NewLines(second, kept) + [[]];
    }
  }

  lemma NewLinesAppend(notify: Text, kept: seq<Text>)
    ensures NewLines(notify, kept + [[]]) == NewLines(notify, kept) + [[]]
  {
    hide Split, InsertIndex;
    EmptyLineIsSkipped(kept, 0, 0);
  }

  /** The new lines end with the last line kept, if anything is kept after the entry, and with the entry otherwise. */
  lemma NewLinesEnd(notify: Text, kept: seq<Text>)
    requires Proper(notify)
    ensures var lines, at := NewLines(notify, kept), InsertIndex(kept, 0, 0);
      && lines != [] && (at < |kept| ==> |lines| >= 2)
      && (at < |kept| ==> lines[|lines| - 1] == kept[|kept| - 1])
      && (at == |kept| ==> lines[|lines| - 1] != [])
  {
    hide Split, InsertIndex, Proper;
    ProperEnds(notify);
  }

  lemma OpenAlike(first: Text, second: Text, kept: seq<Text>)
    requires Proper(first) && Proper(second) && Closed(NewLines(first, kept)) != NewLines(first, kept)
    ensures Closed(NewLines(second, kept)) == NewLines(second, kept) + [[]] && NewLines(second, kept) != []
  {
    hide NewLines, InsertIndex, Proper;
    NewLinesEnd(first, kept);
    NewLinesEnd(second, kept);
  }

  lemma SecondRunAlone(first: Text, second: Text, file: Option<Text>)
    requires Proper(first) && Proper(second) && AllNotify(first)
    ensures Rewritten(second, Some(Rewritten(first, file))) == Rewritten(second, file)
  {
    hide TrimSpace, Join, Split, Kept, InsertIndex, IsNotify, Rewritten, Closed, NewLines, Proper;
    var kept := Kept(FileLines(file));
    var at := InsertIndex(kept, 0, 0);
    KeptOfRewritten(first, file);
    KeptNone(Split(first));
    assert kept[..at] + [] + kept[at..] == kept;
    ClosedAlike(first, second, kept);
    RewrittenLines(second, file);
    RewrittenLines(second, Some(Rewritten(first, file)));
    JoinSplit(Rewritten(second, file));
    JoinSplit(Rewritten(second, Some(Rewritten(first, file))));
  }

  lemma {:induction false} JoinIsLong(a: seq<Text>, s: Text, b: seq<Text>)
    ensures |Join(a + [s] + b)| >= |s| + |a| + |b|
    decreases |a|
  {
    if a != [] {
      assert (a + [s] + b)[1..] == a[1..] + [s] + b;
      JoinIsLong(a[1..], s, b);
    } else {
      assert a + [s] + b == [s] + b;
      JoinIsLongAfter(s, b);
    }
  }

  lemma {:induction false} JoinIsLongAfter(s: Text, b: seq<Text>)
    ensures |Join([s] + b)| >= |s| + |b|
    decreases |b|
  {
    if b != [] {
      JoinIsLongAfter(b[0], b[1..]);
      assert ([s] + b)[1..] == [b[0]] + b[1..];
    }
  }

  lemma RewrittenIsLong(second: Text, file: Text)
    ensures |Rewritten(second, Some(file))| >= |second| + |Kept(Split(file))|
  {
    hide Split, Kept, InsertIndex, Join;
    var kept := Kept(Split(file));
    var at := InsertIndex(kept, 0, 0);
    JoinIsLong(kept[..at], second, kept[at..]);
  }

  lemma RewrittenAlone(second: Text)
    requires Proper(second)
    ensures |Rewritten(second, None)| == |second| + 1
  {
    KeptNothing();
    JoinAlone(second);
  }

  /** A line of the first entry that is no notify line is kept, and the final empty line as well. */
  lemma LeftoverIsKept(first: Text)
    requires Proper(first) && !AllNotify(first)
    ensures |Kept(Split(Rewritten(first, None)))| >= 2
  {
    hide TrimSpace, Join, Split, Kept, InsertIndex, EachNotify, Rewritten, Proper;
    KeptNothing();
    KeptOfRewritten(first, None);
    KeptNone(Split(first));
    ProperEnds(first);
  }

  lemma LeftoverShows(first: Text, second: Text)
    requires Proper(first) && Proper(second) && !AllNotify(first)
    ensures Rewritten(second, Some(Rewritten(first, None))) != Rewritten(second, None)
  {
    hide Split, Kept, Rewritten, AllNotify, Proper;
    LeftoverIsKept(first);
    RewrittenIsLong(second, Rewritten(first, None));
    RewrittenAlone(second);
  }

  lemma KeptNothing()
    ensures Kept([]) == [] && InsertIndex([], 0, 0) == 0
  {
  }

  lemma JoinAlone(s: Text)
    ensures Join([] + [s] + []) == s
  {
  }

  /** An entry is forgotten by every later run exactly if each of its lines counts as a notify line. */
  lemma IsForgottenIff(first: Text)
    requires Proper(first)
    ensures IsForgotten(first) <==> AllNotify(first)
  {
    hide Rewritten, AllNotify;
    if AllNotify(first) {
      forall second: Text, file: Option<Text> | Proper(second)
        ensures Rewritten(second, Some(Rewritten(first, file))) == Rewritten(second, file)
      {
        SecondRunAlone(first, second, file);
      }
    } else {
      LeftoverShows(first, "x");
    }
  }

  lemma OneLineAppend(a: Text, b: Text)
    ensures OneLine(a + b) <==> OneLine(a) && OneLine(b)
  {
    forall c | c in a || c in b ensures c in a + b {}
  }

  lemma HeadIsNotify(resilient: bool, rest: Text)
    ensures var line := Head(resilient) + rest;
      OneLine(Head(resilient)) && "notify" <= line && '=' in line && line[0] == 'n'
  {
    assert (Head(resilient) + rest)[7] == '=';
    assert "notify"[0] == 'n';
  }

  lemma TailIsEnd(resilient: bool, text: Text)
    ensures OneLine(Tail(resilient)) && (text + Tail(resilient))[|text + Tail(resilient)| - 1] == 'k'
  {
    hide OneLine, PlainArguments, PlainEnd, ResilientArguments, ResilientEnd;
    var middle, end := if resilient then ResilientArguments() else PlainArguments(),
      if resilient then ResilientEnd() else PlainEnd();
    OneLineAppend(middle, end);
    OneLineAppend(middle + end, Marker());
  }

  lemma NotifyLineEnds(program: Text, resilient: bool)
    ensures var line := NotifyLine(program, resilient);
      line != [] && "notify" <= line && '=' in line && line[|line| - 1] == 'k' && line[0] == 'n'
    ensures OneLine(program) ==> OneLine(NotifyLine(program, resilient))
  {
    hide OneLine, Head, Tail;
    TailIsEnd(resilient, Head(resilient) + program);
    OneLineAppend(Head(resilient), program);
    OneLineAppend(Head(resilient) + program, Tail(resilient));
    assert NotifyLine(program, resilient) == Head(resilient) + (program + Tail(resilient));
    HeadIsNotify(resilient, program + Tail(resilient));
  }

  /** The line for a program path without a line feed is one notify line, so that running the setup again, with any
      path, gives the same file as running only the last one. */
  lemma SetupForgetsEarlierPaths(program: Text, resilient: bool)
    requires OneLine(program)
    ensures var line := NotifyLine(program, resilient);
      OneLine(line) && IsNotify(line) && IsForgotten(line)
  {
    hide TrimSpace, IsForgotten, Split, NotifyLine;
    var line := NotifyLine(program, resilient);
    NotifyLineEnds(program, resilient);
    TrimKeepsSolid(line);
    SplitLine(line);
    IsForgottenIff(line);
  }

  /** What follows a line feed in the program path is not forgotten, unless it starts like a notify line itself. */
  lemma LineFeedIsNotForgotten(before: Text, after: Text, resilient: bool)
    requires OneLine(before) && OneLine(after) && after != [] && 'a' <= after[0] <= 'z' && after[0] != 'n'
    ensures !IsForgotten(NotifyLine(before + ['\n'] + after, resilient))
  {
    hide IsForgotten, Split, TrimSpace, OneLine, Head, Tail;
    var program := before + ['\n'] + after;
    var line := NotifyLine(program, resilient);
    var first, second := Head(resilient) + before, after + Tail(resilient);
    NotifyLineEnds(program, resilient);
    HeadIsNotify(resilient, []);
    TailIsEnd(resilient, after);
    OneLineAppend(Head(resilient), before);
    OneLineAppend(after, Tail(resilient));
    assert line == first + ['\n'] + second;
    SplitFirst(first, second);
    SplitLine(second);
    assert Split(line)[1] == second;
    TrimKeepsSolid(second);
    assert second[0] != "notify"[0];
    IsForgottenIff(line);
  }
}
