/** The scanner of scripts/check-composite-action-input-interpolation.py. */
module CompositeScan {
  import opened Base

  // ---------------------------------------------------------------- lines

  /** What `\s` matches and `str.strip()` removes. */
  predicate IsSpace(c: char) {
    || '\U{0009}' <= c <= '\U{000D}' || '\U{001C}' <= c <= '\U{0020}' || c == '\U{0085}' || c == '\U{00A0}'
    || c == '\U{1680}' || '\U{2000}' <= c <= '\U{200A}' || c == '\U{2028}' || c == '\U{2029}' || c == '\U{202F}'
    || c == '\U{205F}' || c == '\U{3000}'
  }

  function SpaceRun(s: string): (n: nat)
    ensures n <= |s|
  {
    if s != "" && IsSpace(s[0]) then 1 + SpaceRun(s[1..]) else 0
  }

  function StripEnd(s: string): (r: string)
    ensures r <= s
  {
    if s != "" && IsSpace(s[|s| - 1]) then StripEnd(s[..|s| - 1]) else s
  }

  function Strip(s: string): string {
    StripEnd(s[SpaceRun(s)..])
  }

  /** `indentation`: leading blanks only, no tabs. */
  function Indentation(line: string): (n: nat)
    ensures n <= |line|
  {
    if line != "" && line[0] == ' ' then 1 + Indentation(line[1..]) else 0
  }

  /** A match of `^(\s*)run:\s*(.*)$`: the width of the first group and the stripped second one. */
  datatype RunLine = RunLine(indent: nat, value: string)

  function MatchRun(line: string): Option<RunLine> {
    var indent := SpaceRun(line);
    var rest := line[indent..];
    if "run:" <= rest then Some(RunLine(indent, Strip(rest[4..]))) else None
  }

  /** `\$\{\{\s*inputs\.` matches at the start of the text. */
  predicate InterpolatesHere(s: string) {
    "${{" <= s && "inputs." <= s[3..][SpaceRun(s[3..])..]
  }

  predicate Interpolates(s: string) {
    s != "" && (InterpolatesHere(s) || Interpolates(s[1..]))
  }

  // ---------------------------------------------------------------- who owns a line

  predicate IsBlank(line: string) {
    Strip(line) == ""
  }

  /** The value sits on the line itself. */
  predicate IsInline(run: RunLine) {
    run.value != "" && run.value[0] != '|' && run.value[0] != '>'
  }

  predicate OpensBlock(line: string) {
    MatchRun(line).Some? && !IsInline(MatchRun(line).value)
  }

  /** The line does not end a block that a `run:` line of this width opened. */
  predicate Continues(line: string, indent: nat) {
    IsBlank(line) || Indentation(line) > indent
  }

  /** Line `h` opens a block that reaches at least to line `j`, as far as the text in between goes. */
  predicate Reaches(lines: seq<string>, h: nat, j: nat)
    requires h < j < |lines|
  {
    OpensBlock(lines[h]) &&
    forall k | h < k <= j :: Continues(lines[k], MatchRun(lines[h]).value.indent)
  }

  /** Line `j` belongs to the block of line `h`: `h` opens a block of its own and the block reaches `j`. */
  predicate Owns(lines: seq<string>, h: nat, j: nat)
    requires h < j < |lines|
    decreases j, 0
  {
    !IsOwned(lines, h) && Reaches(lines, h, j)
  }

  predicate IsOwned(lines: seq<string>, j: nat)
    requires j < |lines|
    decreases j, 1
  {
    exists h: nat | h < j :: Owns(lines, h, j)
  }

  /** A line to report: a single-line run value of its own that interpolates, or an interpolating line of a block. */
  predicate IsViolation(lines: seq<string>, j: nat)
    requires j < |lines|
  {
    if IsOwned(lines, j) then !IsBlank(lines[j]) && Interpolates(lines[j])
    else MatchRun(lines[j]).Some? && IsInline(MatchRun(lines[j]).value) && Interpolates(MatchRun(lines[j]).value.value)
  }

  lemma OwnsEarlier(lines: seq<string>, g: nat, h: nat, j: nat)
    requires g < h < j < |lines| && Owns(lines, g, j)
    ensures Owns(lines, g, h) && IsOwned(lines, h)
  {
    assert Reaches(lines, g, h);
    assert Owns(lines, g, h);
  }

  /** No line has two owners: the block of the first one would own the second. */
  lemma OwnerIsUnique(lines: seq<string>, g: nat, h: nat, j: nat)
    requires g < j < |lines| && h < j && Owns(lines, g, j) && Owns(lines, h, j)
    ensures g == h
  {
    if g < h {
      OwnsEarlier(lines, g, h, j);
    } else if h < g {
      OwnsEarlier(lines, h, g, j);
    }
  }

  // ---------------------------------------------------------------- the report

  /** A reported line: its number, counted from one, and its stripped text. */
  datatype Violation = Violation(lineNo: nat, text: string)

  /** The violations among the first `n` lines, given which lines are bad and what they say. */
  function Collect(bad: nat -> bool, text: nat -> string, n: nat): seq<Violation> {
    if n == 0 then []
    else Collect(bad, text, n - 1) + if bad(n - 1) then [Violation(n, text(n - 1))] else []
  }

  lemma {:induction false} CollectMembers(bad: nat -> bool, text: nat -> string, n: nat, v: Violation)
    ensures v in Collect(bad, text, n) <==> 1 <= v.lineNo <= n && bad(v.lineNo - 1) && v.text == text(v.lineNo - 1)
  {
    if n > 0 {
      CollectMembers(bad, text, n - 1, v);
    }
  }

  lemma {:induction false} CollectIncreases(bad: nat -> bool, text: nat -> string, n: nat)
    ensures Increasing(Collect(bad, text, n))
  {
    if n > 0 {
      CollectIncreases(bad, text, n - 1);
      forall v | v in Collect(bad, text, n - 1) ensures v.lineNo < n {
        CollectMembers(bad, text, n - 1, v);
      }
      if bad(n - 1) {
        IncreasingSnoc(Collect(bad, text, n - 1), Violation(n, text(n - 1)));
      }
    }
  }

  function BadLines(lines: seq<string>): nat -> bool {
    (i: nat) => i < |lines| && IsViolation(lines, i)
  }

  function LineTexts(lines: seq<string>): nat -> string {
    (i: nat) => if i < |lines| then Strip(lines[i]) else ""
  }

  /** The report of the first `n` lines. */
  function Report(lines: seq<string>, n: nat): seq<Violation>
    requires n <= |lines|
  {
    if n == 0 then []
    else Report(lines, n - 1) + if IsViolation(lines, n - 1) then [Violation(n, Strip(lines[n - 1]))] else []
  }

  lemma NextReport(lines: seq<string>, n: nat)
    requires 0 < n <= |lines|
    ensures Report(lines, n) ==
            Report(lines, n - 1) + if BadLines(lines)(n - 1) then [Violation(n, LineTexts(lines)(n - 1))] else []
  {
  }

  predicate Grows(bad: nat -> bool, text: nat -> string, report: nat -> seq<Violation>, i: nat) {
    report(i + 1) == report(i) + if bad(i) then [Violation(i + 1, text(i))] else []
  }

  /** A list that grows by one line's violation at a time holds what `Collect` collects. */
  lemma {:induction false} CollectedInSteps(bad: nat -> bool, text: nat -> string, report: nat -> seq<Violation>,
                                            n: nat)
    requires report(0) == [] && forall i: nat | i < n :: Grows(bad, text, report, i)
    ensures report(n) == Collect(bad, text, n)
  {
    if n > 0 {
      CollectedInSteps(bad, text, report, n - 1);
      assert Grows(bad, text, report, n - 1);
    }
  }

  function ReportTo(lines: seq<string>): nat -> seq<Violation> {
    (i: nat) => if i <= |lines| then Report(lines, i) else []
  }

  lemma ReportGrows(lines: seq<string>, i: nat)
    requires i < |lines|
    ensures Grows(BadLines(lines), LineTexts(lines), ReportTo(lines), i)
  {
    NextReport(lines, i + 1);
  }

  lemma ReportEnds(lines: seq<string>, n: nat)
    requires n <= |lines|
    ensures ReportTo(lines)(0) == [] && ReportTo(lines)(n) == Report(lines, n)
  {
  }

  lemma ReportCollects(lines: seq<string>, n: nat)
    requires n <= |lines|
    ensures Report(lines, n) == Collect(BadLines(lines), LineTexts(lines), n)
  {
    var bad, text, report := BadLines(lines), LineTexts(lines), ReportTo(lines);
    forall i: nat | i < n ensures Grows(bad, text, report, i) {
      ReportGrows(lines, i);
    }
    ReportEnds(lines, n);
    CollectedInSteps(bad, text, report, n);
  }

  lemma BadLine(lines: seq<string>, i: nat)
    requires i < |lines|
    ensures BadLines(lines)(i) <==> IsViolation(lines, i)
    ensures LineTexts(lines)(i) == Strip(lines[i])
  {
  }

  lemma ReportHoldsBad(lines: seq<string>, n: nat, v: Violation)
    requires n <= |lines|
    ensures v in Report(lines, n) <==>
            1 <= v.lineNo <= n && BadLines(lines)(v.lineNo - 1) && v.text == LineTexts(lines)(v.lineNo - 1)
  {
    ReportCollects(lines, n);
    CollectMembers(BadLines(lines), LineTexts(lines), n, v);
  }

  /** The report holds exactly the violating lines. */
  lemma ReportMembers(lines: seq<string>, n: nat, v: Violation)
    requires n <= |lines|
    ensures v in Report(lines, n) <==>
            1 <= v.lineNo <= n && IsViolation(lines, v.lineNo - 1) && v.text == Strip(lines[v.lineNo - 1])
  {
    ReportHoldsBad(lines, n, v);
    if 1 <= v.lineNo <= n {
      BadLine(lines, v.lineNo - 1);
    }
  }

  /** In strictly increasing line order. */
  lemma ReportIncreases(lines: seq<string>, n: nat)
    requires n <= |lines|
    ensures Increasing(Report(lines, n))
  {
    ReportCollects(lines, n);
    CollectIncreases(BadLines(lines), LineTexts(lines), n);
  }

  ghost predicate Increasing(vs: seq<Violation>) {
    forall i, j | 0 <= i < j < |vs| :: vs[i].lineNo < vs[j].lineNo
  }

  lemma IncreasingSnoc(vs: seq<Violation>, v: Violation)
    requires Increasing(vs) && forall u | u in vs :: u.lineNo < v.lineNo
    ensures Increasing(vs + [v])
  {
  }

  // ---------------------------------------------------------------- the scanner

  /** Between blocks: nothing before the line reaches it any more. */
  ghost predicate Unowned(lines: seq<string>, index: nat)
    requires index <= |lines|
  {
    index < |lines| ==> !IsOwned(lines, index)
  }

  /** A line after an unowned line that opens no block is unowned. */
  lemma NextUnowned(lines: seq<string>, index: nat)
    requires index < |lines| && !IsOwned(lines, index) && !OpensBlock(lines[index])
    ensures Unowned(lines, index + 1)
  {
    var next := index + 1;
    if next < |lines| {
      forall h: nat | h < next ensures !Owns(lines, h, next) {
        if h < index && Owns(lines, h, next) {
          OwnsEarlier(lines, h, index, next);
        }
      }
    }
  }

  /** A line outside every block that opens none. */
  lemma PlainLine(lines: seq<string>, index: nat)
    requires index < |lines| && Unowned(lines, index) && !OpensBlock(lines[index])
    ensures Unowned(lines, index + 1)
    ensures Report(lines, index + 1) ==
            Report(lines, index) +
            if MatchRun(lines[index]).Some? && Interpolates(MatchRun(lines[index]).value.value)
            then [Violation(index + 1, Strip(lines[index]))] else []
  {
    NextUnowned(lines, index);
    UnownedLine(lines, index);
  }

  /** The line that ends a block is unowned. */
  lemma BlockEndUnowned(lines: seq<string>, h: nat, index: nat)
    requires h < index < |lines| && !IsOwned(lines, h) && OpensBlock(lines[h])
    requires forall k | h < k < index :: Continues(lines[k], MatchRun(lines[h]).value.indent)
    requires !Continues(lines[index], MatchRun(lines[h]).value.indent)
    ensures !IsOwned(lines, index)
  {
    forall g: nat | g < index ensures !Owns(lines, g, index) {
      if g < h && Owns(lines, g, index) {
        OwnsEarlier(lines, g, h, index);
      } else if h < g {
        assert Owns(lines, h, g);
      }
    }
  }

  lemma OwnedLine(lines: seq<string>, header: nat, index: nat)
    requires header < index < |lines| && !IsOwned(lines, header) && OpensBlock(lines[header])
    requires forall k | header < k <= index :: Continues(lines[k], MatchRun(lines[header]).value.indent)
    ensures Report(lines, index + 1) ==
            Report(lines, index) +
            if !IsBlank(lines[index]) && Interpolates(lines[index])
            then [Violation(index + 1, Strip(lines[index]))] else []
  {
    assert Owns(lines, header, index);
  }

  lemma UnownedLine(lines: seq<string>, index: nat)
    requires index < |lines| && !IsOwned(lines, index)
    ensures Report(lines, index + 1) ==
            Report(lines, index) +
            if MatchRun(lines[index]).Some? && IsInline(MatchRun(lines[index]).value)
               && Interpolates(MatchRun(lines[index]).value.value)
            then [Violation(index + 1, Strip(lines[index]))] else []
  {
  }

  lemma HeaderLine(lines: seq<string>, header: nat)
    requires header < |lines| && !IsOwned(lines, header) && OpensBlock(lines[header])
    ensures Report(lines, header + 1) == Report(lines, header)
  {
  }

  /** The block of `header` goes on through every line before `index`. */
  ghost predicate InBlock(lines: seq<string>, header: nat, index: nat)
    requires header < index <= |lines|
  {
    && !IsOwned(lines, header) && OpensBlock(lines[header])
    && forall k | header < k < index :: Continues(lines[k], MatchRun(lines[header]).value.indent)
  }

  lemma BlockGoesOn(lines: seq<string>, header: nat, index: nat)
    requires header < index < |lines| && InBlock(lines, header, index)
    requires Continues(lines[index], MatchRun(lines[header]).value.indent)
    ensures InBlock(lines, header, index + 1)
  {
  }

  /** The line at `index` decides whether the block goes on. */
  lemma BlockDecides(lines: seq<string>, header: nat, index: nat, runIndent: nat)
    requires header < index < |lines| && InBlock(lines, header, index)
    requires runIndent == MatchRun(lines[header]).value.indent
    ensures if !IsBlank(lines[index]) && Indentation(lines[index]) <= runIndent then Unowned(lines, index)
            else InBlock(lines, header, index + 1)
  {
    if Continues(lines[index], runIndent) {
      BlockGoesOn(lines, header, index);
    } else {
      BlockEndUnowned(lines, header, index);
    }
  }

  /** One line after a `run:` line: it ends the block, or it is skipped when blank and reported when it interpolates. */
  method ScanScriptLine(lines: seq<string>, header: nat, index: nat, runIndent: nat, before: seq<Violation>)
    returns (goesOn: bool, next: nat, violations: seq<Violation>)
    requires header < index < |lines| && InBlock(lines, header, index)
    requires runIndent == MatchRun(lines[header]).value.indent && before == Report(lines, index)
    ensures next == (if goesOn then index + 1 else index) && violations == Report(lines, next)
    ensures if goesOn then InBlock(lines, header, next) else Unowned(lines, next)
  {
    var script := lines[index];
    BlockDecides(lines, header, index, runIndent);
    if !IsBlank(script) && Indentation(script) <= runIndent {
      return false, index, before;
    }
    OwnedLine(lines, header, index);
    violations := before;
    if !IsBlank(script) && Interpolates(script) {
      violations := violations + [Violation(index + 1, Strip(script))];
    }
    goesOn, next := true, index + 1;
  }

  method ScanBlock(lines: seq<string>, header: nat, runIndent: nat, before: seq<Violation>)
    returns (index: nat, violations: seq<Violation>)
    requires header < |lines| && InBlock(lines, header, header + 1)
    requires runIndent == MatchRun(lines[header]).value.indent && before == Report(lines, header)
    ensures header < index <= |lines| && Unowned(lines, index)
    ensures violations == Report(lines, index)
  {
    index := header + 1;
    violations := before;
    HeaderLine(lines, header);
    var goesOn := true;
    while goesOn && index < |lines|
      invariant header < index <= |lines| && violations == Report(lines, index)
      invariant if goesOn then InBlock(lines, header, index) else Unowned(lines, index)
      decreases goesOn, |lines| - index
    {
      goesOn, index, violations := ScanScriptLine(lines, header, index, runIndent, violations);
    }
  }

  lemma BlockOpens(lines: seq<string>, index: nat)
    requires index < |lines| && Unowned(lines, index) && OpensBlock(lines[index])
    ensures InBlock(lines, index, index + 1)
  {
  }

  /** A line outside every block that opens none: reported when it is a run value of its own that interpolates. */
  method ScanPlainLine(lines: seq<string>, index: nat, before: seq<Violation>) returns (violations: seq<Violation>)
    requires index < |lines| && Unowned(lines, index) && !OpensBlock(lines[index]) && before == Report(lines, index)
    ensures Unowned(lines, index + 1) && violations == Report(lines, index + 1)
  {
    PlainLine(lines, index);
    violations := before;
    var run := MatchRun(lines[index]);
    if run.Some? && Interpolates(run.value.value) {
      violations := violations + [Violation(index + 1, Strip(lines[index]))];
    }
  }

  /** `scan_file`, on the lines of the text; a file that is no composite action is not scanned. */
  method ScanFile(lines: seq<string>, usesComposite: bool) returns (violations: seq<Violation>)
    ensures violations == if usesComposite then Report(lines, |lines|) else []
  {
    if !usesComposite {
      return [];
    }
    violations := [];
    var index: nat := 0;
    while index < |lines|
      invariant index <= |lines| && Unowned(lines, index)
      invariant violations == Report(lines, index)
      decreases |lines| - index
    {
      var run := MatchRun(lines[index]);
      if run.None? || IsInline(run.value) {
        violations := ScanPlainLine(lines, index, violations);
        index := index + 1;
      } else {
        BlockOpens(lines, index);
        index, violations := ScanBlock(lines, index, run.value.indent, violations);
      }
    }
  }

  // ---------------------------------------------------------------- the patterns, told in characters

  /** White space, by its numbers. */
  lemma Spaces(c: char)
    ensures IsSpace(c) <==>
            c as int in {0x9, 0xA, 0xB, 0xC, 0xD, 0x1C, 0x1D, 0x1E, 0x1F, 0x20, 0x85, 0xA0, 0x1680, 0x2000, 0x2001,
                         0x2002, 0x2003, 0x2004, 0x2005, 0x2006, 0x2007, 0x2008, 0x2009, 0x200A, 0x2028, 0x2029,
                         0x202F, 0x205F, 0x3000}
  {
  }

  predicate AllSpace(s: string) {
    forall i | 0 <= i < |s| :: IsSpace(s[i])
  }

  lemma {:induction false} SpaceRunIsLongest(s: string)
    ensures AllSpace(s[..SpaceRun(s)]) && (SpaceRun(s) < |s| ==> !IsSpace(s[SpaceRun(s)]))
  {
    if s != "" && IsSpace(s[0]) {
      SpaceRunIsLongest(s[1..]);
      assert s[..SpaceRun(s)] == [s[0]] + s[1..][..SpaceRun(s[1..])];
    }
  }

  lemma SpaceRunEnds(front: string, rest: string)
    requires AllSpace(front) && (rest != "" ==> !IsSpace(rest[0]))
    ensures SpaceRun(front + rest) == |front|
  {
    var s := front + rest;
    SpaceRunIsLongest(s);
    var n := SpaceRun(s);
    assert forall i | 0 <= i < |front| :: s[i] == front[i];
    assert forall i | 0 <= i < n :: s[i] == s[..n][i];
    assert n >= |front|;
    assert rest != "" ==> s[|front|] == rest[0];
  }

  lemma {:induction false} StripEndCuts(s: string)
    ensures AllSpace(s[|StripEnd(s)|..])
    ensures StripEnd(s) != "" ==> !IsSpace(StripEnd(s)[|StripEnd(s)| - 1])
  {
    if s != "" && IsSpace(s[|s| - 1]) {
      StripEndCuts(s[..|s| - 1]);
      assert s[|StripEnd(s)|..] == s[..|s| - 1][|StripEnd(s)|..] + [s[|s| - 1]];
    }
  }

  lemma CutBoth(s: string, n: nat, r: string)
    requires n <= |s| && r <= s[n..]
    ensures s == s[..n] + r + s[n..][|r|..] && (r != "" ==> r[0] == s[n])
  {
    assert s == s[..n] + s[n..] && s[n..] == r + s[n..][|r|..];
  }

  /** Stripping cuts white space off both ends and nothing else. */
  lemma StripCuts(s: string) returns (front: string, back: string)
    ensures AllSpace(front) && AllSpace(back) && s == front + Strip(s) + back
    ensures Strip(s) != "" ==> !IsSpace(Strip(s)[0]) && !IsSpace(Strip(s)[|Strip(s)| - 1])
  {
    var n := SpaceRun(s);
    SpaceRunIsLongest(s);
    var rest := s[n..];
    StripEndCuts(rest);
    CutBoth(s, n, Strip(s));
    front, back := s[..n], rest[|Strip(s)|..];
  }

  lemma BlankIsAllSpace(line: string)
    ensures IsBlank(line) <==> AllSpace(line)
  {
    var front, back := StripCuts(line);
    if Strip(line) != "" {
      assert line[|front|] == Strip(line)[0];
    }
  }

  /** The indentation is the number of blanks, and of blanks alone, that the line starts with. */
  lemma {:induction false} IndentationCounts(line: string)
    ensures var n := Indentation(line);
            && (forall i | 0 <= i < n :: line[i] as int == 0x20) && (n < |line| ==> line[n] as int != 0x20)
  {
    if line != "" && line[0] == ' ' {
      IndentationCounts(line[1..]);
      var n := Indentation(line[1..]);
      assert forall i | 1 <= i < n + 1 :: line[i] == line[1..][i - 1];
    }
  }

  /** White space, "run:" and a value: the line is matched, with the width of the one and the other stripped. */
  lemma RunLineIsMatched(front: string, value: string)
    requires AllSpace(front)
    ensures MatchRun(front + ("run:" + value)) == Some(RunLine(|front|, Strip(value)))
    ensures OpensBlock(front + ("run:" + value)) <==>
            Strip(value) == "" || Strip(value)[0] == '|' || Strip(value)[0] == '>'
  {
    var rest := "run:" + value;
    assert !IsSpace('r') && rest[0] == 'r';
    SpaceRunEnds(front, rest);
    assert (front + rest)[|front|..] == rest && "run:" <= rest && rest[4..] == value;
  }

  /** And no other line is matched. */
  lemma MatchedLineRuns(line: string) returns (front: string, value: string)
    requires MatchRun(line).Some?
    ensures AllSpace(front) && line == front + ("run:" + value)
  {
    var n := SpaceRun(line);
    SpaceRunIsLongest(line);
    front, value := line[..n], line[n..][4..];
    assert line == line[..n] + line[n..] && line[n..] == "run:" + value;
  }

  /** A dollar sign with two braces at `i`, white space, and the word "inputs" with a dot at `j`. */
  predicate ReadsInput(s: string, i: nat, j: nat) {
    && i + 3 <= j && j + 7 <= |s| && s[i..i + 3] == "${{" && AllSpace(s[i + 3..j]) && s[j..j + 7] == "inputs."
  }

  lemma InterpolationFound(s: string, i: nat, j: nat)
    requires ReadsInput(s, i, j)
    ensures InterpolatesHere(s[i..])
  {
    var here := s[i..];
    var front, rest := s[i + 3..j], s[j..];
    assert here[..3] == s[i..i + 3] && here[3..] == front + rest;
    assert rest[0] == s[j..j + 7][0] == 'i' && !IsSpace('i');
    SpaceRunEnds(front, rest);
    assert (front + rest)[|front|..] == rest && rest[..7] == s[j..j + 7];
  }

  lemma InterpolationReads(s: string, i: nat)
    requires i <= |s| && InterpolatesHere(s[i..])
    ensures ReadsInput(s, i, i + 3 + SpaceRun(s[i + 3..]))
  {
    var here := s[i..];
    assert here[..3] == "${{" && s[i..i + 3] == here[..3] && here[3..] == s[i + 3..];
    var n := SpaceRun(s[i + 3..]);
    var j := i + 3 + n;
    SpaceRunIsLongest(s[i + 3..]);
    assert s[i + 3..][..n] == s[i + 3..j];
    assert s[i + 3..][n..] == s[j..] && "inputs." <= s[j..];
    assert s[j..][..7] == "inputs." && s[j..j + 7] == s[j..][..7];
  }

  lemma {:induction false} InterpolatesFrom(s: string, i: nat)
    requires i < |s| && InterpolatesHere(s[i..])
    ensures Interpolates(s)
  {
    if i == 0 {
      assert s[0..] == s;
    } else {
      assert s[1..][i - 1..] == s[i..];
      InterpolatesFrom(s[1..], i - 1);
    }
  }

  lemma {:induction false} InterpolationPlace(s: string) returns (i: nat)
    requires Interpolates(s)
    ensures i < |s| && InterpolatesHere(s[i..])
  {
    if InterpolatesHere(s) {
      assert s[0..] == s;
      i := 0;
    } else {
      i := InterpolationPlace(s[1..]);
      assert s[1..][i..] == s[i + 1..];
      i := i + 1;
    }
  }

  /** A text interpolates an input exactly when it holds one of the reads that `ReadsInput` spells out. */
  lemma InterpolationMeaning(s: string)
    ensures Interpolates(s) <==> exists i: nat, j: nat :: ReadsInput(s, i, j)
  {
    if Interpolates(s) {
      var i := InterpolationPlace(s);
      InterpolationReads(s, i);
    }
    if i: nat, j: nat :| ReadsInput(s, i, j) {
      InterpolationFound(s, i, j);
      InterpolatesFrom(s, i);
    }
  }
}
