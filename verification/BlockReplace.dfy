/** `replaceBlockLines` of scripts/sync-moonshot-docs.ts. */
module BlockReplace {
  import opened Base

  predicate Occurs(text: string, pattern: string, i: nat) {
    i + |pattern| <= |text| && text[i..i + |pattern|] == pattern
  }

  ghost predicate Contains(text: string, pattern: string) {
    exists i: nat :: Occurs(text, pattern, i)
  }

  /** The first occurrence at or after `from`. */
  ghost predicate FirstAt(text: string, pattern: string, from: nat, i: nat) {
    from <= i && Occurs(text, pattern, i) && forall j: nat | from <= j < i :: !Occurs(text, pattern, j)
  }

  ghost predicate AbsentFrom(text: string, pattern: string, from: nat) {
    forall j: nat | from <= j :: !Occurs(text, pattern, j)
  }

  /** `text.indexOf(pattern, from)`. */
  function IndexOf(text: string, pattern: string, from: nat): (r: Option<nat>)
    ensures if r.Some? then FirstAt(text, pattern, from, r.value) else AbsentFrom(text, pattern, from)
    decreases |text| - from
  {
    if from + |pattern| > |text| then None
    else if Occurs(text, pattern, from) then Some(from)
    else IndexOf(text, pattern, from + 1)
  }

  /** One past `text.lastIndexOf("\n", i)`: where the line of position `i` starts. */
  function LineStart(text: string, i: nat): (r: nat)
    requires i <= |text|
    ensures r <= i + 1 && r <= |text|
    ensures r > 0 ==> text[r - 1] == '\n'
    ensures forall j | r <= j <= i && j < |text| :: text[j] != '\n'
  {
    if i < |text| && text[i] == '\n' then i + 1 else if i == 0 then 0 else LineStart(text, i - 1)
  }

  /** One past `text.indexOf("\n", i)`, or the end of the text. */
  function LineEnd(text: string, i: nat): (r: nat)
    requires i <= |text|
    ensures i <= r <= |text|
    ensures forall j | i <= j < r - 1 :: text[j] != '\n'
    ensures (r > i && text[r - 1] == '\n') || (r == |text| && forall j | i <= j < |text| :: text[j] != '\n')
    decreases |text| - i
  {
    if i == |text| then i else if text[i] == '\n' then i + 1 else LineEnd(text, i + 1)
  }

  datatype Outcome = Replaced(text: string) | MissingStartMarker | MissingEndMarker

  function JoinLines(lines: seq<string>): string {
    if lines == [] then "" else if |lines| == 1 then lines[0] else lines[0] + "\n" + JoinLines(lines[1..])
  }

  function Indented(indent: string, lines: seq<string>): (r: seq<string>)
    ensures |r| == |lines|
  {
    if lines == [] then [] else [indent + lines[0]] + Indented(indent, lines[1..])
  }

  function Slice(text: string, from: nat, to: nat): string
    requires from <= |text| && to <= |text|
  {
    if from <= to then text[from..to] else ""
  }

  function ReplaceBlockLines(text: string, startMarker: string, endMarker: string, lines: seq<string>): Outcome {
    var startIndex := IndexOf(text, startMarker, 0);
    if startIndex.None? then MissingStartMarker
    else
      var endIndex := IndexOf(text, endMarker, startIndex.value);
      if endIndex.None? then MissingEndMarker
      else
        var lineStart := LineStart(text, startIndex.value);
        var indent := Slice(text, lineStart, startIndex.value);
        var before, after := text[..lineStart], text[LineEnd(text, endIndex.value)..];
        var replacement := JoinLines([indent + startMarker] + Indented(indent, lines) + [indent + endMarker]);
        Replaced(if after == "" then before + replacement else before + replacement + "\n" + after)
  }

  // ---------------------------------------------------------------- the shape of a replaced text

  /** The rendered lines, each with its newline. */
  function Body(indent: string, lines: seq<string>): string {
    if lines == [] then "" else indent + lines[0] + "\n" + Body(indent, lines[1..])
  }

  /** From the start marker up to the line of the end marker. */
  function Head(indent: string, startMarker: string, lines: seq<string>): string {
    startMarker + "\n" + Body(indent, lines)
  }

  lemma {:induction false} JoinIsBody(indent: string, lines: seq<string>, last: string)
    ensures JoinLines(Indented(indent, lines) + [last]) == Body(indent, lines) + last
  {
    if lines == [] {
      assert Indented(indent, lines) + [last] == [last];
    } else {
      var all := Indented(indent, lines) + [last];
      assert all[1..] == Indented(indent, lines[1..]) + [last];
      assert |all| > 1 && all[0] == indent + lines[0];
      JoinIsBody(indent, lines[1..], last);
    }
  }

  lemma BlockShape(indent: string, startMarker: string, endMarker: string, lines: seq<string>)
    ensures JoinLines([indent + startMarker] + Indented(indent, lines) + [indent + endMarker]) ==
            indent + Head(indent, startMarker, lines) + indent + endMarker
  {
    var rest := Indented(indent, lines) + [indent + endMarker];
    var all := [indent + startMarker] + Indented(indent, lines) + [indent + endMarker];
    assert all == [indent + startMarker] + rest && all[1..] == rest;
    JoinIsBody(indent, lines, indent + endMarker);
  }

  predicate SingleLine(s: string) {
    s != "" && '\n' !in s
  }

  /** A text taken apart around its block. */
  datatype Parts = Parts(before: string, indent: string, after: string)

  function Assemble(p: Parts, startMarker: string, endMarker: string, lines: seq<string>): string {
    p.before + p.indent + Head(p.indent, startMarker, lines) + p.indent + endMarker +
    if p.after == "" then "" else "\n" + p.after
  }

  /** What the function finds: the whole lines around the first start marker and the first end marker after it. */
  ghost predicate TakesApart(text: string, startMarker: string, endMarker: string, p: Parts) {
    var si := |p.before| + |p.indent|;
    && IndexOf(text, startMarker, 0) == Some(si)
    && text[..si] == p.before + p.indent
    && (p.before == "" || p.before[|p.before| - 1] == '\n') && '\n' !in p.indent
    && IndexOf(text, endMarker, si).Some?
    && |p.after| <= |text|
    && p.after == text[LineEnd(text, IndexOf(text, endMarker, si).value)..]
  }

  /** The parts the indices of `ReplaceBlockLines` cut out. */
  function PartsAt(text: string, si: nat, ei: nat): Parts
    requires si <= |text| && ei <= |text| && LineStart(text, si) <= si
  {
    Parts(text[..LineStart(text, si)], text[LineStart(text, si)..si], text[LineEnd(text, ei)..])
  }

  lemma StartLineIsBefore(text: string, startMarker: string, si: nat)
    requires SingleLine(startMarker) && Occurs(text, startMarker, si)
    ensures LineStart(text, si) <= si
  {
  }

  lemma FoundParts(r: string, startMarker: string, endMarker: string, p: Parts, e: nat)
    requires '\n' !in p.indent && (p.before == "" || p.before[|p.before| - 1] == '\n')
    requires IndexOf(r, startMarker, 0) == Some(|p.before| + |p.indent|)
    requires |p.before| + |p.indent| <= |r| && r[..|p.before| + |p.indent|] == p.before + p.indent
    requires IndexOf(r, endMarker, |p.before| + |p.indent|) == Some(e) && e <= |r| && p.after == r[LineEnd(r, e)..]
    ensures TakesApart(r, startMarker, endMarker, p)
  {
  }

  lemma LinePieces(text: string, k: nat, si: nat)
    requires k <= si <= |text| && forall j | k <= j < si :: text[j] != '\n'
    ensures text[..k] + text[k..si] == text[..si] && '\n' !in text[k..si]
  {
  }

  lemma PartsTakeApart(text: string, startMarker: string, endMarker: string, si: nat, ei: nat)
    requires IndexOf(text, startMarker, 0) == Some(si) && IndexOf(text, endMarker, si) == Some(ei)
    requires si <= |text| && ei <= |text| && LineStart(text, si) <= si
    ensures TakesApart(text, startMarker, endMarker, PartsAt(text, si, ei))
  {
    LinePieces(text, LineStart(text, si), si);
    FoundParts(text, startMarker, endMarker, PartsAt(text, si, ei), ei);
  }

  /** Replacement keeps the lines before the start marker's line and after the end marker's line. */
  lemma ReplacementIsFramed(text: string, startMarker: string, endMarker: string, lines: seq<string>) returns (p: Parts)
    requires SingleLine(startMarker)
    requires ReplaceBlockLines(text, startMarker, endMarker, lines).Replaced?
    ensures TakesApart(text, startMarker, endMarker, p)
    ensures ReplaceBlockLines(text, startMarker, endMarker, lines) ==
            Replaced(Assemble(p, startMarker, endMarker, lines))
  {
    var si := IndexOf(text, startMarker, 0).value;
    var ei := IndexOf(text, endMarker, si).value;
    StartLineIsBefore(text, startMarker, si);
    PartsTakeApart(text, startMarker, endMarker, si, ei);
    p := PartsAt(text, si, ei);
    BlockShape(p.indent, startMarker, endMarker, lines);
    AssembleBlock(p, startMarker, endMarker, lines);
  }

  lemma AssembleBlock(p: Parts, startMarker: string, endMarker: string, lines: seq<string>)
    ensures var block := p.indent + Head(p.indent, startMarker, lines) + p.indent + endMarker;
            Assemble(p, startMarker, endMarker, lines) ==
            if p.after == "" then p.before + block else p.before + block + "\n" + p.after
  {
  }

  /** A text that is taken apart is replaced by the parts put together again. */
  lemma ReplacementOf(text: string, startMarker: string, endMarker: string, lines: seq<string>, p: Parts)
    requires SingleLine(startMarker) && TakesApart(text, startMarker, endMarker, p)
    ensures ReplaceBlockLines(text, startMarker, endMarker, lines) ==
            Replaced(Assemble(p, startMarker, endMarker, lines))
  {
    var q := ReplacementIsFramed(text, startMarker, endMarker, lines);
    SameParts(text, startMarker, endMarker, p, q);
  }

  lemma SameParts(text: string, startMarker: string, endMarker: string, p: Parts, q: Parts)
    requires TakesApart(text, startMarker, endMarker, p) && TakesApart(text, startMarker, endMarker, q)
    ensures p == q
  {
    var head := text[..|p.before| + |p.indent|];
    assert head == p.before + p.indent == q.before + q.indent;
    LastLineStart(p.before, p.indent, q.before, q.indent);
  }

  lemma LastLineStart(a: string, b: string, c: string, d: string)
    requires a + b == c + d && '\n' !in b && '\n' !in d
    requires (a == "" || a[|a| - 1] == '\n') && (c == "" || c[|c| - 1] == '\n')
    ensures a == c && b == d
  {
    var t := a + b;
    assert forall k | |a| <= k < |t| :: t[k] in b;
    assert forall k | |c| <= k < |t| :: t[k] in d;
    assert a != "" ==> t[|a| - 1] == '\n';
    assert c != "" ==> t[|c| - 1] == '\n';
    assert |a| == |c|;
    assert a == t[..|a|] && c == t[..|c|] && b == t[|a|..] && d == t[|c|..];
  }

  // ---------------------------------------------------------------- where the markers are found again

  lemma OccursInPrefix(a: string, b: string, pattern: string, m: nat, j: nat)
    requires m <= |a| && m <= |b| && a[..m] == b[..m] && j + |pattern| <= m
    ensures Occurs(a, pattern, j) <==> Occurs(b, pattern, j)
  {
    assert a[j..j + |pattern|] == a[..m][j..j + |pattern|];
    assert b[j..j + |pattern|] == b[..m][j..j + |pattern|];
  }

  lemma FirstIsIndex(text: string, pattern: string, from: nat, i: nat)
    requires FirstAt(text, pattern, from, i)
    ensures IndexOf(text, pattern, from) == Some(i)
  {
  }

  lemma FirstInPrefix(a: string, b: string, pattern: string, m: nat, i: nat)
    requires FirstAt(a, pattern, 0, i) && m == i + |pattern| && m <= |a| && m <= |b| && a[..m] == b[..m]
    ensures FirstAt(b, pattern, 0, i)
  {
    OccursInPrefix(a, b, pattern, m, i);
    forall j: nat | j < i ensures !Occurs(b, pattern, j) {
      OccursInPrefix(a, b, pattern, m, j);
    }
  }

  lemma FoundInSamePlace(a: string, b: string, pattern: string, m: nat, i: nat)
    requires IndexOf(a, pattern, 0) == Some(i)
    requires m == i + |pattern| && m <= |a| && m <= |b| && a[..m] == b[..m]
    ensures IndexOf(b, pattern, 0) == Some(i)
  {
    FirstInPrefix(a, b, pattern, m, i);
    FirstIsIndex(b, pattern, 0, i);
  }

  /** A pattern without newlines never lies across one. */
  lemma OccursAvoidsNewline(t: string, pattern: string, i: nat, k: nat)
    requires SingleLine(pattern) && Occurs(t, pattern, i) && k < |t| && t[k] == '\n'
    ensures k < i || i + |pattern| <= k
  {
  }

  /** Occurrences in a joined text are occurrences in one of the lines. */
  lemma OccursInLine(a: string, b: string, pattern: string, i: nat)
    requires SingleLine(pattern) && Occurs(a + "\n" + b, pattern, i)
    ensures if i + |pattern| <= |a| then Occurs(a, pattern, i) else i > |a| && Occurs(b, pattern, i - |a| - 1)
  {
    var t := a + "\n" + b;
    assert t[|a|] == '\n';
    OccursAvoidsNewline(t, pattern, i, |a|);
    if i + |pattern| <= |a| {
      assert a[i..i + |pattern|] == t[i..i + |pattern|];
    } else {
      assert b[i - |a| - 1..i - |a| - 1 + |pattern|] == t[i..i + |pattern|];
    }
  }

  lemma LineOccurs(a: string, b: string, pattern: string, i: nat)
    ensures Occurs(a, pattern, i) ==> Occurs(a + "\n" + b, pattern, i)
    ensures Occurs(b, pattern, i) ==> Occurs(a + "\n" + b, pattern, i + |a| + 1)
  {
  }

  /** A pattern without newlines is found in two lines together exactly when it is found in one of them. */
  lemma ContainsSplit(a: string, b: string, pattern: string)
    requires SingleLine(pattern)
    ensures Contains(a + "\n" + b, pattern) <==> Contains(a, pattern) || Contains(b, pattern)
  {
    if Contains(a + "\n" + b, pattern) {
      var i: nat :| Occurs(a + "\n" + b, pattern, i);
      OccursInLine(a, b, pattern, i);
    }
    if Contains(a, pattern) {
      var i: nat :| Occurs(a, pattern, i);
      LineOccurs(a, b, pattern, i);
    }
    if Contains(b, pattern) {
      var i: nat :| Occurs(b, pattern, i);
      LineOccurs(a, b, pattern, i);
    }
  }

  /** The end marker shows up before its own line: in the start marker or in a rendered line. */
  ghost predicate EndsEarly(indent: string, startMarker: string, endMarker: string, lines: seq<string>) {
    Contains(startMarker, endMarker) || exists line :: line in lines && Contains(indent + line, endMarker)
  }

  lemma {:induction false} BodyContains(indent: string, lines: seq<string>, pattern: string)
    requires SingleLine(pattern)
    ensures Contains(Body(indent, lines), pattern) <==> exists line :: line in lines && Contains(indent + line, pattern)
  {
    if lines != [] {
      BodyContains(indent, lines[1..], pattern);
      ContainsSplit(indent + lines[0], Body(indent, lines[1..]), pattern);
      assert forall line :: line in lines <==> line == lines[0] || line in lines[1..];
    }
  }

  lemma HeadContains(indent: string, startMarker: string, endMarker: string, lines: seq<string>)
    requires SingleLine(endMarker)
    ensures Contains(Head(indent, startMarker, lines), endMarker) <==> EndsEarly(indent, startMarker, endMarker, lines)
  {
    BodyContains(indent, lines, endMarker);
    ContainsSplit(startMarker, Body(indent, lines), endMarker);
  }

  // ---------------------------------------------------------------- replacing again

  lemma {:induction false} BodyEndsWithNewline(indent: string, lines: seq<string>)
    ensures Body(indent, lines) != "" ==> Body(indent, lines)[|Body(indent, lines)| - 1] == '\n'
  {
    if lines != [] {
      BodyEndsWithNewline(indent, lines[1..]);
    }
  }

  lemma HeadEndsWithNewline(indent: string, startMarker: string, lines: seq<string>)
    ensures var h := Head(indent, startMarker, lines); |h| > |startMarker| && h[|h| - 1] == '\n' && startMarker <= h
  {
    BodyEndsWithNewline(indent, lines);
  }

  lemma HeadPart(a: string, h: string, rest: string, i: nat, k: nat)
    requires i <= k <= |h|
    ensures (a + h + rest)[|a| + i..|a| + k] == h[i..k]
  {
  }

  lemma OccursInHead(a: string, h: string, rest: string, pattern: string, j: nat)
    requires SingleLine(pattern) && h != "" && h[|h| - 1] == '\n' && |a| <= j < |a| + |h|
    ensures Occurs(a + h + rest, pattern, j) <==> Occurs(h, pattern, j - |a|)
  {
    var t := a + h + rest;
    var i := j - |a|;
    if Occurs(t, pattern, j) {
      OccursAvoidsNewline(t, pattern, j, |a| + |h| - 1);
    }
    if i + |pattern| <= |h| {
      HeadPart(a, h, rest, i, i + |pattern|);
    }
  }

  /** Where the end marker is found in a replaced text: in its own line, unless it shows up in the head. */
  lemma EndMarkerPlace(a: string, h: string, indent: string, endMarker: string, tail: string)
    requires SingleLine(endMarker) && h != "" && h[|h| - 1] == '\n'
    ensures var e := IndexOf(a + h + (indent + endMarker + tail), endMarker, |a|);
            && e.Some? && e.value <= |a| + |h| + |indent|
            && (e.value < |a| + |h| <==> Contains(h, endMarker))
  {
    var rest := indent + endMarker + tail;
    var t := a + h + rest;
    var own := |a| + |h| + |indent|;
    assert t[own..own + |endMarker|] == endMarker;
    assert Occurs(t, endMarker, own);
    var e := IndexOf(t, endMarker, |a|).value;
    if e < |a| + |h| {
      OccursInHead(a, h, rest, endMarker, e);
    }
    if Contains(h, endMarker) {
      var i: nat :| Occurs(h, endMarker, i);
      OccursInHead(a, h, rest, endMarker, |a| + i);
    }
  }

  /** From inside a line without newlines, the line ends where the tail begins. */
  lemma LineEndsAtTail(a: string, line: string, tail: string, e: nat)
    requires '\n' !in line && |a| <= e <= |a| + |line| && (tail != "" ==> tail[0] == '\n')
    ensures LineEnd(a + line + tail, e) == |a| + |line| + if tail == "" then 0 else 1
  {
    var t := a + line + tail;
    assert forall j | |a| <= j < |a| + |line| :: t[j] in line;
    assert tail != "" ==> t[|a| + |line|] == '\n';
  }

  function Tail(after: string): string {
    if after == "" then "" else "\n" + after
  }

  lemma AssembleParts(p: Parts, startMarker: string, endMarker: string, lines: seq<string>)
    ensures var a, h := p.before + p.indent, Head(p.indent, startMarker, lines);
            var r := Assemble(p, startMarker, endMarker, lines);
            && r == a + (h + (p.indent + endMarker + Tail(p.after)))
            && r == (a + h) + (p.indent + endMarker) + Tail(p.after)
  {
  }

  lemma AssembleStart(p: Parts, startMarker: string, endMarker: string, lines: seq<string>) returns (rest: string)
    ensures Assemble(p, startMarker, endMarker, lines) == (p.before + p.indent + startMarker) + rest
  {
    rest := ("\n" + Body(p.indent, lines)) + p.indent + endMarker + Tail(p.after);
  }

  lemma FrontEnds(text: string, si: nat, pattern: string)
    requires Occurs(text, pattern, si)
    ensures text[..si + |pattern|] == text[..si] + pattern
  {
  }

  /** The start marker is found again in the same line. */
  lemma StartFoundAgain(text: string, startMarker: string, endMarker: string, lines: seq<string>, p: Parts)
    requires TakesApart(text, startMarker, endMarker, p)
    ensures IndexOf(Assemble(p, startMarker, endMarker, lines), startMarker, 0) == Some(|p.before| + |p.indent|)
  {
    var si := |p.before| + |p.indent|;
    var m := si + |startMarker|;
    var rest := AssembleStart(p, startMarker, endMarker, lines);
    FrontOf(Assemble(p, startMarker, endMarker, lines), p.before + p.indent + startMarker, rest);
    FrontEnds(text, si, startMarker);
    FoundInSamePlace(text, Assemble(p, startMarker, endMarker, lines), startMarker, m, si);
  }

  lemma OwnLineEnds(a: string, h: string, indent: string, endMarker: string, tail: string, e: nat)
    requires SingleLine(endMarker) && '\n' !in indent && (tail != "" ==> tail[0] == '\n')
    requires |a| + |h| <= e <= |a| + |h| + |indent|
    ensures var r := a + h + (indent + endMarker + tail);
            r[LineEnd(r, e)..] == if tail == "" then "" else tail[1..]
  {
    var r := a + h + (indent + endMarker + tail);
    assert r == (a + h) + (indent + endMarker) + tail;
    LineEndsAtTail(a + h, indent + endMarker, tail, e);
  }

  lemma FoundInOwnLine(r: string, a: string, rest: string, h: string, indent: string, endMarker: string, after: string)
    returns (e: nat)
    requires SingleLine(endMarker) && '\n' !in indent
    requires h != "" && h[|h| - 1] == '\n' && !Contains(h, endMarker)
    requires r == a + rest && rest == h + (indent + endMarker + Tail(after))
    ensures e <= |r| && IndexOf(r, endMarker, |a|) == Some(e) && r[LineEnd(r, e)..] == after
  {
    Regrouped(a, h, indent + endMarker + Tail(after));
    EndMarkerPlace(a, h, indent, endMarker, Tail(after));
    e := IndexOf(r, endMarker, |a|).value;
    OwnLineEnds(a, h, indent, endMarker, Tail(after), e);
  }

  lemma FoundInHead(r: string, a: string, rest: string, h: string, indent: string, endMarker: string, after: string)
    returns (e: nat)
    requires SingleLine(endMarker) && h != "" && h[|h| - 1] == '\n' && Contains(h, endMarker)
    requires r == a + rest && rest == h + (indent + endMarker + Tail(after))
    ensures e <= |r| && IndexOf(r, endMarker, |a|) == Some(e) && |r[LineEnd(r, e)..]| > |after|
  {
    Regrouped(a, h, indent + endMarker + Tail(after));
    EndMarkerPlace(a, h, indent, endMarker, Tail(after));
    e := IndexOf(r, endMarker, |a|).value;
    assert r[|a| + |h| - 1] == '\n';
    assert LineEnd(r, e) <= |a| + |h|;
  }

  lemma FrontOf(r: string, a: string, rest: string)
    requires r == a + rest
    ensures |r| == |a| + |rest| && r[..|a|] == a
  {
  }

  lemma Regrouped(a: string, h: string, rest: string)
    ensures a + h + rest == a + (h + rest)
  {
  }

  lemma ApartAt(r: string, startMarker: string, endMarker: string, p: Parts, a: string, rest: string, e: nat)
    requires r == a + rest && a == p.before + p.indent
    requires '\n' !in p.indent && (p.before == "" || p.before[|p.before| - 1] == '\n')
    requires IndexOf(r, startMarker, 0) == Some(|a|)
    requires IndexOf(r, endMarker, |a|) == Some(e) && e <= |r| && p.after == r[LineEnd(r, e)..]
    ensures TakesApart(r, startMarker, endMarker, p)
  {
    FrontOf(r, a, rest);
    FoundParts(r, startMarker, endMarker, p, e);
  }

  lemma ApartAgain(r: string, startMarker: string, endMarker: string, p: Parts, a: string, rest: string, h: string)
    requires SingleLine(endMarker) && '\n' !in p.indent && (p.before == "" || p.before[|p.before| - 1] == '\n')
    requires h != "" && h[|h| - 1] == '\n' && !Contains(h, endMarker)
    requires r == a + rest && a == p.before + p.indent && rest == h + (p.indent + endMarker + Tail(p.after))
    requires IndexOf(r, startMarker, 0) == Some(|a|)
    ensures TakesApart(r, startMarker, endMarker, p)
  {
    var e := FoundInOwnLine(r, a, rest, h, p.indent, endMarker, p.after);
    ApartAt(r, startMarker, endMarker, p, a, rest, e);
  }

  lemma ApartEarlier(r: string, startMarker: string, endMarker: string, p: Parts, a: string, rest: string, h: string)
    returns (q: Parts)
    requires SingleLine(endMarker) && '\n' !in p.indent && (p.before == "" || p.before[|p.before| - 1] == '\n')
    requires h != "" && h[|h| - 1] == '\n' && Contains(h, endMarker)
    requires r == a + rest && a == p.before + p.indent && rest == h + (p.indent + endMarker + Tail(p.after))
    requires IndexOf(r, startMarker, 0) == Some(|a|)
    ensures TakesApart(r, startMarker, endMarker, q)
    ensures q.before == p.before && q.indent == p.indent && |q.after| > |p.after|
  {
    var e := FoundInHead(r, a, rest, h, p.indent, endMarker, p.after);
    q := p.(after := r[LineEnd(r, e)..]);
    ApartAt(r, startMarker, endMarker, q, a, rest, e);
  }

  /** The parts' own lines: what stands before is whole lines, and the indent is no line. */
  predicate WholeLines(p: Parts) {
    '\n' !in p.indent && (p.before == "" || p.before[|p.before| - 1] == '\n')
  }

  lemma AssembledApart(startMarker: string, endMarker: string, lines: seq<string>, p: Parts)
    requires SingleLine(endMarker) && WholeLines(p) && !Contains(Head(p.indent, startMarker, lines), endMarker)
    requires IndexOf(Assemble(p, startMarker, endMarker, lines), startMarker, 0) == Some(|p.before| + |p.indent|)
    ensures TakesApart(Assemble(p, startMarker, endMarker, lines), startMarker, endMarker, p)
  {
    HeadEndsWithNewline(p.indent, startMarker, lines);
    AssembleParts(p, startMarker, endMarker, lines);
    var a, h := p.before + p.indent, Head(p.indent, startMarker, lines);
    ApartAgain(Assemble(p, startMarker, endMarker, lines), startMarker, endMarker, p, a,
               h + (p.indent + endMarker + Tail(p.after)), h);
  }

  lemma ComesApartAlike(text: string, startMarker: string, endMarker: string, lines: seq<string>, p: Parts)
    requires SingleLine(startMarker) && SingleLine(endMarker) && TakesApart(text, startMarker, endMarker, p)
    requires !Contains(Head(p.indent, startMarker, lines), endMarker)
    ensures TakesApart(Assemble(p, startMarker, endMarker, lines), startMarker, endMarker, p)
  {
    StartFoundAgain(text, startMarker, endMarker, lines, p);
    AssembledApart(startMarker, endMarker, lines, p);
  }

  lemma AssembledLength(p: Parts, startMarker: string, endMarker: string, lines: seq<string>)
    ensures |Assemble(p, startMarker, endMarker, lines)| ==
            |p.before| + |p.indent| + |Head(p.indent, startMarker, lines)| + |p.indent| + |endMarker|
            + if p.after == "" then 0 else 1 + |p.after|
  {
  }

  /** When it does, the text comes apart into a longer rest. */
  lemma AssembledApartEarly(startMarker: string, endMarker: string, lines: seq<string>, p: Parts) returns (q: Parts)
    requires SingleLine(endMarker) && WholeLines(p) && Contains(Head(p.indent, startMarker, lines), endMarker)
    requires IndexOf(Assemble(p, startMarker, endMarker, lines), startMarker, 0) == Some(|p.before| + |p.indent|)
    ensures TakesApart(Assemble(p, startMarker, endMarker, lines), startMarker, endMarker, q)
    ensures q.before == p.before && q.indent == p.indent && |q.after| > |p.after|
  {
    HeadEndsWithNewline(p.indent, startMarker, lines);
    AssembleParts(p, startMarker, endMarker, lines);
    var a, h := p.before + p.indent, Head(p.indent, startMarker, lines);
    q := ApartEarlier(Assemble(p, startMarker, endMarker, lines), startMarker, endMarker, p, a,
                      h + (p.indent + endMarker + Tail(p.after)), h);
  }

  lemma ComesApartEarly(text: string, startMarker: string, endMarker: string, lines: seq<string>, p: Parts)
    returns (q: Parts)
    requires SingleLine(startMarker) && SingleLine(endMarker) && TakesApart(text, startMarker, endMarker, p)
    requires Contains(Head(p.indent, startMarker, lines), endMarker)
    ensures TakesApart(Assemble(p, startMarker, endMarker, lines), startMarker, endMarker, q)
    ensures q.before == p.before && q.indent == p.indent && |q.after| > |p.after|
  {
    StartFoundAgain(text, startMarker, endMarker, lines, p);
    q := AssembledApartEarly(startMarker, endMarker, lines, p);
  }

  /** The line the end marker is found in ends the block, and the rest of the old block is kept after the new one. */
  lemma GrowsWhenEarly(text: string, startMarker: string, endMarker: string, lines: seq<string>, p: Parts)
    requires SingleLine(startMarker) && SingleLine(endMarker) && TakesApart(text, startMarker, endMarker, p)
    requires Contains(Head(p.indent, startMarker, lines), endMarker)
    ensures var r := Assemble(p, startMarker, endMarker, lines);
            ReplaceBlockLines(r, startMarker, endMarker, lines).Replaced?
            && |ReplaceBlockLines(r, startMarker, endMarker, lines).text| > |r|
  {
    var q := ComesApartEarly(text, startMarker, endMarker, lines, p);
    ReplacementOf(Assemble(p, startMarker, endMarker, lines), startMarker, endMarker, lines, q);
    AssembledLength(p, startMarker, endMarker, lines);
    AssembledLength(q, startMarker, endMarker, lines);
  }

  /**
   * Replacing a second time changes nothing exactly when the end marker occurs in neither the start
   * marker nor a rendered line.
   */
  lemma IdempotentExactly(text: string, startMarker: string, endMarker: string, lines: seq<string>, p: Parts)
    requires SingleLine(startMarker) && SingleLine(endMarker) && TakesApart(text, startMarker, endMarker, p)
    ensures var once := ReplaceBlockLines(text, startMarker, endMarker, lines);
            && once.Replaced?
            && (ReplaceBlockLines(once.text, startMarker, endMarker, lines) == once <==>
                !EndsEarly(p.indent, startMarker, endMarker, lines))
  {
    ReplacementOf(text, startMarker, endMarker, lines, p);
    HeadContains(p.indent, startMarker, endMarker, lines);
    if EndsEarly(p.indent, startMarker, endMarker, lines) {
      GrowsWhenEarly(text, startMarker, endMarker, lines, p);
    } else {
      ComesApartAlike(text, startMarker, endMarker, lines, p);
      ReplacementOf(Assemble(p, startMarker, endMarker, lines), startMarker, endMarker, lines, p);
    }
  }

  lemma CharFound(text: string, c: char, i: nat)
    requires i < |text| && text[i] == c && forall j | 0 <= j < i :: text[j] != c
    ensures IndexOf(text, [c], 0) == Some(i)
  {
    assert text[i..i + 1] == [c];
    forall j: nat | j < i ensures !Occurs(text, [c], j) {
      assert j + 1 <= |text| && text[j..j + 1][0] == text[j];
    }
    FirstIsIndex(text, [c], 0, i);
  }

  lemma StartsAtOnce(text: string, startMarker: string, endMarker: string, end: nat)
    requires IndexOf(text, startMarker, 0) == Some(0) && IndexOf(text, endMarker, 0) == Some(end) && end <= |text|
    ensures TakesApart(text, startMarker, endMarker, Parts("", "", text[LineEnd(text, end)..]))
  {
    assert text[..0] == "" + "";
    FoundParts(text, startMarker, endMarker, Parts("", "", text[LineEnd(text, end)..]), end);
  }

  lemma SmallParts(text: string, end: nat)
    requires 0 < end < |text| && text[0] == 'a' && text[end] == 'b' && forall i | 0 <= i < end :: text[i] != 'b'
    ensures TakesApart(text, "a", "b", Parts("", "", text[LineEnd(text, end)..]))
  {
    CharFound(text, 'a', 0);
    CharFound(text, 'b', end);
    StartsAtOnce(text, "a", "b", end);
  }

  /** Replacing between "a" and "b" with the line "b" writes these two and the line, whatever stood there. */
  lemma SmallReplacement(text: string, end: nat)
    requires 0 < end < |text| && text[0] == 'a' && text[end] == 'b' && forall i | 0 <= i < end :: text[i] != 'b'
    ensures ReplaceBlockLines(text, "a", "b", ["b"]) == Replaced("a\nb\nb" + Tail(text[LineEnd(text, end)..]))
  {
    SmallParts(text, end);
    SmallBlock(text[LineEnd(text, end)..]);
    ReplacementOf(text, "a", "b", ["b"], Parts("", "", text[LineEnd(text, end)..]));
  }

  lemma SmallBlock(after: string)
    ensures Assemble(Parts("", "", after), "a", "b", ["b"]) == "a\nb\nb" + Tail(after)
  {
    assert ["b"][1..] == [];
    assert Body("", ["b"]) == "b\n";
    assert Head("", "a", ["b"]) == "a\nb\n";
    AssembleParts(Parts("", "", after), "a", "b", ["b"]);
  }

  lemma FirstReplacement()
    ensures ReplaceBlockLines("ab", "a", "b", ["b"]) == Replaced("a\nb\nb")
  {
    var text := "ab";
    assert LineEnd(text, 1) == 2 && text[2..] == "";
    SmallReplacement(text, 1);
  }

  lemma SecondReplacement()
    ensures ReplaceBlockLines("a\nb\nb", "a", "b", ["b"]) == Replaced("a\nb\nb\nb")
  {
    var text := "a\nb\nb";
    assert LineEnd(text, 2) == 4 && text[4..] == "b";
    SmallReplacement(text, 2);
    assert text + ("\n" + "b") == "a\nb\nb\nb";
  }

  /** A rendered line that holds the end marker: each replacement adds another line. */
  lemma EndMarkerInLine()
    ensures ReplaceBlockLines("ab", "a", "b", ["b"]) == Replaced("a\nb\nb")
    ensures ReplaceBlockLines("a\nb\nb", "a", "b", ["b"]) == Replaced("a\nb\nb\nb")
  {
    FirstReplacement();
    SecondReplacement();
  }

  // ---------------------------------------------------------------- which marker is missing

  /** It fails exactly when no start marker is there, or when no end marker stands at or after the first one. */
  lemma MissingExactly(text: string, startMarker: string, endMarker: string, lines: seq<string>)
    ensures var r := ReplaceBlockLines(text, startMarker, endMarker, lines);
            && (r.MissingStartMarker? <==> !exists i: nat :: Occurs(text, startMarker, i))
            && (r.MissingEndMarker? <==>
                exists i: nat ::
                  FirstAt(text, startMarker, 0, i) && forall k: nat | i <= k :: !Occurs(text, endMarker, k))
  {
    var si := IndexOf(text, startMarker, 0);
    assert si.Some? ==> forall i: nat | FirstAt(text, startMarker, 0, i) :: i == si.value;
  }

  lemma OccursHere(a: string, pattern: string, b: string, i: nat)
    ensures Occurs(a + pattern + b, pattern, |a|)
    ensures Occurs(a, pattern, i) ==> i + |pattern| <= |a| && forall k | 0 <= k < |pattern| :: a[i + k] == pattern[k]
  {
    assert (a + pattern + b)[|a|..|a| + |pattern|] == pattern;
  }

  /** What is written between the kept lines: marker, lines and marker, each with the indent of the start marker. */
  lemma TwoRenderedLines(before: string, indent: string, after: string, startMarker: string, endMarker: string,
                         first: string, second: string)
    ensures Assemble(Parts(before, indent, after), startMarker, endMarker, [first, second]) ==
            before + indent + startMarker + "\n" + indent + first + "\n" + indent + second + "\n" + indent + endMarker
            + if after == "" then "" else "\n" + after
  {
    assert [first, second][1..] == [second] && [second][1..] == [];
    assert Body(indent, [second]) == indent + second + "\n";
    assert Body(indent, [first, second]) == indent + first + "\n" + (indent + second + "\n");
  }
}
