/** Extracting the summary from a command's output (SummaryBuffer in
    client/command.go). Text is ASCII, so lower-casing is character by character. */
module Summary {
  import opened Wildcards

  const OPEN := "<summary>"
  const CLOSE := "</summary>"

  /** bufio.Scanner gives up on a line that does not fit its buffer. */
  const MAX_LINE := 65535

  function LowerChar(c: char): char {
    if 'A' <= c <= 'Z' then c + 32 as char else c
  }

  function Lower(s: string): (r: string)
    ensures |r| == |s|
    ensures forall i :: 0 <= i < |s| ==> r[i] == LowerChar(s[i])
  {
    seq(|s|, i requires 0 <= i < |s| => LowerChar(s[i]))
  }

  /** bytes.Index in the lower-cased text. */
  function Find(s: string, tag: string): (r: int)
    ensures r == -1 || 0 <= r <= |s| - |tag|
  {
    var r := Index(Lower(s), tag);
    assert r >= 0 ==> OccursAt(Lower(s), tag, r);
    r
  }

  /** The first occurrence decides where a tag is found. */
  lemma FoundAt(s: string, tag: string, i: nat)
    requires OccursAt(Lower(s), tag, i)
    requires forall k :: 0 <= k < i ==> !OccursAt(Lower(s), tag, k)
    ensures Find(s, tag) == i
  {}

  lemma NotFound(s: string, tag: string)
    ensures Find(s, tag) == -1 <==> forall k :: 0 <= k <= |s| ==> !OccursAt(Lower(s), tag, k)
  {}

  /** The tag that is looked for next. */
  function Tag(inside: bool): string {
    if inside then CLOSE else OPEN
  }

  /** What one stretch of text contributes, and whether it ends inside a summary.
      Applied to a line this is the scanner's inner loop; applied to a whole
      output it is what the output means. */
  function Extract(s: string, inside: bool): (string, bool)
    decreases |s|
  {
    var i := Find(s, Tag(inside));
    if i == -1 then (if inside then s else "", inside)
    else
      var rest := Extract(s[i + |Tag(inside)|..], !inside);
      ((if inside then s[..i] else "") + rest.0, rest.1)
  }

  /** The part of `s` before position `i`, if it is in a summary. */
  function Taken(s: string, inside: bool, i: nat): string
    requires i <= |s|
  {
    if inside then s[..i] else ""
  }

  lemma ExtractFound(s: string, inside: bool)
    requires Find(s, Tag(inside)) != -1
    ensures
      var i := Find(s, Tag(inside));
      var rest := Extract(s[i + |Tag(inside)|..], !inside);
      Extract(s, inside).0 == Taken(s, inside, i) + rest.0 && Extract(s, inside).1 == rest.1
  {
    hide Find, Tag;
  }

  lemma ExtractNone(s: string, inside: bool)
    requires Find(s, Tag(inside)) == -1
    ensures Extract(s, inside).0 == Taken(s, inside, |s|) && Extract(s, inside).1 == inside
  {
    hide Find, Tag;
    assert s[..|s|] == s;
  }

  /** bufio.ScanLines: lines without their end, a trailing CR dropped, nothing
      after a line that is too long. */
  function Scan(text: string): seq<string>
    decreases |text|
  {
    if text == "" then []
    else
      var i := Index(text, "\n");
      var line := if i == -1 then text else text[..i];
      if |line| > MAX_LINE then []
      else [WithoutCR(line)] + (if i == -1 then [] else NewlineAt(text, i); Scan(text[i + 1..]))
  }

  lemma NewlineAt(text: string, i: nat)
    requires OccursAt(text, "\n", i)
    ensures i < |text| && text[i] == '\n'
  {
    assert text[i..i + 1][0] == text[i];
  }

  function WithoutCR(line: string): string {
    if line != "" && line[|line| - 1] == '\r' then line[..|line| - 1] else line
  }

  /** The inner loop of SummaryBuffer.process, over one line. */
  method ProcessLine(scanned: string, was: bool) returns (written: string, insideSummary: bool)
    ensures written == Extract(scanned, was).0 && insideSummary == Extract(scanned, was).1
  {
    hide Find, Extract;
    var line := scanned;
    written, insideSummary := "", was;
    while |line| > 0
      invariant Extract(scanned, was).0 == written + Extract(line, insideSummary).0
      invariant Extract(scanned, was).1 == Extract(line, insideSummary).1
      decreases |line|
    {
      if insideSummary {
        var i := Find(line, CLOSE);
        if i != -1 {
          ExtractFound(line, true);
          written := written + line[..i];
          line := line[i + |CLOSE|..];
          insideSummary := false;
        } else {
          ExtractNone(line, true);
          assert line[..|line|] == line;
          written := written + line;
          return;
        }
      } else {
        var i := Find(line, OPEN);
        if i == -1 {
          ExtractNone(line, false);
          return;
        }
        ExtractFound(line, false);
        line := line[i + |OPEN|..];
        insideSummary := true;
      }
    }
    NothingInEmpty(insideSummary);
    assert line == "";
  }

  lemma NothingInEmpty(inside: bool)
    ensures Extract("", inside).0 == "" && Extract("", inside).1 == inside
  {
    hide Extract;
    assert Find("", Tag(inside)) == -1;
    ExtractNone("", inside);
  }

  /** What a line adds to the buffer. */
  function LineOut(line: string, inside: bool): string {
    var e := Extract(line, inside);
    e.0 + if e.1 then "\n" else ""
  }

  function Collect(lines: seq<string>, inside: bool): (string, bool) {
    if lines == [] then ("", inside)
    else
      var rest := Collect(lines[1..], Extract(lines[0], inside).1);
      (LineOut(lines[0], inside) + rest.0, rest.1)
  }

  /** SummaryBuffer.process. */
  method Process(text: string) returns (summary: string)
    ensures summary == Collect(Scan(text), false).0
  {
    hide Scan, Extract, Collect, LineOut;
    var lines := Scan(text);
    summary := "";
    var insideSummary := false;
    assert lines[0..] == lines;
    for n := 0 to |lines|
      invariant Collect(lines, false).0 == summary + Collect(lines[n..], insideSummary).0
    {
      CollectFrom(lines, n, insideSummary);
      ghost var was, before := insideSummary, summary;
      var written;
      written, insideSummary := ProcessLine(lines[n], insideSummary);
      summary := summary + written;
      if insideSummary {
        summary := summary + "\n";
      }
      LineOutIs(lines[n], was);
      assert summary == before + LineOut(lines[n], was);
      Regroup(before, LineOut(lines[n], was), Collect(lines[n + 1..], insideSummary).0);
    }
    CollectFrom(lines, |lines|, insideSummary);
  }

  lemma LineOutIs(line: string, inside: bool)
    ensures LineOut(line, inside) == Extract(line, inside).0 + if Extract(line, inside).1 then "\n" else ""
  {}

  lemma Regroup(a: string, b: string, c: string)
    ensures a + (b + c) == (a + b) + c
  {}

  lemma CollectFrom(lines: seq<string>, n: nat, inside: bool)
    requires n <= |lines|
    ensures n == |lines| ==> Collect(lines[n..], inside).0 == ""
    ensures n < |lines| ==>
              Collect(lines[n..], inside).0 ==
                LineOut(lines[n], inside) + Collect(lines[n + 1..], Extract(lines[n], inside).1).0
  {
    hide Extract, LineOut;
    if n < |lines| {
      assert lines[n..][0] == lines[n] && lines[n..][1..] == lines[n + 1..];
    }
  }

  // --- Lines do not matter ---------------------------------------------------------------

  predicate OneLine(s: string) {
    '\n' !in s
  }

  function Joined(line: string, rest: string): (text: string)
    ensures |text| == |line| + 1 + |rest|
    ensures forall k :: 0 <= k < |line| ==> text[k] == line[k]
    ensures text[|line|] == '\n'
    ensures forall k :: 0 <= k < |rest| ==> text[|line| + 1 + k] == rest[k]
  {
    line + "\n" + rest
  }

  lemma InLine(line: string, rest: string, tag: string, k: nat)
    requires k + |tag| <= |line|
    ensures OccursAt(Lower(line), tag, k) <==> OccursAt(Lower(Joined(line, rest)), tag, k)
  {
    hide Joined;
    assert Lower(line)[k..k + |tag|] == Lower(Joined(line, rest))[k..k + |tag|];
  }

  lemma InRest(line: string, rest: string, tag: string, k: nat)
    requires k + |tag| <= |rest|
    ensures OccursAt(Lower(rest), tag, k) <==> OccursAt(Lower(Joined(line, rest)), tag, |line| + 1 + k)
  {
    hide Joined;
    var m := |line| + 1;
    assert Lower(rest)[k..k + |tag|] == Lower(Joined(line, rest))[m + k..m + k + |tag|];
  }

  /** Nothing is found across the end of a line. */
  lemma NotAcross(line: string, rest: string, tag: string, k: nat)
    requires OneLine(tag) && k <= |line| < k + |tag|
    ensures !OccursAt(Lower(Joined(line, rest)), tag, k)
  {
    hide Joined;
    var b, n := Lower(Joined(line, rest)), |line| - k;
    if k + |tag| <= |b| {
      assert b[k..k + |tag|][n] == b[|line|] == '\n';
      assert tag[n] in tag;
    }
  }

  lemma FindInLine(line: string, rest: string, tag: string)
    requires Find(line, tag) != -1
    ensures Find(Joined(line, rest), tag) == Find(line, tag)
  {
    var i := Find(line, tag);
    InLine(line, rest, tag, i);
    forall k | 0 <= k < i ensures !OccursAt(Lower(Joined(line, rest)), tag, k) {
      InLine(line, rest, tag, k);
    }
    FoundAt(Joined(line, rest), tag, i);
  }

  lemma OnlyInRest(line: string, rest: string, tag: string, k: nat)
    requires tag != "" && OneLine(tag) && Find(line, tag) == -1 && k <= |Joined(line, rest)|
    ensures OccursAt(Lower(Joined(line, rest)), tag, k) ==> k > |line| && OccursAt(Lower(rest), tag, k - |line| - 1)
  {
    hide Joined, Find;
    NotFound(line, tag);
    if k + |tag| <= |line| {
      InLine(line, rest, tag, k);
    } else if k <= |line| {
      NotAcross(line, rest, tag, k);
    } else if k - |line| - 1 + |tag| <= |rest| {
      InRest(line, rest, tag, k - |line| - 1);
    }
  }

  lemma FindPastLine(line: string, rest: string, tag: string)
    requires tag != "" && OneLine(tag) && Find(line, tag) == -1
    ensures Find(Joined(line, rest), tag) == if Find(rest, tag) == -1 then -1 else |line| + 1 + Find(rest, tag)
  {
    hide Joined;
    var j, m := Find(rest, tag), |line| + 1;
    forall k | 0 <= k <= |Joined(line, rest)| && (j == -1 || k < m + j)
      ensures !OccursAt(Lower(Joined(line, rest)), tag, k)
    {
      OnlyInRest(line, rest, tag, k);
    }
    if j != -1 {
      InRest(line, rest, tag, j);
      FoundAt(Joined(line, rest), tag, m + j);
    } else {
      NotFound(Joined(line, rest), tag);
    }
  }

  lemma TagsAreOneLine(inside: bool)
    ensures Tag(inside) != "" && OneLine(Tag(inside))
  {}

  /** The meaning of a text is what its first line adds, then the meaning of the
      rest. */
  lemma {:induction false} ExtractLine(line: string, rest: string, inside: bool)
    requires OneLine(line)
    ensures
      var text := Joined(line, rest);
      var after := Extract(rest, Extract(line, inside).1);
      Extract(text, inside).0 == LineOut(line, inside) + after.0 && Extract(text, inside).1 == after.1
    decreases |line|
  {
    hide Find, OneLine, Extract, Tag;
    var tag, text := Tag(inside), Joined(line, rest);
    TagsAreOneLine(inside);
    var i := Find(line, tag);
    if i != -1 {
      FindInLine(line, rest, tag);
      ExtractFound(line, inside);
      ExtractFound(text, inside);
      var tail := line[i + |tag|..];
      TailOneLine(line, i + |tag|);
      assert text[i + |tag|..] == Joined(tail, rest);
      assert text[..i] == line[..i];
      ExtractLine(tail, rest, !inside);
      assert LineOut(line, inside) == Taken(line, inside, i) + LineOut(tail, !inside);
    } else {
      FindPastLine(line, rest, tag);
      ExtractPast(line, rest, inside);
    }
  }

  lemma TailOneLine(line: string, n: nat)
    requires OneLine(line) && n <= |line|
    ensures OneLine(line[n..])
  {}

  lemma ExtractPast(line: string, rest: string, inside: bool)
    requires
      var tag := Tag(inside);
      && Find(line, tag) == -1
      && Find(Joined(line, rest), tag) == if Find(rest, tag) == -1 then -1 else |line| + 1 + Find(rest, tag)
    ensures
      var text := Joined(line, rest);
      var after := Extract(rest, inside);
      && Extract(line, inside).1 == inside
      && Extract(text, inside).0 == LineOut(line, inside) + after.0 && Extract(text, inside).1 == after.1
  {
    hide Find, Tag, Extract;
    var text, tag := Joined(line, rest), Tag(inside);
    ExtractNone(line, inside);
    assert line[..|line|] == line && text[..|text|] == text && rest[..|rest|] == rest;
    assert LineOut(line, inside) == if inside then line + "\n" else "";
    var j := Find(rest, tag);
    if j != -1 {
      ExtractFound(rest, inside);
      ExtractFound(text, inside);
      assert text[|line| + 1 + j + |tag|..] == rest[j + |tag|..];
      assert text[..|line| + 1 + j] == line + "\n" + rest[..j];
    } else {
      ExtractNone(rest, inside);
      ExtractNone(text, inside);
    }
  }

  // --- Whole outputs ------------------------------------------------------------------------

  /** No CR, and every line fits the scanner. */
  ghost predicate Scannable(text: string) {
    '\r' !in text && forall i, j :: 0 <= i <= j <= |text| && OneLine(text[i..j]) ==> j - i <= MAX_LINE
  }

  /** Cut at its first end of line, a text is a line and a rest. */
  lemma CutAtNewline(text: string)
    requires Scannable(text) && text != ""
    ensures
      var i := Index(text, "\n");
      if i == -1 then OneLine(text) && |text| <= MAX_LINE && WithoutCR(text) == text
      else && i < |text| && OneLine(text[..i]) && i <= MAX_LINE && WithoutCR(text[..i]) == text[..i]
           && text == Joined(text[..i], text[i + 1..]) && Scannable(text[i + 1..])
  {
    var i := Index(text, "\n");
    if i == -1 {
      forall k | 0 <= k < |text| ensures text[k] != '\n' {
        NoNewlineAt(text, k);
      }
      assert text[0..|text|] == text;
    } else {
      NewlineAt(text, i);
      forall k | 0 <= k < i ensures text[k] != '\n' {
        NoNewlineAt(text, k);
      }
      var rest := text[i + 1..];
      assert text[0..i] == text[..i];
      forall a, b | 0 <= a <= b <= |rest| && OneLine(rest[a..b]) ensures b - a <= MAX_LINE {
        assert rest[a..b] == text[i + 1 + a..i + 1 + b];
      }
    }
  }

  lemma NoNewlineAt(text: string, k: nat)
    requires k < |text| && !OccursAt(text, "\n", k)
    ensures text[k] != '\n'
  {
    assert text[k..k + 1] == [text[k]];
  }

  /** The end of line that is added to an open summary at the end of the output. */
  function AddedTo(text: string, inside: bool): string {
    if text != "" && inside && text[|text| - 1] != '\n' then "\n" else ""
  }

  lemma ScanCut(text: string)
    requires Scannable(text) && text != ""
    ensures
      var i := Index(text, "\n");
      if i == -1 then Scan(text) == [text] else i < |text| && Scan(text) == [text[..i]] + Scan(text[i + 1..])
  {
    hide Scannable, Index;
    CutAtNewline(text);
  }

  lemma CollectLast(line: string, inside: bool)
    requires OneLine(line) && line != ""
    ensures
      var whole := Extract(line, inside);
      Collect([line], inside).0 == whole.0 + AddedTo(line, whole.1) && Collect([line], inside).1 == whole.1
  {
    hide Extract;
    NoTrailingNewline(line);
    assert [line][1..] == [];
    assert Collect([line], inside).0 == LineOut(line, inside) + Collect([], Extract(line, inside).1).0;
  }

  lemma CollectMore(line: string, lines: seq<string>, inside: bool)
    ensures
      var after := Collect(lines, Extract(line, inside).1);
      && Collect([line] + lines, inside).0 == LineOut(line, inside) + after.0
      && Collect([line] + lines, inside).1 == after.1
  {
    hide Extract;
    assert ([line] + lines)[1..] == lines;
  }

  /** For every output the scanner can read, the buffer holds the output's
      meaning; an output that ends inside a summary without an end of line gets
      one added. */
  lemma {:induction false} LinesDoNotMatter(text: string, inside: bool)
    requires Scannable(text)
    ensures
      var whole := Extract(text, inside);
      Collect(Scan(text), inside).0 == whole.0 + AddedTo(text, whole.1) && Collect(Scan(text), inside).1 == whole.1
    decreases |text|
  {
    hide Scannable, Extract, Index;
    if text == "" {
      NothingInEmpty(inside);
    } else {
      CutAtNewline(text);
      ScanCut(text);
      hide Scan, Collect, LineOut;
      var i := Index(text, "\n");
      if i == -1 {
        CollectLast(text, inside);
      } else {
        var line, rest := text[..i], text[i + 1..];
        var open := Extract(line, inside).1;
        CollectMore(line, Scan(rest), inside);
        ExtractLine(line, rest, inside);
        LinesDoNotMatter(rest, open);
        LastOf(line, rest);
        assert AddedTo(text, Extract(text, inside).1) == AddedTo(rest, Extract(rest, open).1);
        Regroup(LineOut(line, inside), Extract(rest, open).0, AddedTo(rest, Extract(rest, open).1));
      }
    }
  }

  lemma NoTrailingNewline(text: string)
    requires OneLine(text) && text != ""
    ensures text[|text| - 1] != '\n'
  {
    assert text[|text| - 1] in text;
  }

  lemma LastOf(line: string, rest: string)
    ensures
      var text := Joined(line, rest);
      text[|text| - 1] == if rest == "" then '\n' else rest[|rest| - 1]
  {}

  /** The tag begins with the only '<' it has, so it cannot overlap what comes
      before it. */
  lemma FindAfter(before: string, opening: string, after: string, tag: string)
    requires tag != "" && (forall k :: 0 < k < |tag| ==> tag[k] != tag[0])
    requires Lower(opening) == tag && Find(before, tag) == -1
    ensures Find(before + opening + after, tag) == |before|
  {
    hide Find;
    NotFound(before, tag);
    var text, n := before + opening + after, |before|;
    var low := Lower(text);
    forall k | 0 <= k < n ensures !OccursAt(low, tag, k) {
      if k + |tag| <= n {
        assert Lower(before)[k..k + |tag|] == low[k..k + |tag|];
        assert !OccursAt(Lower(before), tag, k);
      } else if k + |tag| <= |low| {
        assert text[n] == opening[0];
        assert low[k..k + |tag|][n - k] == low[n] == tag[0];
        assert tag[n - k] != tag[0];
      }
    }
    assert low[n..n + |tag|] == tag;
    FoundAt(text, tag, n);
  }

  /** Round trip: around a body in tags, in any letter case, the extracted summary
      is exactly the body, ends of line included. */
  lemma SummaryRoundTrip(before: string, opening: string, body: string, closing: string, after: string)
    requires Lower(opening) == OPEN && Lower(closing) == CLOSE
    requires Find(before, OPEN) == -1 && Find(body, CLOSE) == -1 && Find(after, OPEN) == -1
    requires Scannable(before + opening + body + closing + after)
    ensures Collect(Scan(before + opening + body + closing + after), false).0 == body
  {
    hide Scannable, Find, Scan, Collect, Extract;
    var text := before + opening + body + closing + after;
    var inner := body + closing + after;
    assert text == before + opening + inner;
    FindAfter(before, opening, inner, OPEN);
    FindAfter(body, closing, after, CLOSE);
    assert text[|before| + |OPEN|..] == inner;
    assert inner[|body| + |CLOSE|..] == after && inner[..|body|] == body;
    ExtractNone(after, false);
    ExtractFound(inner, true);
    ExtractFound(text, false);
    LinesDoNotMatter(text, false);
  }

  /** A summary that is still open where the output ends, without an end of line,
      gets one. */
  lemma OpenSummaryGetsNewline(opening: string, body: string)
    requires Lower(opening) == OPEN && Find(body, CLOSE) == -1 && body != "" && body[|body| - 1] != '\n'
    requires Scannable(opening + body)
    ensures Collect(Scan(opening + body), false).0 == body + "\n"
  {
    hide Collect, Scan, Scannable, Extract, Lower;
    OpenExtract(opening, body);
    var text := opening + body;
    assert text != "" && text[|text| - 1] == body[|body| - 1];
    LinesDoNotMatter(text, false);
  }

  lemma OpenExtract(opening: string, body: string)
    requires Lower(opening) == OPEN && Find(body, CLOSE) == -1
    ensures Extract(opening + body, false).0 == body && Extract(opening + body, false).1
  {
    hide Find, Extract;
    FindAfter("", opening, body, OPEN);
    assert "" + opening + body == opening + body;
    ExtractFound(opening + body, false);
    assert (opening + body)[|OPEN|..] == body;
    ExtractNone(body, true);
  }

  /** A carriage return before the end of a line is not part of the line. */
  lemma CarriageReturnIsDropped(line: string, rest: string)
    requires OneLine(line) && |line| < MAX_LINE
    ensures Scan(Joined(line + "\r", rest)) == [line] + Scan(rest)
  {
    ScanJoined(line + "\r", rest);
    assert (line + "\r")[..|line|] == line;
  }

  /** Nothing is read from a line on that is too long. */
  lemma LongLineEndsScan(line: string, rest: string)
    requires OneLine(line) && |line| > MAX_LINE
    ensures Scan(Joined(line, rest)) == []
  {
    ScanJoined(line, rest);
  }

  lemma ScanJoined(line: string, rest: string)
    requires OneLine(line)
    ensures Scan(Joined(line, rest)) == if |line| > MAX_LINE then [] else [WithoutCR(line)] + Scan(rest)
  {
    var text := Joined(line, rest);
    assert OccursAt(text, "\n", |line|);
    assert forall k :: 0 <= k < |line| ==> !OccursAt(text, "\n", k) by {
      forall k | 0 <= k < |line| ensures !OccursAt(text, "\n", k) {
        assert text[k] == line[k] && line[k] in line;
        if OccursAt(text, "\n", k) {
          NewlineAt(text, k);
        }
      }
    }
    assert Index(text, "\n") == |line|;
    assert text[..|line|] == line && text[|line| + 1..] == rest;
  }
}
