/** How a systemd unit file is read: a line that ends in a backslash continues on the
    next one. */
module UnitFiles {

  /** The line boundaries of `str.splitlines`. */
  predicate IsBreak(c: char) {
    c == '\n' || c == '\r' || '\U{0b}' <= c <= '\U{0c}' || '\U{1c}' <= c <= '\U{1e}'
    || c == '\U{85}' || '\U{2028}' <= c <= '\U{2029}'
  }

  /** What `str.rstrip` removes. */
  predicate IsSpace(c: char) {
    IsBreak(c) || c == ' ' || c == '\t' || c == '\U{1f}' || c == '\U{a0}' || c == '\U{1680}'
    || '\U{2000}' <= c <= '\U{200a}' || c == '\U{202f}' || c == '\U{205f}' || c == '\U{3000}'
  }

  /** All of them, one by one. */
  const BREAKS := ['\n', '\r', '\U{0b}', '\U{0c}', '\U{1c}', '\U{1d}', '\U{1e}', '\U{85}', '\U{2028}', '\U{2029}']

  /** A text breaks at each of them, and at nothing else. */
  lemma BreaksIff(c: char)
    ensures SplitLines(['a', c, 'b']) == if c in BREAKS then [['a'], ['b']] else [['a', c, 'b']]
  {
    assert IsBreak(c) <==> c in BREAKS;
    var text := ['a', c, 'b'];
    var rest := text[1..];
    assert rest == [c, 'b'] && rest[1..] == "b" && text[2..] == "b";
    LastLine("b");
    if c in BREAKS {
      assert BreakAt(rest) == 0 && BreakAt(text) == 1 && text[..1] == "a";
    } else {
      assert BreakAt(rest) == 1 + BreakAt("b") && BreakAt(text) == 3;
    }
  }

  lemma LastLine(s: string)
    requires |s| == 1 && !IsBreak(s[0])
    ensures BreakAt(s) == 1 && SplitLines(s) == [s]
  {
    assert s[1..] == "" && BreakAt("") == 0;
  }

  /** Blank are the breaks and these. */
  const BLANKS := [
    ' ', '\t', '\U{1f}', '\U{a0}', '\U{1680}', '\U{2000}', '\U{2001}', '\U{2002}', '\U{2003}', '\U{2004}', '\U{2005}',
    '\U{2006}', '\U{2007}', '\U{2008}', '\U{2009}', '\U{200a}', '\U{202f}', '\U{205f}', '\U{3000}']

  /** A line loses what is blank at its end, and nothing else. */
  lemma BlanksIff(c: char)
    ensures RStrip(['a', c]) == if c in BREAKS || c in BLANKS then ['a'] else ['a', c]
  {
    assert IsSpace(c) <==> c in BREAKS || c in BLANKS;
    assert ['a', c][..1] == ['a'] && RStrip(['a']) == ['a'];
  }

  predicate OneLine(s: string) {
    forall i :: 0 <= i < |s| ==> !IsBreak(s[i])
  }

  function BreakAt(text: string): (n: nat)
    ensures n <= |text| && OneLine(text[..n])
    ensures n < |text| ==> IsBreak(text[n])
  {
    if text == "" || IsBreak(text[0]) then 0 else 1 + BreakAt(text[1..])
  }

  /** The boundary after a line is one character, or a carriage return and a newline. */
  function BreakWidth(text: string, n: nat): (w: nat)
    requires n < |text|
    ensures 1 <= w <= |text| - n
  {
    if text[n] == '\r' && n + 1 < |text| && text[n + 1] == '\n' then 2 else 1
  }

  function SplitLines(text: string): seq<string> {
    if text == "" then []
    else
      var n := BreakAt(text);
      if n == |text| then [text]
      else [text[..n]] + SplitLines(text[n + BreakWidth(text, n)..])
  }

  function RStrip(s: string): string {
    if s != "" && IsSpace(s[|s| - 1]) then RStrip(s[..|s| - 1]) else s
  }

  predicate Continues(line: string) {
    line != "" && line[|line| - 1] == '\\'
  }

  /** The logical lines of some physical lines, `pending` being what is read of the
      first one already. */
  function JoinFrom(raws: seq<string>, pending: string): seq<string> {
    if raws == [] then
      if pending != "" then [pending] else []
    else
      var line := RStrip(raws[0]);
      if Continues(line) then JoinFrom(raws[1..], pending + (line[..|line| - 1] + " "))
      else [pending + line] + JoinFrom(raws[1..], "")
  }

  /** `"\n".join(lines)` */
  function Separated(lines: seq<string>): string {
    if lines == [] then ""
    else if |lines| == 1 then lines[0]
    else lines[0] + "\n" + Separated(lines[1..])
  }

  method JoinSystemdContinuations(text: string) returns (joined: string)
    ensures joined == Separated(JoinFrom(SplitLines(text), ""))
  {
    var raws := SplitLines(text);
    var lines: seq<string> := [];
    var pending := "";
    for i := 0 to |raws|
      invariant lines + JoinFrom(raws[i..], pending) == JoinFrom(raws, "")
    {
      var line := RStrip(raws[i]);
      assert raws[i..][1..] == raws[i + 1..];
      if Continues(line) {
        pending := pending + (line[..|line| - 1] + " ");
        continue;
      }
      lines := lines + [pending + line];
      pending := "";
    }
    assert raws[|raws|..] == [];
    assert lines + [] == lines;
    if pending != "" {
      lines := lines + [pending];
    }
    joined := Separated(lines);
  }

  // ------------------------------------------------------------- nothing continues

  predicate Complete(line: string) {
    OneLine(line) && !Continues(line)
  }

  predicate AllComplete(lines: seq<string>) {
    forall i :: 0 <= i < |lines| ==> Complete(lines[i])
  }

  predicate AllOneLine(lines: seq<string>) {
    forall i :: 0 <= i < |lines| ==> OneLine(lines[i])
  }

  /** `pending` is empty or ends in the space that stands for a line boundary. */
  predicate PendingForm(pending: string) {
    OneLine(pending) && (pending != "" ==> pending[|pending| - 1] == ' ')
  }

  lemma {:induction false} SplitLinesAreLines(text: string)
    ensures AllOneLine(SplitLines(text))
    decreases |text|
  {
    if text != "" {
      var n := BreakAt(text);
      if n < |text| {
        SplitLinesAreLines(text[n + BreakWidth(text, n)..]);
      } else {
        assert text[..n] == text;
      }
    }
  }

  lemma {:induction false} RStripKeepsAPrefix(s: string)
    ensures RStrip(s) <= s
    ensures RStrip(s) != "" ==> !IsSpace(RStrip(s)[|RStrip(s)| - 1])
  {
    if s != "" && IsSpace(s[|s| - 1]) {
      RStripKeepsAPrefix(s[..|s| - 1]);
    }
  }

  lemma {:induction false} JoinedLinesAreComplete(raws: seq<string>, pending: string)
    requires AllOneLine(raws) && PendingForm(pending)
    ensures AllComplete(JoinFrom(raws, pending))
  {
    if raws != [] {
      var line := RStrip(raws[0]);
      RStripKeepsAPrefix(raws[0]);
      assert OneLine(line);
      assert AllOneLine(raws[1..]);
      if Continues(line) {
        JoinedLinesAreComplete(raws[1..], pending + (line[..|line| - 1] + " "));
      } else {
        JoinedLinesAreComplete(raws[1..], "");
        assert Complete(pending + line);
      }
    }
  }

  // ---------------------------------------------------------- splitting what is joined

  lemma {:induction false} BreakAtEndOf(line: string, rest: string)
    requires OneLine(line)
    ensures rest != "" && IsBreak(rest[0]) ==> BreakAt(line + rest) == |line|
    ensures rest == "" ==> BreakAt(line + rest) == |line|
  {
    var text := line + rest;
    var n := BreakAt(text);
    if n > |line| {
      assert text[..n][|line|] == rest[0];
    }
  }

  lemma SplitFirst(line: string, rest: string)
    requires OneLine(line)
    ensures SplitLines(line + "\n" + rest) == [line] + SplitLines(rest)
  {
    var text := line + "\n" + rest;
    assert text == line + ("\n" + rest);
    BreakAtEndOf(line, "\n" + rest);
    assert text[|line|] == '\n' && text[..|line|] == line && text[|line| + 1..] == rest;
  }

  function Terminated(lines: seq<string>): string {
    if lines == [] then "" else lines[0] + "\n" + Terminated(lines[1..])
  }

  lemma {:induction false} SplitTerminated(lines: seq<string>)
    requires AllOneLine(lines)
    ensures SplitLines(Terminated(lines)) == lines
  {
    if lines != [] {
      assert AllOneLine(lines[1..]);
      SplitTerminated(lines[1..]);
      SplitFirst(lines[0], Terminated(lines[1..]));
    }
  }

  function WithoutEmptyEnd(lines: seq<string>): seq<string> {
    if lines != [] && lines[|lines| - 1] == "" then lines[..|lines| - 1] else lines
  }

  /** Splitting what was joined with newlines gives the lines back, except that an empty
      last line is no line. */
  lemma {:induction false} SplitSeparated(lines: seq<string>)
    requires AllOneLine(lines)
    ensures SplitLines(Separated(lines)) == WithoutEmptyEnd(lines)
  {
    if |lines| == 1 {
      BreakAtEndOf(lines[0], "");
      assert lines[0] + "" == lines[0];
    } else if |lines| > 1 {
      assert AllOneLine(lines[1..]);
      SplitSeparated(lines[1..]);
      SplitOneMore(lines);
    }
  }

  lemma SplitOneMore(lines: seq<string>)
    requires |lines| > 1 && AllOneLine(lines) && SplitLines(Separated(lines[1..])) == WithoutEmptyEnd(lines[1..])
    ensures SplitLines(Separated(lines)) == WithoutEmptyEnd(lines)
  {
    SplitFirst(lines[0], Separated(lines[1..]));
    assert [lines[0]] + WithoutEmptyEnd(lines[1..]) == WithoutEmptyEnd(lines);
  }

  /** Whatever the file holds, no logical line ends in a backslash, and whoever splits
      the joined text again sees exactly the logical lines, but for an empty last one. */
  lemma NoLineContinues(text: string)
    ensures var lines := JoinFrom(SplitLines(text), "");
            AllComplete(lines) && SplitLines(Separated(lines)) == WithoutEmptyEnd(lines)
  {
    SplitLinesAreLines(text);
    JoinedLinesAreComplete(SplitLines(text), "");
    var lines := JoinFrom(SplitLines(text), "");
    assert AllOneLine(lines) by {
      assert forall i :: 0 <= i < |lines| ==> Complete(lines[i]);
    }
    SplitSeparated(lines);
  }

  // ---------------------------------------------------------------------- rendering

  /** A logical line, chopped into chunks. */
  predicate Chopped(chunks: seq<string>) {
    && chunks != []
    && (forall i :: 0 <= i < |chunks| ==> OneLine(chunks[i]) && RStrip(chunks[i]) == chunks[i])
    && !Continues(chunks[|chunks| - 1])
  }

  /** Its physical lines: all but the last chunk are followed by a backslash. */
  function Physical(chunks: seq<string>): seq<string>
    requires chunks != []
  {
    if |chunks| == 1 then chunks else [chunks[0] + "\\"] + Physical(chunks[1..])
  }

  function Spaced(chunks: seq<string>): string
    requires chunks != []
  {
    if |chunks| == 1 then chunks[0] else chunks[0] + " " + Spaced(chunks[1..])
  }

  predicate AllChopped(file: seq<seq<string>>) {
    forall i :: 0 <= i < |file| ==> Chopped(file[i])
  }

  function Rendered(file: seq<seq<string>>): seq<string>
    requires AllChopped(file)
  {
    if file == [] then [] else Physical(file[0]) + Rendered(file[1..])
  }

  function Logical(file: seq<seq<string>>): (lines: seq<string>)
    requires AllChopped(file)
    ensures |lines| == |file|
  {
    if file == [] then [] else [Spaced(file[0])] + Logical(file[1..])
  }

  lemma RStripOfBackslash(chunk: string)
    ensures RStrip(chunk + "\\") == chunk + "\\"
    ensures (chunk + "\\")[..|chunk + "\\"| - 1] == chunk
  {
  }

  lemma {:induction false} JoinPhysical(chunks: seq<string>, rest: seq<string>, pending: string)
    requires Chopped(chunks)
    ensures JoinFrom(Physical(chunks) + rest, pending) == [pending + Spaced(chunks)] + JoinFrom(rest, "")
    decreases |chunks|
  {
    var raws := Physical(chunks) + rest;
    if |chunks| == 1 {
      assert raws[0] == chunks[0] && raws[1..] == rest;
    } else {
      var chunk := chunks[0];
      var tail := chunks[1..];
      TailIsChopped(chunks);
      assert raws[0] == chunk + "\\" && raws[1..] == Physical(tail) + rest;
      RStripOfBackslash(chunk);
      JoinPhysical(tail, rest, pending + (chunk + " "));
      assert pending + (chunk + " ") + Spaced(tail) == pending + Spaced(chunks);
    }
  }

  lemma {:induction false} PhysicalIsOneLine(chunks: seq<string>)
    requires Chopped(chunks)
    ensures AllOneLine(Physical(chunks)) && Physical(chunks) != []
    ensures Physical(chunks)[|Physical(chunks)| - 1] == chunks[|chunks| - 1]
    decreases |chunks|
  {
    if |chunks| > 1 {
      var tail := chunks[1..];
      TailIsChopped(chunks);
      PhysicalIsOneLine(tail);
      assert OneLine(chunks[0] + "\\");
    }
  }

  lemma {:induction false} RenderedIsOneLine(file: seq<seq<string>>)
    requires AllChopped(file)
    ensures AllOneLine(Rendered(file))
  {
    if file != [] {
      PhysicalIsOneLine(file[0]);
      RenderedIsOneLine(file[1..]);
    }
  }

  lemma {:induction false} JoinRendered(file: seq<seq<string>>)
    requires AllChopped(file)
    ensures JoinFrom(Rendered(file), "") == Logical(file)
  {
    if file != [] {
      JoinPhysical(file[0], Rendered(file[1..]), "");
      JoinRendered(file[1..]);
      assert "" + Spaced(file[0]) == Spaced(file[0]);
    }
  }

  /** Joining inverts rendering: a file of newline-terminated physical lines reads back
      as its logical lines, one each, with single spaces between the chunks. */
  lemma JoiningInvertsRendering(file: seq<seq<string>>)
    requires AllChopped(file)
    ensures JoinFrom(SplitLines(Terminated(Rendered(file))), "") == Logical(file)
  {
    RenderedIsOneLine(file);
    SplitTerminated(Rendered(file));
    JoinRendered(file);
  }

  lemma RenderedOne(chunks: seq<string>)
    requires Chopped(chunks)
    ensures Rendered([chunks]) == Physical(chunks) && Logical([chunks]) == [Spaced(chunks)]
  {
    var file := [chunks];
    assert file[1..] == [];
  }

  lemma TailIsChopped(chunks: seq<string>)
    requires Chopped(chunks) && |chunks| > 1
    ensures Chopped(chunks[1..])
  {
    var tail := chunks[1..];
    assert forall i :: 0 <= i < |tail| ==> tail[i] == chunks[i + 1];
  }

  /** One physical line that continues is read into the pending text. */
  lemma JoinContinued(chunk: string, rest: seq<string>, pending: string)
    ensures JoinFrom([chunk + "\\"] + rest, pending) == JoinFrom(rest, pending + (chunk + " "))
  {
    RStripOfBackslash(chunk);
    assert ([chunk + "\\"] + rest)[1..] == rest;
  }

  /** A line that continues onto an empty last line is the same without that line. */
  lemma {:induction false} JoinUnfinished(chunks: seq<string>, pending: string)
    requires Chopped(chunks) && |chunks| > 1 && chunks[|chunks| - 1] == ""
    ensures Physical(chunks) != []
    ensures JoinFrom(WithoutEmptyEnd(Physical(chunks)), pending) == [pending + Spaced(chunks)]
    decreases |chunks|
  {
    var chunk, tail := chunks[0], chunks[1..];
    TailIsChopped(chunks);
    PhysicalIsOneLine(tail);
    EmptyEndOfConcat([chunk + "\\"], Physical(tail));
    JoinContinued(chunk, WithoutEmptyEnd(Physical(tail)), pending);
    assert pending + (chunk + " ") + Spaced(tail) == pending + Spaced(chunks);
    if |tail| > 1 {
      JoinUnfinished(tail, pending + (chunk + " "));
    } else {
      assert tail == [""];
      assert WithoutEmptyEnd(Physical(tail)) == [];
      assert pending + (chunk + " ") + "" == pending + (chunk + " ");
    }
  }

  function WithoutLast<T>(s: seq<T>): seq<T>
    requires s != []
  {
    s[..|s| - 1]
  }

  lemma EmptyEndOfConcat(a: seq<string>, b: seq<string>)
    requires b != []
    ensures WithoutEmptyEnd(a + b) == a + WithoutEmptyEnd(b)
  {
    assert (a + b)[..|a + b| - 1] == a + b[..|b| - 1];
  }

  lemma LastOfCons(line: string, lines: seq<string>)
    requires lines != []
    ensures WithoutLast([line] + lines) == [line] + WithoutLast(lines)
  {
    assert ([line] + lines)[..|lines|] == [line] + lines[..|lines| - 1];
  }

  lemma {:induction false} JoinUnterminated(file: seq<seq<string>>)
    requires AllChopped(file) && file != []
    ensures JoinFrom(WithoutEmptyEnd(Rendered(file)), "") ==
            if file[|file| - 1] == [""] then WithoutLast(Logical(file)) else Logical(file)
    decreases |file|
  {
    var first, more := file[0], file[1..];
    if more == [] {
      JoinOneUnterminated(first);
      RenderedOne(first);
      assert file == [first];
    } else {
      JoinUnterminated(more);
      JoinBefore(first, more);
      LastOfCons(Spaced(first), Logical(more));
    }
  }

  lemma JoinBefore(first: seq<string>, more: seq<seq<string>>)
    requires Chopped(first) && AllChopped(more) && more != []
    ensures JoinFrom(WithoutEmptyEnd(Physical(first) + Rendered(more)), "") ==
            [Spaced(first)] + JoinFrom(WithoutEmptyEnd(Rendered(more)), "")
  {
    RenderedIsThere(more);
    EmptyEndOfConcat(Physical(first), Rendered(more));
    JoinPhysical(first, WithoutEmptyEnd(Rendered(more)), "");
    assert "" + Spaced(first) == Spaced(first);
  }

  /** What is blank at the end of a physical line makes no difference, not even after the
      backslash that continues it. */
  lemma {:induction false} TrailingBlanksDoNotMatter(raws: seq<string>, others: seq<string>, pending: string)
    requires |raws| == |others| && forall i :: 0 <= i < |raws| ==> RStrip(raws[i]) == RStrip(others[i])
    ensures JoinFrom(raws, pending) == JoinFrom(others, pending)
    decreases |raws|
  {
    if raws != [] {
      var line := RStrip(raws[0]);
      var onward := if Continues(line) then pending + (line[..|line| - 1] + " ") else "";
      forall i | 0 <= i < |raws| - 1 ensures RStrip(raws[1..][i]) == RStrip(others[1..][i]) {
        assert RStrip(raws[i + 1]) == RStrip(others[i + 1]);
      }
      TrailingBlanksDoNotMatter(raws[1..], others[1..], onward);
    }
  }

  lemma RenderedIsThere(file: seq<seq<string>>)
    requires AllChopped(file) && file != []
    ensures Rendered(file) != []
  {
    PhysicalIsOneLine(file[0]);
  }

  lemma JoinOneUnterminated(chunks: seq<string>)
    requires Chopped(chunks)
    ensures JoinFrom(WithoutEmptyEnd(Physical(chunks)), "") == if chunks == [""] then [] else [Spaced(chunks)]
  {
    PhysicalIsOneLine(chunks);
    assert "" + Spaced(chunks) == Spaced(chunks);
    if chunks[|chunks| - 1] != "" {
      JoinPhysical(chunks, [], "");
      assert Physical(chunks) + [] == Physical(chunks);
    } else if |chunks| > 1 {
      JoinUnfinished(chunks, "");
    } else {
      assert chunks == [""];
    }
  }

  /** Without a newline at the end of the file the same holds exactly when the last
      logical line is not an empty one, which would not be there to read. */
  lemma JoiningInvertsUnterminatedIff(file: seq<seq<string>>)
    requires AllChopped(file) && file != []
    ensures JoinFrom(SplitLines(Separated(Rendered(file))), "") == Logical(file) <==> file[|file| - 1] != [""]
  {
    RenderedIsOneLine(file);
    SplitSeparated(Rendered(file));
    JoinUnterminated(file);
  }
}
