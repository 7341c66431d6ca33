/** The string functions of Go that the RouterOS parsers use, and their laws on joined texts. */
module Text {
  /** `sep` stands in `s` at position `i`. */
  predicate StandsAt(s: string, i: nat, sep: string) {
    i + |sep| <= |s| && s[i..i + |sep|] == sep
  }

  /** The first position of `sep` at or after `i`, |s| + 1 if there is none. */
  function IndexFrom(s: string, sep: string, i: nat): (r: nat)
    requires i <= |s|
    ensures r <= |s| ==> i <= r && StandsAt(s, r, sep) && forall j :: i <= j < r ==> !StandsAt(s, j, sep)
    ensures r > |s| ==> r == |s| + 1 && forall j :: i <= j <= |s| ==> !StandsAt(s, j, sep)
    decreases |s| - i
  {
    if StandsAt(s, i, sep) then i
    else if i == |s| then |s| + 1
    else IndexFrom(s, sep, i + 1)
  }

  /** `strings.Split` for a non-empty separator. */
  function Split(s: string, sep: string): seq<string>
    requires sep != ""
    decreases |s|
  {
    var i := IndexFrom(s, sep, 0);
    if i > |s| then [s] else [s[..i]] + Split(s[i + |sep|..], sep)
  }

  function Join(pieces: seq<string>, sep: string): string {
    if pieces == [] then ""
    else if |pieces| == 1 then pieces[0]
    else pieces[0] + sep + Join(pieces[1..], sep)
  }

  /** Followed by the separator, the piece does not run into an earlier one. */
  ghost predicate Apart(p: string, sep: string) {
    forall j: nat :: j < |p| ==> !StandsAt(p + sep, j, sep)
  }

  lemma FirstSeparator(p: string, sep: string, tail: string)
    requires sep != "" && Apart(p, sep)
    ensures IndexFrom(p + sep + tail, sep, 0) == |p|
  {
    var s := p + sep + tail;
    assert s[|p|..|p| + |sep|] == sep;
    assert StandsAt(s, |p|, sep);
    forall j: nat | j < |p| ensures !StandsAt(s, j, sep) {
      assert s[j..j + |sep|] == (p + sep)[j..j + |sep|];
      assert !StandsAt(p + sep, j, sep);
    }
  }

  lemma NoSeparator(p: string, sep: string)
    requires sep != "" && Apart(p, sep)
    ensures IndexFrom(p, sep, 0) == |p| + 1
  {
    forall j: nat | j <= |p| ensures !StandsAt(p, j, sep) {
      if j + |sep| <= |p| {
        assert (p + sep)[j..j + |sep|] == p[j..j + |sep|];
        assert !StandsAt(p + sep, j, sep);
      }
    }
  }

  /** Splitting undoes joining. */
  lemma {:induction false} SplitJoin(pieces: seq<string>, sep: string)
    requires sep != "" && pieces != [] && forall i :: 0 <= i < |pieces| ==> Apart(pieces[i], sep)
    ensures Split(Join(pieces, sep), sep) == pieces
    decreases |pieces|
  {
    hide Apart, StandsAt;
    var p := pieces[0];
    if |pieces| == 1 {
      NoSeparator(p, sep);
      assert pieces == [p];
    } else {
      var tail := Join(pieces[1..], sep);
      FirstSeparator(p, sep, tail);
      SplitJoin(pieces[1..], sep);
      var s := p + sep + tail;
      assert Join(pieces, sep) == s && s[..|p|] == p && s[|p| + |sep|..] == tail;
      assert pieces == [p] + pieces[1..];
    }
  }

  // ---- Trimming ------------------------------------------------------------------------------------

  /** `unicode.IsSpace`. */
  predicate IsSpace(c: char) {
    || '\t' <= c <= '\r' || c == ' ' || c as int == 0x85 || c as int == 0xA0 || c as int == 0x1680
    || 0x2000 <= c as int <= 0x200a || c as int == 0x2028 || c as int == 0x2029
    || c as int == 0x202f || c as int == 0x205f || c as int == 0x3000
  }

  function TrimLeft(s: string, cut: char -> bool): string {
    if s == "" || !cut(s[0]) then s else TrimLeft(s[1..], cut)
  }

  function TrimRight(s: string, cut: char -> bool): string {
    if s == "" || !cut(s[|s| - 1]) then s else TrimRight(s[..|s| - 1], cut)
  }

  function Trim(s: string, cut: char -> bool): string {
    TrimRight(TrimLeft(s, cut), cut)
  }

  function TrimSpace(s: string): string {
    Trim(s, IsSpace)
  }

  /** Nothing to trim at either end. */
  predicate Bare(s: string, cut: char -> bool) {
    s == "" || (!cut(s[0]) && !cut(s[|s| - 1]))
  }

  lemma BareIsTrimmed(s: string, cut: char -> bool)
    requires Bare(s, cut)
    ensures Trim(s, cut) == s
  {
  }

  predicate AllOf(s: string, cut: char -> bool) {
    forall i :: 0 <= i < |s| ==> cut(s[i])
  }

  lemma {:induction false} TrimLeftPadded(pad: string, s: string, cut: char -> bool)
    requires AllOf(pad, cut)
    ensures TrimLeft(pad + s, cut) == TrimLeft(s, cut)
    decreases |pad|
  {
    if pad == "" {
      assert pad + s == s;
    } else {
      assert (pad + s)[1..] == pad[1..] + s;
      TrimLeftPadded(pad[1..], s, cut);
    }
  }

  lemma {:induction false} TrimRightPadded(s: string, pad: string, cut: char -> bool)
    requires AllOf(pad, cut)
    ensures TrimRight(s + pad, cut) == TrimRight(s, cut)
    decreases |pad|
  {
    if pad == "" {
      assert s + pad == s;
    } else {
      var n := |pad| - 1;
      assert (s + pad)[..|s + pad| - 1] == s + pad[..n];
      TrimRightPadded(s, pad[..n], cut);
    }
  }

  /** Trimming takes away just the padding. */
  lemma PaddingIsTrimmed(before: string, s: string, after: string, cut: char -> bool)
    requires AllOf(before, cut) && AllOf(after, cut) && Bare(s, cut)
    ensures Trim(before + s + after, cut) == s
  {
    assert before + s + after == before + (s + after);
    TrimLeftPadded(before, s + after, cut);
    if s == "" {
      TrimLeftPadded(after, "", cut);
      assert s + after == after + "";
    } else {
      assert TrimLeft(s + after, cut) == s + after;
      TrimRightPadded(s, after, cut);
    }
  }

  // ---- Lines ---------------------------------------------------------------------------------------

  /** The scanner's buffer: a line that does not fit ends the scan. */
  const MAX_LINE: nat := 1024 * 1024

  function WithoutCR(line: string): string {
    if line != "" && line[|line| - 1] == '\r' then line[..|line| - 1] else line
  }

  /** What a bufio.Scanner yields line by line. */
  function ScanLines(s: string): seq<string>
    decreases |s|
  {
    if s == "" then []
    else
      var i := IndexFrom(s, "\n", 0);
      if i > |s| then if |s| >= MAX_LINE then [] else [WithoutCR(s)]
      else if i >= MAX_LINE then []
      else [WithoutCR(s[..i])] + ScanLines(s[i + 1..])
  }

  ghost predicate PlainLine(line: string) {
    line != "" && |line| < MAX_LINE && Apart(line, "\n") && line[|line| - 1] != '\r'
  }

  lemma ScanFirst(line: string, tail: string)
    requires PlainLine(line)
    ensures ScanLines(line + "\n" + tail) == [line] + ScanLines(tail)
  {
    FirstSeparator(line, "\n", tail);
    hide Apart, StandsAt;
    var s := line + "\n" + tail;
    assert s[..|line|] == line && s[|line| + 1..] == tail;
  }

  lemma ScanNothing()
    ensures ScanLines("") == []
  {
  }

  lemma ScanLast(line: string)
    requires PlainLine(line)
    ensures ScanLines(line) == [line]
  {
    NoSeparator(line, "\n");
    hide Apart, StandsAt;
  }

  /** Scanning undoes joining by newlines. */
  lemma {:induction false} ScanJoin(lines: seq<string>)
    requires forall i :: 0 <= i < |lines| ==> PlainLine(lines[i])
    ensures ScanLines(Join(lines, "\n")) == lines
    decreases |lines|
  {
    hide PlainLine, ScanLines;
    if lines == [] {
      ScanNothing();
    } else if |lines| == 1 {
      ScanLast(lines[0]);
      assert lines == [lines[0]];
    } else {
      ScanJoin(lines[1..]);
      ScanFirst(lines[0], Join(lines[1..], "\n"));
      assert lines == [lines[0]] + lines[1..];
    }
  }
}
