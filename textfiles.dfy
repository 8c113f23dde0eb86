/**
  Line-level text helpers of util/textfiles.go, io/fileutil.go (identical
  copies) and source/util.go: byte-order-mark trimming, the scan past a
  leading comment block, and splitting text into lines.

  Go strings are byte strings; here a string holds one character per byte.
 */
module TextFiles {
  import opened GoStrings

  /** The UTF-8 byte-order mark EF BB BF. */
  const ByteOrderMark: string := [0xEF as char, 0xBB as char, 0xBF as char]

  /** trimByteOrderMark: drops a leading byte-order mark, but only from a string longer than the mark. */
  function TrimByteOrderMark(s: string): (r: string)
    ensures HasSuffix(s, r)
    ensures r != s <==> |s| > 3 && HasPrefix(s, ByteOrderMark)
    ensures r != s ==> ByteOrderMark + r == s
  {
    if |s| > 3 && s[0] == 0xEF as char && s[1] == 0xBB as char && s[2] == 0xBF as char then
      assert s[..3] == ByteOrderMark;
      s[3..]
    else
      s
  }

  /** A mark in front of non-empty text is removed again. */
  lemma TrimAddedMark(t: string)
    requires t != ""
    ensures TrimByteOrderMark(ByteOrderMark + t) == t
  {
    assert (ByteOrderMark + t)[..3] == ByteOrderMark;
  }

  /** A string that is just the mark is kept whole. */
  lemma MarkAloneKept()
    ensures TrimByteOrderMark(ByteOrderMark) == ByteOrderMark
  {
  }

  // ---------------------------------------------------------------------
  // The leading comment block (skipPreamble, readFirstLineBeyondComments).

  /** The two characters that open a block comment, slash then star. */
  const BlockOpener: string := ['/', '*']
  /** The two characters that close a block comment, star then slash. */
  const BlockCloser: string := ['*', '/']

  /**
    Whether a block comment is open after the scan has skipped lines[..k]:
    a line starting with "//" changes nothing, one starting with BlockOpener
    opens a block (even when it closes it again on the same line), and inside
    a block the first line containing BlockCloser closes it.
   */
  function BlockOpenAfter(lines: seq<string>, k: nat): bool
    requires k <= |lines|
  {
    if k == 0 then false
    else
      var line := lines[k - 1];
      var open := BlockOpenAfter(lines, k - 1);
      if HasPrefix(line, "//") then open
      else if HasPrefix(line, BlockOpener) then true
      else if open then !Contains(line, BlockCloser)
      else false
  }

  /** The scan skips line `k`: a line comment, a block opener, or a line inside an open block. */
  predicate Skipped(lines: seq<string>, k: nat)
    requires k < |lines|
  {
    HasPrefix(lines[k], "//") || HasPrefix(lines[k], BlockOpener) || BlockOpenAfter(lines, k)
  }

  /** The first line from `k` on that the scan does not skip, or |lines|. */
  function PreambleFrom(lines: seq<string>, k: nat): (n: nat)
    requires k <= |lines|
    decreases |lines| - k
    ensures k <= n <= |lines|
    ensures forall j :: k <= j < n ==> Skipped(lines, j)
    ensures n < |lines| ==> !Skipped(lines, n)
  {
    if k == |lines| || !Skipped(lines, k) then k else PreambleFrom(lines, k + 1)
  }

  /**
    The number of lines in the leading comment block: every line before it
    is skipped, and the line at it (when there is one) is not.
   */
  function PreambleLength(lines: seq<string>): (n: nat)
    ensures n <= |lines|
    ensures forall j :: 0 <= j < n ==> Skipped(lines, j)
    ensures n < |lines| ==> !Skipped(lines, n)
  {
    PreambleFrom(lines, 0)
  }

  /** Only the first unskipped line can be the end of the preamble. */
  lemma PreambleLengthUnique(lines: seq<string>, n: nat)
    requires n <= |lines|
    requires forall j :: 0 <= j < n ==> Skipped(lines, j)
    requires n < |lines| ==> !Skipped(lines, n)
    ensures PreambleLength(lines) == n
  {
  }

  /**
    A block opened by a BlockOpener line stays open over the following lines until
    the first one (not itself a comment opener) that contains the closing
    mark; that line still belongs to the preamble, and the block is closed
    after it.
   */
  lemma {:induction false} BlockCloses(lines: seq<string>, a: nat, b: nat)
    requires a < b < |lines| && HasPrefix(lines[a], BlockOpener)
    requires forall j :: a < j < b ==> !HasPrefix(lines[j], BlockOpener) && (HasPrefix(lines[j], "//") || !Contains(lines[j], BlockCloser))
    requires !HasPrefix(lines[b], "//") && !HasPrefix(lines[b], BlockOpener) && Contains(lines[b], BlockCloser)
    ensures forall j :: a < j <= b ==> BlockOpenAfter(lines, j)
    ensures !BlockOpenAfter(lines, b + 1)
  {
    var j := a + 1;
    while j <= b
      invariant a + 1 <= j <= b + 1
      invariant forall i :: a < i < j ==> BlockOpenAfter(lines, i)
    {
      if j == a + 1 {
        assert lines[a][1] == '*';
      }
      assert BlockOpenAfter(lines, j);
      j := j + 1;
    }
  }

  /** The first line past the leading comment block, or "" when every line is in it. */
  function FirstLineBeyondComments(lines: seq<string>): string {
    var n := PreambleLength(lines);
    if n < |lines| then lines[n] else ""
  }

  /**
    readFirstLineBeyondComments, over the lines the scanner yields (the copies
    in util/textfiles.go and io/fileutil.go are identical).
   */
  method ReadFirstLineBeyondComments(lines: seq<string>) returns (line: string)
    ensures line == FirstLineBeyondComments(lines)
  {
    var inBlockComment := false;
    var i := 0;
    while i < |lines|
      invariant 0 <= i <= |lines|
      invariant inBlockComment == BlockOpenAfter(lines, i)
      invariant forall j :: 0 <= j < i ==> Skipped(lines, j)
    {
      var current := lines[i];
      if HasPrefix(current, "//") {
        i := i + 1;
        continue;
      }
      if HasPrefix(current, BlockOpener) {
        inBlockComment := true;
        i := i + 1;
        continue;
      }
      if inBlockComment {
        if Contains(current, BlockCloser) {
          inBlockComment := false;
        }
        i := i + 1;
        continue;
      }
      PreambleLengthUnique(lines, i);
      return current;
    }
    PreambleLengthUnique(lines, i);
    return "";
  }

  // ---------------------------------------------------------------------
  // StringToLines (util/textfiles.go) and stringToLines (source/util.go).

  /** Drops one trailing carriage return. */
  function TrimCR(line: string): (r: string)
    ensures line != [] && line[|line| - 1] == '\r' ==> r + "\r" == line
    ensures !(line != [] && line[|line| - 1] == '\r') ==> r == line
  {
    if |line| > 0 && line[|line| - 1..] == "\r" then line[..|line| - 1] else line
  }

  /** Each '\n'-separated piece, without one trailing carriage return. */
  function StringToLines(s: string): (lines: seq<string>)
    ensures |lines| == |Split(s, "\n")|
    ensures forall i :: 0 <= i < |lines| ==> lines[i] == TrimCR(Split(s, "\n")[i])
  {
    seq(|Split(s, "\n")|, i requires 0 <= i < |Split(s, "\n")| => TrimCR(Split(s, "\n")[i]))
  }

  /**
    StringToLines as util/textfiles.go writes it: split, then fix every
    entry of the fresh slice in place.
   */
  method SplitLines(s: string) returns (lines: seq<string>)
    ensures lines == StringToLines(s)
  {
    lines := Split(s, "\n");
    ghost var pieces := lines;
    var i := 0;
    while i < |lines|
      invariant 0 <= i <= |lines| == |pieces|
      invariant forall j :: 0 <= j < i ==> lines[j] == TrimCR(pieces[j])
      invariant forall j :: i <= j < |lines| ==> lines[j] == pieces[j]
    {
      var line := lines[i];
      var n := |line| - 1;
      if n >= 0 {
        if line[n..] == "\r" {
          lines := lines[i := line[..n]];
        }
      }
      i := i + 1;
    }
  }

  /** There is one line more than there are newlines. */
  lemma LineCount(s: string)
    ensures |StringToLines(s)| == CountChar(s, '\n') + 1
  {
    SplitCharCount(s, '\n');
  }

  /** No line holds a newline. */
  lemma LinesLackNewline(s: string)
    ensures forall i :: 0 <= i < |StringToLines(s)| ==> '\n' !in StringToLines(s)[i]
  {
    var pieces := Split(s, "\n");
    SplitPiecesLackSeparator(s, "\n");
    forall i | 0 <= i < |pieces| ensures '\n' !in TrimCR(pieces[i]) {
      forall k | 0 <= k < |pieces[i]| ensures pieces[i][k] != '\n' {
        assert !OccursAt(pieces[i], "\n", k);
      }
    }
  }

  /** Without carriage returns, joining the lines with '\n' gives back the text. */
  lemma LinesJoin(s: string)
    requires '\r' !in s
    ensures Join(StringToLines(s), "\n") == s
  {
    var pieces := Split(s, "\n");
    forall i | 0 <= i < |pieces| ensures TrimCR(pieces[i]) == pieces[i] {
      PieceLacksCR(s, i);
    }
    assert StringToLines(s) == pieces;
    JoinSplit(s, "\n");
  }

  lemma PieceLacksCR(s: string, i: nat)
    requires '\r' !in s && i < |Split(s, "\n")|
    ensures '\r' !in Split(s, "\n")[i]
  {
    SplitPiecesInText(s, "\n", '\r');
  }

  /** The empty text is a single empty line. */
  lemma EmptyTextOneLine()
    ensures StringToLines("") == [""]
  {
  }
}
