/**
  The parts of Go's `strings` package that the bundler relies on, over
  character sequences. Go indexes strings by byte; the texts handled here
  (paths, source-map mappings, register lines) are ASCII, where byte and
  character positions coincide.
 */
module GoStrings {

  /** strings.HasPrefix */
  predicate HasPrefix(s: string, prefix: string) {
    prefix <= s
  }

  /** strings.HasSuffix */
  predicate HasSuffix(s: string, suffix: string) {
    |suffix| <= |s| && s[|s| - |suffix|..] == suffix
  }

  /** `sub` occurs in `s` starting at position `i`. */
  predicate OccursAt(s: string, sub: string, i: int) {
    0 <= i && i + |sub| <= |s| && s[i..i + |sub|] == sub
  }

  /** strings.Contains */
  predicate Contains(s: string, sub: string) {
    exists i :: 0 <= i <= |s| && OccursAt(s, sub, i)
  }

  /** The first occurrence of `sub` at or after `from`, or -1. */
  function IndexFrom(s: string, sub: string, from: nat): (r: int)
    decreases |s| - from
    ensures r == -1 || (from <= r && OccursAt(s, sub, r))
    ensures forall j :: from <= j && (r == -1 || j < r) ==> !OccursAt(s, sub, j)
  {
    if from + |sub| > |s| then -1
    else if s[from..from + |sub|] == sub then from
    else IndexFrom(s, sub, from + 1)
  }

  /** strings.Index: the first occurrence of `sub`, or -1. */
  function Index(s: string, sub: string): (r: int)
    ensures r == -1 || OccursAt(s, sub, r)
    ensures forall j :: 0 <= j && (r == -1 || j < r) ==> !OccursAt(s, sub, j)
    ensures r == -1 <==> !Contains(s, sub)
  {
    IndexFrom(s, sub, 0)
  }

  /** The last occurrence of `sub` starting at or before `upTo`, or -1. */
  function LastIndexUpTo(s: string, sub: string, upTo: int): (r: int)
    decreases upTo + 1
    ensures r == -1 || (r <= upTo && OccursAt(s, sub, r))
    ensures forall j :: j <= upTo && r < j ==> !OccursAt(s, sub, j)
  {
    if upTo < 0 then -1
    else if OccursAt(s, sub, upTo) then upTo
    else LastIndexUpTo(s, sub, upTo - 1)
  }

  /** strings.LastIndex: the last occurrence of `sub`, or -1. */
  function LastIndex(s: string, sub: string): (r: int)
    ensures r == -1 || OccursAt(s, sub, r)
    ensures forall j :: r < j ==> !OccursAt(s, sub, j)
    ensures r == -1 <==> !Contains(s, sub)
  {
    LastIndexUpTo(s, sub, |s| - |sub|)
  }

  /** strings.Split with a non-empty separator. */
  function Split(s: string, sep: string): (r: seq<string>)
    requires |sep| > 0
    decreases |s|
    ensures |r| >= 1
  {
    var i := Index(s, sep);
    if i < 0 then [s] else [s[..i]] + Split(s[i + |sep|..], sep)
  }

  /** strings.Join */
  function Join(parts: seq<string>, sep: string): string {
    if |parts| == 0 then ""
    else if |parts| == 1 then parts[0]
    else parts[0] + sep + Join(parts[1..], sep)
  }

  /** Joining the pieces of a split with the same separator gives the text back. */
  lemma {:induction false} JoinSplit(s: string, sep: string)
    requires |sep| > 0
    ensures Join(Split(s, sep), sep) == s
    decreases |s|
  {
    var i := Index(s, sep);
    if i >= 0 {
      var rest := s[i + |sep|..];
      var pieces := Split(rest, sep);
      JoinSplit(rest, sep);
      var all := [s[..i]] + pieces;
      assert Split(s, sep) == all;
      assert all[0] == s[..i] && all[1..] == pieces;
      assert Join(all, sep) == s[..i] + sep + Join(pieces, sep);
      assert s == s[..i] + sep + rest;
    }
  }

  /** No piece of a split contains the separator. */
  lemma {:induction false} SplitPiecesLackSeparator(s: string, sep: string)
    requires |sep| > 0
    ensures forall k :: 0 <= k < |Split(s, sep)| ==> !Contains(Split(s, sep)[k], sep)
    decreases |s|
  {
    var i := Index(s, sep);
    if i >= 0 {
      var rest := s[i + |sep|..];
      SplitPiecesLackSeparator(rest, sep);
      var head := s[..i];
      forall j | OccursAt(head, sep, j) ensures false {
        assert s[j..j + |sep|] == head[j..j + |sep|];
        assert OccursAt(s, sep, j);
      }
    }
  }

  /** A character absent from the text is absent from every piece of its split. */
  lemma {:induction false} SplitPiecesInText(s: string, sep: string, c: char)
    requires |sep| > 0 && c !in s
    ensures forall k :: 0 <= k < |Split(s, sep)| ==> c !in Split(s, sep)[k]
    decreases |s|
  {
    var i := Index(s, sep);
    if i >= 0 {
      var rest := s[i + |sep|..];
      forall m | 0 <= m < |rest| ensures rest[m] != c {
        assert rest[m] == s[i + |sep| + m];
      }
      SplitPiecesInText(rest, sep, c);
      forall m | 0 <= m < i ensures s[..i][m] != c {
        assert s[..i][m] == s[m];
      }
      assert Split(s, sep) == [s[..i]] + Split(rest, sep);
    }
  }

  /** The number of occurrences of character `c` in `s`. */
  function CountChar(s: string, c: char): nat {
    if s == [] then 0 else (if s[0] == c then 1 else 0) + CountChar(s[1..], c)
  }

  lemma {:induction false} CountCharAppend(a: string, b: string, c: char)
    ensures CountChar(a + b, c) == CountChar(a, c) + CountChar(b, c)
  {
    if a == [] {
      assert a + b == b;
    } else {
      assert (a + b)[1..] == a[1..] + b;
      CountCharAppend(a[1..], b, c);
    }
  }

  lemma CountCharAbsent(s: string, c: char)
    requires c !in s
    ensures CountChar(s, c) == 0
  {
    if s != [] {
      CountCharAbsent(s[1..], c);
    }
  }

  /** Splitting on one character gives one piece more than it has occurrences. */
  lemma {:induction false} SplitCharCount(s: string, c: char)
    ensures |Split(s, [c])| == CountChar(s, c) + 1
    decreases |s|
  {
    var i := Index(s, [c]);
    if i < 0 {
      forall k | 0 <= k < |s| ensures s[k] != c {
        assert !OccursAt(s, [c], k);
        assert s[k..k + 1] == [s[k]];
      }
      CountCharAbsent(s, c);
    } else {
      var rest := s[i + 1..];
      SplitCharCount(rest, c);
      assert s == s[..i] + [c] + rest;
      forall k | 0 <= k < i ensures s[..i][k] != c {
        assert !OccursAt(s, [c], k);
        assert s[k..k + 1] == [s[k]];
      }
      CountCharAbsent(s[..i], c);
      CountCharAppend(s[..i] + [c], rest, c);
      CountCharAppend(s[..i], [c], c);
    }
  }

  /** A text without the separator's first character holds no copy of the separator. */
  lemma NoOccurrence(s: string, sep: string)
    requires |sep| > 0 && sep[0] !in s
    ensures forall j :: !OccursAt(s, sep, j)
  {
    forall j ensures !OccursAt(s, sep, j) {
      if 0 <= j && j + |sep| <= |s| {
        assert s[j..j + |sep|][0] == s[j];
      }
    }
  }

  /** In p + sep + tail, the first copy of sep is the one right after p when p lacks its first character. */
  lemma FirstOccurrence(p: string, sep: string, tail: string)
    requires |sep| > 0 && sep[0] !in p
    ensures Index(p + sep + tail, sep) == |p|
  {
    var s := p + sep + tail;
    assert s[|p|..|p| + |sep|] == sep;
    assert OccursAt(s, sep, |p|);
    forall j | 0 <= j < |p| ensures !OccursAt(s, sep, j) {
      assert s[j] == p[j];
      if j + |sep| <= |s| {
        assert s[j..j + |sep|][0] == s[j];
      }
    }
  }

  /**
    Splitting a join gives the parts back when no part contains the first
    character of the separator.
   */
  lemma {:induction false} SplitJoinSeparator(parts: seq<string>, sep: string)
    requires |parts| >= 1 && |sep| > 0
    requires forall k :: 0 <= k < |parts| ==> sep[0] !in parts[k]
    ensures Split(Join(parts, sep), sep) == parts
    decreases |parts|
  {
    var s := Join(parts, sep);
    if |parts| == 1 {
      assert s == parts[0];
      NoOccurrence(s, sep);
    } else {
      SplitJoinSeparator(parts[1..], sep);
      SplitCons(parts[0], sep, Join(parts[1..], sep), parts[1..]);
      assert parts == [parts[0]] + parts[1..];
    }
  }

  /** Splitting p + sep + tail, where p lacks the separator's first character, splits off p. */
  lemma SplitCons(p: string, sep: string, tail: string, rest: seq<string>)
    requires |sep| > 0 && sep[0] !in p
    requires Split(tail, sep) == rest
    ensures Split(p + sep + tail, sep) == [p] + rest
  {
    var s := p + sep + tail;
    FirstOccurrence(p, sep, tail);
    assert s[..|p|] == p;
    assert s[|p| + |sep|..] == tail;
  }

  /** strings.Replace(s, from, to, -1) for one-character patterns. */
  function ReplaceChar(s: string, from: char, to: char): (r: string)
    ensures |r| == |s|
    ensures forall i :: 0 <= i < |s| ==> r[i] == (if s[i] == from then to else s[i])
  {
    if s == [] then [] else [if s[0] == from then to else s[0]] + ReplaceChar(s[1..], from, to)
  }

  /** strings.TrimLeft with a one-character cutset. */
  function TrimLeft(s: string, c: char): (r: string)
    ensures |r| <= |s| && r == s[|s| - |r|..]
    ensures r == [] || r[0] != c
    ensures forall i :: 0 <= i < |s| - |r| ==> s[i] == c
  {
    if s != [] && s[0] == c then TrimLeft(s[1..], c) else s
  }

  /** strings.TrimRight with a one-character cutset. */
  function TrimRight(s: string, c: char): (r: string)
    ensures r <= s
    ensures r == [] || r[|r| - 1] != c
    ensures forall i :: |r| <= i < |s| ==> s[i] == c
  {
    if s != [] && s[|s| - 1] == c then TrimRight(s[..|s| - 1], c) else s
  }

  /** strings.Trim with a one-character cutset. */
  function Trim(s: string, c: char): string {
    TrimRight(TrimLeft(s, c), c)
  }

  /** The left trim of [c] + t + [c] stops at the first character of t. */
  lemma TrimLeftEnclosed(t: string, c: char)
    requires c !in t
    ensures TrimLeft([c] + t + [c], c) == if t == [] then [] else t + [c]
  {
    var s := [c] + t + [c];
    assert s[1..] == t + [c];
    if t != [] {
      assert (t + [c])[0] == t[0];
    } else {
      assert TrimLeft([c], c) == [];
    }
  }

  /** The right trim of t + [c] stops at the last character of t. */
  lemma TrimRightTail(t: string, c: char)
    requires t == [] || t[|t| - 1] != c
    ensures TrimRight(t + [c], c) == t
  {
    assert (t + [c])[..|t|] == t;
  }

  /** Trimming a character off both ends of a text that lacks it gives the text back. */
  lemma TrimEnclosed(t: string, c: char)
    requires c !in t
    ensures Trim([c] + t + [c], c) == t
  {
    TrimLeftEnclosed(t, c);
    if t != [] {
      assert t[|t| - 1] in t;
      TrimRightTail(t, c);
    }
  }

  /** strings.Repeat */
  function Repeat(s: string, n: nat): (r: string)
    ensures |r| == n * |s|
  {
    if n == 0 then "" else s + Repeat(s, n - 1)
  }
}
