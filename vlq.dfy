/**
  The Base64 VLQ codec of the Source Map Revision 3 format ("Base 64 VLQ"
  section): signed integers are folded so that the sign is the lowest bit,
  split into 5-bit groups, least significant first, with bit 32 of every
  digit but the last marking a continuation, and each digit written with the
  base64 alphabet of RFC 4648 section 4 extended by '=' as digit 64.
 */
module Vlq {
  import opened Wrappers

  /** A Go byte. */
  type Byte = b: int | 0 <= b < 256

  /**
    The digit alphabet "A".."Z", "a".."z", "0".."9", "+", "/", "=": digit i
    is written as Base64Map[i].
   */
  const Upper: string :=
    ['A', 'B', 'C', 'D', 'E', 'F', 'G', 'H', 'I', 'J', 'K', 'L', 'M', 'N', 'O', 'P', 'Q', 'R', 'S', 'T', 'U', 'V', 'W', 'X', 'Y', 'Z']
  const Lower: string :=
    ['a', 'b', 'c', 'd', 'e', 'f', 'g', 'h', 'i', 'j', 'k', 'l', 'm', 'n', 'o', 'p', 'q', 'r', 's', 't', 'u', 'v', 'w', 'x', 'y', 'z']
  const Decimal: string := ['0', '1', '2', '3', '4', '5', '6', '7', '8', '9']
  const Base64Map: string := Upper + Lower + Decimal + ['+', '/', '=']

  /** The character code of digit i, range by range. */
  function CodeOf(i: int): int {
    if i < 26 then 'A' as int + i
    else if i < 52 then 'a' as int + (i - 26)
    else if i < 62 then '0' as int + (i - 52)
    else if i == 62 then '+' as int
    else if i == 63 then '/' as int
    else '=' as int
  }

  /** A run of the alphabet: consecutive character codes from `first`. */
  predicate Consecutive(run: string, first: char) {
    forall i :: 0 <= i < |run| ==> run[i] as int == first as int + i
  }

  lemma Runs()
    ensures |Upper| == 26 && Consecutive(Upper, 'A')
    ensures |Lower| == 26 && Consecutive(Lower, 'a')
    ensures |Decimal| == 10 && Consecutive(Decimal, '0')
  {
  }

  lemma Alphabet()
    ensures |Base64Map| == 65
    ensures forall i :: 0 <= i < 65 ==> Base64Map[i] as int == CodeOf(i)
  {
    Runs();
    forall i | 0 <= i < 65 ensures Base64Map[i] as int == CodeOf(i) {
      if i < 26 {
        assert Base64Map[i] == Upper[i];
      } else if i < 52 {
        assert Base64Map[i] == Lower[i - 26];
      } else if i < 62 {
        assert Base64Map[i] == Decimal[i - 52];
      }
    }
  }

  /** Go's byte(r) conversion of a rune: truncation to the low 8 bits. */
  function ByteOf(c: char): Byte {
    (c as int) % 256
  }

  /** The digit a byte stands for; None where the source panics. */
  function ByteToInt(b: Byte): (r: Option<int>)
    ensures r.Some? ==> 0 <= r.value <= 64 && CodeOf(r.value) == b
  {
    if 'A' as int <= b <= 'Z' as int then Some(b - 'A' as int)
    else if 'a' as int <= b <= 'z' as int then Some(b - 'a' as int + 26)
    else if '0' as int <= b <= '9' as int then Some(b - '0' as int + 52)
    else if b == '+' as int then Some(62)
    else if b == '/' as int then Some(63)
    else if b == '=' as int then Some(64)
    else None
  }

  /**
    The byte that writes a digit, the source's lookup in the alphabet
    (IntToByteTable); the source panics outside 0..64.
   */
  function IntToByte(i: int): (r: Byte)
    requires 0 <= i <= 64
    ensures ByteToInt(r) == Some(i)
  {
    CodeOf(i)
  }

  /** intToByte reads the alphabet: digit i is written as its i-th character. */
  lemma IntToByteTable(i: int)
    requires 0 <= i <= 64
    ensures IntToByte(i) == Base64Map[i] as int
  {
    Alphabet();
  }

  /** Whether a character is a digit with the continuation bit set. */
  predicate HasContinuation(c: char) {
    var d := ByteToInt(ByteOf(c));
    d.Some? && (d.value / 32) % 2 == 1
  }

  /** 2 to the power k: the factor of `x << k`. */
  function Pow2(k: nat): (r: nat)
    ensures r >= 1
  {
    if k == 0 then 1 else 2 * Pow2(k - 1)
  }

  lemma Pow2Plus5(k: nat)
    ensures Pow2(k + 5) == 32 * Pow2(k)
  {
    calc {
      Pow2(k + 5);
      2 * Pow2(k + 4);
      2 * (2 * Pow2(k + 3));
      2 * (2 * (2 * Pow2(k + 2)));
      2 * (2 * (2 * (2 * Pow2(k + 1))));
      2 * (2 * (2 * (2 * (2 * Pow2(k)))));
    }
  }

  /** Puts the sign of n into the lowest bit. */
  function Fold(n: int): nat {
    if n < 0 then 2 * -n + 1 else 2 * n
  }

  /** Reads the sign back out of the lowest bit, as Decode does at a final digit. */
  function Unfold(v: int): int {
    if v % 2 == 1 then -(v / 2) else v / 2
  }

  lemma UnfoldFold(n: int)
    ensures Unfold(Fold(n)) == n
  {
  }

  /** The digit written for the lowest group of m, with the continuation bit if more follow. */
  function GroupDigit(m: nat): (d: int)
    ensures 0 <= d < 64 && d % 32 == m % 32 && (d / 32 == 1 <==> m / 32 > 0)
  {
    if m / 32 > 0 then m % 32 + 32 else m % 32
  }

  /** The character written for the lowest group of m. */
  function GroupChar(m: nat): (c: char)
    ensures ByteToInt(ByteOf(c)) == Some(GroupDigit(m))
    ensures c != '='
  {
    IntToByte(GroupDigit(m)) as char
  }

  /** The digits of a folded value, least significant group first. */
  function EncodeDigits(m: nat): (r: string)
    decreases m
    ensures |r| >= 1
  {
    if m / 32 > 0 then [GroupChar(m)] + EncodeDigits(m / 32) else [GroupChar(m)]
  }

  /** The encoding of one integer: the source's encodeInteger. */
  function EncodedInteger(n: int): string {
    EncodeDigits(Fold(n))
  }

  /** The encoding of a list of integers: the source's Encode. */
  function Encoded(xs: seq<int>): string {
    if xs == [] then "" else EncodedInteger(xs[0]) + Encoded(xs[1..])
  }

  /** Prepends decoded values to the outcome of decoding the rest. */
  function Prepend(xs: seq<int>, o: Option<seq<int>>): Option<seq<int>> {
    match o
    case None => None
    case Some(ys) => Some(xs + ys)
  }

  lemma PrependNil(o: Option<seq<int>>)
    ensures Prepend([], o) == o
  {
    if o.Some? {
      assert [] + o.value == o.value;
    }
  }

  lemma PrependTwice(xs: seq<int>, ys: seq<int>, o: Option<seq<int>>)
    ensures Prepend(xs, Prepend(ys, o)) == Prepend(xs + ys, o)
  {
    if o.Some? {
      assert xs + (ys + o.value) == (xs + ys) + o.value;
    }
  }

  /**
    Decoding from a state where `value` has been accumulated and the next
    digit is shifted by `shift` bits; None where the source panics.
   */
  function DecodeFrom(s: string, value: int, shift: nat): Option<seq<int>>
    decreases |s|
  {
    if s == [] then Some([])
    else match ByteToInt(ByteOf(s[0]))
      case None => None
      case Some(d) =>
        var v := value + (d % 32) * Pow2(shift);
        if (d / 32) % 2 == 1 then DecodeFrom(s[1..], v, shift + 5)
        else Prepend([Unfold(v)], DecodeFrom(s[1..], 0, 0))
  }

  /** The source's Decode. */
  function Decoded(s: string): Option<seq<int>> {
    DecodeFrom(s, 0, 0)
  }

  // ---------------------------------------------------------------------
  // The loops of the source.

  /** Decode: accumulates digits until one without the continuation bit. */
  method Decode(s: string) returns (r: Option<seq<int>>)
    ensures r == Decoded(s)
  {
    var result: seq<int> := [];
    var shift: nat := 0;
    var value := 0;
    var i := 0;
    assert s[i..] == s;
    PrependNil(Decoded(s));
    while i < |s|
      invariant 0 <= i <= |s|
      invariant Prepend(result, DecodeFrom(s[i..], value, shift)) == Decoded(s)
    {
      assert s[i..][0] == s[i] && s[i..][1..] == s[i + 1..];
      var integer := ByteToInt(ByteOf(s[i]));
      if integer.None? {
        assert DecodeFrom(s[i..], value, shift) == None;
        return None;
      }
      var d := integer.value;
      var hasContinuationBit := (d / 32) % 2 == 1;
      d := d % 32;
      value := value + d * Pow2(shift);
      if hasContinuationBit {
        shift := shift + 5;
      } else {
        ghost var accumulated, prefix := value, result;
        var shouldNegate := value % 2 == 1;
        value := value / 2;
        if shouldNegate {
          result := result + [-value];
        } else {
          result := result + [value];
        }
        assert result == prefix + [Unfold(accumulated)];
        PrependTwice(prefix, [Unfold(accumulated)], DecodeFrom(s[i + 1..], 0, 0));
        value := 0;
        shift := 0;
      }
      i := i + 1;
    }
    assert s[i..] == [] && result + [] == result;
    r := Some(result);
  }

  /** encodeInteger: emits groups of 5 bits until nothing is left. */
  method EncodeInteger(n: int) returns (r: string)
    ensures r == EncodedInteger(n)
  {
    var m: nat := if n < 0 then 2 * -n + 1 else 2 * n;
    r := [];
    while true
      invariant r + EncodeDigits(m) == EncodedInteger(n)
      decreases m
    {
      var clamped := m % 32;
      m := m / 32;
      if m > 0 {
        clamped := clamped + 32;
      }
      r := r + [IntToByte(clamped) as char];
      if m <= 0 {
        break;
      }
    }
  }

  /** Encode: concatenates the encodings of the values in order. */
  method Encode(values: seq<int>) returns (r: string)
    ensures r == Encoded(values)
  {
    r := [];
    var i := 0;
    while i < |values|
      invariant 0 <= i <= |values|
      invariant r == Encoded(values[..i])
    {
      var piece := EncodeInteger(values[i]);
      EncodedAppend(values[..i], [values[i]]);
      assert values[..i] + [values[i]] == values[..i + 1];
      r := r + piece;
      i := i + 1;
    }
    assert values[..i] == values;
  }

  // ---------------------------------------------------------------------
  // Properties.

  /**
    byteToInt accepts exactly the bytes of the alphabet, mapping each to its
    position in it, and panics on every other byte.
   */
  lemma ByteToIntTable(b: Byte)
    ensures ByteToInt(b).Some? ==> Base64Map[ByteToInt(b).value] as int == b
    ensures ByteToInt(b).None? <==> forall i :: 0 <= i < |Base64Map| ==> Base64Map[i] as int != b
  {
    Alphabet();
  }

  /** intToByte and byteToInt are inverse on the 65 digits. */
  lemma IntToByteInverse(b: Byte)
    requires ByteToInt(b).Some?
    ensures IntToByte(ByteToInt(b).value) == b
  {
  }

  /** Encode is a homomorphism from list concatenation to string concatenation. */
  lemma {:induction false} EncodedAppend(xs: seq<int>, ys: seq<int>)
    ensures Encoded(xs + ys) == Encoded(xs) + Encoded(ys)
  {
    if xs == [] {
      assert xs + ys == ys;
    } else {
      var head := EncodedInteger(xs[0]);
      assert (xs + ys)[0] == xs[0];
      assert (xs + ys)[1..] == xs[1..] + ys;
      EncodedAppend(xs[1..], ys);
      calc {
        Encoded(xs + ys);
        head + Encoded(xs[1..] + ys);
        head + (Encoded(xs[1..]) + Encoded(ys));
        { ConcatAssoc(head, Encoded(xs[1..]), Encoded(ys)); }
        (head + Encoded(xs[1..])) + Encoded(ys);
      }
    }
  }

  lemma ConcatAssoc(a: string, b: string, c: string)
    ensures a + (b + c) == (a + b) + c
  {
  }

  lemma GroupSplit(m: nat, p: nat)
    ensures (m % 32) * p + (m / 32) * (32 * p) == m * p
  {
    var q, r := m / 32, m % 32;
    assert m == r + 32 * q;
    calc {
      r * p + q * (32 * p);
      r * p + (32 * q) * p;
      (r + 32 * q) * p;
    }
  }

  /** Decoding the character of m's lowest group either continues the accumulation or ends the value. */
  lemma DecodeGroup(m: nat, tail: string, value: int, shift: nat)
    ensures var v := value + (m % 32) * Pow2(shift);
            DecodeFrom([GroupChar(m)] + tail, value, shift)
            == if m / 32 > 0 then DecodeFrom(tail, v, shift + 5) else Prepend([Unfold(v)], DecodeFrom(tail, 0, 0))
  {
    var s := [GroupChar(m)] + tail;
    assert s[0] == GroupChar(m) && s[1..] == tail;
  }

  /** Adding the lowest group at p and the rest at 32 * p adds all of m at p. */
  lemma Accumulate(value: int, m: nat, p: nat, q: nat)
    requires q == 32 * p
    ensures value + (m % 32) * p + (m / 32) * q == value + m * p
  {
    GroupSplit(m, p);
  }

  /** One group of DecodeDigits: the digits of m / 32, decoded from the next shift, finish the value of m. */
  lemma DecodeDigitsStep(m: nat, rest: string, value: int, shift: nat)
    requires m / 32 > 0
    requires var v := value + (m % 32) * Pow2(shift);
             DecodeFrom(EncodeDigits(m / 32) + rest, v, shift + 5)
             == Prepend([Unfold(v + (m / 32) * Pow2(shift + 5))], DecodeFrom(rest, 0, 0))
    ensures DecodeFrom(EncodeDigits(m) + rest, value, shift)
         == Prepend([Unfold(value + m * Pow2(shift))], DecodeFrom(rest, 0, 0))
  {
    var c := GroupChar(m);
    var v := value + (m % 32) * Pow2(shift);
    var tail := EncodeDigits(m / 32) + rest;
    assert v + (m / 32) * Pow2(shift + 5) == value + m * Pow2(shift) by {
      Pow2Plus5(shift);
      Accumulate(value, m, Pow2(shift), Pow2(shift + 5));
    }
    calc {
      DecodeFrom(EncodeDigits(m) + rest, value, shift);
      { ConcatAssoc([c], EncodeDigits(m / 32), rest); }
      DecodeFrom([c] + tail, value, shift);
      { DecodeGroup(m, tail, value, shift); }
      DecodeFrom(tail, v, shift + 5);
    }
  }

  /** Decoding the digits of m continues an accumulation and yields its value. */
  lemma {:induction false} DecodeDigits(m: nat, rest: string, value: int, shift: nat)
    ensures DecodeFrom(EncodeDigits(m) + rest, value, shift)
         == Prepend([Unfold(value + m * Pow2(shift))], DecodeFrom(rest, 0, 0))
    decreases m
  {
    if m / 32 > 0 {
      DecodeDigits(m / 32, rest, value + (m % 32) * Pow2(shift), shift + 5);
      DecodeDigitsStep(m, rest, value, shift);
    } else {
      DecodeGroup(m, rest, value, shift);
      assert m == m % 32;
    }
  }

  /** Decode(Encode(xs)) == xs for every list of integers. */
  lemma {:induction false} DecodeEncode(xs: seq<int>)
    ensures Decoded(Encoded(xs)) == Some(xs)
  {
    if xs != [] {
      DecodeEncode(xs[1..]);
      DecodeDigits(Fold(xs[0]), Encoded(xs[1..]), 0, 0);
      UnfoldFold(xs[0]);
      assert [xs[0]] + xs[1..] == xs;
    }
  }

  /**
    encodeInteger always emits at least one character; every character but
    the last carries the continuation bit, and '=' is never emitted.
   */
  lemma {:induction false} EncodeDigitsShape(m: nat)
    ensures |EncodeDigits(m)| >= 1
    ensures forall k :: 0 <= k < |EncodeDigits(m)| ==>
              HasContinuation(EncodeDigits(m)[k]) == (k < |EncodeDigits(m)| - 1)
    ensures '=' !in EncodeDigits(m)
    decreases m
  {
    var r := EncodeDigits(m);
    var rest := m / 32;
    var c := GroupChar(m);
    assert HasContinuation(c) == (rest > 0);
    if rest > 0 {
      EncodeDigitsShape(rest);
      assert r == [c] + EncodeDigits(rest);
    }
  }

  /** The number of characters without the continuation bit. */
  function Terminators(s: string): nat {
    if s == [] then 0 else (if HasContinuation(s[0]) then 0 else 1) + Terminators(s[1..])
  }

  /**
    Decode yields one integer per character without the continuation bit;
    trailing continuation characters contribute nothing.
   */
  lemma {:induction false} DecodeCount(s: string, value: int, shift: nat)
    requires DecodeFrom(s, value, shift).Some?
    ensures |DecodeFrom(s, value, shift).value| == Terminators(s)
    decreases |s|
  {
    if s != [] {
      var d := ByteToInt(ByteOf(s[0])).value;
      var v := value + (d % 32) * Pow2(shift);
      if (d / 32) % 2 == 1 {
        DecodeCount(s[1..], v, shift + 5);
      } else {
        DecodeCount(s[1..], 0, 0);
      }
    }
  }

  /** Decoding fails exactly when some character is outside the alphabet. */
  lemma {:induction false} DecodeFails(s: string, value: int, shift: nat)
    ensures DecodeFrom(s, value, shift).None?
        <==> exists k :: 0 <= k < |s| && ByteToInt(ByteOf(s[k])).None?
    decreases |s|
  {
    if s != [] {
      var d := ByteToInt(ByteOf(s[0]));
      if d.Some? {
        var v := value + (d.value % 32) * Pow2(shift);
        if (d.value / 32) % 2 == 1 {
          DecodeFails(s[1..], v, shift + 5);
        } else {
          DecodeFails(s[1..], 0, 0);
        }
        if exists k :: 0 <= k < |s| && ByteToInt(ByteOf(s[k])).None? {
          var k :| 0 <= k < |s| && ByteToInt(ByteOf(s[k])).None?;
          assert s[1..][k - 1] == s[k];
        }
        if exists k :: 0 <= k < |s[1..]| && ByteToInt(ByteOf(s[1..][k])).None? {
          var k :| 0 <= k < |s[1..]| && ByteToInt(ByteOf(s[1..][k])).None?;
          assert s[k + 1] == s[1..][k];
        }
      }
    }
  }

  /** The digits of m are its lowest group's character followed by the digits of the rest. */
  lemma DigitsCons(m: nat, c: char, rest: string)
    requires m / 32 > 0 && CodeOf(GroupDigit(m)) == c as int && EncodeDigits(m / 32) == rest
    ensures EncodeDigits(m) == [c] + rest
  {
  }

  /** A value below 32 is written as one character. */
  lemma DigitsLast(m: nat, c: char)
    requires m / 32 == 0 && CodeOf(GroupDigit(m)) == c as int
    ensures EncodeDigits(m) == [c]
  {
  }

  lemma EncodeThree(n: int)
    requires n == 3
    ensures EncodedInteger(n) == "G"
  {
    DigitsLast(6, 'G');
  }

  lemma EncodeZero(n: int)
    requires n == 0
    ensures EncodedInteger(n) == "A"
  {
    DigitsLast(0, 'A');
  }

  lemma Encode966(n: int)
    requires n == 966
    ensures EncodedInteger(n) == "s8B"
  {
    DigitsLast(1, 'B');
    DigitsCons(60, '8', "B");
    DigitsCons(1932, 's', "8B");
  }

  lemma EncodeMinus41(n: int)
    requires n == -41
    ensures EncodedInteger(n) == "zC"
  {
    DigitsLast(2, 'C');
    DigitsCons(83, 'z', "C");
  }

  lemma EncodeLargeNegative(n: int)
    requires n == -439502
    ensures EncodedInteger(n) == "9s6a"
  {
    DigitsLast(26, 'a');
    DigitsCons(858, '6', "a");
    DigitsCons(27468, 's', "6a");
    DigitsCons(879005, '9', "s6a");
  }

  lemma EncodedFive(a: int, b: int, c: int, d: int, e: int)
    ensures Encoded([a, b, c, d, e])
         == EncodedInteger(a) + (EncodedInteger(b) + (EncodedInteger(c) + (EncodedInteger(d) + EncodedInteger(e))))
  {
    assert [e][1..] == [];
    assert Encoded([e]) == EncodedInteger(e) + "";
    assert [d, e][1..] == [e];
    assert Encoded([d, e]) == EncodedInteger(d) + Encoded([e]);
    assert [c, d, e][1..] == [d, e];
    assert Encoded([c, d, e]) == EncodedInteger(c) + Encoded([d, e]);
    assert [b, c, d, e][1..] == [c, d, e];
    assert Encoded([b, c, d, e]) == EncodedInteger(b) + Encoded([c, d, e]);
    assert [a, b, c, d, e][1..] == [b, c, d, e];
  }

  lemma EncodeVectorAt(big: int)
    requires big == -439502
    ensures Encoded([3, big, 0, 966, -41]) == "G9s6aAs8BzC"
  {
    EncodedFive(3, big, 0, 966, -41);
    EncodeLargeNegative(big);
    EncodeThree(3);
    EncodeZero(0);
    Encode966(966);
    EncodeMinus41(-41);
    VectorPieces("G", "9s6a", "A", "s8B", "zC");
  }

  lemma VectorPieces(a: string, b: string, c: string, d: string, e: string)
    requires a == "G" && b == "9s6a" && c == "A" && d == "s8B" && e == "zC"
    ensures a + (b + (c + (d + e))) == "G9s6aAs8BzC"
  {
  }

  /** Encode([3, -439502, 0, 966, -41]) == "G9s6aAs8BzC". */
  lemma EncodeVector()
    ensures Encoded([3, -439502, 0, 966, -41]) == "G9s6aAs8BzC"
  {
    EncodeVectorAt(-439502);
  }

  /** Decode("G9s6aAs8BzC") == [3, -439502, 0, 966, -41]. */
  lemma DecodeVector()
    ensures Decoded("G9s6aAs8BzC") == Some([3, -439502, 0, 966, -41])
  {
    EncodeVector();
    DecodeEncode([3, -439502, 0, 966, -41]);
  }
}
