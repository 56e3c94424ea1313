/**
 * The text primitives the graph loader's text format is built from:
 * fmt's %d for a Go int, strconv.Atoi, strings.Fields (fields are the
 * maximal runs of characters that are not Unicode white space) and
 * bufio.ScanLines (a line ends at '\n', a trailing '\r' is dropped, and a
 * last line without a newline still counts).
 *
 * Text is a sequence of characters; the UTF-8 decoding Go performs on the
 * bytes of a file is not modelled.
 */
module TextCodec {

  import opened Common

  /** A Go int on a 64-bit platform. */
  type Int64 = x: int | -0x8000_0000_0000_0000 <= x < 0x8000_0000_0000_0000

  // ---------------------------------------------------------------------
  // Decimal integers
  // ---------------------------------------------------------------------

  predicate IsDigit(c: char) {
    '0' <= c <= '9'
  }

  predicate AllDigits(s: string) {
    forall k | 0 <= k < |s| :: IsDigit(s[k])
  }

  function DigitValue(c: char): nat
    requires IsDigit(c)
  {
    c as int - '0' as int
  }

  function DigitChar(d: nat): (c: char)
    requires d < 10
    ensures IsDigit(c) && DigitValue(c) == d
  {
    ('0' as int + d) as char
  }

  /** The decimal digits of x, most significant first, without leading zeros. */
  function Decimal(x: nat): (s: string)
    ensures |s| > 0 && AllDigits(s)
    ensures x > 0 ==> s[0] != '0'
  {
    if x < 10 then [DigitChar(x)] else Decimal(x / 10) + [DigitChar(x % 10)]
  }

  /** The value of a string of decimal digits, most significant first. */
  function DigitsValue(s: string): nat
    requires AllDigits(s)
  {
    if s == [] then 0 else 10 * DigitsValue(s[..|s| - 1]) + DigitValue(s[|s| - 1])
  }

  /** Reading back the digits of x gives x. */
  lemma {:induction false} DecimalValue(x: nat)
    ensures DigitsValue(Decimal(x)) == x
  {
    if x >= 10 {
      DecimalValue(x / 10);
      var s := Decimal(x);
      assert s[..|s| - 1] == Decimal(x / 10);
    }
  }

  /** fmt.Sprintf("%d", x): a minus sign for a negative value, then the digits of its magnitude. */
  function FormatInt(x: int): (s: string)
    ensures |s| > 0
    ensures forall k | 0 <= k < |s| :: s[k] == '-' || IsDigit(s[k])
  {
    if x < 0 then "-" + Decimal(-x) else Decimal(x)
  }

  /**
   * strconv.Atoi: an optional '+' or '-' followed by one or more decimal
   * digits (leading zeros allowed, no underscores, nothing else), whose
   * value must fit an int; anything else is an error.
   */
  function Atoi(s: string): (r: Option<Int64>)
    ensures r.Some? ==> |s| > 0 && forall k | 0 <= k < |s| :: s[k] == '-' || s[k] == '+' || IsDigit(s[k])
  {
    var signed := |s| > 0 && (s[0] == '-' || s[0] == '+');
    var digits := if signed then s[1..] else s;
    if digits == [] || !AllDigits(digits) then None
    else
      var v: int := if |s| > 0 && s[0] == '-' then -(DigitsValue(digits) as int) else DigitsValue(digits);
      if -0x8000_0000_0000_0000 <= v < 0x8000_0000_0000_0000 then Some(v) else None
  }

  /** What %d writes for an int, Atoi reads back. */
  lemma AtoiFormatInt(x: Int64)
    ensures Atoi(FormatInt(x)) == Some(x)
  {
    if x < 0 {
      DecimalValue(-(x as int));
      assert FormatInt(x)[1..] == Decimal(-(x as int));
    } else {
      DecimalValue(x);
    }
  }

  /** A sign alone, or a sign followed by anything but digits, is rejected. */
  lemma AtoiNeedsDigits(s: string)
    requires |s| > 0 && (s[0] == '-' || s[0] == '+')
    requires |s| == 1 || !IsDigit(s[1])
    ensures Atoi(s) == None
  {
  }

  // ---------------------------------------------------------------------
  // strings.Fields
  // ---------------------------------------------------------------------

  /** unicode.IsSpace: the Latin-1 spaces and the Unicode White_Space characters. */
  predicate IsSpace(c: char) {
    || c == ' ' || c == '\t' || c == '\n' || c == '\U{B}' || c == '\U{C}' || c == '\r'
    || c == '\U{85}' || c == '\U{A0}' || c == '\U{1680}' || '\U{2000}' <= c <= '\U{200A}'
    || c == '\U{2028}' || c == '\U{2029}' || c == '\U{202F}' || c == '\U{205F}' || c == '\U{3000}'
  }

  predicate NoSpace(s: string) {
    forall k | 0 <= k < |s| :: !IsSpace(s[k])
  }

  /** The longest prefix of s that holds no white space. */
  function FieldAt(s: string): (w: string)
    ensures |w| <= |s| && w == s[..|w|] && NoSpace(w)
    ensures |w| < |s| ==> IsSpace(s[|w|])
  {
    if s == [] || IsSpace(s[0]) then [] else [s[0]] + FieldAt(s[1..])
  }

  /** strings.Fields: the maximal runs of non-space characters, in order. */
  function Fields(s: string): (fs: seq<string>)
    ensures forall k | 0 <= k < |fs| :: |fs[k]| > 0 && NoSpace(fs[k])
    decreases |s|
  {
    if s == [] then []
    else if IsSpace(s[0]) then Fields(s[1..])
    else
      var w := FieldAt(s);
      [w] + Fields(s[|w|..])
  }

  /** A field that ends before the end of a stays the same when more text follows. */
  lemma {:induction false} FieldAtAppend(a: string, b: string)
    requires |FieldAt(a)| < |a|
    ensures FieldAt(a + b) == FieldAt(a)
  {
    if a != [] && !IsSpace(a[0]) {
      assert (a + b)[1..] == a[1..] + b;
      FieldAtAppend(a[1..], b);
    }
  }

  /** Text that ends in white space splits into fields independently of what follows it. */
  lemma {:induction false} FieldsAppend(a: string, b: string)
    requires a == [] || IsSpace(a[|a| - 1])
    ensures Fields(a + b) == Fields(a) + Fields(b)
    decreases |a|
  {
    if a == [] {
      assert a + b == b;
    } else if IsSpace(a[0]) {
      assert (a + b)[1..] == a[1..] + b;
      FieldsAppend(a[1..], b);
    } else {
      var w := FieldAt(a);
      assert |w| < |a| by {
        assert !NoSpace(a);
      }
      FieldAtAppend(a, b);
      assert (a + b)[|w|..] == a[|w|..] + b;
      FieldsAppend(a[|w|..], b);
    }
  }

  /** A word without white space followed by a space is a single field. */
  lemma FieldsOfWord(w: string)
    requires |w| > 0 && NoSpace(w)
    ensures Fields(w + " ") == [w]
  {
    var s := w + " ";
    WordField(w);
    assert s[|w|..] == " ";
    assert Fields(" ") == Fields(" "[1..]);
  }

  lemma {:induction false} WordField(w: string)
    requires NoSpace(w)
    ensures FieldAt(w + " ") == w
  {
    if w != [] {
      assert (w + " ")[1..] == w[1..] + " ";
      WordField(w[1..]);
    }
  }

  // ---------------------------------------------------------------------
  // bufio.ScanLines
  // ---------------------------------------------------------------------

  /** The position of the first '\n' in s, or |s| when there is none. */
  function LineEnd(s: string): (k: nat)
    ensures k <= |s| && (k < |s| ==> s[k] == '\n')
    ensures forall i | 0 <= i < k :: s[i] != '\n'
  {
    if s == [] || s[0] == '\n' then 0 else 1 + LineEnd(s[1..])
  }

  /** A line without its trailing carriage return. */
  function DropCR(line: string): string {
    if |line| > 0 && line[|line| - 1] == '\r' then line[..|line| - 1] else line
  }

  /** The lines a bufio.Scanner with ScanLines yields over the whole input. */
  function Lines(s: string): seq<string>
    decreases |s|
  {
    if s == [] then []
    else
      var k := LineEnd(s);
      if k == |s| then [DropCR(s)] else [DropCR(s[..k])] + Lines(s[k + 1..])
  }

  /** A line ended by '\n', holding no other newline and not ending in '\r', is scanned as itself. */
  lemma LinesCons(line: string, rest: string)
    requires forall k | 0 <= k < |line| :: line[k] != '\n'
    requires line == [] || line[|line| - 1] != '\r'
    ensures Lines(line + "\n" + rest) == [line] + Lines(rest)
  {
    var s := line + "\n" + rest;
    EndOfLine(line, rest);
    assert s[..|line|] == line;
    assert s[|line| + 1..] == rest;
  }

  lemma {:induction false} EndOfLine(line: string, rest: string)
    requires forall k | 0 <= k < |line| :: line[k] != '\n'
    ensures LineEnd(line + "\n" + rest) == |line|
  {
    if line != [] {
      assert (line + "\n" + rest)[1..] == line[1..] + "\n" + rest;
      EndOfLine(line[1..], rest);
    }
  }
}
