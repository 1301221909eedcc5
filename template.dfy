/** The fixed layout of one telephone number: eleven ASCII digits become the
    seventeen bytes `+D (DDD) DDD-DDDD`, and the digit filter used by the push
    path. */
module Template {

  /** An octet: the element of a Go `[]byte` and of a Go `string`. */
  newtype byte = x: int | 0 <= x < 256

  /** Digits in one raw number (country digit plus ten subscriber digits). */
  const WINDOW := 11
  /** Bytes in one formatted number. */
  const WIDTH := 17

  const PLUS: byte := 43     // '+'
  const SPACE: byte := 32    // ' '
  const OPEN: byte := 40     // '('
  const CLOSE: byte := 41    // ')'
  const HYPHEN: byte := 45   // '-'
  const NEWLINE: byte := 10  // '\n'
  const ZERO: byte := 48     // '0'
  const NINE: byte := 57     // '9'

  predicate IsDigit(b: byte) {
    ZERO <= b <= NINE
  }

  predicate AllDigits(s: seq<byte>) {
    forall i :: 0 <= i < |s| ==> IsDigit(s[i])
  }

  /** The bytes of an ASCII string literal. */
  function Ascii(s: string): (r: seq<byte>)
    requires forall i :: 0 <= i < |s| ==> s[i] as int < 256
    ensures |r| == |s|
  {
    seq(|s|, i requires 0 <= i < |s| => s[i] as int as byte)
  }

  /** The formatted number: offset by offset, the template's literal or the
      window digit that belongs there. */
  function Format(d: seq<byte>): (t: seq<byte>)
    requires |d| == WINDOW
    ensures |t| == WIDTH
  {
    seq(WIDTH, k requires 0 <= k < WIDTH => Expected(d, k))
  }

  /** The output offset that receives digit `i` of the window. */
  function Slot(i: nat): (k: nat)
    requires i < WINDOW
    ensures k < WIDTH
  {
    if i == 0 then 1 else if i < 4 then i + 3 else if i < 7 then i + 5 else i + 6
  }

  /** True when offset `k` of a formatted number holds a literal of the template. */
  predicate IsLiteral(k: nat) {
    k == 0 || k == 2 || k == 3 || k == 7 || k == 8 || k == 12
  }

  /** The literal of the template at offset `k`. */
  function Literal(k: nat): byte
    requires IsLiteral(k)
  {
    if k == 0 then PLUS
    else if k == 2 || k == 8 then SPACE
    else if k == 3 then OPEN
    else if k == 7 then CLOSE
    else HYPHEN
  }

  /** A 17-byte sequence that carries the template's literals where they belong. */
  predicate Shaped(t: seq<byte>) {
    |t| == WIDTH && forall k: nat :: k < WIDTH && IsLiteral(k) ==> t[k] == Literal(k)
  }

  /** The inverse of Format: the eleven digits read back from their slots. */
  function Unformat(t: seq<byte>): (d: seq<byte>)
    requires |t| == WIDTH
    ensures |d| == WINDOW
  {
    seq(WINDOW, i requires 0 <= i < WINDOW => t[Slot(i)])
  }

  /** Offset by offset, the formatted number is the table of the layout:
      literals at 0, 2, 3, 7, 8 and 12, digit `i` at `Slot(i)`. */
  lemma FormatLayout(d: seq<byte>)
    requires |d| == WINDOW
    ensures Shaped(Format(d))
    ensures forall i :: 0 <= i < WINDOW ==> Format(d)[Slot(i)] == d[i]
  {
    var t := Format(d);
    assert t[0] == PLUS && t[2] == SPACE && t[3] == OPEN;
    assert t[7] == CLOSE && t[8] == SPACE && t[12] == HYPHEN;
    forall i | 0 <= i < WINDOW
      ensures t[Slot(i)] == d[i]
    {
    }
  }

  /** Reading the digits back from a formatted number gives the window. */
  lemma UnformatFormat(d: seq<byte>)
    requires |d| == WINDOW
    ensures Unformat(Format(d)) == d
  {
    FormatLayout(d);
  }

  /** A shaped sequence is the formatting of the digits it carries. */
  lemma FormatUnformat(t: seq<byte>)
    requires Shaped(t)
    ensures Format(Unformat(t)) == t
  {
    var d := Unformat(t);
    FormatLayout(d);
    forall k | 0 <= k < WIDTH
      ensures Format(d)[k] == t[k]
    {
      if !IsLiteral(k) {
        var i := DigitAt(k);
      }
    }
  }

  /** The digit bytes of a window never collide with the separator Read inserts. */
  lemma FormatHasNoNewline(d: seq<byte>)
    requires |d| == WINDOW && AllDigits(d)
    ensures forall k :: 0 <= k < |Format(d)| ==> Format(d)[k] != NEWLINE
  {
    FormatLayout(d);
    forall k | 0 <= k < WIDTH
      ensures Format(d)[k] != NEWLINE
    {
      if !IsLiteral(k) {
        var i := DigitAt(k);
      }
    }
  }

  /** The window digit that offset `k` of a formatted number carries. */
  function DigitAt(k: nat): (i: nat)
    requires k < WIDTH && !IsLiteral(k)
    ensures i < WINDOW && Slot(i) == k
  {
    if k == 1 then 0 else if k < 7 then k - 3 else if k < 12 then k - 5 else k - 6
  }

  /** Offset `k` of the formatted number, read off the layout table. */
  function Expected(d: seq<byte>, k: nat): byte
    requires |d| == WINDOW && k < WIDTH
  {
    if IsLiteral(k) then Literal(k) else d[DigitAt(k)]
  }

  /** How much of the output is settled once the first `c` digits are placed. */
  function Filled(c: nat): (m: nat)
    requires c <= WINDOW
    ensures m <= WIDTH
  {
    if c == 0 then 1
    else Slot(c - 1) + 1 + (if c == 4 then 2 else if c == 7 then 1 else 0)
  }

  /** The transform loop of Next: fill a fresh 17-byte array from an 11-byte
      window. A non-digit in the window makes numbers.go panic, so the
      window must be all digits. */
  method FormatWindow(d: seq<byte>) returns (out: seq<byte>)
    requires |d| == WINDOW && AllDigits(d)
    ensures out == Format(d)
  {
    var outBuf := new byte[WIDTH];
    outBuf[0] := PLUS;
    for i := 0 to WINDOW
      invariant forall k :: 0 <= k < Filled(i) ==> outBuf[k] == Expected(d, k)
    {
      if !IsDigit(d[i]) {
        assert false;
      }
      if i == 0 {
        outBuf[1] := d[0];
      } else if i == 1 {
        outBuf[2] := SPACE;
        outBuf[3] := OPEN;
        outBuf[4] := d[1];
      } else if i == 2 {
        outBuf[5] := d[2];
      } else if i == 3 {
        outBuf[6] := d[3];
        outBuf[7] := CLOSE;
        outBuf[8] := SPACE;
      } else if i == 4 || i == 5 {
        outBuf[i + 5] := d[i];
      } else if i == 6 {
        outBuf[11] := d[6];
        outBuf[12] := HYPHEN;
      } else {
        outBuf[i + 6] := d[i];
      }
    }
    out := outBuf[..];
  }

  /** Format spelled out as the template `+D (DDD) DDD-DDDD`. */
  lemma FormatSpelled(d: seq<byte>)
    requires |d| == WINDOW
    ensures Format(d) == [PLUS] + d[..1] + [SPACE, OPEN] + d[1..4] + [CLOSE, SPACE] + d[4..7] + [HYPHEN] + d[7..]
  {
    var t := [PLUS] + d[..1] + [SPACE, OPEN] + d[1..4] + [CLOSE, SPACE] + d[4..7] + [HYPHEN] + d[7..];
    forall k | 0 <= k < WIDTH
      ensures Format(d)[k] == t[k]
    {
      if !IsLiteral(k) {
        var i := DigitAt(k);
      }
    }
  }

  /** The number used throughout numbers_test.go. */
  lemma FormatExample()
    ensures |Ascii("12813308004")| == WINDOW && AllDigits(Ascii("12813308004"))
    ensures Format(Ascii("12813308004")) == Ascii("+1 (281) 330-8004")
  {
    var d := Ascii("12813308004");
    var t := Ascii("+1 (281) 330-8004");
    forall k | 0 <= k < WIDTH
      ensures Format(d)[k] == t[k]
    {
    }
  }

  /** The push-path filter: the bytes of `s` in '0'..'9', in their order. */
  function Digits(s: seq<byte>): seq<byte>
  {
    if s == [] then []
    else Digits(s[..|s| - 1]) + (if IsDigit(s[|s| - 1]) then [s[|s| - 1]] else [])
  }

  /** The filter keeps only digits. */
  lemma {:induction false} DigitsAreDigits(s: seq<byte>)
    ensures AllDigits(Digits(s))
  {
    if s != [] {
      DigitsAreDigits(s[..|s| - 1]);
    }
  }

  /** The filter keeps every digit: on an all-digit input it is the identity. */
  lemma {:induction false} DigitsOfDigits(s: seq<byte>)
    requires AllDigits(s)
    ensures Digits(s) == s
  {
    if s != [] {
      DigitsOfDigits(s[..|s| - 1]);
    }
  }

  /** A chunk without digits adds nothing. */
  lemma {:induction false} NoDigits(s: seq<byte>)
    requires forall i :: 0 <= i < |s| ==> !IsDigit(s[i])
    ensures Digits(s) == []
  {
    if s != [] {
      NoDigits(s[..|s| - 1]);
    }
  }

  /** Filtering two chunks one after the other is filtering their concatenation:
      two writes accumulate what one write of the joined chunk would. */
  lemma {:induction false} DigitsConcat(a: seq<byte>, b: seq<byte>)
    ensures Digits(a + b) == Digits(a) + Digits(b)
  {
    if b == [] {
      assert a + b == a;
    } else {
      assert (a + b)[..|a + b| - 1] == a + b[..|b| - 1];
      DigitsConcat(a, b[..|b| - 1]);
    }
  }

  /** Each byte value survives the filter exactly as often as it occurs in the
      input when it is a digit, and never otherwise. */
  lemma {:induction false} DigitsCount(s: seq<byte>, b: byte)
    ensures multiset(Digits(s))[b] == if IsDigit(b) then multiset(s)[b] else 0
  {
    if s != [] {
      var init, last := s[..|s| - 1], s[|s| - 1];
      assert s == init + [last];
      DigitsCount(init, b);
    }
  }
}
