/** Values shared by every loader: points, the pre-split token lines a loader reads,
    and the integer semantics of the C++ code (truncating division, unsigned conversion). */
module Common {

  datatype Option<T> = None | Some(value: T)

  /** `Point<int>` and `Size<int>` of the C++ code, `Point` of the Python code. */
  datatype Point = Point(x: int, y: int)

  /** One whitespace-separated token of a line. `text` is the token as written; `num` is the
      integer a loader reads from it (for a net header `n<idx>`, the integer after the prefix). */
  datatype Token = Token(text: string, num: int)

  /** A line of a file, already split on whitespace. A blank or whitespace-only line is `[]`. */
  type Line = seq<Token>

  /** What a loader stores where a line has no token to read. */
  const Missing: Token := Token("", 0)

  /** The integer at position `i` of `line`, or `keep` when the line is too short
      (a C++ stream extraction past the end of the line leaves its target as it was). */
  function Field(line: Line, i: nat, keep: int): (v: int)
    ensures i < |line| ==> v == line[i].num
    ensures i >= |line| ==> v == keep
  {
    if i < |line| then line[i].num else keep
  }

  /** The token at position `i` of `line`, or `Missing` when the line is too short. */
  function TokenAt(line: Line, i: nat): (t: Token)
    ensures i < |line| ==> t == line[i]
    ensures i >= |line| ==> t == Missing
  {
    if i < |line| then line[i] else Missing
  }

  /** The lines of a file without its blank ones, in order. */
  function DropBlank(lines: seq<Line>): (r: seq<Line>)
    ensures |r| <= |lines|
    ensures forall k :: 0 <= k < |r| ==> r[k] != []
    ensures forall k :: 0 <= k < |r| ==> r[k] in lines
  {
    if lines == [] then []
    else if lines[0] == [] then DropBlank(lines[1..])
    else [lines[0]] + DropBlank(lines[1..])
  }

  predicate StartsWith(s: string, prefix: string) {
    |prefix| <= |s| && s[..|prefix|] == prefix
  }

  /** Python's `token.startswith(".")`: the command sentinel of every format. */
  predicate IsDotToken(t: Token) {
    |t.text| > 0 && t.text[0] == '.'
  }

  function Abs(a: int): nat {
    if a < 0 then -a else a
  }

  /** C++ `a / b` on `int`: the quotient truncated toward zero. */
  function TruncDiv(a: int, b: int): int
    requires b != 0
  {
    var q := Abs(a) / Abs(b);
    if (a < 0) != (b < 0) then -q else q
  }

  /** C++ `a % b` on `int`: the remainder takes the sign of `a`. */
  function TruncMod(a: int, b: int): int
    requires b != 0
  {
    a - b * TruncDiv(a, b)
  }

  /** On a non-negative dividend and a positive divisor C++ and Dafny division agree. */
  lemma TruncDivNonNegative(a: int, b: int)
    requires a >= 0 && b > 0
    ensures TruncDiv(a, b) == a / b && TruncMod(a, b) == a % b
  {
  }

  /** C++ conversion of an `int` (32-bit) to `unsigned int`: reduction modulo 2^32. */
  function ToUnsigned(v: int): (u: nat)
    ensures u < 0x1_0000_0000
    ensures 0 <= v < 0x1_0000_0000 ==> u == v
  {
    v % 0x1_0000_0000
  }

  predicate IsDigit(c: char) {
    '0' <= c <= '9'
  }

  /** The value of a string of decimal digits, most significant first. */
  function DigitsValue(s: string): nat {
    if s == [] then 0
    else DigitsValue(s[..|s| - 1]) * 10 + (if IsDigit(s[|s| - 1]) then s[|s| - 1] as int - '0' as int else 0)
  }

  function DigitChar(d: nat): (c: char)
    requires d < 10
    ensures IsDigit(c) && c as int - '0' as int == d
  {
    "0123456789"[d]
  }

  /** Python's `f"{n}"` (and `str(n)`) for a natural number. */
  function NatToString(n: nat): (s: string)
    ensures |s| > 0 && IsDigit(s[0])
  {
    if n < 10 then [DigitChar(n)] else NatToString(n / 10) + [DigitChar(n % 10)]
  }

  /** `NatToString(n)` is decimal digits that read back as `n`, with no leading zero. */
  lemma {:induction false} NatToStringReadsBack(n: nat)
    ensures var s := NatToString(n);
      (forall k :: 0 <= k < |s| ==> IsDigit(s[k])) && DigitsValue(s) == n && (s[0] == '0' ==> n == 0)
  {
    if n >= 10 {
      NatToStringReadsBack(n / 10);
      var s := NatToString(n);
      assert s[..|s| - 1] == NatToString(n / 10);
    }
  }

  /** A token the generator writes for the integer `n`. */
  function NumToken(n: nat): (t: Token)
    ensures t.num == n && !IsDotToken(t)
  {
    Token(NatToString(n), n)
  }
}
