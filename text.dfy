/** String primitives of the JavaScript runtime that the prompt generator relies on:
    String.prototype.trim, String.prototype.toLowerCase, Number.prototype.toString
    (for non-negative integers) and Array.prototype.join. Strings are seq<char>. */
module Text {

  /** The characters that String.prototype.trim removes: the ECMAScript WhiteSpace
      characters (tab, vertical tab, form feed, space, no-break space, byte order mark
      and the Unicode space separators) and the LineTerminator characters. */
  predicate IsWhite(c: char) {
    var n := c as int;
    n == 0x09 || n == 0x0A || n == 0x0B || n == 0x0C || n == 0x0D
    || n == 0x20 || n == 0xA0 || n == 0x1680 || (0x2000 <= n <= 0x200A)
    || n == 0x2028 || n == 0x2029 || n == 0x202F || n == 0x205F
    || n == 0x3000 || n == 0xFEFF
  }

  predicate AllWhite(s: string) {
    forall i :: 0 <= i < |s| ==> IsWhite(s[i])
  }

  /** The number of white-space characters s starts with. */
  function LeadingWhite(s: string): (n: nat)
    ensures n <= |s|
    ensures forall k :: 0 <= k < n ==> IsWhite(s[k])
    ensures n < |s| ==> !IsWhite(s[n])
  {
    if |s| > 0 && IsWhite(s[0]) then 1 + LeadingWhite(s[1..]) else 0
  }

  /** The number of white-space characters s ends with. */
  function TrailingWhite(s: string): (n: nat)
    ensures n <= |s|
    ensures forall k :: |s| - n <= k < |s| ==> IsWhite(s[k])
    ensures n < |s| ==> !IsWhite(s[|s| - 1 - n])
  {
    if |s| > 0 && IsWhite(s[|s| - 1]) then 1 + TrailingWhite(s[..|s| - 1]) else 0
  }

  /** String.prototype.trim: the part of s between its leading and its trailing
      white space. Everything dropped is white space, and what is kept neither
      starts nor ends with white space. */
  function Trim(s: string): (r: string)
    ensures LeadingWhite(s) + |r| <= |s|
    ensures r == s[LeadingWhite(s)..LeadingWhite(s) + |r|]
    ensures forall k :: 0 <= k < LeadingWhite(s) ==> IsWhite(s[k])
    ensures forall k :: LeadingWhite(s) + |r| <= k < |s| ==> IsWhite(s[k])
    ensures r != [] ==> !IsWhite(r[0]) && !IsWhite(r[|r| - 1])
  {
    var i := LeadingWhite(s);
    var t := s[i..];
    var r := t[..|t| - TrailingWhite(t)];
    assert forall k :: i + |r| <= k < |s| ==> s[k] == t[k - i];
    s[i..i + |r|]
  }

  /** A string trims to "" exactly when it is all white space. */
  lemma TrimEmptyIffBlank(s: string)
    ensures Trim(s) == [] <==> AllWhite(s)
  {
    if Trim(s) == [] {
      forall k | 0 <= k < |s| ensures IsWhite(s[k]) {
      }
    }
  }

  /** Trimming twice is trimming once. */
  lemma TrimIdempotent(s: string)
    ensures Trim(Trim(s)) == Trim(s)
  {
    var r := Trim(s);
    if r != [] {
      assert LeadingWhite(r) == 0;
      assert TrailingWhite(r) == 0;
    } else {
      assert Trim(r) == [];
    }
  }

  predicate IsUpper(c: char) {
    'A' <= c <= 'Z'
  }

  function LowerChar(c: char): (d: char)
    ensures !IsUpper(d)
    ensures IsUpper(c) ==> d as int == c as int + 32
    ensures !IsUpper(c) ==> d == c
  {
    if IsUpper(c) then (c as int + 32) as char else c
  }

  /** String.prototype.toLowerCase restricted to the ASCII letters. */
  function ToLower(s: string): (r: string)
    ensures |r| == |s|
    ensures forall i :: 0 <= i < |s| ==> r[i] == LowerChar(s[i])
  {
    seq(|s|, i requires 0 <= i < |s| => LowerChar(s[i]))
  }

  /** A string without upper-case letters is its own lower-case form. */
  lemma ToLowerFixed(s: string)
    requires forall i :: 0 <= i < |s| ==> !IsUpper(s[i])
    ensures ToLower(s) == s
  {
  }

  predicate IsDigit(c: char) {
    '0' <= c <= '9'
  }

  function DigitChar(d: nat): (c: char)
    requires d < 10
    ensures IsDigit(c) && c as int - '0' as int == d
  {
    ('0' as int + d) as char
  }

  /** The decimal numeral of n, as Number.prototype.toString gives it for a
      non-negative integer: digits only, with no leading zero. */
  function Decimal(n: nat): (r: string)
    ensures |r| >= 1
    ensures forall i :: 0 <= i < |r| ==> IsDigit(r[i])
    ensures r[0] == '0' ==> n == 0
  {
    if n < 10 then [DigitChar(n)] else Decimal(n / 10) + [DigitChar(n % 10)]
  }

  function DigitValue(c: char): nat
    requires IsDigit(c)
  {
    c as int - '0' as int
  }

  /** The value of a string of decimal digits, read from the left. */
  function DecimalValue(s: string): nat
    requires forall i :: 0 <= i < |s| ==> IsDigit(s[i])
  {
    if s == [] then 0
    else DecimalValue(s[..|s| - 1]) * 10 + DigitValue(s[|s| - 1])
  }

  /** Reading back the numeral of n gives n: the rendering loses nothing, so two
      different numbers never share a numeral. */
  lemma {:induction false} DecimalRoundTrip(n: nat)
    ensures DecimalValue(Decimal(n)) == n
  {
    if n >= 10 {
      var r := Decimal(n);
      assert r[..|r| - 1] == Decimal(n / 10);
      DecimalRoundTrip(n / 10);
    }
  }

  /** sub occurs in s starting at index i. */
  predicate OccursAt(sub: string, s: string, i: int) {
    0 <= i && i + |sub| <= |s| && s[i..i + |sub|] == sub
  }

  /** The total length of the pieces. */
  function SumLen(pieces: seq<string>): nat {
    if pieces == [] then 0 else |pieces[0]| + SumLen(pieces[1..])
  }

  /** Array.prototype.join: the pieces in order with sep between neighbours. */
  function Join(pieces: seq<string>, sep: string): (r: string)
    ensures pieces == [] ==> r == []
    ensures pieces != [] ==> |r| == SumLen(pieces) + (|pieces| - 1) * |sep|
  {
    if pieces == [] then []
    else if |pieces| == 1 then pieces[0]
    else pieces[0] + sep + Join(pieces[1..], sep)
  }

  /** An occurrence in the tail of a concatenation is one in the whole, shifted
      by the length of the head. */
  lemma OccursShift(sub: string, head: string, tail: string, j: int)
    requires OccursAt(sub, tail, j)
    ensures OccursAt(sub, head + tail, |head| + j)
  {
    var w := head + tail;
    forall t | 0 <= t < |sub| ensures w[|head| + j + t] == sub[t] {
      assert w[|head| + j + t] == tail[j + t];
    }
  }

  /** The position JoinAt gives piece k of a join. */
  function PieceStart(pieces: seq<string>, sep: string, k: nat): nat
    requires k <= |pieces|
  {
    SumLen(pieces[..k]) + k * |sep|
  }

  /** Piece k of a join starts after the k pieces before it and k separators, and a
      separator follows every piece but the last. */
  predicate PlacedAt(pieces: seq<string>, sep: string, k: nat)
    requires k < |pieces|
  {
    && OccursAt(pieces[k], Join(pieces, sep), PieceStart(pieces, sep, k))
    && (k + 1 < |pieces| ==>
         OccursAt(sep, Join(pieces, sep), PieceStart(pieces, sep, k) + |pieces[k]|))
  }

  /** Every piece of a join sits at its PieceStart, followed by a separator unless
      it is the last. */
  lemma {:induction false} JoinAt(pieces: seq<string>, sep: string, k: nat)
    requires k < |pieces|
    ensures PlacedAt(pieces, sep, k)
  {
    if k == 0 {
      JoinFirst(pieces, sep);
    } else {
      JoinAt(pieces[1..], sep, k - 1);
      JoinStep(pieces, sep, k);
    }
  }

  /** The first piece starts a join, and a separator follows it when there are more. */
  lemma JoinFirst(pieces: seq<string>, sep: string)
    requires 0 < |pieces|
    ensures PlacedAt(pieces, sep, 0)
  {
    var r := Join(pieces, sep);
    assert pieces[..0] == [];
    assert PieceStart(pieces, sep, 0) == 0;
    if |pieces| > 1 {
      var tail := sep + Join(pieces[1..], sep);
      assert r == pieces[0] + tail;
      assert r[..|pieces[0]|] == pieces[0];
      assert OccursAt(sep, tail, 0);
      OccursShift(sep, pieces[0], tail, 0);
    } else {
      assert r == pieces[0];
    }
  }

  /** Placing piece k - 1 of the tail places piece k of the whole join. */
  lemma JoinStep(pieces: seq<string>, sep: string, k: nat)
    requires 0 < k < |pieces|
    requires PlacedAt(pieces[1..], sep, k - 1)
    ensures PlacedAt(pieces, sep, k)
  {
    var rest := pieces[1..];
    var tail := Join(rest, sep);
    var head := pieces[0] + sep;
    assert Join(pieces, sep) == head + tail;
    assert pieces[..k] == [pieces[0]] + rest[..k - 1];
    SumLenCons(pieces[0], rest[..k - 1]);
    var j := PieceStart(rest, sep, k - 1);
    assert k * |sep| == (k - 1) * |sep| + |sep|;
    assert |head| + j == PieceStart(pieces, sep, k);
    assert rest[k - 1] == pieces[k];
    OccursShift(pieces[k], head, tail, j);
    if k + 1 < |pieces| {
      OccursShift(sep, head, tail, j + |pieces[k]|);
    }
  }

  lemma SumLenCons(x: string, s: seq<string>)
    ensures SumLen([x] + s) == |x| + SumLen(s)
  {
    assert ([x] + s)[1..] == s;
  }
}
