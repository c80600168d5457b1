/** Text conversions the program relies on: decimal rendering of numbers,
    JavaScript's `parseInt`, PostgreSQL's reading of an integer parameter,
    and `String.prototype.split` on one separator character. */
module Text {
  import opened Common

  // ---------------------------------------------------------------------------
  // Digits
  // ---------------------------------------------------------------------------

  predicate IsDigit(c: char)
  {
    '0' <= c <= '9'
  }

  predicate AllDigits(s: string)
  {
    forall i :: 0 <= i < |s| ==> IsDigit(s[i])
  }

  /** Hexadecimal digit, either case, as `parseInt` accepts after `0x`. */
  predicate IsHexDigit(c: char)
  {
    IsDigit(c) || 'a' <= c <= 'f' || 'A' <= c <= 'F'
  }

  function DigitValue(c: char): (d: nat)
    requires IsHexDigit(c)
    ensures d < 16
    ensures IsDigit(c) ==> d < 10
  {
    if IsDigit(c) then c as int - '0' as int
    else if 'a' <= c <= 'f' then c as int - 'a' as int + 10
    else c as int - 'A' as int + 10
  }

  function DigitChar(d: nat): (c: char)
    requires d < 10
    ensures IsDigit(c) && DigitValue(c) == d
  {
    ('0' as int + d) as char
  }

  /** Value of a digit string in the given radix, most significant digit first. */
  function ValueIn(s: string, radix: nat): nat
    requires forall i :: 0 <= i < |s| ==> IsHexDigit(s[i])
  {
    if |s| == 0 then 0
    else ValueIn(s[..|s| - 1], radix) * radix + DigitValue(s[|s| - 1])
  }

  /** Decimal rendering of a natural number without leading zeros, the text
      JavaScript's `String(n)` gives for a whole number. */
  function ShowNat(n: nat): (s: string)
    ensures |s| > 0 && AllDigits(s)
    ensures |s| > 1 ==> s[0] != '0'
  {
    if n < 10 then [DigitChar(n)] else ShowNat(n / 10) + [DigitChar(n % 10)]
  }

  /** Decimal rendering of an integer, with a leading `-` when negative. */
  function ShowInt(n: int): string
  {
    if n < 0 then "-" + ShowNat(-n) else ShowNat(n)
  }

  lemma {:induction false} ShowNatRoundTrip(n: nat)
    ensures ValueIn(ShowNat(n), 10) == n
  {
    if n >= 10 {
      ShowNatRoundTrip(n / 10);
      var s := ShowNat(n / 10) + [DigitChar(n % 10)];
      assert s[..|s| - 1] == ShowNat(n / 10);
    }
  }

  // ---------------------------------------------------------------------------
  // Whitespace and prefixes
  // ---------------------------------------------------------------------------

  /** ASCII white space: space, tab, line feed, vertical tab, form feed,
      carriage return. */
  predicate IsSpace(c: char)
  {
    c == ' ' || c == '\t' || c == '\n' || c == '\r' || c as int == 11 || c as int == 12
  }

  function TrimStart(s: string): (r: string)
    ensures |r| <= |s| && r == s[|s| - |r|..]
    ensures |r| > 0 ==> !IsSpace(r[0])
    ensures forall i :: 0 <= i < |s| - |r| ==> IsSpace(s[i])
  {
    if |s| > 0 && IsSpace(s[0]) then TrimStart(s[1..]) else s
  }

  function TrimEnd(s: string): (r: string)
    ensures |r| <= |s| && r == s[..|r|]
    ensures |r| > 0 ==> !IsSpace(r[|r| - 1])
    ensures forall i :: |r| <= i < |s| ==> IsSpace(s[i])
  {
    if |s| > 0 && IsSpace(s[|s| - 1]) then TrimEnd(s[..|s| - 1]) else s
  }

  /** Longest prefix of decimal (or, with `hex`, hexadecimal) digits. */
  function DigitPrefix(s: string, hex: bool): (p: string)
    ensures |p| <= |s| && p == s[..|p|]
    ensures forall i :: 0 <= i < |p| ==> IsHexDigit(p[i]) && (hex || IsDigit(p[i]))
    ensures |p| < |s| ==> !(if hex then IsHexDigit(s[|p|]) else IsDigit(s[|p|]))
  {
    if |s| > 0 && (if hex then IsHexDigit(s[0]) else IsDigit(s[0]))
    then [s[0]] + DigitPrefix(s[1..], hex)
    else []
  }

  /** The digit run ends at the first character that is not a digit. */
  lemma {:induction false} DigitPrefixStops(digits: string, tail: string)
    requires AllDigits(digits)
    requires |tail| == 0 || !IsDigit(tail[0])
    ensures DigitPrefix(digits + tail, false) == digits
  {
    if |digits| > 0 {
      assert (digits + tail)[1..] == digits[1..] + tail;
      DigitPrefixStops(digits[1..], tail);
    } else {
      assert digits + tail == tail;
    }
  }

  lemma {:induction false} DigitPrefixOfDigits(s: string)
    requires AllDigits(s)
    ensures DigitPrefix(s, false) == s
  {
    if |s| > 0 {
      DigitPrefixOfDigits(s[1..]);
    }
  }

  // ---------------------------------------------------------------------------
  // JavaScript parseInt
  // ---------------------------------------------------------------------------

  /** `parseInt(s)` without a radix argument: leading white space is skipped,
      one sign is read, a `0x`/`0X` prefix switches to hexadecimal, and the
      longest run of digits that follows is the value. `None` is `NaN`. */
  function ParseInt(s: string): (r: Option<int>)
    ensures r.None? <==> |DigitsAfterSign(SignAndRest(TrimStart(s)).1)| == 0
    ensures r.Some? && r.value < 0 ==> SignAndRest(TrimStart(s)).0
    ensures r.Some? && r.value > 0 ==> !SignAndRest(TrimStart(s)).0
  {
    var t := TrimStart(s);
    var (negative, u) := SignAndRest(t);
    var digits := DigitsAfterSign(u);
    if |digits| == 0 then None
    else
      var magnitude: int := ValueIn(digits, if IsHexPrefixed(u) then 16 else 10);
      Some(if negative then -magnitude else magnitude)
  }

  /** Reads an optional `+` or `-`; the first component is true for `-`. */
  function SignAndRest(t: string): (bool, string)
  {
    if |t| > 0 && (t[0] == '-' || t[0] == '+') then (t[0] == '-', t[1..]) else (false, t)
  }

  predicate IsHexPrefixed(u: string)
  {
    |u| >= 2 && u[0] == '0' && (u[1] == 'x' || u[1] == 'X')
  }

  /** The digits `parseInt` consumes once the sign has been read. */
  function DigitsAfterSign(u: string): string
  {
    if IsHexPrefixed(u) then DigitPrefix(u[2..], true) else DigitPrefix(u, false)
  }

  /** Rendered integers carry no white space and no `0x` prefix, and their
      digits are exactly the decimal rendering of the magnitude. */
  lemma ShowIntShape(n: int)
    ensures TrimStart(ShowInt(n)) == ShowInt(n)
    ensures SignAndRest(ShowInt(n)) == (n < 0, ShowNat(if n < 0 then -n else n))
  {
    var s := ShowInt(n);
    assert !IsSpace(s[0]);
    if n < 0 {
      assert s[1..] == ShowNat(-n);
    } else {
      assert IsDigit(s[0]);
    }
  }

  /** `parseInt` reads back every integer JavaScript renders. */
  lemma ParseIntShowInt(n: int)
    ensures ParseInt(ShowInt(n)) == Some(n)
  {
    var m: nat := if n < 0 then -n else n;
    var digits := ShowNat(m);
    ShowIntShape(n);
    DigitPrefixOfDigits(digits);
    ShowNatRoundTrip(m);
    assert !IsHexPrefixed(digits) by {
      if |digits| >= 2 { assert IsDigit(digits[1]); }
    }
    assert DigitsAfterSign(digits) == digits;
  }

  /** Decimal digits followed by a character that is neither a digit nor
      the `x` of a `0x` prefix: the digit run is exactly those digits. */
  lemma DigitsAfterSignDecimal(digits: string, tail: string)
    requires |digits| > 0 && AllDigits(digits)
    requires |tail| == 0 || !IsDigit(tail[0])
    requires !IsHexPrefixed(digits + tail)
    ensures DigitsAfterSign(digits + tail) == digits
  {
    DigitPrefixStops(digits, tail);
  }

  /** `parseInt` of text whose sign is followed by decimal digits and then
      by a character that is not a digit, if any. */
  lemma ParseIntDecimal(s: string, digits: string, tail: string)
    requires |digits| > 0 && AllDigits(digits)
    requires |tail| == 0 || !IsDigit(tail[0])
    requires !IsHexPrefixed(digits + tail)
    requires SignAndRest(TrimStart(s)).1 == digits + tail
    ensures ParseInt(s) ==
            Some(if SignAndRest(TrimStart(s)).0 then -(ValueIn(digits, 10) as int) else ValueIn(digits, 10))
  {
    DigitsAfterSignDecimal(digits, tail);
  }

  /** Text that starts with neither white space nor a sign is read as it is. */
  lemma UnsignedStart(s: string)
    requires |s| > 0 && !IsSpace(s[0]) && s[0] != '-' && s[0] != '+'
    ensures SignAndRest(TrimStart(s)) == (false, s)
  {
  }

  /** A run of decimal digits reads as its decimal value. */
  lemma ParseIntOfDigits(digits: string)
    requires |digits| > 0 && AllDigits(digits)
    ensures ParseInt(digits) == Some(ValueIn(digits, 10))
  {
    UnsignedStart(digits);
    assert digits + [] == digits;
    assert !IsHexPrefixed(digits) by {
      if |digits| >= 2 { assert IsDigit(digits[1]); }
    }
    ParseIntDecimal(digits, digits, []);
  }

  /** `parseInt` stops at the first character that is not a digit, so a
      decimal number followed by other text reads as the number alone,
      unless that text turns a leading `0` into a `0x` prefix. */
  lemma ParseIntIgnoresTail(digits: string, tail: string)
    requires |digits| > 0 && AllDigits(digits)
    requires |tail| > 0 && !IsDigit(tail[0]) && tail[0] != 'x' && tail[0] != 'X'
    ensures ParseInt(digits + tail) == ParseInt(digits)
    ensures ParseInt(digits) == Some(ValueIn(digits, 10))
  {
    var s := digits + tail;
    assert s[0] == digits[0];
    UnsignedStart(s);
    assert !IsHexPrefixed(s) by {
      if |digits| >= 2 { assert s[1] == digits[1]; } else { assert s[1] == tail[0]; }
    }
    ParseIntDecimal(s, digits, tail);
    ParseIntOfDigits(digits);
  }

  // ---------------------------------------------------------------------------
  // PostgreSQL integer parameter
  // ---------------------------------------------------------------------------

  const INT4_MIN: int := -0x8000_0000
  const INT4_MAX: int := 0x7FFF_FFFF

  /** How PostgreSQL reads a text parameter bound to an `integer` column:
      white space around the number, one optional sign, at least one decimal
      digit and nothing else, within the 32-bit range. `None` is the error the
      database raises. */
  function PgInt(s: string): (r: Option<int>)
    ensures r.Some? ==> INT4_MIN <= r.value <= INT4_MAX
    ensures r.Some? ==> AllDigits(SignAndRest(TrimEnd(TrimStart(s))).1)
  {
    var (negative, u) := SignAndRest(TrimEnd(TrimStart(s)));
    if |u| == 0 || !AllDigits(u) then None
    else
      var magnitude: int := ValueIn(u, 10);
      var v := if negative then -magnitude else magnitude;
      if INT4_MIN <= v <= INT4_MAX then Some(v) else None
  }

  /** The database reads back every in-range integer rendered as decimal text. */
  lemma PgIntShowInt(n: int)
    requires INT4_MIN <= n <= INT4_MAX
    ensures PgInt(ShowInt(n)) == Some(n)
  {
    var m: nat := if n < 0 then -n else n;
    var s := ShowInt(n);
    ShowIntShape(n);
    ShowNatRoundTrip(m);
    assert TrimEnd(s) == s by {
      assert IsDigit(s[|s| - 1]);
    }
  }

  /** Whenever the database accepts a parameter, `parseInt` reads the same
      number from it. */
  lemma PgIntAgreesWithParseInt(s: string)
    requires PgInt(s).Some?
    ensures ParseInt(s) == PgInt(s)
  {
    var t := TrimStart(s);
    var e := TrimEnd(t);
    var u := PgIntDigits(s);
    var blanks := t[|e|..];
    TrailingBlanks(t);
    DigitsThenBlanks(u, blanks);
    SignAndRestBlanks(e, blanks);
    ParseIntDecimal(s, u, blanks);
  }

  /** What `TrimEnd` removes is blanks, appended after what it keeps. */
  lemma TrailingBlanks(t: string)
    ensures t == TrimEnd(t) + t[|TrimEnd(t)|..]
    ensures |t[|TrimEnd(t)|..]| > 0 ==> IsSpace(t[|TrimEnd(t)|..][0])
  {
    var e := TrimEnd(t);
    if |e| < |t| {
      assert t[|e|..][0] == t[|e|];
    }
  }

  /** Digits followed by blanks carry no `0x` prefix, and the digit run stops
      at the first blank. */
  lemma DigitsThenBlanks(u: string, blanks: string)
    requires |u| > 0 && AllDigits(u)
    requires |blanks| > 0 ==> IsSpace(blanks[0])
    ensures !IsHexPrefixed(u + blanks)
    ensures |blanks| == 0 || !IsDigit(blanks[0])
  {
    var v := u + blanks;
    if |v| >= 2 {
      if |u| >= 2 { assert v[1] == u[1] && IsDigit(u[1]); } else { assert v[1] == blanks[0]; }
    }
  }

  /** The digits of an accepted parameter, after the blanks and the sign. */
  function PgIntDigits(s: string): (u: string)
    requires PgInt(s).Some?
    ensures u == SignAndRest(TrimEnd(TrimStart(s))).1
    ensures |u| > 0 && AllDigits(u) && |TrimEnd(TrimStart(s))| > 0
    ensures PgInt(s) ==
            Some(if SignAndRest(TrimEnd(TrimStart(s))).0 then -(ValueIn(u, 10) as int) else ValueIn(u, 10))
  {
    SignAndRest(TrimEnd(TrimStart(s))).1
  }

  /** Blanks after the number do not change how its sign is read. */
  lemma SignAndRestBlanks(e: string, blanks: string)
    requires |e| > 0
    ensures SignAndRest(e + blanks).0 == SignAndRest(e).0
    ensures SignAndRest(e + blanks).1 == SignAndRest(e).1 + blanks
  {
    var t := e + blanks;
    assert t[0] == e[0];
    if e[0] == '-' || e[0] == '+' {
      assert t[1..] == e[1..] + blanks;
    }
  }

  /** A path segment that is not a decimal integer, such as `abc` or `12abc`,
      is refused by the database. */
  lemma PgIntRejectsTrailingText(digits: string, tail: string)
    requires |digits| > 0 && AllDigits(digits)
    requires |tail| > 0 && !IsDigit(tail[0]) && !IsSpace(tail[0])
    ensures PgInt(digits + tail) == None
  {
    var s := digits + tail;
    assert !IsSpace(s[0]) && !(s[0] == '-' || s[0] == '+');
    assert TrimStart(s) == s;
    var e := TrimEnd(s);
    assert s[|digits|] == tail[0];
    assert |e| > |digits|;
    assert e[|digits|] == tail[0];
    assert SignAndRest(e).1 == e;
  }

  // ---------------------------------------------------------------------------
  // String.prototype.split with a one-character separator
  // ---------------------------------------------------------------------------

  function IndexOf(s: string, c: char): (i: nat)
    requires c in s
    ensures i < |s| && s[i] == c && c !in s[..i]
  {
    if s[0] == c then 0 else 1 + IndexOf(s[1..], c)
  }

  /** `s.split(c)`: the pieces between occurrences of `c`; never empty, and
      with more than one piece exactly when `c` occurs. */
  function Split(s: string, c: char): (parts: seq<string>)
    ensures |parts| > 0
    ensures |parts| > 1 <==> c in s
    ensures c !in parts[0]
    ensures |parts[0]| <= |s| && parts[0] == s[..|parts[0]|]
    ensures |parts[0]| == |s| || s[|parts[0]|] == c
    decreases |s|
  {
    if c !in s then [s]
    else
      var i := IndexOf(s, c);
      [s[..i]] + Split(s[i + 1..], c)
  }

  /** `parts.join(c)`. */
  function Join(parts: seq<string>, c: char): string
    requires |parts| > 0
  {
    if |parts| == 1 then parts[0] else parts[0] + [c] + Join(parts[1..], c)
  }

  /** Splitting undoes joining when no piece contains the separator. */
  lemma {:induction false} SplitJoin(parts: seq<string>, c: char)
    requires |parts| > 0
    requires forall k :: 0 <= k < |parts| ==> c !in parts[k]
    ensures Split(Join(parts, c), c) == parts
  {
    if |parts| > 1 {
      var head := parts[0];
      var rest := Join(parts[1..], c);
      var s := head + [c] + rest;
      assert s[|head|] == c;
      assert s[..|head|] == head;
      assert IndexOf(s, c) == |head|;
      assert s[|head| + 1..] == rest;
      SplitJoin(parts[1..], c);
    }
  }
}
