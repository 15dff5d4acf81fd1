/**
 * The JavaScript string built-ins the message handler relies on, as pure functions over
 * sequences of characters: `trim`, `charAt(0)`, `endsWith`, `split` with a one-character
 * separator, and `parseInt` without a radix argument (section 19.2.5 of ECMA-262).
 */
module JsStrings {
  import opened Wrappers

  /** WhiteSpace or LineTerminator (sections 12.2 and 12.3 of ECMA-262): what `trim` strips
      and what `parseInt` skips before the number. */
  predicate IsWhiteSpace(c: char) {
    || c == '\t' || c == '\U{B}' || c == '\U{C}' || c == ' ' || c == '\U{A0}' || c == '\U{FEFF}'
    || c == '\U{1680}' || ('\U{2000}' <= c <= '\U{200A}') || c == '\U{202F}' || c == '\U{205F}'
    || c == '\U{3000}'
    || c == '\n' || c == '\r' || c == '\U{2028}' || c == '\U{2029}'
  }

  /** `s` with its leading white space removed. */
  function TrimStart(s: string): (r: string)
    ensures |r| <= |s| && r == s[|s| - |r|..]
    ensures r == [] || !IsWhiteSpace(r[0])
  {
    if s != [] && IsWhiteSpace(s[0]) then TrimStart(s[1..]) else s
  }

  /** Everything TrimStart drops is white space. */
  lemma {:induction false} TrimStartDropsWhiteSpace(s: string)
    ensures forall i :: 0 <= i < |s| - |TrimStart(s)| ==> IsWhiteSpace(s[i])
  {
    if s != [] && IsWhiteSpace(s[0]) {
      TrimStartDropsWhiteSpace(s[1..]);
      assert forall i :: 1 <= i < |s| - |TrimStart(s)| ==> s[i] == s[1..][i - 1];
    }
  }

  /** `s` with its trailing white space removed. */
  function TrimEnd(s: string): (r: string)
    ensures |r| <= |s| && r == s[..|r|]
    ensures r == [] || !IsWhiteSpace(r[|r| - 1])
  {
    if s != [] && IsWhiteSpace(s[|s| - 1]) then TrimEnd(s[..|s| - 1]) else s
  }

  /** Everything TrimEnd drops is white space. */
  lemma {:induction false} TrimEndDropsWhiteSpace(s: string)
    ensures forall i :: |TrimEnd(s)| <= i < |s| ==> IsWhiteSpace(s[i])
  {
    if s != [] && IsWhiteSpace(s[|s| - 1]) {
      TrimEndDropsWhiteSpace(s[..|s| - 1]);
    }
  }

  /** `String.prototype.trim`. */
  function Trim(s: string): string {
    TrimEnd(TrimStart(s))
  }

  /** `s.charAt(0)`, with the empty string it returns for an empty `s` written as `None`. */
  function FirstChar(s: string): Option<char> {
    if s == [] then None else Some(s[0])
  }

  /** `trim().charAt(0)` is the first character of `s` that is not white space. */
  lemma TrimmedFirstChar(s: string)
    ensures FirstChar(Trim(s)) == FirstChar(TrimStart(s))
    ensures FirstChar(Trim(s)).Some? ==>
      exists k :: 0 <= k < |s| && s[k] == FirstChar(Trim(s)).value && !IsWhiteSpace(s[k]) &&
        forall i :: 0 <= i < k ==> IsWhiteSpace(s[i])
  {
    var t := TrimStart(s);
    if t != [] {
      TrimEndDropsWhiteSpace(t);
      var r := TrimEnd(t);
      assert r != [] && r[0] == t[0];
      var k := |s| - |t|;
      TrimStartDropsWhiteSpace(s);
      assert s[k] == r[0] && !IsWhiteSpace(s[k]) && forall i :: 0 <= i < k ==> IsWhiteSpace(s[i]);
    }
  }

  /** The character `charAt(0)` reads after `trim` is the first non-white-space one. */
  lemma TrimmedFirstCharAt(s: string, k: nat)
    requires k < |s| && !IsWhiteSpace(s[k]) && forall i :: 0 <= i < k ==> IsWhiteSpace(s[i])
    ensures FirstChar(Trim(s)) == Some(s[k])
  {
    TrimmedFirstChar(s);
    TrimStartDropsWhiteSpace(s);
    assert k >= |s| - |TrimStart(s)|;
    var j :| 0 <= j < |s| && s[j] == FirstChar(Trim(s)).value && !IsWhiteSpace(s[j])
             && forall i :: 0 <= i < j ==> IsWhiteSpace(s[i]);
    assert !(j < k) && !(k < j);
  }

  /** A string of white space only has nothing left after `trim`. */
  lemma TrimmedBlank(s: string)
    requires forall i :: 0 <= i < |s| ==> IsWhiteSpace(s[i])
    ensures FirstChar(Trim(s)) == None
  {
    TrimmedFirstChar(s);
  }

  /** `s.endsWith(suffix)`. */
  predicate EndsWith(s: string, suffix: string) {
    |suffix| <= |s| && s[|s| - |suffix|..] == suffix
  }

  /** Position of the first occurrence of `c` in `s`. */
  function IndexOf(s: string, c: char): (i: nat)
    requires c in s
    ensures i < |s| && s[i] == c && c !in s[..i]
  {
    if s[0] == c then 0 else 1 + IndexOf(s[1..], c)
  }

  /** Puts the pieces back together with `sep` between neighbours: `parts.join(sep)`. */
  function Join(parts: seq<string>, sep: char): string
    requires |parts| >= 1
  {
    if |parts| == 1 then parts[0] else parts[0] + [sep] + Join(parts[1..], sep)
  }

  /** `s.split(sep)`: the pieces between consecutive occurrences of `sep`. Two adjacent
      separators give an empty piece, and a string without `sep` gives itself alone. */
  function Split(s: string, sep: char): (parts: seq<string>)
    ensures |parts| >= 1
    decreases |s|
  {
    if sep !in s then [s]
    else
      var i := IndexOf(s, sep);
      [s[..i]] + Split(s[i + 1..], sep)
  }

  /** Joining pieces that avoid `c` with a separator other than `c` gives a string without `c`. */
  lemma {:induction false} JoinAvoids(parts: seq<string>, sep: char, c: char)
    requires |parts| >= 1 && c != sep
    requires forall i :: 0 <= i < |parts| ==> c !in parts[i]
    ensures c !in Join(parts, sep)
  {
    if |parts| > 1 {
      JoinAvoids(parts[1..], sep, c);
      assert Join(parts, sep) == parts[0] + [sep] + Join(parts[1..], sep);
    }
  }

  /** No piece contains the separator, and joining the pieces gives back the string. */
  lemma {:induction false} SplitPieces(s: string, sep: char)
    ensures forall i :: 0 <= i < |Split(s, sep)| ==> sep !in Split(s, sep)[i]
    ensures Join(Split(s, sep), sep) == s
    decreases |s|
  {
    if sep in s {
      var i := IndexOf(s, sep);
      var a, b := s[..i], s[i + 1..];
      SplitStep(s, sep);
      SplitPieces(b, sep);
      JoinStep(a, Split(b, sep), sep);
      assert s == a + [sep] + b;
    }
  }

  /** One step of `split`: the piece before the first separator, then the rest split. */
  lemma SplitStep(s: string, sep: char)
    requires sep in s
    ensures Split(s, sep) == [s[..IndexOf(s, sep)]] + Split(s[IndexOf(s, sep) + 1..], sep)
  {
  }

  /** One step of `join`: the first piece, the separator, then the rest joined. */
  lemma JoinStep(p: string, rest: seq<string>, sep: char)
    requires |rest| >= 1
    ensures Join([p] + rest, sep) == p + [sep] + Join(rest, sep)
  {
    assert ([p] + rest)[1..] == rest;
  }

  /** Splitting undoes joining pieces that do not contain the separator: together with
      the contract of Split, the two are inverse to each other. */
  lemma {:induction false} SplitJoin(parts: seq<string>, sep: char)
    requires |parts| >= 1
    requires forall i :: 0 <= i < |parts| ==> sep !in parts[i]
    ensures Split(Join(parts, sep), sep) == parts
  {
    if |parts| > 1 {
      var p, rest := parts[0], parts[1..];
      assert parts == [p] + rest;
      JoinStep(p, rest, sep);
      var t := Join(rest, sep);
      var s := p + [sep] + t;
      IndexOfAfter(p, sep, t);
      SplitStep(s, sep);
      assert s[..|p|] == p && s[|p| + 1..] == t;
      SplitJoin(rest, sep);
    }
  }

  /** The first separator after a piece free of it is right after that piece. */
  lemma {:induction false} IndexOfAfter(p: string, sep: char, t: string)
    requires sep !in p
    ensures IndexOf(p + [sep] + t, sep) == |p|
  {
    if p != [] {
      assert (p + [sep] + t)[1..] == p[1..] + [sep] + t;
      IndexOfAfter(p[1..], sep, t);
    }
  }

  /** A separator after a first piece free of it splits that piece off. */
  lemma SplitAt(a: string, sep: char, b: string)
    requires sep !in a
    ensures Split(a + [sep] + b, sep) == [a] + Split(b, sep)
  {
    SplitPieces(b, sep);
    var parts := [a] + Split(b, sep);
    assert parts[1..] == Split(b, sep);
    assert Join(parts, sep) == a + [sep] + b;
    SplitJoin(parts, sep);
  }

  // ---------------------------------------------------------------------------------------
  // parseInt(string) with the radix left undefined

  /** The value of `c` as a digit of a radix up to 36 (`0`-`9`, then `a`-`z` in either case);
      36 when `c` is no digit at all. */
  function DigitValue(c: char): (v: nat)
    ensures v <= 36
    ensures ('0' <= c <= '9') <==> v < 10
  {
    if '0' <= c <= '9' then c as int - '0' as int
    else if 'a' <= c <= 'z' then c as int - 'a' as int + 10
    else if 'A' <= c <= 'Z' then c as int - 'A' as int + 10
    else 36
  }

  predicate IsDigit(c: char, radix: nat) {
    DigitValue(c) < radix
  }

  /** The longest prefix of `s` made of digits of `radix`. */
  function DigitPrefix(s: string, radix: nat): (z: string)
    ensures |z| <= |s| && z == s[..|z|]
    ensures forall i :: 0 <= i < |z| ==> IsDigit(z[i], radix)
    ensures |z| < |s| ==> !IsDigit(s[|z|], radix)
  {
    if s == [] || !IsDigit(s[0], radix) then [] else [s[0]] + DigitPrefix(s[1..], radix)
  }

  /** The number a string of digits denotes in `radix`, most significant digit first. */
  function DigitsValue(z: string, radix: nat): nat {
    if z == [] then 0 else DigitsValue(z[..|z| - 1], radix) * radix + DigitValue(z[|z| - 1])
  }

  /** What `parseInt` reads after the leading white space and one optional sign. */
  function Unsigned(s: string): string {
    var t := TrimStart(s);
    if t != [] && (t[0] == '-' || t[0] == '+') then t[1..] else t
  }

  /** The sign `parseInt` finds after the leading white space is `-`. */
  predicate IsNegative(s: string) {
    TrimStart(s) != [] && TrimStart(s)[0] == '-'
  }

  /** `0x` or `0X`: with the radix left undefined, the digits that follow are hexadecimal. */
  predicate HasHexPrefix(u: string) {
    |u| >= 2 && u[0] == '0' && (u[1] == 'x' || u[1] == 'X')
  }

  function Radix(u: string): nat {
    if HasHexPrefix(u) then 16 else 10
  }

  /** The digits part of `u`, after the `0x` prefix if there is one. */
  function Mantissa(u: string): string {
    if HasHexPrefix(u) then u[2..] else u
  }

  /** `parseInt(s)`: skip white space, take one optional sign, then read the number
      (ParseUnsigned). `None` is NaN. The value is kept exact. */
  function ParseInt(s: string): Option<int> {
    ParseSigned(TrimStart(s))
  }

  /** What `parseInt` returns: NaN exactly when no digit follows the white space, the sign and
      the `0x` prefix; otherwise the value of the longest run of digits, in radix 16 after
      `0x` and 10 otherwise, negated after a `-`. */
  lemma ParseIntMeaning(s: string)
    ensures var u := Unsigned(s);
            var z := DigitPrefix(Mantissa(u), Radix(u));
            && (ParseInt(s).None? <==> z == [])
            && (ParseInt(s).Some? ==>
                  ParseInt(s).value == if IsNegative(s) then -(DigitsValue(z, Radix(u)) as int)
                                       else DigitsValue(z, Radix(u)))
  {
    var t := TrimStart(s);
    var u := Unsigned(s);
    ParseUnsignedMeaning(u);
    if t != [] && t[0] == '-' {
      assert u == t[1..] && IsNegative(s);
      assert ParseSigned(t) == match ParseUnsigned(u) case None => None case Some(n) => Some(-n);
    } else if t != [] && t[0] == '+' {
      assert u == t[1..] && !IsNegative(s);
      assert ParseSigned(t) == ParseUnsigned(u);
    } else {
      assert u == t && !IsNegative(s);
      assert ParseSigned(t) == ParseUnsigned(u);
    }
  }

  /** After the sign, the number is the digit run of the mantissa in the radix the prefix
      selects. */
  lemma ParseUnsignedMeaning(u: string)
    ensures ParseUnsigned(u) == ReadDigits(Mantissa(u), Radix(u))
  {
  }

  /** `parseInt` gives NaN exactly when the first character after the white space, the sign
      and the `0x` prefix is not a digit of the radix (or there is none). */
  lemma ParseIntNaN(s: string)
    ensures var m := Mantissa(Unsigned(s));
            ParseInt(s).None? <==> m == [] || !IsDigit(m[0], Radix(Unsigned(s)))
  {
  }

  /** After `0x` or `0X` the digits are read in radix 16, and the prefix with no hexadecimal
      digit after it is NaN. */
  lemma HexadecimalAfterZeroX(x: char, digits: string)
    requires x == 'x' || x == 'X'
    requires forall i :: 0 <= i < |digits| ==> IsDigit(digits[i], 16)
    ensures ParseInt(['0', x] + digits) == if digits == [] then None else Some(DigitsValue(digits, 16))
  {
    var t := ['0', x] + digits;
    assert TrimStart(t) == t by {
      assert !IsWhiteSpace(t[0]);
    }
    assert ParseSigned(t) == ParseUnsigned(t);
    assert t[2..] == digits;
    assert ParseUnsigned(t) == ReadDigits(digits, 16);
    DigitPrefixOfDigits(digits, 16);
  }

  /** A string made only of digits is its own digit prefix. */
  lemma {:induction false} DigitPrefixOfDigits(s: string, radix: nat)
    requires forall i :: 0 <= i < |s| ==> IsDigit(s[i], radix)
    ensures DigitPrefix(s, radix) == s
  {
    if s != [] {
      DigitPrefixOfDigits(s[1..], radix);
    }
  }

  /** Hexadecimal digits in either case: `0x1F` is 31. */
  lemma HexadecimalValue()
    ensures DigitsValue("1F", 16) == 31
  {
    assert "1F"[..1] == "1" && "1"[..0] == "";
  }

  /** The part of `parseInt` after the white space: an optional `-` or `+`. */
  function ParseSigned(t: string): Option<int> {
    if t != [] && t[0] == '-' then
      match ParseUnsigned(t[1..])
      case None => None
      case Some(n) => Some(-n)
    else if t != [] && t[0] == '+' then ParseUnsigned(t[1..])
    else ParseUnsigned(t)
  }

  /** The part of `parseInt` after the sign: radix 16 after a `0x` or `0X` prefix and radix 10
      otherwise; the value of the longest run of digits that follows, or `None` when that run
      is empty. */
  function ParseUnsigned(u: string): (r: Option<int>)
    ensures r.Some? ==> r.value >= 0
  {
    if |u| >= 2 && u[0] == '0' && (u[1] == 'x' || u[1] == 'X') then ReadDigits(u[2..], 16)
    else ReadDigits(u, 10)
  }

  /** The value of the digits of `radix` that `s` starts with; `None` when there are none. */
  function ReadDigits(s: string, radix: nat): Option<int> {
    var z := DigitPrefix(s, radix);
    if z == [] then None else Some(DigitsValue(z, radix))
  }

  /** White space in front of a number does not change what `parseInt` reads. */
  lemma {:induction false} ParseIntSkipsWhiteSpace(ws: string, s: string)
    requires forall i :: 0 <= i < |ws| ==> IsWhiteSpace(ws[i])
    ensures ParseInt(ws + s) == ParseInt(s)
  {
    TrimStartSkips(ws, s);
  }

  lemma {:induction false} TrimStartSkips(ws: string, s: string)
    requires forall i :: 0 <= i < |ws| ==> IsWhiteSpace(ws[i])
    ensures TrimStart(ws + s) == TrimStart(s)
  {
    var t := ws + s;
    if ws == [] {
      assert t == s;
    } else {
      assert t[0] == ws[0];
      assert TrimStart(t) == TrimStart(t[1..]);
      assert t[1..] == ws[1..] + s;
      TrimStartSkips(ws[1..], s);
    }
  }

  // ---------------------------------------------------------------------------------------
  // Decimal numerals, the inverse direction used to state what parseInt reads

  function Pow10(w: nat): (p: nat)
    ensures p >= 1
  {
    if w == 0 then 1 else 10 * Pow10(w - 1)
  }

  function DecimalDigit(d: nat): (c: char)
    requires d < 10
    ensures DigitValue(c) == d
  {
    ('0' as int + d) as char
  }

  /** The `w` lowest decimal digits of `n`, zero-padded on the left. */
  function Digits(n: nat, w: nat): (s: string)
    ensures |s| == w
  {
    if w == 0 then [] else Digits(n / 10, w - 1) + [DecimalDigit(n % 10)]
  }

  lemma {:induction false} DigitsAreDecimal(n: nat, w: nat)
    ensures forall i :: 0 <= i < w ==> '0' <= Digits(n, w)[i] <= '9'
  {
    if w > 0 {
      DigitsAreDecimal(n / 10, w - 1);
      assert forall i :: 0 <= i < w - 1 ==> Digits(n, w)[i] == Digits(n / 10, w - 1)[i];
    }
  }

  lemma {:induction false} DigitsValueOfDigits(n: nat, w: nat)
    requires n < Pow10(w)
    ensures DigitsValue(Digits(n, w), 10) == n
  {
    if w > 0 {
      var s := Digits(n, w);
      assert s[..|s| - 1] == Digits(n / 10, w - 1);
      DigitsValueOfDigits(n / 10, w - 1);
    }
  }

  /** `parseInt` reads back every zero-padded decimal numeral. */
  lemma ParseIntDigits(n: nat, w: nat)
    requires 1 <= w && n < Pow10(w)
    ensures ParseInt(Digits(n, w)) == Some(n)
  {
    var s := Digits(n, w);
    DigitsAreDecimal(n, w);
    assert !IsWhiteSpace(s[0]);
    assert TrimStart(s) == s;
    ParseUnsignedDigits(n, w);
  }

  lemma ParseUnsignedDigits(n: nat, w: nat)
    requires 1 <= w && n < Pow10(w)
    ensures ParseUnsigned(Digits(n, w)) == Some(n)
  {
    var s := Digits(n, w);
    DigitsAreDecimal(n, w);
    assert DigitPrefix(s, 10) == s;
    DigitsValueOfDigits(n, w);
  }

  /** With a minus sign in front, `parseInt` reads the negated value. */
  lemma ParseIntNegative(n: nat, w: nat)
    requires 1 <= w && n < Pow10(w)
    ensures ParseInt(['-'] + Digits(n, w)) == Some(-(n as int))
  {
    ParseUnsignedDigits(n, w);
    ParseIntMinus(Digits(n, w), n);
  }

  /** A leading minus sign negates what the rest reads as. */
  lemma ParseIntMinus(u: string, v: int)
    requires ParseUnsigned(u) == Some(v)
    ensures ParseInt(['-'] + u) == Some(-v)
  {
    var t := ['-'] + u;
    assert TrimStart(t) == t;
    assert t[1..] == u;
  }

  /** `parseInt` stops at the first character that is no digit: a numeral followed by
      anything else reads as the numeral alone, unless the numeral is `0` and the rest
      starts with `x`, which turns the prefix into a hexadecimal marker. */
  lemma ParseIntStopsAtNonDigit(n: nat, w: nat, rest: string)
    requires 1 <= w && n < Pow10(w)
    requires rest == [] || !('0' <= rest[0] <= '9')
    requires w >= 2 || n != 0 || rest == [] || (rest[0] != 'x' && rest[0] != 'X')
    ensures ParseInt(Digits(n, w) + rest) == Some(n)
  {
    var t := Digits(n, w) + rest;
    DigitsAreDecimal(n, w);
    assert t[0] == Digits(n, w)[0];
    ParseIntOfDigitStart(t);
    ParseUnsignedStopsAtNonDigit(n, w, rest);
  }

  lemma ParseUnsignedStopsAtNonDigit(n: nat, w: nat, rest: string)
    requires 1 <= w && n < Pow10(w)
    requires rest == [] || !('0' <= rest[0] <= '9')
    requires w >= 2 || n != 0 || rest == [] || (rest[0] != 'x' && rest[0] != 'X')
    ensures ParseUnsigned(Digits(n, w) + rest) == Some(n)
  {
    var s := Digits(n, w);
    var t := s + rest;
    DigitsAreDecimal(n, w);
    assert !(|t| >= 2 && t[0] == '0' && (t[1] == 'x' || t[1] == 'X')) by {
      if w >= 2 {
        assert t[1] == s[1];
      } else if n != 0 {
        assert s[0] == DecimalDigit(n);
      } else if rest != [] {
        assert t[1] == rest[0];
      }
    }
    DigitPrefixStops(s, rest);
    ParseUnsignedDecimal(t, s);
    DigitsValueOfDigits(n, w);
  }

  lemma ParseIntOfDigitStart(t: string)
    requires t != [] && '0' <= t[0] <= '9'
    ensures ParseInt(t) == ParseUnsigned(t)
  {
    assert !IsWhiteSpace(t[0]);
    assert TrimStart(t) == t;
  }

  lemma ParseUnsignedDecimal(t: string, z: string)
    requires !(|t| >= 2 && t[0] == '0' && (t[1] == 'x' || t[1] == 'X'))
    requires DigitPrefix(t, 10) == z && z != []
    ensures ParseUnsigned(t) == Some(DigitsValue(z, 10))
  {
  }

  lemma {:induction false} DigitPrefixStops(s: string, rest: string)
    requires forall i :: 0 <= i < |s| ==> '0' <= s[i] <= '9'
    requires rest == [] || !('0' <= rest[0] <= '9')
    ensures DigitPrefix(s + rest, 10) == s
  {
    var t := s + rest;
    if s == [] {
      assert t == rest;
    } else {
      assert t[0] == s[0];
      assert t[1..] == s[1..] + rest;
      DigitPrefixStops(s[1..], rest);
    }
  }
}
