/** The JavaScript string built-ins the browser scripts rely on, as
    functions on sequences of characters: `toLowerCase`, `includes`, `trim`,
    `split` on a one-character separator, and `parseInt` without a radix. */
module JsString {
  import opened Models
  import opened Chars

  /** The ECMAScript WhiteSpace and LineTerminator code points: what `\s`
      matches in a regular expression and what `trim` removes. */
  predicate IsSpace(c: char)
  {
    var n := c as int;
    || n == 0x09 || n == 0x0A || n == 0x0B || n == 0x0C || n == 0x0D
    || n == 0x20 || n == 0xA0 || n == 0x1680
    || (0x2000 <= n <= 0x200A)
    || n == 0x2028 || n == 0x2029 || n == 0x202F || n == 0x205F
    || n == 0x3000 || n == 0xFEFF
  }

  // ---------------------------------------------------------------------------
  // toLowerCase

  /** KELVIN SIGN, the one character outside ASCII whose lower case is an
      ASCII letter on its own. */
  const KelvinSign: char := '\U{212A}'

  predicate IsUpperAscii(c: char)
  {
    'A' <= c <= 'Z'
  }

  /** The lower case of one character: an ASCII capital becomes its own
      small letter, the Kelvin sign becomes 'k', everything else is kept. */
  function LowerChar(c: char): (r: char)
    ensures IsUpperAscii(c) ==> r as int == c as int + 32
    ensures c == KelvinSign ==> r == 'k'
    ensures !IsUpperAscii(r) && r != KelvinSign
    ensures ('a' <= r <= 'z') <==> ('a' <= c <= 'z' || IsUpperAscii(c) || c == KelvinSign)
    ensures !IsUpperAscii(c) && c != KelvinSign ==> r == c
  {
    if IsUpperAscii(c) then (c as int + 32) as char
    else if c == KelvinSign then 'k'
    else c
  }

  function Lower(s: string): (r: string)
    ensures |r| == |s|
    ensures forall k :: 0 <= k < |s| ==> r[k] == LowerChar(s[k])
  {
    if s == [] then [] else [LowerChar(s[0])] + Lower(s[1..])
  }

  /** Lowering an already lowered string changes nothing. */
  lemma LowerIdempotent(s: string)
    ensures Lower(Lower(s)) == Lower(s)
  {
    var once := Lower(s);
    var twice := Lower(once);
    forall k | 0 <= k < |s|
      ensures twice[k] == once[k]
    {
      assert twice[k] == LowerChar(LowerChar(s[k]));
    }
  }

  /** x and y are the same character, or the same ASCII letter in the two cases. */
  predicate CaseVariant(x: char, y: char)
  {
    || x == y
    || (IsUpperAscii(x) && y as int == x as int + 32)
    || (IsUpperAscii(y) && x as int == y as int + 32)
  }

  /** a and b differ at most in the case of their ASCII letters. */
  predicate SameUpToCase(a: string, b: string)
  {
    |a| == |b| && forall k :: 0 <= k < |a| ==> CaseVariant(a[k], b[k])
  }

  /** Strings that differ only in letter case have the same lower case. */
  lemma LowerSameUpToCase(a: string, b: string)
    requires SameUpToCase(a, b)
    ensures Lower(a) == Lower(b)
  {
    forall k | 0 <= k < |a|
      ensures Lower(a)[k] == Lower(b)[k]
    {
      assert Lower(a)[k] == LowerChar(a[k]) && Lower(b)[k] == LowerChar(b[k]);
    }
  }

  /** A string without capitals is its own lower case. */
  lemma LowerFixed(s: string)
    requires forall k :: 0 <= k < |s| ==> !IsUpperAscii(s[k]) && s[k] != KelvinSign
    ensures Lower(s) == s
  {
  }

  // ---------------------------------------------------------------------------
  // includes

  /** sub occurs in s starting at index i. */
  predicate OccursAt(s: string, sub: string, i: int)
  {
    0 <= i <= |s| - |sub| && s[i..i + |sub|] == sub
  }

  /** `s.includes(sub)`: sub occurs in s as a contiguous piece. */
  function Includes(s: string, sub: string): (b: bool)
    ensures b <==> exists i :: OccursAt(s, sub, i)
    decreases |s|
  {
    if |sub| > |s| then false
    else if s[..|sub|] == sub then
      assert OccursAt(s, sub, 0);
      true
    else
      var rest := Includes(s[1..], sub);
      assert forall i :: OccursAt(s[1..], sub, i) ==> OccursAt(s, sub, i + 1) by {
        forall i | OccursAt(s[1..], sub, i)
          ensures OccursAt(s, sub, i + 1)
        {
          assert s[1..][i..i + |sub|] == s[i + 1..i + 1 + |sub|];
        }
      }
      assert !OccursAt(s, sub, 0) by {
        assert s[0..|sub|] == s[..|sub|];
      }
      assert forall j :: OccursAt(s, sub, j) && j >= 1 ==> OccursAt(s[1..], sub, j - 1) by {
        forall j | OccursAt(s, sub, j) && j >= 1
          ensures OccursAt(s[1..], sub, j - 1)
        {
          assert s[1..][j - 1..j - 1 + |sub|] == s[j..j + |sub|];
        }
      }
      rest
  }

  /** A piece that holds a character the string lacks does not occur in it. */
  lemma {:induction false} MissingCharExcludes(s: string, sub: string, c: char)
    requires c in sub && c !in s
    ensures !Includes(s, sub)
  {
  }

  /** A piece written out inside a string occurs in it. */
  lemma {:induction false} IncludesPiece(a: string, sub: string, b: string)
    ensures Includes(a + sub + b, sub)
  {
    var s := a + sub + b;
    assert s[|a|..|a| + |sub|] == sub;
    assert OccursAt(s, sub, |a|);
  }

  // ---------------------------------------------------------------------------
  // trim

  function TrimStart(s: string): (r: string)
    ensures |r| <= |s| && r == s[|s| - |r|..]
    ensures forall k :: 0 <= k < |s| - |r| ==> IsSpace(s[k])
    ensures r == [] || !IsSpace(r[0])
    decreases |s|
  {
    if s != [] && IsSpace(s[0]) then TrimStart(s[1..]) else s
  }

  function TrimEnd(s: string): (r: string)
    ensures |r| <= |s| && r == s[..|r|]
    ensures forall k :: |r| <= k < |s| ==> IsSpace(s[k])
    ensures r == [] || !IsSpace(r[|r| - 1])
    decreases |s|
  {
    if s != [] && IsSpace(s[|s| - 1]) then TrimEnd(s[..|s| - 1]) else s
  }

  /** r is the piece of s starting at index i, and everything of s around it
      is white space. */
  predicate SpaceAround(s: string, r: string, i: int)
  {
    && OccursAt(s, r, i)
    && (forall k :: 0 <= k < i ==> IsSpace(s[k]))
    && (forall k :: i + |r| <= k < |s| ==> IsSpace(s[k]))
  }

  /** `s.trim()`: the piece of s left after removing white space at both
      ends; it neither begins nor ends with white space. */
  function Trim(s: string): (r: string)
    ensures exists i :: SpaceAround(s, r, i)
    ensures r == [] || (!IsSpace(r[0]) && !IsSpace(r[|r| - 1]))
  {
    var t := TrimStart(s);
    var r := TrimEnd(t);
    var i := |s| - |t|;
    assert r == s[i..i + |r|];
    assert forall k :: i + |r| <= k < |s| ==> s[k] == t[k - i];
    assert SpaceAround(s, r, i);
    r
  }

  /** Trimming twice is trimming once. */
  lemma TrimIdempotent(s: string)
    ensures Trim(Trim(s)) == Trim(s)
  {
    var r := Trim(s);
    assert TrimStart(r) == r;
    assert TrimEnd(r) == r;
  }

  // ---------------------------------------------------------------------------
  // split

  /** `parts.join(sep)`. */
  function Join(parts: seq<string>, sep: char): string
    requires |parts| >= 1
  {
    if |parts| == 1 then parts[0] else parts[0] + [sep] + Join(parts[1..], sep)
  }

  /** `s.split(sep)` for a one-character separator: the pieces between the
      separators, in order; an empty string gives one empty piece. */
  function Split(s: string, sep: char): (r: seq<string>)
    ensures |r| >= 1
    ensures forall k :: 0 <= k < |r| ==> sep !in r[k]
    ensures Join(r, sep) == s
    decreases |s|
  {
    if s == [] then [[]]
    else
      var rest := Split(s[1..], sep);
      if s[0] == sep then
        assert ([[]] + rest)[1..] == rest;
        [[]] + rest
      else
        var r := [[s[0]] + rest[0]] + rest[1..];
        assert r[1..] == rest[1..];
        assert |rest| > 1 ==> Join(rest, sep) == rest[0] + [sep] + Join(rest[1..], sep);
        r
  }

  lemma {:induction false} SplitNone(a: string, sep: char)
    requires sep !in a
    ensures Split(a, sep) == [a]
    decreases |a|
  {
    if a != [] {
      SplitNone(a[1..], sep);
      assert [a[0]] + a[1..] == a;
    }
  }

  lemma {:induction false} SplitAfter(a: string, t: string, sep: char)
    requires sep !in a
    ensures Split(a + [sep] + t, sep) == [a] + Split(t, sep)
    decreases |a|
  {
    var s := a + [sep] + t;
    if a == [] {
      assert s[1..] == t;
    } else {
      assert s[1..] == a[1..] + [sep] + t;
      SplitAfter(a[1..], t, sep);
      assert [a[0]] + a[1..] == a;
    }
  }

  /** Joining separator-free pieces and splitting again gives the pieces back. */
  lemma {:induction false} SplitJoin(parts: seq<string>, sep: char)
    requires |parts| >= 1
    requires forall k :: 0 <= k < |parts| ==> sep !in parts[k]
    ensures Split(Join(parts, sep), sep) == parts
    decreases |parts|
  {
    if |parts| == 1 {
      SplitNone(parts[0], sep);
    } else {
      SplitAfter(parts[0], Join(parts[1..], sep), sep);
      SplitJoin(parts[1..], sep);
      assert [parts[0]] + parts[1..] == parts;
    }
  }

  // ---------------------------------------------------------------------------
  // parseInt

  /** The value of c as a digit in base 10 or 16 (either case), if it is one. */
  function RadixDigit(c: char, radix: nat): (r: Option<nat>)
    requires radix == 10 || radix == 16
    ensures r.Some? ==> r.value < radix
    ensures radix == 10 ==> (r.Some? <==> IsDigit(c))
  {
    if IsDigit(c) then Some(DigitValue(c) as nat)
    else if radix == 16 && 'a' <= c <= 'f' then Some(c as int - 87)
    else if radix == 16 && 'A' <= c <= 'F' then Some(c as int - 55)
    else None
  }

  /** The longest prefix of s made of digits of the radix. */
  function LeadingDigits(s: string, radix: nat): (r: string)
    requires radix == 10 || radix == 16
    ensures r <= s
    ensures forall k :: 0 <= k < |r| ==> RadixDigit(r[k], radix).Some?
    ensures |r| < |s| ==> RadixDigit(s[|r|], radix).None?
    decreases |s|
  {
    if s != [] && RadixDigit(s[0], radix).Some? then [s[0]] + LeadingDigits(s[1..], radix) else []
  }

  /** The number a string of digits denotes in the radix. */
  function DigitsValue(ds: string, radix: nat): nat
    requires radix == 10 || radix == 16
    requires forall k :: 0 <= k < |ds| ==> RadixDigit(ds[k], radix).Some?
    decreases |ds|
  {
    if ds == [] then 0
    else DigitsValue(ds[..|ds| - 1], radix) * radix + RadixDigit(ds[|ds| - 1], radix).value
  }

  /** `parseInt(s)`: skip leading white space, read an optional sign, read
      "0x"/"0X" as a hexadecimal prefix, then take the longest run of digits
      and ignore the rest; no digits at all gives NaN, here None. A number
      always has a decimal digit somewhere in s (hexadecimal ones start with 0). */
  function ParseInt(s: string): (r: Option<int>)
    ensures r.Some? ==> exists k :: 0 <= k < |s| && IsDigit(s[k])
  {
    var t := TrimStart(s);
    var r := ParseSigned(t);
    assert r.Some? ==> exists k :: 0 <= k < |t| && IsDigit(t[k]);
    assert forall k :: 0 <= k < |t| ==> t[k] == s[|s| - |t| + k];
    r
  }

  /** An optional sign, then an unsigned number. */
  function ParseSigned(t: string): (r: Option<int>)
    ensures r.Some? ==> exists k :: 0 <= k < |t| && IsDigit(t[k])
  {
    if t != [] && (t[0] == '-' || t[0] == '+') then
      match ParseUnsigned(t[1..])
      case None => None
      case Some(n) =>
        assert exists k :: 0 <= k < |t[1..]| && IsDigit(t[1..][k]);
        var v: int := if t[0] == '-' then -(n as int) else n;
        Some(v)
    else
      match ParseUnsigned(t)
      case None => None
      case Some(n) => Some(n)
  }

  /** A "0x"/"0X" prefix and hexadecimal digits, or decimal digits. */
  function ParseUnsigned(u: string): (r: Option<nat>)
    ensures r.Some? ==> exists k :: 0 <= k < |u| && IsDigit(u[k])
  {
    var hex := |u| >= 2 && u[0] == '0' && (u[1] == 'x' || u[1] == 'X');
    var radix := if hex then 16 else 10;
    var ds := LeadingDigits(if hex then u[2..] else u, radix);
    if ds == [] then None
    else
      assert IsDigit(u[0]);
      Some(DigitsValue(ds, radix))
  }

  /** The decimal rendering of a natural number. */
  function NatText(n: nat): (r: string)
    ensures |r| >= 1
    ensures forall k :: 0 <= k < |r| ==> IsDigit(r[k])
  {
    if n < 10 then [Digit(n)] else NatText(n / 10) + [Digit(n % 10)]
  }

  /** The decimal rendering of an integer, with a minus sign when negative. */
  function IntText(n: int): string
  {
    if n < 0 then ['-'] + NatText(-n) else NatText(n)
  }

  lemma {:induction false} NatTextValue(n: nat)
    ensures DigitsValue(NatText(n), 10) == n
  {
    var r := NatText(n);
    if n >= 10 {
      NatTextValue(n / 10);
      assert r[..|r| - 1] == NatText(n / 10);
    }
  }

  /** A run of digits followed by text that cannot continue it is the
      leading run. */
  lemma {:induction false} LeadingDigitsStop(ds: string, rest: string, radix: nat)
    requires radix == 10 || radix == 16
    requires forall k :: 0 <= k < |ds| ==> RadixDigit(ds[k], radix).Some?
    requires rest == [] || RadixDigit(rest[0], radix).None?
    ensures LeadingDigits(ds + rest, radix) == ds
    decreases |ds|
  {
    if ds == [] {
      assert ds + rest == rest;
    } else {
      assert (ds + rest)[1..] == ds[1..] + rest;
      LeadingDigitsStop(ds[1..], rest, radix);
      assert [ds[0]] + ds[1..] == ds;
    }
  }

  /** rest ends the decimal text of n: it is empty, or starts with a
      character that is not a digit and, after a lone "0", not the "x" or
      "X" of a hexadecimal prefix. */
  predicate EndsNumber(n: nat, rest: string)
  {
    rest == [] || (!IsDigit(rest[0]) && (n != 0 || (rest[0] != 'x' && rest[0] != 'X')))
  }

  /** Reading back the decimal rendering of any integer gives the integer. */
  lemma ParseIntText(n: int)
    ensures ParseInt(IntText(n)) == Some(n)
  {
    ParseIntPrefix(n, []);
    assert IntText(n) + [] == IntText(n);
  }

  /** The decimal rendering of n followed by text that ends the number
      reads as n: whatever follows the digits is ignored. */
  lemma ParseIntPrefix(n: int, rest: string)
    requires EndsNumber(if n < 0 then -n else n, rest)
    ensures ParseInt(IntText(n) + rest) == Some(n)
  {
    if n < 0 {
      var m: nat := -n;
      var t := NatText(m) + rest;
      var s := ['-'] + t;
      assert IntText(n) + rest == s;
      assert s[1..] == t;
      ParseUnsignedPrefix(m, rest);
      NegativeSign(s, m);
      NoLeadingSpace(s);
    } else {
      var s := NatText(n) + rest;
      assert IntText(n) + rest == s;
      ParseUnsignedPrefix(n, rest);
      Unsigned(s);
      NoLeadingSpace(s);
    }
  }

  /** A "+" sign in front of the decimal rendering of m changes nothing. */
  lemma ParseIntPlus(m: nat, rest: string)
    requires EndsNumber(m, rest)
    ensures ParseInt(['+'] + NatText(m) + rest) == Some(m)
  {
    var t := NatText(m) + rest;
    var s := ['+'] + t;
    assert ['+'] + NatText(m) + rest == s;
    ParseUnsignedPrefix(m, rest);
    PositiveSign(s, t, m);
  }

  /** Text that does not start with white space is read as it stands. */
  lemma NoLeadingSpace(s: string)
    requires s != [] && !IsSpace(s[0])
    ensures ParseInt(s) == ParseSigned(s)
  {
  }

  lemma Unsigned(s: string)
    requires s != [] && s[0] != '-' && s[0] != '+'
    ensures ParseUnsigned(s).None? ==> ParseSigned(s) == None
    ensures ParseUnsigned(s).Some? ==> ParseSigned(s) == Some(ParseUnsigned(s).value)
  {
  }

  lemma NegativeSign(s: string, m: nat)
    requires s != [] && s[0] == '-' && ParseUnsigned(s[1..]) == Some(m)
    ensures ParseSigned(s) == Some(-(m as int))
  {
  }

  lemma PositiveSign(s: string, t: string, m: nat)
    requires s == ['+'] + t && ParseUnsigned(t) == Some(m)
    ensures ParseInt(s) == Some(m)
  {
    assert s[1..] == t;
    NoLeadingSpace(s);
  }

  lemma ParseUnsignedPrefix(m: nat, rest: string)
    requires EndsNumber(m, rest)
    ensures ParseUnsigned(NatText(m) + rest) == Some(m)
  {
    var digits := NatText(m);
    var u := digits + rest;
    assert u[..|digits|] == digits;
    assert !(|u| >= 2 && u[0] == '0' && (u[1] == 'x' || u[1] == 'X')) by {
      if |digits| >= 2 {
        assert u[1] == digits[1];
      } else {
        assert digits == [Digit(m)];
        assert DigitValue(u[0]) == m;
      }
    }
    LeadingDigitsStop(digits, rest, 10);
    NatTextValue(m);
  }

  /** A "0x" or "0X" prefix reads the hexadecimal digits after it, up to the
      first character that is not one. */
  lemma ParseIntHex(x: char, ds: string, rest: string)
    requires x == 'x' || x == 'X'
    requires ds != [] && forall k :: 0 <= k < |ds| ==> RadixDigit(ds[k], 16).Some?
    requires rest == [] || RadixDigit(rest[0], 16).None?
    ensures ParseInt(['0', x] + ds + rest) == Some(DigitsValue(ds, 16))
  {
    var s := ['0', x] + (ds + rest);
    assert ['0', x] + ds + rest == s;
    assert s[2..] == ds + rest;
    HexDigits(s, ds, rest);
  }

  lemma HexDigits(u: string, ds: string, rest: string)
    requires |u| >= 2 && u[0] == '0' && (u[1] == 'x' || u[1] == 'X') && u[2..] == ds + rest
    requires ds != [] && forall k :: 0 <= k < |ds| ==> RadixDigit(ds[k], 16).Some?
    requires rest == [] || RadixDigit(rest[0], 16).None?
    ensures ParseInt(u) == Some(DigitsValue(ds, 16))
  {
    LeadingDigitsStop(ds, rest, 16);
    assert ParseUnsigned(u) == Some(DigitsValue(ds, 16));
    Unsigned(u);
    NoLeadingSpace(u);
  }

  /** A hexadecimal prefix without a hexadecimal digit after it is NaN. */
  lemma ParseIntHexEmpty(x: char, rest: string)
    requires x == 'x' || x == 'X'
    requires rest == [] || RadixDigit(rest[0], 16).None?
    ensures ParseInt(['0', x] + rest) == None
  {
    var s := ['0', x] + rest;
    assert s[2..] == rest;
    Unsigned(s);
    NoLeadingSpace(s);
  }

  /** White space in front of a number is skipped. */
  lemma ParseIntSkipsSpace(ws: string, s: string)
    requires forall k :: 0 <= k < |ws| ==> IsSpace(ws[k])
    ensures ParseInt(ws + s) == ParseInt(s)
  {
    TrimStartSkips(ws, s);
  }

  lemma {:induction false} TrimStartSkips(ws: string, s: string)
    requires forall k :: 0 <= k < |ws| ==> IsSpace(ws[k])
    ensures TrimStart(ws + s) == TrimStart(s)
    decreases |ws|
  {
    if ws == [] {
      assert ws + s == s;
    } else {
      var all := ws + s;
      assert all[1..] == ws[1..] + s;
      assert all[0] == ws[0];
      TrimStartSkips(ws[1..], s);
    }
  }
}
