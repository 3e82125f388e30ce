/**
  The JavaScript string built-ins the catalog relies on: `toLowerCase`,
  `includes`, `replace` with a one-character pattern, `parseInt` without a
  radix, and `String(n)` for an integer `n`.
*/
module JsText {
  import opened Basics

  // ---------------------------------------------------------------- case

  /** `toLowerCase` on one character; only ASCII letters have a lower-case form here. */
  function LowerChar(c: char): char {
    if 'A' <= c <= 'Z' then (c as int + 32) as char else c
  }

  /** `String.prototype.toLowerCase`. */
  function Lower(s: string): (r: string)
    ensures |r| == |s|
    ensures forall i :: 0 <= i < |r| ==> !('A' <= r[i] <= 'Z')
    ensures forall i :: 0 <= i < |r| ==> r[i] == LowerChar(s[i])
    decreases |s|
  {
    if s == [] then [] else [LowerChar(s[0])] + Lower(s[1..])
  }

  /** Lower-casing twice changes nothing more than lower-casing once. */
  lemma LowerIdempotent(s: string)
    ensures Lower(Lower(s)) == Lower(s)
  {
    assert forall i :: 0 <= i < |s| ==> Lower(Lower(s))[i] == Lower(s)[i];
  }

  // ---------------------------------------------------------------- search

  /** `needle` occurs in `hay` starting at position `i`. */
  predicate OccursAt(hay: string, needle: string, i: int) {
    0 <= i && i + |needle| <= |hay| && hay[i..i + |needle|] == needle
  }

  /** `String.prototype.includes`: scan the start positions from left to right. */
  function Includes(hay: string, needle: string): bool
    decreases |hay|
  {
    if |needle| <= |hay| && hay[..|needle|] == needle then true
    else if hay == [] then false
    else Includes(hay[1..], needle)
  }

  /** The scan finds an occurrence exactly when one exists. */
  lemma {:induction false} IncludesIffOccurs(hay: string, needle: string)
    ensures Includes(hay, needle) <==> exists i :: OccursAt(hay, needle, i)
    decreases |hay|
  {
    if |needle| <= |hay| && hay[..|needle|] == needle {
      assert OccursAt(hay, needle, 0);
    } else if hay == [] {
    } else {
      IncludesIffOccurs(hay[1..], needle);
      if Includes(hay[1..], needle) {
        var i :| OccursAt(hay[1..], needle, i);
        assert hay[i + 1..i + 1 + |needle|] == hay[1..][i..i + |needle|];
        assert OccursAt(hay, needle, i + 1);
      } else {
        forall i | OccursAt(hay, needle, i) && i != 0 ensures false {
          assert hay[1..][i - 1..i - 1 + |needle|] == hay[i..i + |needle|];
          assert OccursAt(hay[1..], needle, i - 1);
        }
      }
    }
  }

  // ---------------------------------------------------------------- replace

  /** `s.replace(from, to)` with one-character strings: only the first occurrence is replaced. */
  function ReplaceFirst(s: string, from: char, to: char): (r: string)
    ensures |r| == |s|
    ensures from !in s ==> r == s
    decreases |s|
  {
    if s == [] then []
    else if s[0] == from then [to] + s[1..]
    else [s[0]] + ReplaceFirst(s[1..], from, to)
  }

  /** When `from` first occurs at `i`, exactly that position becomes `to`. */
  lemma {:induction false} ReplaceFirstAt(s: string, from: char, to: char, i: nat)
    requires i < |s| && s[i] == from && from !in s[..i]
    ensures ReplaceFirst(s, from, to) == s[..i] + [to] + s[i + 1..]
    decreases i
  {
    if i > 0 {
      assert s[0] in s[..i];
      assert s[1..][..i - 1] == s[1..i];
      ReplaceFirstAt(s[1..], from, to, i - 1);
      assert s[..i] == [s[0]] + s[1..][..i - 1];
      assert s[i + 1..] == s[1..][i - 1 + 1..];
    }
  }

  // ---------------------------------------------------------------- parseInt

  /** The white space and line terminators `parseInt` skips before the number. */
  predicate IsJsSpace(c: char) {
    || c in {'\t', '\n', '\U{000B}', '\U{000C}', '\r', ' ', '\U{00A0}', '\U{1680}'}
    || ('\U{2000}' <= c <= '\U{200A}')
    || c in {'\U{2028}', '\U{2029}', '\U{202F}', '\U{205F}', '\U{3000}', '\U{FEFF}'}
  }

  /** Drop the leading white space. */
  function TrimStart(s: string): (r: string)
    ensures r == [] || !IsJsSpace(r[0])
    ensures |r| <= |s| && r == s[|s| - |r|..]
    decreases |s|
  {
    if s != [] && IsJsSpace(s[0]) then TrimStart(s[1..]) else s
  }

  /** The value of a digit character in bases up to 16, or 16 when it is not a digit at all. */
  function DigitValue(c: char): nat {
    if '0' <= c <= '9' then c as int - '0' as int
    else if 'a' <= c <= 'f' then c as int - 'a' as int + 10
    else if 'A' <= c <= 'F' then c as int - 'A' as int + 10
    else 16
  }

  predicate IsDigitIn(c: char, radix: nat) {
    DigitValue(c) < radix
  }

  /** Length of the longest prefix of `s` made of digits of the given radix. */
  function DigitRun(s: string, radix: nat): (k: nat)
    ensures k <= |s|
    ensures forall i :: 0 <= i < k ==> IsDigitIn(s[i], radix)
    ensures k < |s| ==> !IsDigitIn(s[k], radix)
    decreases |s|
  {
    if s != [] && IsDigitIn(s[0], radix) then 1 + DigitRun(s[1..], radix) else 0
  }

  /** The number a digit string denotes, most significant digit first. */
  function DigitsValue(digits: string, radix: nat): nat
    decreases |digits|
  {
    if digits == [] then 0
    else DigitsValue(digits[..|digits| - 1], radix) * radix + DigitValue(digits[|digits| - 1])
  }

  /**
    The unsigned part of `parseInt`: a `0x`/`0X` prefix selects base 16, otherwise
    base 10, and the longest run of digits is read; `None` when there is no digit.
  */
  function ParseMagnitude(u: string): (r: Option<nat>)
    ensures r.Some? ==> exists k :: 0 <= k < |u| && IsDigitIn(u[k], 16)
  {
    var hex := |u| >= 2 && u[0] == '0' && (u[1] == 'x' || u[1] == 'X');
    var radix := if hex then 16 else 10;
    var v := if hex then u[2..] else u;
    var k := DigitRun(v, radix);
    if k == 0 then None
    else
      assert IsDigitIn(v[0], 16);
      assert hex ==> u[2] == v[0];
      Some(DigitsValue(v[..k], radix))
  }

  /** After the white space: an optional sign, then the magnitude. */
  function ParseSigned(t: string): Option<int> {
    if t != [] && t[0] == '-' then
      match ParseMagnitude(t[1..])
      case None => None
      case Some(m) => Some(-(m as int))
    else if t != [] && t[0] == '+' then
      match ParseMagnitude(t[1..])
      case None => None
      case Some(m) => Some(m)
    else
      match ParseMagnitude(t)
      case None => None
      case Some(m) => Some(m)
  }

  /**
    `parseInt(s)` with no radix: skip white space, read an optional sign and the
    magnitude; `None` stands for `NaN`. `-0` is 0.
  */
  function ParseInt(s: string): (r: Option<int>)
    ensures r.Some? ==> exists i :: 0 <= i < |s| && IsDigitIn(s[i], 16)
  {
    var t := TrimStart(s);
    var r := ParseSigned(t);
    assert r.Some? ==> exists i :: 0 <= i < |t| && IsDigitIn(t[i], 16) by {
      if r.Some? {
        var u := if t != [] && (t[0] == '-' || t[0] == '+') then t[1..] else t;
        var k :| 0 <= k < |u| && IsDigitIn(u[k], 16);
        if u != t {
          assert t[k + 1] == u[k];
        } else {
          assert t[k] == u[k];
        }
      }
    }
    assert forall i :: 0 <= i < |t| ==> t[i] == s[|s| - |t| + i];
    r
  }

  // ---------------------------------------------------------------- String(n)

  function DigitChar(d: nat): (c: char)
    requires d < 10
    ensures '0' <= c <= '9' && DigitValue(c) == d
  {
    ('0' as int + d) as char
  }

  /** The decimal digits of `n`, without leading zeros. */
  function NatDigits(n: nat): (s: string)
    ensures |s| >= 1
    ensures forall i :: 0 <= i < |s| ==> '0' <= s[i] <= '9'
    ensures s[0] == '0' ==> n == 0 && |s| == 1
    decreases n
  {
    if n < 10 then [DigitChar(n)] else NatDigits(n / 10) + [DigitChar(n % 10)]
  }

  /** `String(n)` for an integer `n` below 10^21 in magnitude. */
  function DecimalString(n: int): (s: string)
    ensures s != [] && (s[0] == '-' <==> n < 0)
    ensures forall i :: (if n < 0 then 1 else 0) <= i < |s| ==> '0' <= s[i] <= '9'
    ensures |s| > (if n < 0 then 2 else 1) ==> s[if n < 0 then 1 else 0] != '0'
  {
    if n < 0 then "-" + NatDigits(-n) else NatDigits(n)
  }

  lemma {:induction false} NatDigitsValue(n: nat)
    ensures DigitsValue(NatDigits(n), 10) == n
    decreases n
  {
    var s := NatDigits(n);
    if n >= 10 {
      NatDigitsValue(n / 10);
      assert s[..|s| - 1] == NatDigits(n / 10);
    }
  }

  /** Leading white space is skipped up to the first other character. */
  lemma {:induction false} TrimStartSkips(ws: string, rest: string)
    requires forall i :: 0 <= i < |ws| ==> IsJsSpace(ws[i])
    requires rest == [] || !IsJsSpace(rest[0])
    ensures TrimStart(ws + rest) == rest
    decreases |ws|
  {
    if ws == [] {
      assert ws + rest == rest;
    } else {
      assert (ws + rest)[1..] == ws[1..] + rest;
      TrimStartSkips(ws[1..], rest);
    }
  }

  /** The run of decimal digits in digits followed by a non-digit ends where the digits do. */
  lemma {:induction false} DigitRunStops(d: string, tail: string)
    requires forall i :: 0 <= i < |d| ==> '0' <= d[i] <= '9'
    requires tail == [] || !('0' <= tail[0] <= '9')
    ensures DigitRun(d + tail, 10) == |d|
    decreases |d|
  {
    if d == [] {
      assert d + tail == tail;
    } else {
      assert (d + tail)[1..] == d[1..] + tail;
      DigitRunStops(d[1..], tail);
    }
  }

  /** The digits of `m`, followed by anything that neither extends them nor makes `0x`, read as `m`. */
  lemma ParseMagnitudeOfDigits(m: nat, tail: string)
    requires tail == [] || !('0' <= tail[0] <= '9' || tail[0] == 'x' || tail[0] == 'X')
    ensures ParseMagnitude(NatDigits(m) + tail) == Some(m)
  {
    var d := NatDigits(m);
    var u := d + tail;
    NatDigitsValue(m);
    DigitRunStops(d, tail);
    assert u[..|d|] == d;
    if |u| >= 2 && u[0] == '0' {
      assert u[1] == tail[0];
    }
  }

  /** An optional sign in front of a magnitude that starts with a digit. */
  lemma ParseSignedOf(sign: string, u: string, v: nat)
    requires sign == "" || sign == "-" || sign == "+"
    requires u != [] && '0' <= u[0] <= '9' && ParseMagnitude(u) == Some(v)
    ensures ParseSigned(sign + u) == Some(if sign == "-" then -(v as int) else v)
  {
    if sign == "" {
      assert sign + u == u;
    } else {
      assert (sign + u)[1..] == u;
    }
  }

  /** White space, an optional sign, then a magnitude that starts with a digit. */
  lemma ParseIntOf(ws: string, sign: string, u: string, v: nat)
    requires forall i :: 0 <= i < |ws| ==> IsJsSpace(ws[i])
    requires sign == "" || sign == "-" || sign == "+"
    requires u != [] && '0' <= u[0] <= '9' && ParseMagnitude(u) == Some(v)
    ensures ParseInt(ws + sign + u) == Some(if sign == "-" then -(v as int) else v)
  {
    var t := sign + u;
    assert ws + sign + u == ws + t;
    assert t[0] == if sign == "" then u[0] else sign[0];
    TrimStartSkips(ws, t);
    ParseSignedOf(sign, u, v);
  }

  /**
    `parseInt` skips leading white space, reads an optional sign and the longest
    run of decimal digits, and ignores whatever follows: `parseInt(" 7-iphone")`
    is 7 and `parseInt("-12px")` is -12.
  */
  lemma ParseIntReadsNumber(ws: string, sign: string, m: nat, tail: string)
    requires forall i :: 0 <= i < |ws| ==> IsJsSpace(ws[i])
    requires sign == "" || sign == "-" || sign == "+"
    requires tail == [] || !('0' <= tail[0] <= '9' || tail[0] == 'x' || tail[0] == 'X')
    ensures ParseInt(ws + sign + NatDigits(m) + tail) == Some(if sign == "-" then -(m as int) else m)
  {
    var d := NatDigits(m);
    assert (d + tail)[0] == d[0];
    ParseMagnitudeOfDigits(m, tail);
    ParseIntOf(ws, sign, d + tail, m);
    assert ws + sign + d + tail == ws + sign + (d + tail);
  }

  /** No decimal digit after an optional sign: the sign-and-magnitude reading fails. */
  lemma ParseSignedNoDigit(sign: string, rest: string)
    requires sign == "" || sign == "-" || sign == "+"
    requires rest == [] || !('0' <= rest[0] <= '9')
    requires sign == "" && rest != [] ==> rest[0] != '-' && rest[0] != '+'
    ensures ParseSigned(sign + rest) == None
  {
    if sign == "" {
      assert sign + rest == rest;
    } else {
      assert (sign + rest)[1..] == rest;
    }
  }

  /**
    When no decimal digit follows the white space and the optional sign,
    `parseInt` is NaN: `parseInt("abc")` and `parseInt("-")` give `None`.
  */
  lemma ParseIntNoDigit(ws: string, sign: string, rest: string)
    requires forall i :: 0 <= i < |ws| ==> IsJsSpace(ws[i])
    requires sign == "" || sign == "-" || sign == "+"
    requires rest == [] || !('0' <= rest[0] <= '9')
    requires sign == "" && rest != [] ==> !(IsJsSpace(rest[0]) || rest[0] == '-' || rest[0] == '+')
    ensures ParseInt(ws + sign + rest) == None
  {
    var t := sign + rest;
    assert ws + sign + rest == ws + t;
    assert t != [] ==> t[0] == if sign == "" then rest[0] else sign[0];
    TrimStartSkips(ws, t);
    ParseSignedNoDigit(sign, rest);
  }

  /** `parseInt(String(n)) === n`: a numeric id survives being written into a URL and read back. */
  lemma ParseDecimalString(n: int)
    ensures ParseInt(DecimalString(n)) == Some(n)
  {
    var s := DecimalString(n);
    var m: nat := if n < 0 then -n else n;
    ParseMagnitudeOfDigits(m, []);
    assert NatDigits(m) + [] == NatDigits(m);
    assert !IsJsSpace(s[0]);
    assert TrimStart(s) == s;
    if n < 0 {
      assert s[1..] == NatDigits(m);
    }
  }
}
