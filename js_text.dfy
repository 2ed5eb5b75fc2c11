/**
 * The JavaScript text built-ins the core relies on: `parseInt(s, 10)`,
 * `String(n)` for an integer `n`, and `s.split(sep)` (with the `join` that
 * undoes it).
 */
module JsText {
  import opened Wrappers

  predicate IsDigit(c: char) {
    '0' <= c <= '9'
  }

  predicate AllDigits(s: string) {
    forall i | 0 <= i < |s| :: IsDigit(s[i])
  }

  function DigitValue(c: char): nat
    requires IsDigit(c)
  {
    c as int - '0' as int
  }

  function DigitChar(d: nat): (c: char)
    requires d < 10
    ensures IsDigit(c) && DigitValue(c) == d
  {
    ('0' as int + d) as char
  }

  /** The white space and line terminators `parseInt` skips before the number. */
  predicate IsJsSpace(c: char) {
    var k := c as int;
    k == 0x09 || k == 0x0A || k == 0x0B || k == 0x0C || k == 0x0D || k == 0x20 ||
    k == 0xA0 || k == 0x1680 || (0x2000 <= k <= 0x200A) || k == 0x2028 || k == 0x2029 ||
    k == 0x202F || k == 0x205F || k == 0x3000 || k == 0xFEFF
  }

  /** The number a string of decimal digits denotes. */
  function DigitsValue(ds: string): nat
    requires AllDigits(ds)
  {
    if ds == [] then 0 else 10 * DigitsValue(ds[..|ds| - 1]) + DigitValue(ds[|ds| - 1])
  }

  /**
   * `String(n)` for a non-negative integer below 10^21: its decimal digits,
   * without leading zeros.
   */
  function ShowNat(n: nat): (s: string)
    ensures s != [] && AllDigits(s)
    ensures DigitsValue(s) == n
    ensures s[0] == '0' ==> s == "0"
  {
    if n < 10 then [DigitChar(n)]
    else
      var prefix := ShowNat(n / 10);
      var s := prefix + [DigitChar(n % 10)];
      assert s[..|s| - 1] == prefix;
      s
  }

  /**
   * `String(n)` for an integer below 10^21 in magnitude (from there on
   * JavaScript writes an exponent): a minus sign before the digits of a
   * negative one.
   */
  function ShowInt(n: int): string {
    if n < 0 then "-" + ShowNat(-n) else ShowNat(n)
  }

  /** The string after the white space `parseInt` skips. */
  function TrimStart(s: string): (r: string)
    ensures |r| <= |s| && r == s[|s| - |r|..]
    ensures forall i | 0 <= i < |s| - |r| :: IsJsSpace(s[i])
    ensures r == [] || !IsJsSpace(r[0])
  {
    if s != [] && IsJsSpace(s[0]) then TrimStart(s[1..]) else s
  }

  /** The longest prefix of `s` made of decimal digits. */
  function DigitPrefix(s: string): (r: string)
    ensures |r| <= |s| && r == s[..|r|]
    ensures AllDigits(r)
    ensures |r| == |s| || !IsDigit(s[|r|])
  {
    if s != [] && IsDigit(s[0]) then [s[0]] + DigitPrefix(s[1..]) else []
  }

  /**
   * `parseInt(s, 10)`, with None for NaN: skip leading white space, then read
   * the rest with `ParseSigned`.
   */
  function ParseInt(s: string): (r: Option<int>)
    ensures r.Some? ==> exists i | 0 <= i < |s| :: IsDigit(s[i])
    ensures r.Some? && r.value < 0 ==> exists i | 0 <= i < |s| :: s[i] == '-'
  {
    var t := TrimStart(s);
    var k := |s| - |t|;
    assert forall i | 0 <= i < |t| :: t[i] == s[k + i];
    ParseSigned(t)
  }

  /** One optional sign, then as many decimal digits as follow; no digit gives NaN. */
  function ParseSigned(t: string): (r: Option<int>)
    ensures r.Some? ==> exists i | 0 <= i < |t| :: IsDigit(t[i])
    ensures r.Some? && r.value < 0 ==> t != [] && t[0] == '-'
  {
    var negative := t != [] && t[0] == '-';
    var unsigned := if t != [] && (t[0] == '-' || t[0] == '+') then t[1..] else t;
    var ds := DigitPrefix(unsigned);
    var magnitude: int := DigitsValue(ds);
    if ds == [] then None
    else if negative then Some(-magnitude)
    else Some(magnitude)
  }

  lemma {:induction false} DigitPrefixOf(ds: string, rest: string)
    requires AllDigits(ds)
    requires rest == [] || !IsDigit(rest[0])
    ensures DigitPrefix(ds + rest) == ds
  {
    if ds != [] {
      assert (ds + rest)[1..] == ds[1..] + rest;
      DigitPrefixOf(ds[1..], rest);
    }
  }

  lemma NotSpace(c: char)
    requires IsDigit(c) || c == '-'
    ensures !IsJsSpace(c)
  {
  }

  /**
   * `parseInt` reads back what `String` wrote for any integer, whatever
   * non-digit text follows (a fraction, an exponent, a unit).
   */
  lemma ParseIntShowInt(n: int, rest: string)
    requires rest == [] || !IsDigit(rest[0])
    ensures ParseInt(ShowInt(n) + rest) == Some(n)
  {
    var s := ShowInt(n) + rest;
    NotSpace(s[0]);
    assert TrimStart(s) == s;
    ParseSignedShowInt(n, rest);
  }

  lemma ParseSignedShowInt(n: int, rest: string)
    requires rest == [] || !IsDigit(rest[0])
    ensures ParseSigned(ShowInt(n) + rest) == Some(n)
  {
    var s := ShowInt(n) + rest;
    if n < 0 {
      var digits := ShowNat(-n);
      assert s == ['-'] + (digits + rest);
      assert s[1..] == digits + rest;
      DigitPrefixOf(digits, rest);
    } else {
      var digits := ShowNat(n);
      assert s == digits + rest;
      DigitPrefixOf(digits, rest);
    }
  }

  lemma {:induction false} TrimStartSkips(ws: string, s: string)
    requires forall i | 0 <= i < |ws| :: IsJsSpace(ws[i])
    ensures TrimStart(ws + s) == TrimStart(s)
  {
    if ws != [] {
      assert (ws + s)[0] == ws[0] && IsJsSpace(ws[0]);
      assert (ws + s)[1..] == ws[1..] + s;
      TrimStartSkips(ws[1..], s);
    } else {
      assert ws + s == s;
    }
  }

  /** Leading white space does not change what `parseInt` reads. */
  lemma ParseIntSkipsSpace(ws: string, s: string)
    requires forall i | 0 <= i < |ws| :: IsJsSpace(ws[i])
    ensures ParseInt(ws + s) == ParseInt(s)
  {
    TrimStartSkips(ws, s);
  }

  /** A string with no decimal digit in it is NaN to `parseInt`. */
  lemma ParseIntNoDigit(s: string)
    requires forall i | 0 <= i < |s| :: !IsDigit(s[i])
    ensures ParseInt(s) == None
  {
    var t := TrimStart(s);
    assert forall i | 0 <= i < |t| :: t[i] == s[|s| - |t| + i];
  }

  /**
   * `s.split(sep)` for a non-empty separator, with `piece` the text already
   * read since the last separator: the pieces between the leftmost
   * non-overlapping occurrences of `sep`.
   */
  function SplitFrom(s: string, sep: string, piece: string): (r: seq<string>)
    requires sep != []
    ensures |r| >= 1
    decreases |s|
  {
    if s == [] then [piece]
    else if |sep| <= |s| && s[..|sep|] == sep then [piece] + SplitFrom(s[|sep|..], sep, "")
    else SplitFrom(s[1..], sep, piece + [s[0]])
  }

  function Split(s: string, sep: string): seq<string>
    requires sep != []
  {
    SplitFrom(s, sep, "")
  }

  /** `pieces.join(sep)`. */
  function Join(pieces: seq<string>, sep: string): string {
    if |pieces| == 0 then ""
    else if |pieces| == 1 then pieces[0]
    else pieces[0] + sep + Join(pieces[1..], sep)
  }

  lemma {:induction false} SplitFromJoin(s: string, sep: string, piece: string)
    requires sep != []
    ensures Join(SplitFrom(s, sep, piece), sep) == piece + s
    decreases |s|
  {
    if s == [] {
    } else if |sep| <= |s| && s[..|sep|] == sep {
      var tail := SplitFrom(s[|sep|..], sep, "");
      SplitFromJoin(s[|sep|..], sep, "");
      assert ([piece] + tail)[1..] == tail;
      assert s == sep + s[|sep|..];
    } else {
      SplitFromJoin(s[1..], sep, piece + [s[0]]);
      assert piece + [s[0]] + s[1..] == piece + s;
    }
  }

  /** `p` occurs in `s` as a contiguous piece. */
  ghost predicate Infix(p: string, s: string) {
    exists i | 0 <= i <= |s| - |p| :: Window(s, i, |p|) == p
  }

  /** The `n` characters of `s` from index `i`. */
  ghost function Window(s: string, i: nat, n: nat): string
    requires i + n <= |s|
  {
    s[i..i + n]
  }

  lemma InfixPrefix(p: string, t: string)
    ensures Infix(p, p + t)
  {
    assert Window(p + t, 0, |p|) == p;
  }

  lemma InfixAfter(p: string, a: string, t: string)
    requires Infix(p, t)
    ensures Infix(p, a + t)
  {
    var i :| 0 <= i <= |t| - |p| && Window(t, i, |p|) == p;
    assert Window(a + t, |a| + i, |p|) == Window(t, i, |p|);
  }

  /** Every piece of a split occurs in the text it was split from. */
  lemma {:induction false} SplitFromPiecesOccur(s: string, sep: string, piece: string)
    requires sep != []
    ensures forall k | 0 <= k < |SplitFrom(s, sep, piece)| :: Infix(SplitFrom(s, sep, piece)[k], piece + s)
    decreases |s|
  {
    var r := SplitFrom(s, sep, piece);
    InfixPrefix(piece, s);
    if s == [] {
    } else if |sep| <= |s| && s[..|sep|] == sep {
      var tail := s[|sep|..];
      SplitFromPiecesOccur(tail, sep, "");
      assert "" + tail == tail;
      assert piece + s == (piece + sep) + tail;
      forall k | 1 <= k < |r|
        ensures Infix(r[k], piece + s)
      {
        assert r[k] == SplitFrom(tail, sep, "")[k - 1];
        InfixAfter(r[k], piece + sep, tail);
      }
    } else {
      SplitFromPiecesOccur(s[1..], sep, piece + [s[0]]);
      assert piece + [s[0]] + s[1..] == piece + s;
    }
  }

  lemma SplitPiecesOccur(s: string, sep: string)
    requires sep != []
    ensures forall k | 0 <= k < |Split(s, sep)| :: Infix(Split(s, sep)[k], s)
  {
    SplitFromPiecesOccur(s, sep, "");
    assert "" + s == s;
  }

  /** A string without the separator's first character splits into one piece. */
  lemma {:induction false} SplitWithoutSeparator(s: string, sep: string, piece: string)
    requires sep != []
    requires forall i | 0 <= i < |s| :: s[i] != sep[0]
    ensures SplitFrom(s, sep, piece) == [piece + s]
    decreases |s|
  {
    if s == [] {
      assert piece + s == piece;
    } else {
      if |sep| <= |s| {
        assert s[..|sep|][0] == s[0];
      }
      SplitWithoutSeparator(s[1..], sep, piece + [s[0]]);
      assert piece + [s[0]] + s[1..] == piece + s;
    }
  }

  /**
   * Text free of the separator's first character, then the separator: the
   * text is one piece and splitting goes on after the separator.
   */
  lemma {:induction false} SplitFromAround(a: string, b: string, sep: string, piece: string)
    requires sep != []
    requires forall i | 0 <= i < |a| :: a[i] != sep[0]
    ensures SplitFrom(a + sep + b, sep, piece) == [piece + a] + SplitFrom(b, sep, "")
    decreases |a|
  {
    var s := a + sep + b;
    if a == [] {
      assert s == sep + b;
      assert s[..|sep|] == sep && s[|sep|..] == b;
      assert piece + a == piece;
    } else {
      assert s[0] == a[0];
      if |sep| <= |s| {
        assert s[..|sep|][0] == a[0];
      }
      assert s[1..] == a[1..] + sep + b;
      SplitFromAround(a[1..], b, sep, piece + [a[0]]);
      assert piece + [a[0]] + a[1..] == piece + a;
    }
  }

  /** Joining the pieces of a split with the same separator gives back the string. */
  lemma SplitJoin(s: string, sep: string)
    requires sep != []
    ensures Join(Split(s, sep), sep) == s
  {
    SplitFromJoin(s, sep, "");
  }
}
