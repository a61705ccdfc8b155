/**
 * The Python string builtins the grid-file parser relies on: `str.split` with one separator
 * character, `str.join`, the whitespace stripping of `int()` and `float()`, and the decimal
 * token syntax those two conversions accept.
 */
module PyText {
  import opened Results

  // ---------------------------------------------------------------- split and join

  /** `s.split(sep)`: the pieces between separators, empty pieces included, in order. */
  function Split(s: string, sep: char): (pieces: seq<string>)
    ensures |pieces| >= 1
    ensures forall k :: 0 <= k < |pieces| ==> sep !in pieces[k]
    decreases |s|
  {
    if s == [] then [[]]
    else
      var rest := Split(s[1..], sep);
      if s[0] == sep then [[]] + rest
      else [[s[0]] + rest[0]] + rest[1..]
  }

  /** `sep.join(pieces)`. */
  function Join(pieces: seq<string>, sep: char): string
    decreases |pieces|
  {
    if |pieces| == 0 then []
    else if |pieces| == 1 then pieces[0]
    else pieces[0] + [sep] + Join(pieces[1..], sep)
  }

  /** Prepending a character to the first piece prepends it to the joined string. */
  lemma JoinConsFirst(c: char, pieces: seq<string>, sep: char)
    requires |pieces| >= 1
    ensures Join([[c] + pieces[0]] + pieces[1..], sep) == [c] + Join(pieces, sep)
  {
    var ps := [[c] + pieces[0]] + pieces[1..];
    assert ps[1..] == pieces[1..];
  }

  /** Joining the pieces of a split with the same separator gives the string back. */
  lemma {:induction false} JoinSplit(s: string, sep: char)
    ensures Join(Split(s, sep), sep) == s
    decreases |s|
  {
    if s != [] {
      var rest := Split(s[1..], sep);
      JoinSplit(s[1..], sep);
      if s[0] == sep {
        assert ([[]] + rest)[1..] == rest;
        assert Join([[]] + rest, sep) == [] + [sep] + Join(rest, sep);
      } else {
        JoinConsFirst(s[0], rest, sep);
      }
      assert s == [s[0]] + s[1..];
    }
  }

  /** A string without the separator is a single piece. */
  lemma {:induction false} SplitWithoutSep(p: string, sep: char)
    requires sep !in p
    ensures Split(p, sep) == [p]
    decreases |p|
  {
    if p != [] {
      SplitWithoutSep(p[1..], sep);
      assert p == [p[0]] + p[1..];
    }
  }

  /** A separator-free prefix followed by the separator becomes the first piece. */
  lemma {:induction false} SplitAfterPrefix(p: string, rest: string, sep: char)
    requires sep !in p
    ensures Split(p + [sep] + rest, sep) == [p] + Split(rest, sep)
    decreases |p|
  {
    var s := p + [sep] + rest;
    if p == [] {
      assert s[1..] == rest;
    } else {
      assert s[1..] == p[1..] + [sep] + rest;
      SplitAfterPrefix(p[1..], rest, sep);
      assert p == [p[0]] + p[1..];
    }
  }

  /** Splitting a join of separator-free pieces gives the pieces back. */
  lemma {:induction false} SplitJoin(pieces: seq<string>, sep: char)
    requires |pieces| >= 1
    requires forall k :: 0 <= k < |pieces| ==> sep !in pieces[k]
    ensures Split(Join(pieces, sep), sep) == pieces
    decreases |pieces|
  {
    if |pieces| == 1 {
      SplitWithoutSep(pieces[0], sep);
    } else {
      SplitJoin(pieces[1..], sep);
      SplitAfterPrefix(pieces[0], Join(pieces[1..], sep), sep);
      assert pieces == [pieces[0]] + pieces[1..];
    }
  }

  /** All pieces laid end to end. */
  function Concat(pieces: seq<string>): string
    decreases |pieces|
  {
    if pieces == [] then [] else pieces[0] + Concat(pieces[1..])
  }

  /** `s.replace(c, '')`: `s` with every occurrence of `c` deleted. */
  function RemoveChar(s: string, c: char): (r: string)
    ensures c !in r
    ensures |r| <= |s|
    decreases |s|
  {
    if s == [] then [] else (if s[0] == c then [] else [s[0]]) + RemoveChar(s[1..], c)
  }

  /** The pieces of a split, laid end to end, are the string with the separators deleted. */
  lemma {:induction false} ConcatSplit(s: string, sep: char)
    ensures Concat(Split(s, sep)) == RemoveChar(s, sep)
    decreases |s|
  {
    if s != [] {
      var rest := Split(s[1..], sep);
      ConcatSplit(s[1..], sep);
      if s[0] == sep {
        assert ([[]] + rest)[1..] == rest;
      } else {
        var ps := [[s[0]] + rest[0]] + rest[1..];
        assert ps[1..] == rest[1..];
        assert Concat(rest) == rest[0] + Concat(rest[1..]);
      }
    }
  }

  // ---------------------------------------------------------------- whitespace

  /** The characters `str.strip()` removes, restricted to ASCII: tab to carriage return, 0x1C to 0x1F and space. */
  predicate IsSpace(c: char)
  {
    (9 <= c as int <= 13) || (28 <= c as int <= 32)
  }

  function TrimStart(s: string): (r: string)
    ensures |r| <= |s| && r == s[|s| - |r|..]
    ensures r == [] || !IsSpace(r[0])
    decreases |s|
  {
    if s != [] && IsSpace(s[0]) then TrimStart(s[1..]) else s
  }

  function TrimEnd(s: string): (r: string)
    ensures |r| <= |s| && r == s[..|r|]
    ensures r == [] || !IsSpace(r[|r| - 1])
    decreases |s|
  {
    if s != [] && IsSpace(s[|s| - 1]) then TrimEnd(s[..|s| - 1]) else s
  }

  /** `s.strip()`: `s` without leading and trailing whitespace. */
  function Strip(s: string): (r: string)
    ensures |r| <= |s|
    ensures r == [] || (!IsSpace(r[0]) && !IsSpace(r[|r| - 1]))
  {
    var t := TrimStart(s);
    var r := TrimEnd(t);
    assert r != [] ==> r[0] == t[0];
    r
  }

  predicate AllSpace(s: string)
  {
    forall k :: 0 <= k < |s| ==> IsSpace(s[k])
  }

  lemma {:induction false} TrimStartPadded(pre: string, s: string)
    requires AllSpace(pre)
    requires s == [] || !IsSpace(s[0])
    ensures TrimStart(pre + s) == s
    decreases |pre|
  {
    if pre != [] {
      assert (pre + s)[1..] == pre[1..] + s;
      TrimStartPadded(pre[1..], s);
    } else {
      assert pre + s == s;
    }
  }

  lemma {:induction false} TrimEndPadded(s: string, post: string)
    requires AllSpace(post)
    requires s == [] || !IsSpace(s[|s| - 1])
    ensures TrimEnd(s + post) == s
    decreases |post|
  {
    if post != [] {
      var last := |post| - 1;
      assert (s + post)[..|s + post| - 1] == s + post[..last];
      TrimEndPadded(s, post[..last]);
    } else {
      assert s + post == s;
    }
  }

  /** Whitespace around a token whose ends are not whitespace is exactly what `strip()` removes. */
  lemma StripPadded(pre: string, s: string, post: string)
    requires AllSpace(pre) && AllSpace(post)
    requires s != [] && !IsSpace(s[0]) && !IsSpace(s[|s| - 1])
    ensures Strip(pre + s + post) == s
  {
    assert pre + s + post == pre + (s + post);
    TrimStartPadded(pre, s + post);
    TrimEndPadded(s, post);
  }

  // ---------------------------------------------------------------- int()

  predicate IsDigit(c: char) { '0' <= c <= '9' }

  predicate AllDigits(s: string)
  {
    forall k :: 0 <= k < |s| ==> IsDigit(s[k])
  }

  /** The value of a string of decimal digits, most significant first (0 for the empty string). */
  function DigitsValue(s: string): nat
    requires AllDigits(s)
    decreases |s|
  {
    if s == [] then 0 else DigitsValue(s[..|s| - 1]) * 10 + (s[|s| - 1] as int - '0' as int)
  }

  /** An optional sign followed by one or more decimal digits, the shape `int()` accepts. */
  function SignedDigits(t: string): (r: Option<int>)
    ensures r.Some? ==> |t| > 0 && (IsDigit(t[0]) || t[0] == '+' || t[0] == '-') && AllDigits(t[1..])
    ensures |t| > 0 && AllDigits(t) ==> r == Some(DigitsValue(t))
    ensures r.Some? && r.value < 0 ==> t[0] == '-'
  {
    assert |t| > 0 && AllDigits(t) ==> IsDigit(t[0]) && AllDigits(t[1..]);
    if |t| > 0 && (t[0] == '+' || t[0] == '-') then
      var d := t[1..];
      if |d| > 0 && AllDigits(d) then Some(if t[0] == '-' then -(DigitsValue(d) as int) else DigitsValue(d))
      else None
    else if |t| > 0 && AllDigits(t) then Some(DigitsValue(t))
    else None
  }

  /**
   * `int(tok)`: after stripping whitespace, an optional sign and one or more decimal digits.
   * None stands for the ValueError Python raises on anything else.
   */
  function ParseInt(tok: string): (r: Option<int>)
    ensures var t := Strip(tok);
      r.Some? ==> |t| > 0 && (IsDigit(t[0]) || t[0] == '+' || t[0] == '-') && AllDigits(t[1..])
    ensures var t := Strip(tok); |t| > 0 && AllDigits(t) ==> r == Some(DigitsValue(t))
    ensures r.Some? && r.value < 0 ==> Strip(tok)[0] == '-'
  {
    SignedDigits(Strip(tok))
  }

  /** `str(n)` for a natural number. */
  function FormatNat(n: nat): (s: string)
    ensures |s| > 0 && AllDigits(s) && DigitsValue(s) == n
    ensures s == "0" || s[0] != '0'
    decreases n
  {
    var d := ['0' + (n % 10) as char];
    if n < 10 then d
    else
      var prefix := FormatNat(n / 10);
      var s := prefix + d;
      assert s[..|s| - 1] == prefix;
      s
  }

  /** `str(n)` for an integer. */
  function FormatInt(n: int): string
  {
    if n < 0 then "-" + FormatNat(-n) else FormatNat(n)
  }

  /** `int(str(n)) == n`, also with whitespace around the digits. */
  lemma ParseIntFormatInt(pre: string, n: int, post: string)
    requires AllSpace(pre) && AllSpace(post)
    ensures ParseInt(pre + FormatInt(n) + post) == Some(n)
  {
    StripPadded(pre, FormatInt(n), post);
    SignedDigitsFormatInt(n);
  }

  /** The digits `str(n)` writes read back as `n`. */
  lemma SignedDigitsFormatInt(n: int)
    ensures SignedDigits(FormatInt(n)) == Some(n)
  {
    if n < 0 {
      assert FormatInt(n)[1..] == FormatNat(-n);
    } else {
      assert IsDigit(FormatInt(n)[0]);
    }
  }

  // ---------------------------------------------------------------- float()

  /** The index of the first 'e' or 'E' (the exponent marker), or the length when there is none. */
  function ExpIndex(s: string): (i: nat)
    ensures i <= |s|
    ensures forall k :: 0 <= k < i ==> s[k] != 'e' && s[k] != 'E'
    ensures i < |s| ==> s[i] == 'e' || s[i] == 'E'
    decreases |s|
  {
    if s == [] then 0 else if s[0] == 'e' || s[0] == 'E' then 0 else 1 + ExpIndex(s[1..])
  }

  /** The index of the first '.', or the length when there is none. */
  function DotIndex(s: string): (i: nat)
    ensures i <= |s|
    ensures forall k :: 0 <= k < i ==> s[k] != '.'
    ensures i < |s| ==> s[i] == '.'
    decreases |s|
  {
    if s == [] then 0 else if s[0] == '.' then 0 else 1 + DotIndex(s[1..])
  }

  function Pow10Nat(n: nat): (p: nat)
    ensures p >= 1
  {
    if n == 0 then 1 else 10 * Pow10Nat(n - 1)
  }

  /** Ten to an integer power, as a real. */
  function Pow10(e: int): (p: real)
    ensures p > 0.0
  {
    if e >= 0 then Pow10Nat(e) as real else 1.0 / (Pow10Nat(-e) as real)
  }

  /** The digits of a float literal before its exponent: `ddd`, `ddd.`, `.ddd` or `ddd.ddd`. */
  function ParseMantissa(m: string): (r: Option<real>)
    ensures r.Some? ==> |m| > 0 && r.value >= 0.0
  {
    var d := DotIndex(m);
    if d == |m| then
      if |m| > 0 && AllDigits(m) then Some(DigitsValue(m) as real) else None
    else
      var ip := m[..d];
      var fp := m[d + 1..];
      if AllDigits(ip) && AllDigits(fp) && |ip| + |fp| > 0 then
        var frac := (DigitsValue(fp) as real) / (Pow10Nat(|fp|) as real);
        QuotientNonNegative(DigitsValue(fp) as real, Pow10Nat(|fp|) as real);
        Some(DigitsValue(ip) as real + frac)
      else None
  }

  lemma QuotientNonNegative(a: real, b: real)
    requires a >= 0.0 && b > 0.0
    ensures a / b >= 0.0
  {
  }

  /**
   * `float(tok)` on decimal literals: after stripping whitespace, an optional sign, a mantissa
   * and an optional exponent, valued exactly. None stands for Python's ValueError.
   */
  function ParseReal(tok: string): (r: Option<real>)
    ensures r.Some? ==> |Strip(tok)| > 0
    ensures r.Some? && r.value < 0.0 ==> Strip(tok)[0] == '-'
  {
    var t := Strip(tok);
    var neg := |t| > 0 && t[0] == '-';
    var body := if |t| > 0 && (t[0] == '+' || t[0] == '-') then t[1..] else t;
    var v :- ParseUnsigned(body);
    Some(if neg then -v else v)
  }

  /** An unsigned float literal: a mantissa and an optional signed exponent; never negative. */
  function ParseUnsigned(body: string): (r: Option<real>)
    ensures r.Some? ==> |body| > 0 && r.value >= 0.0
  {
    var e := ExpIndex(body);
    var m :- ParseMantissa(body[..e]);
    var x :- if e == |body| then Some(0) else SignedDigits(body[e + 1..]);
    ProductNonNegative(m, Pow10(x));
    Some(m * Pow10(x))
  }

  lemma ProductNonNegative(a: real, b: real)
    requires a >= 0.0 && b >= 0.0
    ensures a * b >= 0.0
  {
  }

  /** A string of digits has neither an exponent marker nor a decimal point. */
  lemma DigitsHaveNoMarkers(s: string)
    requires AllDigits(s)
    ensures ExpIndex(s) == |s| && DotIndex(s) == |s|
  {
    assert forall k :: 0 <= k < |s| ==> s[k] != 'e' && s[k] != 'E' && s[k] != '.';
  }

  /** Every token `int()` accepts, `float()` accepts with the same value. */
  lemma ParseRealOfInt(tok: string)
    requires ParseInt(tok).Some?
    ensures ParseReal(tok) == Some(ParseInt(tok).value as real)
  {
    var t := Strip(tok);
    var body := if |t| > 0 && (t[0] == '+' || t[0] == '-') then t[1..] else t;
    assert |body| > 0 && AllDigits(body);
    var v := DigitsValue(body) as real;
    ParseDigitLiteral(body);
    assert ParseUnsigned(body) == Some(v);
    assert ParseReal(tok) == Some(if |t| > 0 && t[0] == '-' then -v else v);
  }

  /** A bare digit string as a float literal: no exponent, no point, its decimal value. */
  lemma ParseDigitLiteral(body: string)
    requires |body| > 0 && AllDigits(body)
    ensures ExpIndex(body) == |body| && body[..ExpIndex(body)] == body
    ensures ParseMantissa(body) == Some(DigitsValue(body) as real)
    ensures Pow10(0) == 1.0
  {
    DigitsHaveNoMarkers(body);
    assert body[..|body|] == body;
  }
}
