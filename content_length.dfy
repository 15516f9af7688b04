/** Reading the size of a download from the response: the `Content-Length`
    header as text (`parseContentLength`, with Kotlin's `isNullOrBlank`,
    `trim`, `replace("_", "")` and `toLongOrNull`) and the choice of the total
    among the header and the two lengths the connection reports. */
module ContentLength {
  import opened Kotlin

  /** Kotlin's `Char.isWhitespace` on the JVM: `Character.isWhitespace` or
      `Character.isSpaceChar`. The ASCII blanks are among them, and no
      character a numeral is written with is. */
  function IsWhitespace(c: char): (ws: bool)
    ensures c == ' ' || c == '\t' || c == '\n' || c == '\r' ==> ws
    ensures ws ==> !IsDigit(c) && c != '+' && c != '-' && c != '_'
  {
    || c == ' '
    || '\t' <= c <= '\r'
    || '\U{001C}' <= c <= '\U{001F}'
    || c == '\U{00A0}'
    || c == '\U{1680}'
    || '\U{2000}' <= c <= '\U{200A}'
    || c == '\U{2028}' || c == '\U{2029}'
    || c == '\U{202F}' || c == '\U{205F}' || c == '\U{3000}'
  }

  /** `isBlank`: empty or whitespace only, which is exactly when trimming
      either end leaves nothing. */
  function IsBlank(s: string): (blank: bool)
    ensures blank <==> TrimStart(s) == []
    ensures blank <==> TrimEnd(s) == []
  {
    TrimStartEmpty(s);
    TrimEndEmpty(s);
    forall i :: 0 <= i < |s| ==> IsWhitespace(s[i])
  }

  lemma {:induction false} TrimStartEmpty(s: string)
    ensures TrimStart(s) == [] <==> forall i :: 0 <= i < |s| ==> IsWhitespace(s[i])
  {
    if |s| > 0 && IsWhitespace(s[0]) {
      TrimStartEmpty(s[1..]);
      assert forall i :: 1 <= i < |s| ==> s[i] == s[1..][i - 1];
    }
  }

  lemma {:induction false} TrimEndEmpty(s: string)
    ensures TrimEnd(s) == [] <==> forall i :: 0 <= i < |s| ==> IsWhitespace(s[i])
  {
    if |s| > 0 && IsWhitespace(s[|s| - 1]) {
      TrimEndEmpty(s[..|s| - 1]);
      assert forall i :: 0 <= i < |s| - 1 ==> s[i] == s[..|s| - 1][i];
    }
  }

  function TrimStart(s: string): (r: string)
    ensures |r| <= |s| && r == s[|s| - |r|..]
    ensures r == [] || !IsWhitespace(r[0])
  {
    if |s| > 0 && IsWhitespace(s[0]) then TrimStart(s[1..]) else s
  }

  function TrimEnd(s: string): (r: string)
    ensures |r| <= |s| && r == s[..|r|]
    ensures r == [] || !IsWhitespace(r[|r| - 1])
  {
    if |s| > 0 && IsWhitespace(s[|s| - 1]) then TrimEnd(s[..|s| - 1]) else s
  }

  /** `trim()`: the string without its leading and trailing whitespace. The
      result is a prefix of what trimming the start leaves (itself a suffix of
      the input), neither starts nor ends with whitespace, and is empty
      exactly when the input is blank. */
  function Trim(s: string): (r: string)
    ensures |r| <= |TrimStart(s)| && r == TrimStart(s)[..|r|]
    ensures r != [] ==> !IsWhitespace(r[0]) && !IsWhitespace(r[|r| - 1])
    ensures r == [] <==> IsBlank(s)
  {
    TrimEndEmpty(TrimStart(s));
    TrimEnd(TrimStart(s))
  }

  /** `replace("_", "")`: every underscore removed. */
  function RemoveUnderscores(s: string): (r: string)
    ensures '_' !in r
    ensures |r| <= |s|
    ensures '_' !in s ==> r == s
  {
    if s == [] then []
    else (if s[0] == '_' then [] else [s[0]]) + RemoveUnderscores(s[1..])
  }

  predicate IsDigit(c: char) {
    '0' <= c <= '9'
  }

  predicate AllDigits(s: string) {
    forall i :: 0 <= i < |s| ==> IsDigit(s[i])
  }

  /** The value of a string of decimal digits, most significant first. */
  function DigitsValue(s: string): nat
    requires AllDigits(s)
  {
    if s == [] then 0
    else DigitsValue(s[..|s| - 1]) * 10 + (s[|s| - 1] as int - '0' as int)
  }

  /** `toLongOrNull()`: an optional `+` or `-` followed by at least one
      decimal digit, whose value fits in a `Long`; anything else is null. */
  function ParseLong(s: string): (r: Option<Long>)
    ensures r.Some? ==> |s| > 0 && (s[0] == '+' || s[0] == '-' || IsDigit(s[0]))
    ensures r.Some? ==> forall i :: 1 <= i < |s| ==> IsDigit(s[i])
    ensures r.Some? && (s[0] == '+' || s[0] == '-') ==> |s| >= 2
    ensures r.Some? && s[0] != '-' ==> r.value >= 0
  {
    if |s| == 0 then None
    else
      var digits := if s[0] == '-' || s[0] == '+' then s[1..] else s;
      if |digits| == 0 || !AllDigits(digits) then None
      else
        var v: int := if s[0] == '-' then -(DigitsValue(digits) as int) else DigitsValue(digits);
        if LONG_MIN <= v <= LONG_MAX then Some(v) else None
  }

  function DigitChar(d: nat): (c: char)
    requires d < 10
    ensures IsDigit(c) && c as int - '0' as int == d
  {
    ('0' as int + d) as char
  }

  /** The decimal numeral of a natural number, without leading zeros. */
  function Natural(m: nat): string
    decreases m
  {
    if m < 10 then [DigitChar(m)] else Natural(m / 10) + [DigitChar(m % 10)]
  }

  /** The decimal numeral of any integer, as `Long.toString` writes it for the
      values in range. */
  function Decimal(n: int): string {
    if n < 0 then "-" + Natural(-n) else Natural(n)
  }

  /** `parseContentLength`: null for a missing or blank header, otherwise the
      `Long` value of the trimmed header with its underscores removed, or null
      when that is not a valid `Long`. */
  function ParseContentLength(header: Option<string>): (r: Option<Long>)
    ensures header.None? ==> r.None?
    ensures header.Some? && IsBlank(header.value) ==> r.None?
  {
    if header.None? || IsBlank(header.value) then None
    else ParseLong(RemoveUnderscores(Trim(header.value)))
  }

  /** The total size of the download: the parsed header if there is one (even
      a negative one), else `contentLengthLong` if it is not negative, else
      `contentLength` if it is not negative, else the unknown-size marker -1. */
  function SelectTotal(header: Option<Long>, contentLengthLong: Long, contentLength: Int32): (r: Long)
    ensures header.Some? ==> r == header.value
    ensures header.None? ==> (r == -1 <==> contentLengthLong < 0 && contentLength < 0)
    ensures header.None? && contentLengthLong >= 0 ==> r == contentLengthLong
    ensures header.None? && contentLengthLong < 0 && contentLength >= 0 ==> r == contentLength
    ensures r < -1 ==> header == Some(r)
  {
    match header
    case Some(v) => v
    case None =>
      if contentLengthLong >= 0 then contentLengthLong
      else if contentLength >= 0 then contentLength
      else -1
  }

  // ---------------------------------------------------------------------
  // Parsing undoes printing

  lemma {:induction false} DigitsValueAppend(s: string, c: char)
    requires AllDigits(s) && IsDigit(c)
    ensures AllDigits(s + [c])
    ensures DigitsValue(s + [c]) == DigitsValue(s) * 10 + (c as int - '0' as int)
  {
  }

  lemma {:induction false} NaturalDigits(m: nat)
    ensures |Natural(m)| > 0 && AllDigits(Natural(m))
    ensures DigitsValue(Natural(m)) == m
    decreases m
  {
    if m >= 10 {
      NaturalDigits(m / 10);
      DigitsValueAppend(Natural(m / 10), DigitChar(m % 10));
    }
  }

  /** `toLongOrNull` of the decimal numeral of `n` gives `n` back exactly when
      `n` fits in a `Long`, and null otherwise. */
  lemma ParseDecimal(n: int)
    ensures ParseLong(Decimal(n)) == if LONG_MIN <= n <= LONG_MAX then Some(n) else None
  {
    if n < 0 {
      ParseNegated(-n);
    } else {
      ParseNatural(n);
    }
  }

  /** The numeral of a natural number parses to it when it fits. */
  lemma ParseNatural(m: nat)
    ensures ParseLong(Natural(m)) == if m <= LONG_MAX then Some(m) else None
  {
    NaturalDigits(m);
    assert IsDigit(Natural(m)[0]);
  }

  /** A minus sign in front of the numeral of `m` parses to `-m` when it
      fits. */
  lemma ParseNegated(m: nat)
    ensures ParseLong("-" + Natural(m)) == if LONG_MIN <= -(m as int) then Some(-(m as int)) else None
  {
    NaturalDigits(m);
    var s := "-" + Natural(m);
    assert s[0] == '-';
    assert s[1..] == Natural(m);
  }

  /** An explicit `+` sign is accepted in front of a non-negative numeral. */
  lemma ParsePlusDecimal(n: nat)
    ensures ParseLong("+" + Decimal(n)) == if n <= LONG_MAX then Some(n) else None
  {
    NaturalDigits(n);
    assert ("+" + Decimal(n))[1..] == Natural(n);
  }

  // ---------------------------------------------------------------------
  // Exactly the numerals parse

  /** The sign a numeral may start with. */
  datatype Sign = Unsigned | Plus | Minus

  function SignText(sign: Sign): string {
    match sign
    case Unsigned => ""
    case Plus => "+"
    case Minus => "-"
  }

  /** `k` leading zeros. */
  function Zeros(k: nat): string {
    seq(k, i => '0')
  }

  /** A numeral as `toLongOrNull` reads it: an optional sign, any number of
      leading zeros, then the digits of `m`. */
  function Numeral(sign: Sign, zeros: nat, m: nat): string {
    SignText(sign) + (Zeros(zeros) + Natural(m))
  }

  /** The value a numeral with sign `sign` and digits of `m` stands for. */
  function Signed(sign: Sign, m: nat): int {
    if sign == Minus then -(m as int) else m
  }

  /** The sign written agrees with the sign of `v` (zero takes any sign). */
  predicate Agrees(sign: Sign, v: int) {
    if sign == Minus then v <= 0 else v >= 0
  }

  function Abs(v: int): nat {
    if v < 0 then -v else v
  }

  lemma {:induction false} ZerosValue(k: nat)
    ensures AllDigits(Zeros(k)) && DigitsValue(Zeros(k)) == 0
  {
    if k > 0 {
      assert Zeros(k) == Zeros(k - 1) + ['0'];
      ZerosValue(k - 1);
      DigitsValueAppend(Zeros(k - 1), '0');
    }
  }

  /** Leading zeros do not change the value of a numeral's digits. */
  lemma NumeralDigits(zeros: nat, m: nat)
    ensures AllDigits(Zeros(zeros) + Natural(m)) && |Zeros(zeros) + Natural(m)| > 0
    ensures DigitsValue(Zeros(zeros) + Natural(m)) == m
  {
    NaturalDigits(m);
    ZerosValue(zeros);
    DigitsValueConcat(Zeros(zeros), Natural(m));
  }

  /** Every numeral parses: to its value when that fits in a `Long`, to null
      otherwise. Leading zeros and a `+` sign are accepted. */
  lemma ParseNumeral(sign: Sign, zeros: nat, m: nat)
    ensures ParseLong(Numeral(sign, zeros, m))
            == if LONG_MIN <= Signed(sign, m) <= LONG_MAX then Some(Signed(sign, m)) else None
  {
    var d := Zeros(zeros) + Natural(m);
    NumeralDigits(zeros, m);
    assert Numeral(sign, zeros, m) == SignText(sign) + d;
    ParseSigned(sign, d);
  }

  /** A sign followed by a non-empty run of digits parses to the signed value
      of the digits when it fits in a `Long`. */
  lemma ParseSigned(sign: Sign, d: string)
    requires |d| > 0 && AllDigits(d)
    ensures var v := Signed(sign, DigitsValue(d));
            ParseLong(SignText(sign) + d) == if LONG_MIN <= v <= LONG_MAX then Some(v) else None
  {
    var s := SignText(sign) + d;
    if sign == Unsigned {
      assert s == d && IsDigit(s[0]);
    } else {
      assert s[1..] == d;
    }
  }

  /** A non-empty string of digits is some leading zeros followed by the
      numeral of its value. */
  lemma {:induction false} CanonicalDigits(d: string) returns (k: nat)
    requires |d| > 0 && AllDigits(d)
    ensures d == Zeros(k) + Natural(DigitsValue(d))
    decreases |d|
  {
    var d', c := d[..|d| - 1], d[|d| - 1];
    assert d == d' + [c];
    var digit := c as int - '0' as int;
    if d' == [] {
      assert Natural(DigitsValue(d)) == [DigitChar(digit)] == [c];
      k := 0;
      assert d == Zeros(0) + [c];
    } else {
      var k' := CanonicalDigits(d');
      var m' := DigitsValue(d');
      assert DigitsValue(d) == m' * 10 + digit;
      if m' > 0 {
        var m := m' * 10 + digit;
        assert m / 10 == m' && m % 10 == digit;
        assert Natural(m) == Natural(m') + [DigitChar(digit)];
        k := k';
      } else {
        assert d' == Zeros(k') + ['0'] == Zeros(k' + 1);
        assert Natural(DigitsValue(d)) == [c];
        k := k' + 1;
      }
    }
  }

  /** Only numerals parse: whatever `toLongOrNull` accepts is a sign, leading
      zeros and the digits of a number, and the result is that number. */
  lemma ParseLongAccepts(s: string) returns (sign: Sign, zeros: nat, m: nat)
    requires ParseLong(s).Some?
    ensures s == Numeral(sign, zeros, m)
    ensures ParseLong(s).value == Signed(sign, m)
  {
    var digits;
    sign, digits := SplitSign(s);
    ParseSigned(sign, digits);
    m := DigitsValue(digits);
    zeros := CanonicalDigits(digits);
  }

  /** What `toLongOrNull` accepts is a sign followed by a non-empty run of
      digits. */
  lemma SplitSign(s: string) returns (sign: Sign, digits: string)
    requires ParseLong(s).Some?
    ensures s == SignText(sign) + digits && |digits| > 0 && AllDigits(digits)
  {
    if s[0] == '-' || s[0] == '+' {
      sign := if s[0] == '-' then Minus else Plus;
      digits := s[1..];
      assert s == [s[0]] + digits;
    } else {
      sign, digits := Unsigned, s;
    }
  }

  /** `toLongOrNull` gives `v` exactly when the text is a numeral of `v`: an
      optional sign that agrees with `v`, leading zeros, then the digits of
      `|v|`; and `v` fits in a `Long`. Any other text, such as `12a`, `-` or
      `1 2`, gives null. */
  lemma ParseLongExactly(s: string, v: int)
    ensures ParseLong(s) == Some(v) <==>
              && (exists sign, zeros :: s == Numeral(sign, zeros, Abs(v)) && Agrees(sign, v))
              && LONG_MIN <= v <= LONG_MAX
  {
    if ParseLong(s) == Some(v) {
      NumeralOfResult(s, v);
    }
    if exists sign, zeros :: s == Numeral(sign, zeros, Abs(v)) && Agrees(sign, v) {
      var sign, zeros :| s == Numeral(sign, zeros, Abs(v)) && Agrees(sign, v);
      ResultOfNumeral(sign, zeros, v);
    }
  }

  lemma NumeralOfResult(s: string, v: int)
    requires ParseLong(s) == Some(v)
    ensures exists sign, zeros :: s == Numeral(sign, zeros, Abs(v)) && Agrees(sign, v)
  {
    var sign, zeros, m := ParseLongAccepts(s);
    assert Abs(v) == m;
    assert s == Numeral(sign, zeros, Abs(v)) && Agrees(sign, v);
  }

  lemma ResultOfNumeral(sign: Sign, zeros: nat, v: int)
    requires Agrees(sign, v)
    ensures ParseLong(Numeral(sign, zeros, Abs(v))) == Some(v) <==> LONG_MIN <= v <= LONG_MAX
  {
    ParseNumeral(sign, zeros, Abs(v));
    assert Signed(sign, Abs(v)) == v;
  }

  // ---------------------------------------------------------------------
  // Whitespace around the header and underscores inside it

  lemma {:induction false} TrimStartBlankPrefix(pre: string, s: string)
    requires IsBlank(pre)
    requires s != [] && !IsWhitespace(s[0])
    ensures TrimStart(pre + s) == s
    decreases |pre|
  {
    if pre == [] {
      assert pre + s == s;
    } else {
      assert (pre + s)[1..] == pre[1..] + s;
      TrimStartBlankPrefix(pre[1..], s);
    }
  }

  lemma {:induction false} TrimEndBlankSuffix(s: string, post: string)
    requires IsBlank(post)
    requires s != [] && !IsWhitespace(s[|s| - 1])
    ensures TrimEnd(s + post) == s
    decreases |post|
  {
    if post == [] {
      assert s + post == s;
    } else {
      assert (s + post)[..|s + post| - 1] == s + post[..|post| - 1];
      TrimEndBlankSuffix(s, post[..|post| - 1]);
    }
  }

  /** Trimming blank padding off a body that neither starts nor ends with
      whitespace leaves the body, and the padded header is not blank. */
  lemma TrimPadding(pre: string, body: string, post: string)
    requires IsBlank(pre) && IsBlank(post)
    requires body != [] && !IsWhitespace(body[0]) && !IsWhitespace(body[|body| - 1])
    ensures Trim(pre + body + post) == body
    ensures !IsBlank(pre + body + post)
  {
    var h := pre + body + post;
    assert h == pre + (body + post);
    TrimStartBlankPrefix(pre, body + post);
    TrimEndBlankSuffix(body, post);
    assert h[|pre|] == body[0];
  }

  /** A header made of blank padding around a numeral with underscores
      anywhere in it, even at its ends, parses to the numeral's value
      when it fits in a `Long`, and to null otherwise. */
  lemma HeaderRoundTrip(pre: string, body: string, post: string, n: int)
    requires IsBlank(pre) && IsBlank(post)
    requires body != [] ==> !IsWhitespace(body[0]) && !IsWhitespace(body[|body| - 1])
    requires RemoveUnderscores(body) == Decimal(n)
    ensures ParseContentLength(Some(pre + body + post)) == if LONG_MIN <= n <= LONG_MAX then Some(n) else None
  {
    NaturalDigits(if n < 0 then -n else n);
    assert body != [];
    TrimPadding(pre, body, post);
    ParseDecimal(n);
  }

  /** `parseContentLength` gives `v` exactly when the header is not blank and,
      trimmed and without its underscores, is a numeral of `v` that fits in a
      `Long`. */
  lemma HeaderExactly(header: string, v: int)
    ensures ParseContentLength(Some(header)) == Some(v) <==>
              && !IsBlank(header)
              && (exists sign, zeros :: RemoveUnderscores(Trim(header)) == Numeral(sign, zeros, Abs(v))
                                        && Agrees(sign, v))
              && LONG_MIN <= v <= LONG_MAX
  {
    ParseLongExactly(RemoveUnderscores(Trim(header)), v);
  }

  /** A header made of blank padding around any numeral with underscores in
      it, leading zeros and a `+` sign included, parses to the numeral's
      value when it fits in a `Long`, and to null otherwise. */
  lemma HeaderNumeral(pre: string, body: string, post: string, sign: Sign, zeros: nat, m: nat)
    requires IsBlank(pre) && IsBlank(post)
    requires body != [] ==> !IsWhitespace(body[0]) && !IsWhitespace(body[|body| - 1])
    requires RemoveUnderscores(body) == Numeral(sign, zeros, m)
    ensures ParseContentLength(Some(pre + body + post))
            == if LONG_MIN <= Signed(sign, m) <= LONG_MAX then Some(Signed(sign, m)) else None
  {
    NaturalDigits(m);
    assert body != [];
    TrimPadding(pre, body, post);
    ParseNumeral(sign, zeros, m);
  }

  /** Removing underscores distributes over concatenation. */
  lemma {:induction false} RemoveUnderscoresConcat(a: string, b: string)
    ensures RemoveUnderscores(a + b) == RemoveUnderscores(a) + RemoveUnderscores(b)
    decreases |a|
  {
    if a == [] {
      assert a + b == b;
    } else {
      assert (a + b)[1..] == a[1..] + b;
      RemoveUnderscoresConcat(a[1..], b);
    }
  }

  /** `replace("_", "")` keeps every other character: the result holds the
      input's characters with exactly the underscores taken out, so it is
      shorter by the number of underscores. With `RemoveUnderscoresConcat`
      this also fixes their order. */
  lemma {:induction false} RemoveUnderscoresKeeps(s: string)
    ensures multiset(RemoveUnderscores(s)) == multiset(s)['_' := 0]
    ensures |RemoveUnderscores(s)| == |s| - multiset(s)['_']
  {
    if s != [] {
      assert s == [s[0]] + s[1..];
      RemoveUnderscoresKeeps(s[1..]);
    }
  }

  function Pow10(k: nat): (r: nat)
    ensures r >= 1
  {
    if k == 0 then 1 else 10 * Pow10(k - 1)
  }

  /** Reading two digit groups one after the other: the value of the first
      shifted past the second, plus the second. */
  lemma {:induction false} DigitsValueConcat(a: string, b: string)
    requires AllDigits(a) && AllDigits(b)
    ensures AllDigits(a + b)
    ensures DigitsValue(a + b) == DigitsValue(a) * Pow10(|b|) + DigitsValue(b)
    decreases |b|
  {
    if b == [] {
      assert a + b == a;
    } else {
      var b' := b[..|b| - 1];
      var c := b[|b| - 1];
      assert b == b' + [c];
      assert a + b == (a + b') + [c];
      DigitsValueConcat(a, b');
      DigitsValueAppend(a + b', c);
      DigitsValueAppend(b', c);
      assert Pow10(|b|) == 10 * Pow10(|b'|);
      ShiftDigit(DigitsValue(a), Pow10(|b'|), DigitsValue(b'), c as int - '0' as int);
    }
  }

  /** Appending a digit to a shifted sum: the rearrangement behind
      `DigitsValueConcat`. */
  lemma ShiftDigit(x: int, p: int, y: int, d: int)
    ensures (x * p + y) * 10 + d == x * (10 * p) + (y * 10 + d)
  {
  }

  lemma UnderscoreGroups(header: string, t: string, d: string, z: string)
    requires header == "3_200_000_000" && t == "3" && d == "200" && z == "000"
    ensures RemoveUnderscores(header) == t + (d + (z + z))
  {
    var u := "_";
    assert t + ((u + d) + ((u + z) + (u + z))) == header;
    SeparatedGroups(u, t, d, z);
  }

  /** Removing the separators from three groups joined by an underscore. */
  lemma SeparatedGroups(u: string, t: string, d: string, z: string)
    requires |u| == 1 && u[0] == '_'
    requires '_' !in t && '_' !in d && '_' !in z
    ensures RemoveUnderscores(t + ((u + d) + ((u + z) + (u + z)))) == t + (d + (z + z))
  {
    DropSeparator(u, d);
    DropSeparator(u, z);
    RemoveUnderscoresConcat(u + z, u + z);
    RemoveUnderscoresConcat(u + d, (u + z) + (u + z));
    RemoveUnderscoresConcat(t, (u + d) + ((u + z) + (u + z)));
  }

  /** An underscore in front of a group without one is dropped. */
  lemma DropSeparator(u: string, g: string)
    requires |u| == 1 && u[0] == '_' && '_' !in g
    ensures RemoveUnderscores(u + g) == g
  {
    assert (u + g)[1..] == g;
  }

  /** The digit group `c1 c2 c3` has the value the three digits spell. */
  lemma ThreeDigits(g: string, c1: char, c2: char, c3: char)
    requires IsDigit(c1) && IsDigit(c2) && IsDigit(c3) && g == [c1, c2, c3]
    ensures AllDigits(g) && |g| == 3
    ensures DigitsValue(g) == ((c1 as int - '0' as int) * 10 + (c2 as int - '0' as int)) * 10 + (c3 as int - '0' as int)
  {
    var a: string := [c1];
    var b: string := a + [c2];
    assert b + [c3] == g;
    assert a == [] + [c1];
    DigitsValueAppend([], c1);
    DigitsValueAppend(a, c2);
    DigitsValueAppend(b, c3);
  }

  lemma GroupedDigits(t: string, d: string, z: string)
    requires AllDigits(t) && AllDigits(d) && AllDigits(z)
    requires |t| == 1 && |d| == 3 && |z| == 3 && t[0] == '3'
    requires DigitsValue(t) == 3 && DigitsValue(d) == 200 && DigitsValue(z) == 0
    ensures ParseLong(t + (d + (z + z))) == Some(3_200_000_000)
  {
    var digits := t + (d + (z + z));
    DigitsValueConcat(z, z);
    DigitsValueConcat(d, z + z);
    DigitsValueConcat(t, d + (z + z));
    assert Pow10(3) == 1_000;
    assert Pow10(6) == 1_000_000;
    assert Pow10(9) == 1_000_000_000;
    assert DigitsValue(digits) == 3_200_000_000;
    assert digits[0] == '3';
  }

  /** The header `3_200_000_000` gives a total of 3 200 000 000 bytes, past
      the range of a 32-bit `Int`. The verifier unfolds the string functions
      eagerly on a literal, and an instance of `HeaderNumeral` at this
      header costs more than it can afford; so the trim, the underscores and
      the digits are each settled by a small lemma of their own. */
  lemma UnderscoredHeaderExample(header: string)
    requires header == "3_200_000_000"
    ensures ParseContentLength(Some(header)) == Some(3_200_000_000)
  {
    ExampleTrims(header);
    var t, d, z := ExampleDigits();
    UnderscoreGroups(header, t, d, z);
  }

  /** The digit groups of the example read as 3 200 000 000. */
  lemma ExampleDigits() returns (t: string, d: string, z: string)
    ensures t == "3" && d == "200" && z == "000"
    ensures ParseLong(t + (d + (z + z))) == Some(3_200_000_000)
  {
    t, d, z := "3", "200", "000";
    assert DigitsValue(t) == 3;
    ThreeDigits(d, '2', '0', '0');
    ThreeDigits(z, '0', '0', '0');
    GroupedDigits(t, d, z);
  }

  /** The example header has no whitespace to trim. */
  lemma ExampleTrims(header: string)
    requires header == "3_200_000_000"
    ensures Trim(header) == header && !IsBlank(header)
  {
  }
}
