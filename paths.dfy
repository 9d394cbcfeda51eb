/** Request routing: which branch a (verb, path) pair takes, and the id read from a path. */
module Paths {
  import opened Phones

  // ---------------------------------------------------------------------------
  // String.prototype.split with a one-character separator

  /** The pieces of `s` between occurrences of `sep`; at least one piece, none holding `sep`. */
  function Split(s: string, sep: char): (parts: seq<string>)
    ensures |parts| >= 1
    ensures forall i :: 0 <= i < |parts| ==> sep !in parts[i]
  {
    if s == [] then [""]
    else if s[0] == sep then [""] + Split(s[1..], sep)
    else
      var rest := Split(s[1..], sep);
      [[s[0]] + rest[0]] + rest[1..]
  }

  /** Array.prototype.join, the inverse of Split. */
  function Join(parts: seq<string>, sep: char): string
    requires |parts| >= 1
  {
    if |parts| == 1 then parts[0] else parts[0] + [sep] + Join(parts[1..], sep)
  }

  /** Splitting and joining again gives back the original string. */
  lemma {:induction false} JoinSplit(s: string, sep: char)
    ensures Join(Split(s, sep), sep) == s
  {
    if s != [] {
      JoinSplit(s[1..], sep);
      if s[0] != sep {
        var rest := Split(s[1..], sep);
        if |rest| > 1 {
          assert ([[s[0]] + rest[0]] + rest[1..])[1..] == rest[1..];
        }
      }
    }
  }

  /** A piece with no separator in it is its own split. */
  lemma {:induction false} SplitWithoutSep(w: string, sep: char)
    requires sep !in w
    ensures Split(w, sep) == [w]
  {
    if w != [] {
      SplitWithoutSep(w[1..], sep);
      assert w[0] != sep && [w[0]] + w[1..] == w;
    }
  }

  /** A leading piece ended by the separator comes off the front of the split. */
  lemma {:induction false} SplitAfterPiece(w: string, sep: char, t: string)
    requires sep !in w
    ensures Split(w + [sep] + t, sep) == [w] + Split(t, sep)
  {
    if w == [] {
      assert w + [sep] + t == [sep] + t;
      assert ([sep] + t)[1..] == t;
    } else {
      assert (w + [sep] + t)[1..] == w[1..] + [sep] + t;
      SplitAfterPiece(w[1..], sep, t);
      assert [w[0]] + w[1..] == w;
    }
  }

  // ---------------------------------------------------------------------------
  // parseInt(string) with the radix left out, as ECMAScript defines it

  /** The characters ECMAScript's StrWhiteSpaceChar admits: white space and line terminators. */
  predicate IsJsWhitespace(c: char)
  {
    || c == '\t' || c == '\n' || c == '\U{000B}' || c == '\U{000C}' || c == '\r'
    || c == ' ' || c == '\U{00A0}' || c == '\U{1680}' || ('\U{2000}' <= c <= '\U{200A}')
    || c == '\U{2028}' || c == '\U{2029}' || c == '\U{202F}' || c == '\U{205F}'
    || c == '\U{3000}' || c == '\U{FEFF}'
  }

  /** `s` without its leading white space. */
  function TrimStart(s: string): (t: string)
    ensures |t| <= |s| && t == s[|s| - |t|..]
    ensures t == [] || !IsJsWhitespace(t[0])
    ensures forall i :: 0 <= i < |s| - |t| ==> IsJsWhitespace(s[i])
  {
    if s != [] && IsJsWhitespace(s[0]) then TrimStart(s[1..]) else s
  }

  /** The value of a digit in bases up to 36 (letters in either case), 36 for anything else. */
  function DigitValue(c: char): (v: nat)
    ensures v <= 36
    ensures v < 10 <==> '0' <= c <= '9'
  {
    if '0' <= c <= '9' then c as int - '0' as int
    else if 'a' <= c <= 'z' then c as int - 'a' as int + 10
    else if 'A' <= c <= 'Z' then c as int - 'A' as int + 10
    else 36
  }

  /** The longest prefix of `s` made of digits of the given base. */
  function DigitPrefix(s: string, radix: nat): (d: string)
    ensures |d| <= |s| && d == s[..|d|]
    ensures forall i :: 0 <= i < |d| ==> DigitValue(d[i]) < radix
    ensures |d| == |s| || DigitValue(s[|d|]) >= radix
  {
    if s != [] && DigitValue(s[0]) < radix then [s[0]] + DigitPrefix(s[1..], radix) else []
  }

  /** The number a string of digits denotes in the given base, most significant digit first. */
  function DigitsValue(d: string, radix: nat): nat
  {
    if d == [] then 0
    else DigitsValue(d[..|d| - 1], radix) * radix + DigitValue(d[|d| - 1])
  }

  /** The digits after any sign: base 16 after a `0x` or `0X` prefix, base 10 otherwise; `None` when there are none. */
  function ParseMagnitude(u: string): (r: Option<nat>)
    ensures (forall i :: 0 <= i < |u| ==> DigitValue(u[i]) >= 10) ==> r == None
    ensures r.Some? <==> if HexPrefixed(u) then |u| > 2 && DigitValue(u[2]) < 16
                         else u != [] && DigitValue(u[0]) < 10
  {
    var hex := HexPrefixed(u);
    var radix := if hex then 16 else 10;
    var d := DigitPrefix(if hex then u[2..] else u, radix);
    if d == [] then None else Some(DigitsValue(d, radix))
  }

  /** `u` begins with `0x` or `0X`, which switches parseInt to base 16. */
  predicate HexPrefixed(u: string)
  {
    |u| >= 2 && u[0] == '0' && (u[1] == 'x' || u[1] == 'X')
  }

  /** `t` without one leading `-` or `+`. */
  function StripSign(t: string): (u: string)
    ensures u == t || (t != [] && (t[0] == '-' || t[0] == '+') && u == t[1..])
  {
    if t != [] && (t[0] == '-' || t[0] == '+') then t[1..] else t
  }

  /** An optional `-` or `+`, then the magnitude; a `-` negates it. */
  function ParseSigned(t: string): (r: Option<int>)
    ensures (forall i :: 0 <= i < |t| ==> DigitValue(t[i]) >= 10) ==> r == None
    ensures r.Some? <==> ParseMagnitude(StripSign(t)).Some?
  {
    var sign := if t != [] && t[0] == '-' then -1 else 1;
    match ParseMagnitude(StripSign(t))
    case None => None
    case Some(m) => Some(sign * m)
  }

  /**
   * `parseInt(s)`: `None` is NaN. Leading white space is skipped first. The result is a number
   * exactly when, after the white space and one sign, a decimal digit comes first and, if that
   * begins a `0x` prefix, a hexadecimal digit follows the prefix.
   */
  function ParseInt(s: string): (r: Option<int>)
    ensures (forall i :: 0 <= i < |s| ==> DigitValue(s[i]) >= 10) ==> r == None
    ensures var u := StripSign(TrimStart(s));
            r.Some? <==> if HexPrefixed(u) then |u| > 2 && DigitValue(u[2]) < 16
                         else u != [] && DigitValue(u[0]) < 10
    ensures r.Some? ==> var u := StripSign(TrimStart(s)); u != [] && DigitValue(u[0]) < 10
  {
    ParseSigned(TrimStart(s))
  }

  /**
   * A segment whose first character is neither white space, a sign nor a decimal digit
   * (a letter, say, as in "/phones/abc") parses to NaN and so matches no record.
   */
  lemma NonNumericIsNaN(s: string)
    requires s != [] && !IsJsWhitespace(s[0]) && s[0] != '-' && s[0] != '+'
    requires DigitValue(s[0]) >= 10
    ensures ParseInt(s) == None
  {
  }

  /** A natural number written in decimal, without leading zeros. */
  function Decimal(n: nat): (r: string)
    ensures |r| >= 1
    ensures forall i :: 0 <= i < |r| ==> DigitValue(r[i]) < 10
    ensures r[0] == '0' ==> n == 0 && r == "0"
  {
    if n < 10 then ["0123456789"[n]] else Decimal(n / 10) + ["0123456789"[n % 10]]
  }

  lemma {:induction false} DecimalValue(n: nat)
    ensures DigitsValue(Decimal(n), 10) == n
  {
    var r := Decimal(n);
    if n >= 10 {
      DecimalValue(n / 10);
      assert r[..|r| - 1] == Decimal(n / 10);
    }
  }

  lemma {:induction false} DigitPrefixOfDigits(d: string, t: string, radix: nat)
    requires forall i :: 0 <= i < |d| ==> DigitValue(d[i]) < radix
    requires t == [] || DigitValue(t[0]) >= radix
    ensures DigitPrefix(d + t, radix) == d
  {
    if d != [] {
      assert (d + t)[1..] == d[1..] + t;
      DigitPrefixOfDigits(d[1..], t, radix);
    }
  }

  lemma ParseMagnitudeDecimal(n: nat, t: string)
    requires t == [] || DigitValue(t[0]) >= 10
    requires n == 0 && t != [] ==> t[0] != 'x' && t[0] != 'X'
    ensures ParseMagnitude(Decimal(n) + t) == Some(n)
  {
    var d := Decimal(n);
    var u := d + t;
    assert u[0] == d[0];
    assert |u| >= 2 && u[0] == '0' ==> u[1] == t[0];
    DigitPrefixOfDigits(d, t, 10);
    DecimalValue(n);
  }

  /** A string that starts with a sign or a digit has no white space to skip. */
  lemma TrimStartNoSpace(s: string)
    requires s != [] && (s[0] == '-' || DigitValue(s[0]) < 10)
    ensures TrimStart(s) == s
  {
    assert !IsJsWhitespace(s[0]);
  }

  /**
   * parseInt reads back what Decimal writes, with whatever follows that is not a digit;
   * the one exception is "0" followed by "x", which reads as hexadecimal.
   */
  lemma ParseIntDecimal(n: nat, t: string)
    requires t == [] || DigitValue(t[0]) >= 10
    requires n == 0 && t != [] ==> t[0] != 'x' && t[0] != 'X'
    ensures ParseInt(Decimal(n) + t) == Some(n)
  {
    var u := Decimal(n) + t;
    assert u[0] == Decimal(n)[0];
    TrimStartNoSpace(u);
    ParseSignedUnsigned(u);
    ParseMagnitudeDecimal(n, t);
  }

  /** Without a sign the magnitude is the value. */
  lemma ParseSignedUnsigned(u: string)
    requires u == [] || (u[0] != '-' && u[0] != '+')
    ensures ParseSigned(u) == match ParseMagnitude(u)
                              case None => None
                              case Some(m) => Some(m as int)
  {
  }

  /** A string that starts with a digit is read by parseInt as its magnitude. */
  lemma ParseIntUnsigned(u: string, m: nat)
    requires u != [] && DigitValue(u[0]) < 10
    requires ParseMagnitude(u) == Some(m)
    ensures ParseInt(u) == Some(m)
  {
    TrimStartNoSpace(u);
    ParseSignedUnsigned(u);
  }

  /** A leading minus sign negates the magnitude that follows it. */
  lemma ParseSignedNegative(u: string)
    ensures ParseSigned(['-'] + u) == match ParseMagnitude(u)
                                      case None => None
                                      case Some(m) => Some(-(m as int))
  {
    assert StripSign(['-'] + u) == u;
  }

  /** A minus sign before a decimal numeral negates its value. */
  lemma ParseSignedNegativeDecimal(n: nat, t: string)
    requires t == [] || DigitValue(t[0]) >= 10
    requires n == 0 && t != [] ==> t[0] != 'x' && t[0] != 'X'
    ensures ParseSigned(['-'] + (Decimal(n) + t)) == Some(-(n as int))
  {
    ParseMagnitudeDecimal(n, t);
    ParseSignedNegative(Decimal(n) + t);
  }

  /** The same with a minus sign in front. */
  lemma ParseIntNegativeDecimal(n: nat, t: string)
    requires t == [] || DigitValue(t[0]) >= 10
    requires n == 0 && t != [] ==> t[0] != 'x' && t[0] != 'X'
    ensures ParseInt("-" + Decimal(n) + t) == Some(-(n as int))
  {
    var s := "-" + Decimal(n) + t;
    assert s == ['-'] + (Decimal(n) + t);
    TrimStartNoSpace(s);
    ParseSignedNegativeDecimal(n, t);
  }

  lemma TrimStartSkipsOne(c: char, s: string)
    requires IsJsWhitespace(c)
    ensures TrimStart([c] + s) == TrimStart(s)
  {
    assert ([c] + s)[1..] == s;
  }

  /** Leading white space is skipped whatever follows it. */
  lemma {:induction false} TrimStartSkipsWhitespace(w: string, s: string)
    requires forall i :: 0 <= i < |w| ==> IsJsWhitespace(w[i])
    ensures TrimStart(w + s) == TrimStart(s)
    decreases |w|
  {
    if w != [] {
      assert w + s == [w[0]] + (w[1..] + s);
      TrimStartSkipsOne(w[0], w[1..] + s);
      TrimStartSkipsWhitespace(w[1..], s);
    } else {
      assert w + s == s;
    }
  }

  /** White space in front of a string does not change what parseInt reads from it. */
  lemma ParseIntSkipsWhitespace(w: string, s: string)
    requires forall i :: 0 <= i < |w| ==> IsJsWhitespace(w[i])
    ensures ParseInt(w + s) == ParseInt(s)
  {
    TrimStartSkipsWhitespace(w, s);
  }

  /** A leading plus sign keeps the magnitude that follows it. */
  lemma ParseSignedPlus(u: string)
    ensures ParseSigned(['+'] + u) == match ParseMagnitude(u)
                                      case None => None
                                      case Some(m) => Some(m as int)
  {
    assert StripSign(['+'] + u) == u;
  }

  /** A plus sign before a decimal numeral keeps its value. */
  lemma ParseSignedPlusDecimal(n: nat, t: string)
    requires t == [] || DigitValue(t[0]) >= 10
    requires n == 0 && t != [] ==> t[0] != 'x' && t[0] != 'X'
    ensures ParseSigned(['+'] + (Decimal(n) + t)) == Some(n)
  {
    ParseMagnitudeDecimal(n, t);
    ParseSignedPlus(Decimal(n) + t);
  }

  /** parseInt reads a decimal numeral with a plus sign in front as its value. */
  lemma ParseIntPlusDecimal(n: nat, t: string)
    requires t == [] || DigitValue(t[0]) >= 10
    requires n == 0 && t != [] ==> t[0] != 'x' && t[0] != 'X'
    ensures ParseInt("+" + Decimal(n) + t) == Some(n)
  {
    var s := "+" + Decimal(n) + t;
    assert s == ['+'] + (Decimal(n) + t);
    assert !IsJsWhitespace(s[0]);
    assert TrimStart(s) == s;
    ParseSignedPlusDecimal(n, t);
  }

  /** `k` zero digits. */
  function Zeros(k: nat): (z: string)
    ensures |z| == k && forall i :: 0 <= i < k ==> z[i] == '0'
  {
    if k == 0 then [] else ['0'] + Zeros(k - 1)
  }

  lemma {:induction false} ZerosValue(k: nat, radix: nat)
    ensures DigitsValue(Zeros(k), radix) == 0
    decreases k
  {
    if k > 0 {
      assert Zeros(k)[..k - 1] == Zeros(k - 1);
      ZerosValue(k - 1, radix);
    }
  }

  /** Leading zeros do not change the value of a string of digits. */
  lemma {:induction false} DigitsValueLeadingZeros(k: nat, d: string, radix: nat)
    ensures DigitsValue(Zeros(k) + d, radix) == DigitsValue(d, radix)
    decreases |d|
  {
    var z := Zeros(k) + d;
    if d == [] {
      assert z == Zeros(k);
      ZerosValue(k, radix);
    } else {
      assert z[..|z| - 1] == Zeros(k) + d[..|d| - 1];
      assert z[|z| - 1] == d[|d| - 1];
      DigitsValueLeadingZeros(k, d[..|d| - 1], radix);
    }
  }

  /** After one or more zeros the numeral is read in base 10 and the zeros add nothing. */
  lemma ParseMagnitudeLeadingZeros(k: nat, n: nat, t: string)
    requires k >= 1
    requires t == [] || DigitValue(t[0]) >= 10
    ensures ParseMagnitude(Zeros(k) + Decimal(n) + t) == Some(n)
  {
    var d := Zeros(k) + Decimal(n);
    var u := d + t;
    assert u == Zeros(k) + Decimal(n) + t;
    assert u[0] == '0';
    assert u[1] == d[1];
    assert DigitValue(d[1]) < 10;
    assert !HexPrefixed(u);
    DigitPrefixOfDigits(d, t, 10);
    DigitsValueLeadingZeros(k, Decimal(n), 10);
    DecimalValue(n);
  }

  /** One or more zeros start the numeral, so there is no white space, sign or "0x" to consider. */
  lemma ParseIntSomeLeadingZeros(k: nat, n: nat, t: string)
    requires k >= 1
    requires t == [] || DigitValue(t[0]) >= 10
    ensures ParseInt(Zeros(k) + Decimal(n) + t) == Some(n)
  {
    var u := Zeros(k) + Decimal(n) + t;
    assert u[0] == '0';
    ParseMagnitudeLeadingZeros(k, n, t);
    ParseIntUnsigned(u, n);
  }

  /** parseInt reads a decimal numeral with any number of leading zeros as its value. */
  lemma ParseIntLeadingZeros(k: nat, n: nat, t: string)
    requires t == [] || DigitValue(t[0]) >= 10
    requires k == 0 && n == 0 && t != [] ==> t[0] != 'x' && t[0] != 'X'
    ensures ParseInt(Zeros(k) + Decimal(n) + t) == Some(n)
  {
    if k == 0 {
      var z := Zeros(k);
      assert z == [];
      assert z + Decimal(n) == Decimal(n);
      ParseIntDecimal(n, t);
    } else {
      ParseIntSomeLeadingZeros(k, n, t);
    }
  }

  /** A natural number written in lower-case hexadecimal, without leading zeros. */
  function Hex(n: nat): (r: string)
    ensures |r| >= 1
    ensures forall i :: 0 <= i < |r| ==> DigitValue(r[i]) < 16
  {
    if n < 16 then ["0123456789abcdef"[n]] else Hex(n / 16) + ["0123456789abcdef"[n % 16]]
  }

  lemma HexDigitValue(d: nat)
    requires d < 16
    ensures DigitValue("0123456789abcdef"[d]) == d
  {
  }

  lemma {:induction false} HexValue(n: nat)
    ensures DigitsValue(Hex(n), 16) == n
  {
    var r := Hex(n);
    if n >= 16 {
      HexValue(n / 16);
      assert r[..|r| - 1] == Hex(n / 16);
      HexDigitValue(n % 16);
    } else {
      HexDigitValue(n);
    }
  }

  /** After a "0x" prefix the hexadecimal digits are read in base 16. */
  lemma ParseMagnitudeHex(n: nat, t: string)
    requires t == [] || DigitValue(t[0]) >= 16
    ensures ParseMagnitude("0x" + Hex(n) + t) == Some(n)
  {
    var u := "0x" + Hex(n) + t;
    assert HexPrefixed(u);
    assert u[2..] == Hex(n) + t;
    DigitPrefixOfDigits(Hex(n), t, 16);
    HexValue(n);
  }

  /** parseInt reads "0x" and hexadecimal digits as their value, ignoring a tail that is no hexadecimal digit. */
  lemma ParseIntHex(n: nat, t: string)
    requires t == [] || DigitValue(t[0]) >= 16
    ensures ParseInt("0x" + Hex(n) + t) == Some(n)
  {
    var u := "0x" + Hex(n) + t;
    assert u[0] == '0';
    ParseMagnitudeHex(n, t);
    ParseIntUnsigned(u, n);
  }

  // ---------------------------------------------------------------------------
  // Routing

  /** The third `/`-separated piece of a path (`split('/')[2]`), absent when there are fewer. */
  function PathSegment(path: string): (seg: Option<string>)
    ensures seg.Some? ==> '/' !in seg.value
  {
    var parts := Split(path, '/');
    if |parts| > 2 then Some(parts[2]) else None
  }

  /** The id named by a path: `parseInt` of its third piece; a missing piece parses to NaN. */
  function PathId(path: string): (id: Option<int>)
    ensures |Split(path, '/')| <= 2 ==> id == None
    ensures id.Some? ==>
              && PathSegment(path).Some?
              && var u := StripSign(TrimStart(PathSegment(path).value));
                 u != [] && DigitValue(u[0]) < 10
  {
    match PathSegment(path)
    case None => None
    case Some(seg) => ParseInt(seg)
  }

  /** Every path under "/phones/" has a third piece: what follows, up to the next slash. */
  lemma PhonesPathSegment(w: string, rest: string)
    requires '/' !in w
    ensures PathSegment("/phones/" + w) == Some(w)
    ensures PathSegment("/phones/" + w + "/" + rest) == Some(w)
  {
    SplitWithoutSep(w, '/');
    SplitAfterPiece("", '/', "phones/" + w);
    assert "/phones/" + w == "" + ['/'] + ("phones/" + w);
    SplitAfterPiece("phones", '/', w);
    assert "phones/" + w == "phones" + ['/'] + w;
    var t := "/phones/" + w + "/" + rest;
    assert t == "" + ['/'] + ("phones" + ['/'] + (w + ['/'] + rest));
    SplitAfterPiece("", '/', "phones" + ['/'] + (w + ['/'] + rest));
    SplitAfterPiece("phones", '/', w + ['/'] + rest);
    SplitAfterPiece(w, '/', rest);
  }

  /** Under "/phones/" the id is `parseInt` of the text up to the next slash, whatever follows it. */
  lemma PathIdUnderPhones(w: string, rest: string)
    requires '/' !in w
    ensures PathId("/phones/" + w) == ParseInt(w)
    ensures PathId("/phones/" + w + "/" + rest) == ParseInt(w)
  {
    PhonesPathSegment(w, rest);
  }

  /** The path a record is served at reads back as that record's id. */
  lemma PathIdOfRecord(n: nat)
    ensures PathId("/phones/" + Decimal(n)) == Some(n)
  {
    PhonesPathSegment(Decimal(n), "");
    ParseIntDecimal(n, "");
    assert Decimal(n) + "" == Decimal(n);
  }

  /** "/phones/" with nothing after it names no id. */
  lemma EmptySegmentIsNaN()
    ensures PathId("/phones/") == None
  {
    PhonesPathSegment("", "");
    assert "/phones/" + "" == "/phones/";
  }

  datatype Route = ListPhones | GetPhone | CreatePhone | UpdatePhone | DeletePhone | NoRoute

  /** The request handler's if-chain: the first test that holds picks the branch. */
  function RouteOf(verb: string, path: string): (r: Route)
    ensures r.ListPhones? <==> verb == "GET" && path == "/phones"
    ensures r.GetPhone? <==> verb == "GET" && "/phones/" <= path
    ensures r.CreatePhone? <==> verb == "POST" && path == "/phones"
    ensures r.UpdatePhone? <==> verb == "PUT" && "/phones/" <= path
    ensures r.DeletePhone? <==> verb == "DELETE" && "/phones/" <= path
  {
    if verb == "GET" && path == "/phones" then ListPhones
    else if verb == "GET" && "/phones/" <= path then GetPhone
    else if verb == "POST" && path == "/phones" then CreatePhone
    else if verb == "PUT" && "/phones/" <= path then UpdatePhone
    else if verb == "DELETE" && "/phones/" <= path then DeletePhone
    else NoRoute
  }

  /** The branches that read an id always find a third piece in the path. */
  lemma RoutedPathHasSegment(verb: string, path: string)
    requires RouteOf(verb, path) in {GetPhone, UpdatePhone, DeletePhone}
    ensures PathSegment(path).Some?
  {
    var rest := path[8..];
    assert path == "/phones/" + rest;
    SplitAfterPiece("", '/', "phones/" + rest);
    assert path == "" + ['/'] + ("phones/" + rest);
    SplitAfterPiece("phones", '/', rest);
    assert "phones/" + rest == "phones" + ['/'] + rest;
  }
}
