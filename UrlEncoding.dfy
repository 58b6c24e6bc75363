/** PHP's `urlencode` (the application/x-www-form-urlencoded style: bytes
    other than A-Z a-z 0-9 - _ . become %XX with upper-case hex digits, and
    a space becomes '+'), its inverse `urldecode`, and the splitting of a
    query string into its '&'-separated fields.
    A PHP string is a byte string; a Dafny string stands for it with one
    char per byte, so every char is below 256. */
module UrlEncoding {

  predicate IsByteString(s: string) {
    forall i | 0 <= i < |s| :: s[i] as int < 256
  }

  /** The bytes urlencode leaves as they are. */
  predicate Unreserved(c: char) {
    ('A' <= c <= 'Z') || ('a' <= c <= 'z') || ('0' <= c <= '9') || c == '-' || c == '_' || c == '.'
  }

  /** The chars an encoded value can contain; none of them separates query
      fields ('&'), names from values ('=') or the fragment ('#'). */
  predicate EncodedChar(c: char) {
    Unreserved(c) || c == '+' || c == '%'
  }

  /** Upper-case hexadecimal digit for 0..15. */
  function HexDigit(n: int): (c: char)
    requires 0 <= n < 16
    ensures Unreserved(c)
  {
    if n < 10 then ('0' as int + n) as char else ('A' as int + n - 10) as char
  }

  predicate IsHex(c: char) {
    ('0' <= c <= '9') || ('A' <= c <= 'F') || ('a' <= c <= 'f')
  }

  function HexValue(c: char): (n: int)
    requires IsHex(c)
    ensures 0 <= n < 16
  {
    if '0' <= c <= '9' then c as int - '0' as int
    else if 'A' <= c <= 'F' then c as int - 'A' as int + 10
    else c as int - 'a' as int + 10
  }

  /** The encoding of one byte. */
  function EncodeByte(c: char): string
    requires c as int < 256
  {
    if Unreserved(c) then [c]
    else if c == ' ' then "+"
    else ['%', HexDigit(c as int / 16), HexDigit(c as int % 16)]
  }

  /** `urlencode($s)` */
  function UrlEncode(s: string): (e: string)
    requires IsByteString(s)
    ensures forall i | 0 <= i < |e| :: EncodedChar(e[i])
    ensures |s| <= |e| <= 3 * |s|
  {
    if s == [] then "" else EncodeByte(s[0]) + UrlEncode(s[1..])
  }

  /** `urldecode($e)`: '+' is a space, '%' followed by two hex digits is
      that byte, anything else stands for itself. */
  function UrlDecode(e: string): string
    decreases |e|
  {
    if e == [] then ""
    else if e[0] == '+' then " " + UrlDecode(e[1..])
    else if e[0] == '%' && |e| >= 3 && IsHex(e[1]) && IsHex(e[2]) then
      [(HexValue(e[1]) * 16 + HexValue(e[2])) as char] + UrlDecode(e[3..])
    else [e[0]] + UrlDecode(e[1..])
  }

  lemma HexRoundTrip(n: int)
    requires 0 <= n < 16
    ensures IsHex(HexDigit(n)) && HexValue(HexDigit(n)) == n
  {
  }

  /** Decoding one encoded byte gives the byte back and leaves the rest. */
  lemma DecodeEncodedByte(c: char, rest: string)
    requires c as int < 256
    ensures UrlDecode(EncodeByte(c) + rest) == [c] + UrlDecode(rest)
  {
    var e := EncodeByte(c) + rest;
    if Unreserved(c) {
      assert e == [c] + rest;
      assert e[1..] == rest;
    } else if c == ' ' {
      assert e == "+" + rest;
      assert e[1..] == rest;
    } else {
      var hi, lo := c as int / 16, c as int % 16;
      HexRoundTrip(hi);
      HexRoundTrip(lo);
      assert e == ['%', HexDigit(hi), HexDigit(lo)] + rest;
      assert e[3..] == rest;
      assert (HexValue(e[1]) * 16 + HexValue(e[2])) as char == c;
    }
  }

  /** urldecode undoes urlencode: the encoding loses nothing. */
  lemma {:induction false} UrlDecodeEncode(s: string)
    requires IsByteString(s)
    ensures UrlDecode(UrlEncode(s)) == s
  {
    if s != [] {
      DecodeEncodedByte(s[0], UrlEncode(s[1..]));
      UrlDecodeEncode(s[1..]);
      assert s == [s[0]] + s[1..];
    }
  }

  /** The '&'-separated fields of a query string, in order. */
  function SplitFields(q: string): (fields: seq<string>)
    ensures |fields| >= 1
    decreases |q|
  {
    if q == [] then [""]
    else if q[0] == '&' then [""] + SplitFields(q[1..])
    else
      var r := SplitFields(q[1..]);
      [[q[0]] + r[0]] + r[1..]
  }

  /** No '&' occurs in the string. */
  predicate NoSeparator(s: string) {
    forall i | 0 <= i < |s| :: s[i] != '&'
  }

  lemma NoSeparatorConcat(a: string, b: string)
    requires NoSeparator(a) && NoSeparator(b)
    ensures NoSeparator(a + b)
  {
    forall i | 0 <= i < |a + b| ensures (a + b)[i] != '&' {
      if i >= |a| { assert (a + b)[i] == b[i - |a|]; }
    }
  }

  /** An encoded value never splits a query string. */
  lemma EncodedHasNoSeparator(s: string)
    requires IsByteString(s)
    ensures NoSeparator(UrlEncode(s))
  {
  }

  /** A string without '&' is a single field. */
  lemma {:induction false} SplitNoSeparator(a: string)
    requires NoSeparator(a)
    ensures SplitFields(a) == [a]
  {
    if a != [] {
      SplitNoSeparator(a[1..]);
      assert a == [a[0]] + a[1..];
    }
  }

  /** Splitting `a & b` where `a` holds no '&' gives `a` followed by the
      fields of `b`. */
  lemma {:induction false} SplitAtSeparator(a: string, b: string)
    requires NoSeparator(a)
    ensures SplitFields(a + "&" + b) == [a] + SplitFields(b)
  {
    if a == [] {
      assert a + "&" + b == "&" + b;
      assert ("&" + b)[1..] == b;
    } else {
      SplitAtSeparator(a[1..], b);
      assert (a + "&" + b)[1..] == a[1..] + "&" + b;
      assert a == [a[0]] + a[1..];
    }
  }

  /** A field whose value is url-encoded holds no '&'. */
  lemma EncodedField(name: string, value: string)
    requires NoSeparator(name) && IsByteString(value)
    ensures SplitFields(name + UrlEncode(value)) == [name + UrlEncode(value)]
  {
    EncodedHasNoSeparator(value);
    NoSeparatorConcat(name, UrlEncode(value));
    SplitNoSeparator(name + UrlEncode(value));
  }

  /** Three fields, the first two without '&', joined by '&'. */
  lemma ThreeFields(f1: string, f2: string, f3: string)
    requires NoSeparator(f1) && NoSeparator(f2) && SplitFields(f3) == [f3]
    ensures SplitFields(f1 + "&" + (f2 + "&" + f3)) == [f1, f2, f3]
  {
    SplitAtSeparator(f1, f2 + "&" + f3);
    SplitAtSeparator(f2, f3);
  }

  /** Two fields, the first without '&', joined by '&'. */
  lemma TwoFields(f1: string, f2: string)
    requires NoSeparator(f1) && SplitFields(f2) == [f2]
    ensures SplitFields(f1 + "&" + f2) == [f1, f2]
  {
    SplitAtSeparator(f1, f2);
  }
}
