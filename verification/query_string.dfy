/** The pieces of Node's `querystring` and `Array.prototype.join` that the
    search uses to build request paths and record links. `stringify` of a
    one-key object is `key=` followed by the escaped value; escaping is
    UTF-8 percent-encoding (upper-case hex, as in section 2.1 of RFC 3986)
    of every character outside the unreserved set `A-Z a-z 0-9 - _ . ! ~ * ' ( )`. */
module QueryString {

  type Byte = b: int | 0 <= b < 256

  /** Characters `querystring.escape` leaves as they are. */
  predicate IsUnreserved(c: char) {
    || ('A' <= c <= 'Z')
    || ('a' <= c <= 'z')
    || ('0' <= c <= '9')
    || c in "-_.!~*'()"
  }

  predicate AllUnreserved(s: string) {
    forall i :: 0 <= i < |s| ==> IsUnreserved(s[i])
  }

  function HexDigit(d: int): (c: char)
    requires 0 <= d < 16
    ensures c in "0123456789ABCDEF"
  {
    if d < 10 then ('0' as int + d) as char else ('A' as int + d - 10) as char
  }

  /** The UTF-8 encoding of one Unicode scalar value (RFC 3629, section 3):
      one byte below 0x80, two below 0x800, three below 0x10000, else four;
      the first byte of a multi-byte form is a lead byte, the rest are
      continuation bytes. */
  function Utf8(c: char): (r: seq<Byte>)
    ensures |r| == (if c as int < 0x80 then 1 else if c as int < 0x800 then 2
                    else if c as int < 0x10000 then 3 else 4)
    ensures |r| == 1 <==> r[0] < 0x80
    ensures |r| > 1 ==> r[0] >= 0xC0 && forall k :: 1 <= k < |r| ==> 0x80 <= r[k] < 0xC0
    ensures |r| == 2 ==> 0xC2 <= r[0] <= 0xDF
    ensures |r| == 3 ==> 0xE0 <= r[0] <= 0xEF
    ensures |r| == 4 ==> 0xF0 <= r[0] <= 0xF4
  {
    var n := c as int;
    if n < 0x80 then [n]
    else if n < 0x800 then [0xC0 + n / 0x40, 0x80 + n % 0x40]
    else if n < 0x1_0000 then [0xE0 + n / 0x1000, 0x80 + (n / 0x40) % 0x40, 0x80 + n % 0x40]
    else [0xF0 + n / 0x4_0000, 0x80 + (n / 0x1000) % 0x40, 0x80 + (n / 0x40) % 0x40, 0x80 + n % 0x40]
  }

  /** The code point a well-formed UTF-8 sequence of one to four bytes
      stands for: the lead byte's payload bits followed by six bits from each
      continuation byte. */
  function DecodeUtf8(r: seq<Byte>): int {
    if |r| == 1 then r[0] as int
    else if |r| == 2 then (r[0] as int - 0xC0) * 0x40 + (r[1] as int - 0x80)
    else if |r| == 3 then ((r[0] as int - 0xE0) * 0x40 + (r[1] as int - 0x80)) * 0x40 + (r[2] as int - 0x80)
    else if |r| == 4 then
      (((r[0] as int - 0xF0) * 0x40 + (r[1] as int - 0x80)) * 0x40 + (r[2] as int - 0x80)) * 0x40 + (r[3] as int - 0x80)
    else -1
  }

  /** Splitting off the low six bits. */
  lemma SixBits(n: int)
    requires n >= 0
    ensures n == (n / 0x40) * 0x40 + n % 0x40
    ensures (n / 0x40) % 0x40 == (n % 0x1000) / 0x40
    ensures n / 0x1000 == (n / 0x40) / 0x40
  {
  }

  /** Decoding the encoding of a character gives back its code point. */
  lemma Utf8Decodes(c: char)
    ensures DecodeUtf8(Utf8(c)) == c as int
  {
    var n := c as int;
    var r := Utf8(c);
    if n < 0x80 {
    } else if n < 0x800 {
      assert r == [0xC0 + n / 0x40, 0x80 + n % 0x40];
      SixBits(n);
    } else if n < 0x1_0000 {
      var a, b := n / 0x40, n % 0x40;
      SixBits(n);
      SixBits(a);
      assert r == [0xE0 + a / 0x40, 0x80 + a % 0x40, 0x80 + b];
      assert DecodeUtf8(r) == ((a / 0x40) * 0x40 + a % 0x40) * 0x40 + b;
    } else {
      var a, b := n / 0x40, n % 0x40;
      var d, e := a / 0x40, a % 0x40;
      SixBits(n);
      SixBits(a);
      SixBits(d);
      assert n / 0x1000 == d;
      assert n / 0x4_0000 == d / 0x40;
      assert (n / 0x1000) % 0x40 == d % 0x40;
      assert r == [0xF0 + d / 0x40, 0x80 + d % 0x40, 0x80 + e, 0x80 + b];
      assert DecodeUtf8(r) == (((d / 0x40) * 0x40 + d % 0x40) * 0x40 + e) * 0x40 + b;
    }
  }

  /** `%XY` for each byte. */
  function PercentEncode(bytes: seq<Byte>): (r: string)
    ensures |r| == 3 * |bytes|
    ensures |bytes| > 0 ==> r[0] == '%'
  {
    if |bytes| == 0 then ""
    else ['%', HexDigit(bytes[0] / 16), HexDigit(bytes[0] % 16)] + PercentEncode(bytes[1..])
  }

  function EscapeChar(c: char): (r: string)
    ensures IsUnreserved(c) ==> r == [c]
    ensures !IsUnreserved(c) ==> 3 <= |r| <= 12 && r[0] == '%'
  {
    if IsUnreserved(c) then [c] else PercentEncode(Utf8(c))
  }

  /** `querystring.escape`. */
  function Escape(s: string): (r: string)
    ensures |r| >= |s|
    decreases |s|
  {
    if |s| == 0 then "" else EscapeChar(s[0]) + Escape(s[1..])
  }

  /** `querystring.stringify({key: value})` for a string value. */
  function Param(key: string, value: string): string {
    key + "=" + Escape(value)
  }

  /** Escaping works character by character, so it distributes over
      concatenation. */
  lemma {:induction false} EscapeAppend(a: string, b: string)
    ensures Escape(a + b) == Escape(a) + Escape(b)
    decreases |a|
  {
    if |a| == 0 {
      assert a + b == b;
    } else {
      assert (a + b)[0] == a[0];
      assert (a + b)[1..] == a[1..] + b;
      EscapeAppend(a[1..], b);
    }
  }

  /** Escaping grows the string by at least two characters for every
      character outside the unreserved set. */
  lemma {:induction false} EscapeGrows(s: string, i: nat)
    requires i < |s| && !IsUnreserved(s[i])
    ensures |Escape(s)| >= |s| + 2
    decreases |s|
  {
    if i > 0 {
      EscapeGrows(s[1..], i - 1);
    }
  }

  /** Escaping changes nothing exactly when every character is unreserved. */
  lemma {:induction false} EscapeIdentityIff(s: string)
    ensures Escape(s) == s <==> AllUnreserved(s)
    decreases |s|
  {
    if |s| > 0 {
      EscapeIdentityIff(s[1..]);
      if AllUnreserved(s) {
        assert AllUnreserved(s[1..]);
        assert [s[0]] + s[1..] == s;
      } else {
        var i :| 0 <= i < |s| && !IsUnreserved(s[i]);
        EscapeGrows(s, i);
      }
    }
  }

  /** The comma between joined ids becomes `%2C`. */
  lemma EscapeComma()
    ensures Escape(",") == "%2C"
  {
    assert !IsUnreserved(',');
    assert Utf8(',') == [0x2C];
    assert PercentEncode([0x2C]) == "%2C";
  }

  /** `Array.prototype.join(sep)` on strings. */
  function Join(xs: seq<string>, sep: string): string
    decreases |xs|
  {
    if |xs| == 0 then ""
    else if |xs| == 1 then xs[0]
    else xs[0] + sep + Join(xs[1..], sep)
  }

  function EscapeEach(xs: seq<string>): (r: seq<string>)
    ensures |r| == |xs|
    ensures forall k :: 0 <= k < |xs| ==> r[k] == Escape(xs[k])
    decreases |xs|
  {
    if |xs| == 0 then [] else [Escape(xs[0])] + EscapeEach(xs[1..])
  }

  /** The escaped comma-joined list is the escaped items joined by `%2C`,
      in the same order. */
  lemma {:induction false} EscapeJoin(xs: seq<string>)
    ensures Escape(Join(xs, ",")) == Join(EscapeEach(xs), "%2C")
    decreases |xs|
  {
    if |xs| > 1 {
      EscapeAppend(xs[0] + ",", Join(xs[1..], ","));
      EscapeAppend(xs[0], ",");
      EscapeComma();
      EscapeJoin(xs[1..]);
      assert EscapeEach(xs)[1..] == EscapeEach(xs[1..]);
    }
  }

  /** Splitting on one character: the inverse of `Join` for items that do
      not contain that character. */
  function Split(s: string, sep: char): (r: seq<string>)
    ensures |r| >= 1
    ensures forall k :: 0 <= k < |r| ==> sep !in r[k]
    decreases |s|
  {
    if |s| == 0 then [""]
    else
      var rest := Split(s[1..], sep);
      if s[0] == sep then [""] + rest
      else [[s[0]] + rest[0]] + rest[1..]
  }

  lemma {:induction false} SplitPlain(w: string, sep: char)
    requires sep !in w
    ensures Split(w, sep) == [w]
    decreases |w|
  {
    if |w| > 0 {
      SplitPlain(w[1..], sep);
      assert [w[0]] + w[1..] == w;
    }
  }

  lemma {:induction false} SplitAfterItem(w: string, sep: char, t: string)
    requires sep !in w
    ensures Split(w + [sep] + t, sep) == [w] + Split(t, sep)
    decreases |w|
  {
    var s := w + [sep] + t;
    if |w| == 0 {
      assert s[0] == sep && s[1..] == t;
    } else {
      assert s[0] == w[0];
      assert s[1..] == w[1..] + [sep] + t;
      SplitAfterItem(w[1..], sep, t);
      assert [w[0]] + w[1..] == w;
    }
  }

  /** Joining a non-empty list whose items hold no separator and splitting
      the result again gives back the list, items and order. */
  lemma {:induction false} SplitJoin(xs: seq<string>, sep: char)
    requires |xs| >= 1
    requires forall k :: 0 <= k < |xs| ==> sep !in xs[k]
    ensures Split(Join(xs, [sep]), sep) == xs
    decreases |xs|
  {
    if |xs| == 1 {
      SplitPlain(xs[0], sep);
    } else {
      SplitAfterItem(xs[0], sep, Join(xs[1..], [sep]));
      SplitJoin(xs[1..], sep);
      assert [xs[0]] + xs[1..] == xs;
    }
  }
}
