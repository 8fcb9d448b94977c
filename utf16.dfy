/**
 * The conversion between Rust text and the window manager's wide-character
 * strings: UTF-16 as defined in sections 2.1 (encoding) and 2.2 (decoding) of
 * RFC 2781.  Text is a `string`, a sequence of Unicode scalar values (a Dafny
 * `char`, like a Rust `char`, is never a surrogate); wide strings are sequences
 * of 16-bit code units.
 */
module Utf16 {
  import opened Wrappers

  /** A 16-bit code unit (the Win32 WCHAR). */
  type Unit = x: int | 0 <= x < 0x1_0000

  predicate IsHighSurrogate(u: Unit) { 0xD800 <= u <= 0xDBFF }

  predicate IsLowSurrogate(u: Unit) { 0xDC00 <= u <= 0xDFFF }

  predicate IsSurrogate(u: Unit) { 0xD800 <= u <= 0xDFFF }

  /** The scalar value a high/low surrogate pair stands for (RFC 2781, section 2.2). */
  function PairValue(high: Unit, low: Unit): (c: int)
    requires IsHighSurrogate(high) && IsLowSurrogate(low)
    ensures 0x10000 <= c <= 0x10FFFF
  {
    0x10000 + (high - 0xD800) * 0x400 + (low - 0xDC00)
  }

  /** The number of code units a scalar value takes in UTF-16 (Rust's `char::len_utf16`). */
  function Width(c: char): nat
  {
    if c as int < 0x10000 then 1 else 2
  }

  /** The UTF-16 length of a text: the sum of the widths of its scalar values. */
  function Utf16Length(s: string): nat
  {
    if s == [] then 0 else Width(s[0]) + Utf16Length(s[1..])
  }

  /** Encodes one scalar value (RFC 2781, section 2.1). */
  function EncodeChar(c: char): (r: seq<Unit>)
    ensures |r| == Width(c)
    ensures c as int < 0x10000 ==> r[0] == c as int && !IsSurrogate(r[0])
    ensures c as int >= 0x10000 ==>
      IsHighSurrogate(r[0]) && IsLowSurrogate(r[1]) && PairValue(r[0], r[1]) == c as int
  {
    if c as int < 0x10000 then
      [c as int]
    else
      var v := c as int - 0x10000;
      [0xD800 + v / 0x400, 0xDC00 + v % 0x400]
  }

  /** Rust's `str::encode_utf16`: the code units of a text, scalar value by scalar value. */
  function EncodeUtf16(s: string): (r: seq<Unit>)
    ensures |r| == Utf16Length(s)
    ensures |s| <= |r| <= 2 * |s|
  {
    if s == [] then [] else EncodeChar(s[0]) + EncodeUtf16(s[1..])
  }

  /**
   * `utf8_to_utf16`: the encoding of a text followed by the one null unit that
   * `FindWindowW` needs to find the end of its argument.
   */
  function Utf8ToUtf16(s: string): (r: seq<Unit>)
    ensures |r| == Utf16Length(s) + 1
    ensures r[|r| - 1] == 0
    ensures Utf16ToUtf8(r[..|r| - 1]) == Some(s)
    ensures 0 in r[..|r| - 1] <==> '\0' in s
  {
    DecodeEncode(s);
    ZeroUnitIffNul(s);
    assert (EncodeUtf16(s) + [0])[..|EncodeUtf16(s)|] == EncodeUtf16(s);
    EncodeUtf16(s) + [0]
  }

  function Cons(c: char, rest: Option<string>): Option<string>
  {
    match rest
    case None => None
    case Some(s) => Some([c] + s)
  }

  /**
   * `utf16_to_utf8`: Rust's `String::from_utf16` followed by `unwrap`.  A
   * scalar value below 0x10000 is one unit, a high surrogate followed by a low
   * surrogate is one scalar value, and any other surrogate makes the
   * conversion fail: None stands for the panic of `unwrap`.
   */
  function Utf16ToUtf8(u: seq<Unit>): (r: Option<string>)
    ensures r.Some? ==> |r.value| <= |u|
  {
    if u == [] then
      Some("")
    else if !IsSurrogate(u[0]) then
      Cons(u[0] as char, Utf16ToUtf8(u[1..]))
    else if IsHighSurrogate(u[0]) && 2 <= |u| && IsLowSurrogate(u[1]) then
      Cons(PairValue(u[0], u[1]) as char, Utf16ToUtf8(u[2..]))
    else
      None
  }

  /**
   * Unit i is an unpaired surrogate: a high surrogate that no low surrogate
   * follows, or a low surrogate that no high surrogate precedes.
   */
  predicate UnpairedAt(u: seq<Unit>, i: int)
    requires 0 <= i < |u|
  {
    || (IsHighSurrogate(u[i]) && (i + 1 == |u| || !IsLowSurrogate(u[i + 1])))
    || (IsLowSurrogate(u[i]) && (i == 0 || !IsHighSurrogate(u[i - 1])))
  }

  predicate HasUnpairedSurrogate(u: seq<Unit>)
  {
    exists i :: 0 <= i < |u| && UnpairedAt(u, i)
  }

  /** Decoding the encoding of any text gives the text back. */
  lemma {:induction false} DecodeEncode(s: string)
    ensures Utf16ToUtf8(EncodeUtf16(s)) == Some(s)
  {
    if s != [] {
      var e, rest := EncodeChar(s[0]), EncodeUtf16(s[1..]);
      var u := e + rest;
      assert EncodeUtf16(s) == u;
      DecodeEncode(s[1..]);
      if s[0] as int < 0x10000 {
        assert u[1..] == rest;
        assert u[0] as char == s[0];
      } else {
        assert u[2..] == rest;
        assert PairValue(u[0], u[1]) as char == s[0];
      }
      assert [s[0]] + s[1..] == s;
    }
  }

  /** Encoding a surrogate pair's scalar value gives the pair back. */
  lemma EncodePair(high: Unit, low: Unit)
    requires IsHighSurrogate(high) && IsLowSurrogate(low)
    ensures EncodeChar(PairValue(high, low) as char) == [high, low]
  {
  }

  /** The encoding of a text that starts with c is the encoding of c, then that of the rest. */
  lemma EncodeCons(c: char, rest: string)
    ensures EncodeUtf16([c] + rest) == EncodeChar(c) + EncodeUtf16(rest)
  {
    assert ([c] + rest)[0] == c && ([c] + rest)[1..] == rest;
  }

  /** A successful decoding loses nothing: encoding its text gives the units back. */
  lemma {:induction false} EncodeDecode(u: seq<Unit>)
    requires Utf16ToUtf8(u).Some?
    ensures EncodeUtf16(Utf16ToUtf8(u).value) == u
  {
    if u != [] {
      if !IsSurrogate(u[0]) {
        var rest := Utf16ToUtf8(u[1..]).value;
        EncodeDecode(u[1..]);
        assert Utf16ToUtf8(u).value == [u[0] as char] + rest;
        EncodeCons(u[0] as char, rest);
        assert EncodeChar(u[0] as char) == [u[0]];
        assert [u[0]] + u[1..] == u;
      } else {
        var rest := Utf16ToUtf8(u[2..]).value;
        EncodeDecode(u[2..]);
        assert Utf16ToUtf8(u).value == [PairValue(u[0], u[1]) as char] + rest;
        EncodeCons(PairValue(u[0], u[1]) as char, rest);
        EncodePair(u[0], u[1]);
        assert [u[0], u[1]] + u[2..] == u;
      }
    }
  }

  /**
   * Dropping a prefix of k units that holds no unpaired surrogate and does not
   * end in a high surrogate keeps exactly the unpaired surrogates of the rest.
   */
  lemma UnpairedSuffix(u: seq<Unit>, k: int)
    requires 1 <= k <= |u| && !IsHighSurrogate(u[k - 1])
    requires forall j :: 0 <= j < k ==> !UnpairedAt(u, j)
    ensures HasUnpairedSurrogate(u) <==> HasUnpairedSurrogate(u[k..])
  {
    var v := u[k..];
    if HasUnpairedSurrogate(u) {
      var i :| 0 <= i < |u| && UnpairedAt(u, i);
      assert UnpairedAt(v, i - k);
    }
    if HasUnpairedSurrogate(v) {
      var i :| 0 <= i < |v| && UnpairedAt(v, i);
      assert UnpairedAt(u, i + k);
    }
  }

  /** The conversion fails (the `unwrap` panics) exactly on an unpaired surrogate. */
  lemma {:induction false} DecodeFailsIffUnpaired(u: seq<Unit>)
    ensures Utf16ToUtf8(u).None? <==> HasUnpairedSurrogate(u)
  {
    if u == [] {
    } else if !IsSurrogate(u[0]) {
      DecodeFailsIffUnpaired(u[1..]);
      UnpairedSuffix(u, 1);
    } else if IsHighSurrogate(u[0]) && 2 <= |u| && IsLowSurrogate(u[1]) {
      DecodeFailsIffUnpaired(u[2..]);
      UnpairedSuffix(u, 2);
    } else {
      assert UnpairedAt(u, 0);
    }
  }

  /** The encoding of a text holds a null unit exactly when the text holds a NUL. */
  lemma {:induction false} ZeroUnitIffNul(s: string)
    ensures 0 in EncodeUtf16(s) <==> '\0' in s
  {
    if s != [] {
      ZeroUnitIffNul(s[1..]);
      assert EncodeUtf16(s) == EncodeChar(s[0]) + EncodeUtf16(s[1..]);
      assert s == [s[0]] + s[1..];
    }
  }
}
