/** The percent decoders of src/request_handler.c, against section 2.1 of RFC 3986. */
module UrlDecode {
  import opened Basics

  const PERCENT: Byte := 37
  const PLUS: Byte := 43
  const AMPERSAND: Byte := 38
  const SPACE: Byte := 32

  predicate IsHex(c: Byte) {
    48 <= c <= 57 || 65 <= c <= 70 || 97 <= c <= 102
  }

  function HexValue(c: Byte): nat
    requires IsHex(c)
  {
    if c <= 57 then c - 48 else if c <= 70 then c - 55 else c - 87
  }

  /** The text starts with a percent sign and two hexadecimal digits. */
  predicate StartsEscape(s: seq<Byte>) {
    |s| >= 3 && s[0] == PERCENT && IsHex(s[1]) && IsHex(s[2])
  }

  function Escaped(s: seq<Byte>): Byte
    requires StartsEscape(s)
  {
    HexValue(s[1]) * 16 + HexValue(s[2])
  }

  /** c is the hexadecimal digit for n, as a capital or a small letter from ten on. */
  predicate IsDigitFor(c: Byte, n: nat) {
    if n < 10 then c == 48 + n else n < 16 && (c == 65 + (n - 10) || c == 97 + (n - 10))
  }

  lemma DigitMeans(c: Byte, n: nat)
    ensures IsDigitFor(c, n) <==> IsHex(c) && HexValue(c) == n
  {
  }

  /** The text starts with an escape for b: the percent sign, the digit for the high half of b
      and the digit for the low half, each in either case. */
  predicate Spells(s: seq<Byte>, b: Byte) {
    |s| >= 3 && s[0] == '%' as int && IsDigitFor(s[1], b / 16) && IsDigitFor(s[2], b % 16)
  }

  lemma SpellsMeans(s: seq<Byte>, b: Byte)
    ensures Spells(s, b) <==> StartsEscape(s) && Escaped(s) == b
  {
    if |s| >= 3 {
      DigitMeans(s[1], b / 16);
      DigitMeans(s[2], b % 16);
    }
  }

  /** What is no escape spells no byte. */
  lemma NothingSpelled(s: seq<Byte>)
    ensures StartsEscape(s) <==> exists b: Byte :: Spells(s, b)
  {
    if StartsEscape(s) {
      SpellsMeans(s, Escaped(s));
    } else if b: Byte :| Spells(s, b) {
      SpellsMeans(s, b);
    }
  }

  // ---- path decoding ---------------------------------------------------------------------

  /** Left-to-right decoding; what is no valid escape stays as it is. */
  function Decoded(s: seq<Byte>): seq<Byte> {
    if s == [] then []
    else if StartsEscape(s) then [Escaped(s)] + Decoded(s[3..])
    else [s[0]] + Decoded(s[1..])
  }

  lemma {:induction false} DecodedLength(s: seq<Byte>)
    ensures |Decoded(s)| <= |s|
  {
    if s != [] {
      DecodedLength(if StartsEscape(s) then s[3..] else s[1..]);
    }
  }

  /** enc is a percent-encoding of x: every byte is written as itself or as an escape, with
      digits of either case, and a percent sign only as an escape. */
  predicate Encodes(enc: seq<Byte>, x: seq<Byte>) {
    if x == [] then enc == []
    else if enc == [] then false
    else if enc[0] == '%' as int then Spells(enc, x[0]) && Encodes(enc[3..], x[1..])
    else enc[0] == x[0] && Encodes(enc[1..], x[1..])
  }

  lemma {:induction false} DecodesEncoding(enc: seq<Byte>, x: seq<Byte>)
    requires Encodes(enc, x)
    ensures Decoded(enc) == x
  {
    if x != [] {
      SpellsMeans(enc, x[0]);
      DecodesEncoding(if enc[0] == PERCENT then enc[3..] else enc[1..], x[1..]);
    }
  }

  /** A text in which no escape starts stays as it is, also where it has percent signs. */
  lemma {:induction false} NothingToDecode(s: seq<Byte>)
    requires forall i, b: Byte :: 0 <= i < |s| ==> !Spells(s[i..], b)
    ensures Decoded(s) == s
  {
    if s != [] {
      assert s[0..] == s;
      NothingSpelled(s);
      forall i, b: Byte | 0 <= i < |s| - 1
        ensures !Spells(s[1..][i..], b)
      {
        assert s[1..][i..] == s[i + 1..];
      }
      NothingToDecode(s[1..]);
    }
  }

  /** Unreserved characters of RFC 3986. */
  predicate Unreserved(c: Byte) {
    48 <= c <= 57 || 65 <= c <= 90 || 97 <= c <= 122 || c == 45 || c == 46 || c == 95 || c == 126
  }

  lemma UnreservedMeans(c: Byte)
    ensures Unreserved(c) <==>
      || 'A' as int <= c <= 'Z' as int || 'a' as int <= c <= 'z' as int || '0' as int <= c <= '9' as int
      || c == '-' as int || c == '.' as int || c == '_' as int || c == '~' as int
  {
  }

  function HexDigit(n: nat): Byte
    requires n < 16
  {
    if n < 10 then 48 + n else 55 + n
  }

  /** The usual encoder: everything but unreserved characters is escaped. */
  function PercentEncode(x: seq<Byte>): seq<Byte> {
    if x == [] then []
    else
      (if Unreserved(x[0]) then [x[0]] else [PERCENT, HexDigit(x[0] / 16), HexDigit(x[0] % 16)])
      + PercentEncode(x[1..])
  }

  lemma {:induction false} PercentEncodeEncodes(x: seq<Byte>)
    ensures Encodes(PercentEncode(x), x)
  {
    if x != [] {
      PercentEncodeEncodes(x[1..]);
      var enc := PercentEncode(x);
      if Unreserved(x[0]) {
        assert enc[1..] == PercentEncode(x[1..]);
      } else {
        assert enc[3..] == PercentEncode(x[1..]);
        assert Spells(enc, x[0]);
      }
    }
  }

  /** One step of the decoding at position p of a zero-terminated string, seen with its zero. */
  lemma StepAt(z: seq<Byte>, p: nat)
    requires p + 1 < |z| && z[|z| - 1] == 0
    ensures
      var x := z[..|z| - 1];
      if z[p] == PERCENT && IsHex(z[p + 1]) && IsHex(z[p + 2]) then
        p + 3 < |z| && Decoded(x[p..]) == [HexValue(z[p + 1]) * 16 + HexValue(z[p + 2])] + Decoded(x[p + 3..])
      else Decoded(x[p..]) == [z[p]] + Decoded(x[p + 1..])
  {
    var x := z[..|z| - 1];
    var rest := x[p..];
    assert rest[0] == z[p] && rest[1..] == x[p + 1..];
    assert |rest| > 1 ==> rest[1] == z[p + 1];
    assert |rest| > 2 ==> rest[2] == z[p + 2] && rest[3..] == x[p + 3..];
  }

  /** The first p characters of x decode to out, and decoding goes on from there. */
  predicate DecodedTo(x: seq<Byte>, p: nat, out: seq<Byte>)
    requires p <= |x|
  {
    Decoded(x) == out + Decoded(x[p..])
  }

  lemma DecodedMore(x: seq<Byte>, p: nat, out: seq<Byte>, b: Byte, q: nat)
    requires p <= q <= |x| && DecodedTo(x, p, out) && Decoded(x[p..]) == [b] + Decoded(x[q..])
    ensures DecodedTo(x, q, out + [b])
  {
    Assoc(out, [b], Decoded(x[q..]));
  }

  /** The buffer holds the decoded text before q and the rest of the zero-terminated string z
      from p on. */
  ghost predicate Halfway(t: seq<Byte>, z: seq<Byte>, p: nat, q: nat, out: seq<Byte>) {
    && q <= p < |z| <= |t| && |out| == q && t[..q] == out
    && (forall k :: p <= k < |z| ==> t[k] == z[k])
    && DecodedTo(z[..|z| - 1], p, out)
  }

  lemma Stored(t: seq<Byte>, z: seq<Byte>, p: nat, q: nat, out: seq<Byte>, b: Byte, p': nat)
    requires Halfway(t, z, p, q, out) && p < p' < |z|
    requires Decoded(z[..|z| - 1][p..]) == [b] + Decoded(z[..|z| - 1][p'..])
    ensures Halfway(t[q := b], z, p', q + 1, out + [b])
  {
    DecodedMore(z[..|z| - 1], p, out, b, p');
    assert t[q := b][..q + 1] == t[..q] + [b];
  }

  lemma Terminated(t: seq<Byte>, z: seq<Byte>, q: nat, out: seq<Byte>)
    requires |z| > 0 && Halfway(t, z, |z| - 1, q, out)
    ensures out == Decoded(z[..|z| - 1]) && |out| == q <= |z| - 1 && t[q := 0][..q] == out && t[q := 0][q] == 0
  {
    assert z[..|z| - 1][|z| - 1..] == [] && out + [] == out;
    assert t[q := 0][..q] == t[..q];
  }

  /** Decodes the string at the start of the buffer in place, through two indices: reading
      never falls behind writing. */
  method UrlDecodePath(s: array<Byte>, ghost n: nat)
    requires n < s.Length && s[n] == 0 && forall k :: 0 <= k < n ==> s[k] != 0
    modifies s
    ensures
      var d := Decoded(old(s[..n]));
      |d| <= n && s[..|d|] == d && s[|d|] == 0
    ensures forall k :: n < k < s.Length ==> s[k] == old(s[k])
  {
    ghost var z := s[..n + 1];
    ghost var out: seq<Byte> := [];
    assert z[..n] == s[..n] && z[..n][0..] == z[..n] && DecodedTo(z[..n], 0, out);
    var p, q := 0, 0;
    while s[p] != 0
      invariant p <= n && Halfway(s[..], z, p, q, out)
      invariant forall k :: n < k < s.Length ==> s[k] == old(s[k])
      decreases n - p
    {
      ghost var t := s[..];
      StepAt(z, p);
      var b := s[p];
      ghost var p0 := p;
      if s[p] == PERCENT && IsHex(s[p + 1]) && IsHex(s[p + 2]) {
        b := HexValue(s[p + 1]) * 16 + HexValue(s[p + 2]);
        p := p + 3;
      } else {
        p := p + 1;
      }
      s[q] := b;
      Stored(t, z, p0, q, out, b, p);
      assert s[..] == t[q := b];
      out := out + [b];
      q := q + 1;
    }
    ghost var t := s[..];
    Terminated(t, z, q, out);
    s[q] := 0;
    assert s[..] == t[q := 0];
  }

  // ---- form values -----------------------------------------------------------------------

  /** The decoded value up to the next parameter, and whether a bad escape ended it. */
  function FormScan(s: seq<Byte>): (seq<Byte>, bool) {
    if s == [] || s[0] == AMPERSAND then ([], false)
    else if s[0] == PERCENT then
      if StartsEscape(s) then
        var rest := FormScan(s[3..]);
        ([Escaped(s)] + rest.0, rest.1)
      else ([], true)
    else
      var rest := FormScan(s[1..]);
      ([if s[0] == PLUS then SPACE else s[0]] + rest.0, rest.1)
  }

  /** enc is a form encoding of x: as in Encodes, but a space may be written as a plus sign,
      and plus signs and ampersands only as escapes. */
  predicate FormEncodes(enc: seq<Byte>, x: seq<Byte>) {
    if x == [] then enc == []
    else if enc == [] then false
    else if enc[0] == '%' as int then Spells(enc, x[0]) && FormEncodes(enc[3..], x[1..])
    else
      && enc[0] != '&' as int && x[0] == (if enc[0] == '+' as int then ' ' as int else enc[0])
      && FormEncodes(enc[1..], x[1..])
  }

  /** The usual encoder gives a form encoding too, with or without plus signs for spaces. */
  lemma {:induction false} PercentEncodeFormEncodes(x: seq<Byte>)
    ensures FormEncodes(PercentEncode(x), x)
    ensures FormEncodes(['+' as int] + PercentEncode(x), [' ' as int] + x)
  {
    var plus := ['+' as int] + PercentEncode(x);
    assert plus[1..] == PercentEncode(x) && ([' ' as int] + x)[1..] == x;
    if x != [] {
      PercentEncodeFormEncodes(x[1..]);
      var enc := PercentEncode(x);
      if Unreserved(x[0]) {
        assert enc[1..] == PercentEncode(x[1..]);
      } else {
        assert enc[3..] == PercentEncode(x[1..]);
        assert Spells(enc, x[0]);
      }
    }
  }

  /** Decoding a form encoding gives the value back, whatever parameters follow. */
  lemma {:induction false} FormDecodesEncoding(enc: seq<Byte>, x: seq<Byte>, rest: seq<Byte>)
    requires FormEncodes(enc, x) && (rest == [] || rest[0] == AMPERSAND)
    ensures FormScan(enc + rest) == (x, false)
  {
    var s := enc + rest;
    if x == [] {
      assert s == rest;
    } else {
      assert s[0] == enc[0] && x == [x[0]] + x[1..];
      SpellsMeans(enc, x[0]);
      if enc[0] == PERCENT {
        SpellsMeans(s, x[0]);
        FormDecodesEncoding(enc[3..], x[1..], rest);
        assert s[1] == enc[1] && s[2] == enc[2] && s[3..] == enc[3..] + rest;
      } else {
        FormDecodesEncoding(enc[1..], x[1..], rest);
        assert s[1..] == enc[1..] + rest;
      }
    }
  }

  /** A percent sign that starts no escape ends the scan as an error. */
  lemma {:induction false} FormStopsAtBad(enc: seq<Byte>, x: seq<Byte>, rest: seq<Byte>)
    requires FormEncodes(enc, x) && rest != [] && rest[0] == '%' as int && forall b: Byte :: !Spells(rest, b)
    ensures FormScan(enc + rest) == (x, true)
  {
    var s := enc + rest;
    if x == [] {
      assert s == rest;
      NothingSpelled(rest);
    } else {
      assert s[0] == enc[0] && x == [x[0]] + x[1..];
      SpellsMeans(enc, x[0]);
      if enc[0] == PERCENT {
        SpellsMeans(s, x[0]);
        FormStopsAtBad(enc[3..], x[1..], rest);
        assert s[1] == enc[1] && s[2] == enc[2] && s[3..] == enc[3..] + rest;
      } else {
        FormStopsAtBad(enc[1..], x[1..], rest);
        assert s[1..] == enc[1..] + rest;
      }
    }
  }

  /** -1 for a bad escape before the buffer is full. */
  function FormReturnCode(src: seq<Byte>, dstSize: int): int {
    if dstSize <= 0 || (FormScan(src).1 && |FormScan(src).0| < dstSize - 1) then -1 else 0
  }

  /** The first i characters gave the bytes out, and scanning goes on from there. */
  predicate Continues(src: seq<Byte>, i: nat, out: seq<Byte>)
    requires i <= |src|
  {
    FormScan(src).0 == out + FormScan(src[i..]).0 && FormScan(src).1 == FormScan(src[i..]).1
  }

  /** One step of the scan at position i. */
  lemma FormAt(src: seq<Byte>, i: nat)
    requires i < |src|
    ensures
      FormScan(src[i..]) ==
        if src[i] == AMPERSAND then ([], false)
        else if src[i] == PERCENT then
          if i + 2 < |src| && IsHex(src[i + 1]) && IsHex(src[i + 2]) then
            ([HexValue(src[i + 1]) * 16 + HexValue(src[i + 2])] + FormScan(src[i + 3..]).0, FormScan(src[i + 3..]).1)
          else ([], true)
        else ([if src[i] == PLUS then SPACE else src[i]] + FormScan(src[i + 1..]).0, FormScan(src[i + 1..]).1)
  {
    var s := src[i..];
    assert s[0] == src[i] && s[1..] == src[i + 1..];
    assert |s| > 2 ==> s[1] == src[i + 1] && s[2] == src[i + 2] && s[3..] == src[i + 3..];
  }

  /** One byte b more, if scanning from i gives b and goes on at j. */
  lemma Continued(src: seq<Byte>, i: nat, out: seq<Byte>, b: Byte, j: nat)
    requires i <= j <= |src| && Continues(src, i, out)
    requires FormScan(src[i..]) == ([b] + FormScan(src[j..]).0, FormScan(src[j..]).1)
    ensures Continues(src, j, out + [b])
  {
    Assoc(out, [b], FormScan(src[j..]).0);
  }

  /** Scanning ends at i. */
  lemma Ended(src: seq<Byte>, i: nat, out: seq<Byte>, bad: bool)
    requires i <= |src| && Continues(src, i, out) && FormScan(src[i..]) == ([], bad)
    ensures FormScan(src) == (out, bad)
  {
    assert out + [] == out;
  }

  /** A character of the source; behind the end there is the terminating zero. */
  function CharAt(src: seq<Byte>, i: nat): Byte {
    if i < |src| then src[i] else 0
  }

  /** The buffer holds the value decoded so far. */
  ghost predicate Filled(d: seq<Byte>, src: seq<Byte>, i: nat, j: nat, out: seq<Byte>) {
    i <= |src| && |out| == j <= |d| && d[..j] == out && Continues(src, i, out)
  }

  lemma FilledMore(d: seq<Byte>, src: seq<Byte>, i: nat, j: nat, out: seq<Byte>, b: Byte, i': nat)
    requires Filled(d, src, i, j, out) && j < |d| && i <= i' <= |src|
    requires FormScan(src[i..]) == ([b] + FormScan(src[i'..]).0, FormScan(src[i'..]).1)
    ensures Filled(d[j := b], src, i', j + 1, out + [b])
  {
    Continued(src, i, out, b, i');
    assert d[j := b][..j + 1] == d[..j] + [b];
  }

  /** The loop ended before the buffer was full, or because it is full. */
  lemma FilledUp(d: seq<Byte>, src: seq<Byte>, i: nat, j: nat, out: seq<Byte>, dstSize: int)
    requires Filled(d, src, i, j, out) && j <= dstSize - 1 < |d|
    requires j == dstSize - 1 || FormScan(src) == (out, false)
    ensures FormReturnCode(src, dstSize) == 0
    ensures
      var v := FormScan(src).0;
      var m := if |v| <= dstSize - 1 then |v| else dstSize - 1;
      j == m && d[j := 0][..m] == v[..m]
  {
    var v := FormScan(src).0;
    assert d[j := 0][..j] == d[..j];
    assert out == v[..j] by {
      assert v == out || v == out + FormScan(src[i..]).0;
    }
  }

  method UrlDecode(src: seq<Byte>, dst: array<Byte>, dstSize: int) returns (rc: int)
    requires dstSize <= dst.Length && forall k :: 0 <= k < |src| ==> src[k] != 0
    modifies dst
    ensures rc == FormReturnCode(src, dstSize)
    ensures rc == 0 ==>
      var v := FormScan(src).0;
      var m := if |v| <= dstSize - 1 then |v| else dstSize - 1;
      dst[..m] == v[..m] && dst[m] == 0
    ensures forall k :: 0 <= k < dst.Length && k >= dstSize ==> dst[k] == old(dst[k])
  {
    if dstSize <= 0 {
      return -1;
    }
    var i, j := 0, 0;
    ghost var out: seq<Byte> := [];
    ghost var d := dst[..];
    assert src[0..] == src && Continues(src, 0, out);
    while CharAt(src, i) != 0 && j < dstSize - 1
      invariant 0 <= j <= dstSize - 1 && d == dst[..] && Filled(d, src, i, j, out)
      invariant forall k :: 0 <= k < dst.Length && k >= dstSize ==> dst[k] == old(dst[k])
      decreases |src| - i
    {
      FormAt(src, i);
      ghost var i0 := i;
      if src[i] == PERCENT {
        if IsHex(CharAt(src, i + 1)) && IsHex(CharAt(src, i + 2)) {
          dst[j] := HexValue(src[i + 1]) * 16 + HexValue(src[i + 2]);
          i := i + 3;
        } else {
          Ended(src, i, out, true);
          return -1;
        }
      } else if src[i] == PLUS {
        dst[j] := SPACE;
        i := i + 1;
      } else if src[i] == AMPERSAND {
        Ended(src, i, out, false);
        break;
      } else {
        dst[j] := src[i];
        i := i + 1;
      }
      FilledMore(d, src, i0, j, out, dst[j], i);
      assert dst[..] == d[j := dst[j]];
      out := out + [dst[j]];
      d := dst[..];
      j := j + 1;
    }
    if i == |src| {
      assert src[i..] == [];
      Ended(src, i, out, false);
    }
    FilledUp(d, src, i, j, out, dstSize);
    dst[j] := 0;
    assert dst[..] == d[j := 0];
    rc := 0;
  }
}
