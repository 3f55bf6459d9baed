/** The Base64 decoder of src/base64.c, against the encoding of section 4 of RFC 4648. */
module Base64 {
  import opened Basics

  type Sextet = n: nat | n < 64

  // ---- the alphabet ----------------------------------------------------------------------

  /** The letter for a sextet: A-Z, a-z, 0-9, + and /. */
  function Letter(d: Sextet): Byte {
    if d < 26 then 65 + d
    else if d < 52 then 97 + (d - 26)
    else if d < 62 then 48 + (d - 52)
    else if d == 62 then 43 else 47
  }

  const PAD: Byte := 61

  /** The decoding table; 0 for everything outside the alphabet. */
  function Table(c: Byte): Sextet {
    if 65 <= c <= 90 then c - 65
    else if 97 <= c <= 122 then c - 71
    else if 48 <= c <= 57 then c + 4
    else if c == 43 then 62 else if c == 47 then 63 else 0
  }

  predicate IsSpace(c: Byte) {
    c == 32 || c == 9 || c == 13 || c == 10
  }

  predicate IsLetter(c: Byte) {
    c == 43 || c == 47 || 65 <= c <= 90 || 97 <= c <= 122 || 48 <= c <= 57
  }

  lemma LetterTable(d: Sextet)
    ensures IsLetter(Letter(d)) && Table(Letter(d)) == d
  {
  }

  /** The letters are those of table 1 of RFC 4648, and only they count as letters. */
  lemma LetterIs(d: Sextet)
    ensures d < 26 ==> Letter(d) == 'A' as int + d
    ensures 26 <= d < 52 ==> Letter(d) == 'a' as int + (d - 26)
    ensures 52 <= d < 62 ==> Letter(d) == '0' as int + (d - 52)
    ensures d == 62 ==> Letter(d) == '+' as int
    ensures d == 63 ==> Letter(d) == '/' as int
  {
  }

  lemma LettersAre(c: Byte)
    ensures IsLetter(c) <==> exists d: Sextet :: Letter(d) == c
  {
    if IsLetter(c) {
      assert Letter(Table(c)) == c;
    }
  }

  /** White space is blanks, tabs and line ends, and none of it is a letter or the padding. */
  lemma SpacesAre(c: Byte)
    ensures IsSpace(c) <==> c == ' ' as int || c == '\t' as int || c == '\r' as int || c == '\n' as int
    ensures IsSpace(c) ==> !IsLetter(c) && c != PAD
    ensures PAD == '=' as int && !IsLetter(PAD)
  {
  }

  // ---- RFC 4648 --------------------------------------------------------------------------

  /** The sextets that stand for a byte string. */
  function Sextets(x: seq<Byte>): seq<Sextet> {
    if x == [] then []
    else if |x| == 1 then [x[0] / 4, x[0] % 4 * 16]
    else if |x| == 2 then [x[0] / 4, x[0] % 4 * 16 + x[1] / 16, x[1] % 16 * 4]
    else
      [x[0] / 4, x[0] % 4 * 16 + x[1] / 16, x[1] % 16 * 4 + x[2] / 64, x[2] % 64] + Sextets(x[3..])
  }

  /** The number that a sequence of digits of a base stands for. */
  function Value(ds: seq<nat>, base: nat): nat {
    if ds == [] then 0 else Value(ds[..|ds| - 1], base) * base + ds[|ds| - 1]
  }

  /** Three bytes and the four sextets for them are one number of 24 bits; of a rest, the missing
      bits are zero. */
  lemma SextetsValue(x: seq<Byte>)
    requires 0 < |x| <= 3
    ensures |Sextets(x)| == |x| + 1
    ensures |x| == 3 ==> Value(Sextets(x), 64) == Value(x, 256)
    ensures |x| == 2 ==> Value(Sextets(x), 64) == Value(x, 256) * 4
    ensures |x| == 1 ==> Value(Sextets(x), 64) == Value(x, 256) * 16
  {
    var ds := Sextets(x);
    if |x| == 3 {
      assert ds == [ds[0], ds[1], ds[2], ds[3]] && x == [x[0], x[1], x[2]];
      FourDigits(ds[0], ds[1], ds[2], ds[3], 64);
      ThreeDigits(x[0], x[1], x[2], 256);
    } else if |x| == 2 {
      assert ds == [ds[0], ds[1], ds[2]] && x == [x[0], x[1]];
      ThreeDigits(ds[0], ds[1], ds[2], 64);
      TwoDigits(x[0], x[1], 256);
    } else {
      assert ds == [ds[0], ds[1]] && x == [x[0]];
      TwoDigits(ds[0], ds[1], 64);
      assert Value([], 256) == 0 && x[..0] == [];
    }
  }

  lemma TwoDigits(a: nat, b: nat, base: nat)
    ensures Value([a, b], base) == a * base + b
  {
    assert [a, b][..1] == [a] && [a][..0] == [];
    assert Value([a], base) == Value([], base) * base + a;
  }

  lemma ThreeDigits(a: nat, b: nat, c: nat, base: nat)
    ensures Value([a, b, c], base) == (a * base + b) * base + c
  {
    TwoDigits(a, b, base);
    assert [a, b, c][..2] == [a, b];
  }

  lemma FourDigits(a: nat, b: nat, c: nat, d: nat, base: nat)
    ensures Value([a, b, c, d], base) == ((a * base + b) * base + c) * base + d
  {
    ThreeDigits(a, b, c, base);
    assert [a, b, c, d][..3] == [a, b, c];
  }

  /** And so on, three bytes at a time. */
  lemma SextetsGroups(a: seq<Byte>, b: seq<Byte>)
    requires |a| == 3
    ensures Sextets(a + b) == Sextets(a) + Sextets(b)
  {
    var x := a + b;
    assert x[0] == a[0] && x[1] == a[1] && x[2] == a[2] && x[3..] == b && a[3..] == [];
    assert Sextets(a) == [a[0] / 4, a[0] % 4 * 16 + a[1] / 16, a[1] % 16 * 4 + a[2] / 64, a[2] % 64] + [];
  }

  function Letters(ds: seq<Sextet>): seq<Byte> {
    if ds == [] then [] else [Letter(ds[0])] + Letters(ds[1..])
  }

  function Padding(n: nat): seq<Byte> {
    if n % 3 == 0 then [] else if n % 3 == 1 then [PAD, PAD] else [PAD]
  }

  function Encode(x: seq<Byte>): seq<Byte> {
    Letters(Sextets(x)) + Padding(|x|)
  }

  lemma {:induction false} SextetsLength(x: seq<Byte>)
    ensures |Sextets(x)| == |x| / 3 * 4 + if |x| % 3 == 0 then 0 else |x| % 3 + 1
  {
    if |x| >= 3 {
      SextetsLength(x[3..]);
    }
  }

  lemma {:induction false} LettersAt(ds: seq<Sextet>)
    ensures |Letters(ds)| == |ds| && forall i :: 0 <= i < |ds| ==> Letters(ds)[i] == Letter(ds[i])
  {
    if ds != [] {
      LettersAt(ds[1..]);
    }
  }

  /** The padding fills the last group of four up. */
  lemma EncodeLength(x: seq<Byte>)
    ensures |Encode(x)| == (|x| + 2) / 3 * 4
    ensures forall i :: 0 <= i < |Encode(x)| ==>
      if i < |Sextets(x)| then IsLetter(Encode(x)[i]) else Encode(x)[i] == '=' as int
  {
    SextetsLength(x);
    LettersAt(Sextets(x));
    forall i | 0 <= i < |Sextets(x)|
      ensures IsLetter(Encode(x)[i])
    {
      LetterTable(Sextets(x)[i]);
    }
  }

  // ---- what the decoder computes ---------------------------------------------------------

  /** The sextets before the end, the first padding character or the first bad character, and
      whether it was a bad character. */
  function Scan(src: seq<Byte>): (seq<Sextet>, bool) {
    if src == [] || src[0] == 0 then ([], false)
    else if IsSpace(src[0]) then Scan(src[1..])
    else if src[0] == PAD then ([], false)
    else if !IsLetter(src[0]) then ([], true)
    else
      var rest := Scan(src[1..]);
      ([Table(src[0])] + rest.0, rest.1)
  }

  function Byte0(a: Sextet, b: Sextet): Byte { a * 4 + b / 16 }
  function Byte1(b: Sextet, c: Sextet): Byte { b % 16 * 16 + c / 4 }
  function Byte2(c: Sextet, d: Sextet): Byte { c % 4 * 64 + d }

  /** Three bytes for four sextets; a rest of three gives two bytes, of two one, of one none. */
  function Bytes(ds: seq<Sextet>): seq<Byte> {
    if |ds| < 2 then []
    else if |ds| == 2 then [Byte0(ds[0], ds[1])]
    else if |ds| == 3 then [Byte0(ds[0], ds[1]), Byte1(ds[1], ds[2])]
    else [Byte0(ds[0], ds[1]), Byte1(ds[1], ds[2]), Byte2(ds[2], ds[3])] + Bytes(ds[4..])
  }

  /** The return value: -1 if a bad character comes before the buffer is full. */
  function ReturnCode(src: seq<Byte>, dstSize: int): int {
    var (ds, bad) := Scan(src);
    if dstSize <= 0 || (bad && |ds| / 4 * 3 < dstSize - 1) then -1 else Min(|Bytes(ds)|, dstSize - 1)
  }

  // ---- decoding undoes encoding ----------------------------------------------------------

  /** The high bits of one byte and the low bits of the next share a sextet. */
  lemma First(a: Byte, low: nat)
    requires low < 16
    ensures Byte0(a / 4, a % 4 * 16 + low) == a
  {
    assert (a % 4 * 16 + low) / 16 == a % 4;
  }

  lemma Second(b: Byte, high: nat, low: nat)
    requires high < 4 && low < 4
    ensures Byte1(high * 16 + b / 16, b % 16 * 4 + low) == b
  {
    assert (high * 16 + b / 16) % 16 == b / 16 && (b % 16 * 4 + low) / 4 == b % 16;
  }

  lemma Third(c: Byte, high: nat)
    requires high < 16
    ensures Byte2(high * 4 + c / 64, c % 64) == c
  {
    assert (high * 4 + c / 64) % 4 == c / 64;
  }

  lemma {:induction false} BytesOfSextets(x: seq<Byte>)
    ensures Bytes(Sextets(x)) == x
  {
    var ds := Sextets(x);
    if |x| == 1 {
      First(x[0], 0);
      assert x == [x[0]];
    } else if |x| == 2 {
      First(x[0], x[1] / 16);
      Second(x[1], x[0] % 4, 0);
      assert x == [x[0], x[1]];
    } else if |x| >= 3 {
      BytesOfSextets(x[3..]);
      First(x[0], x[1] / 16);
      Second(x[1], x[0] % 4, x[2] / 64);
      Third(x[2], x[1] % 16);
      assert ds[4..] == Sextets(x[3..]);
      assert Bytes(ds) == [x[0], x[1], x[2]] + Bytes(ds[4..]);
      assert x == [x[0], x[1], x[2]] + x[3..];
    }
  }

  function NoSpaces(s: seq<Byte>): seq<Byte> {
    if s == [] then [] else (if IsSpace(s[0]) then [] else [s[0]]) + NoSpaces(s[1..])
  }

  lemma {:induction false} NoSpacesConcat(a: seq<Byte>, b: seq<Byte>)
    ensures NoSpaces(a + b) == NoSpaces(a) + NoSpaces(b)
  {
    if a == [] {
      assert a + b == b;
    } else {
      NoSpacesConcat(a[1..], b);
      assert (a + b)[0] == a[0] && (a + b)[1..] == a[1..] + b;
    }
  }

  /** White space is left out wherever it stands, and nothing else is. */
  lemma NoSpacesMeans(a: seq<Byte>, c: Byte, b: seq<Byte>)
    ensures NoSpaces(a + [c] + b) == NoSpaces(a) + (if IsSpace(c) then [] else [c]) + NoSpaces(b)
  {
    NoSpacesConcat(a + [c], b);
    NoSpacesConcat(a, [c]);
    NoSpacesOne(c);
  }

  lemma NoSpacesOne(c: Byte)
    ensures NoSpaces([c]) == if IsSpace(c) then [] else [c]
  {
    assert [c][1..] == [];
  }

  lemma {:induction false} ScanIgnoresSpaces(s: seq<Byte>)
    ensures Scan(NoSpaces(s)) == Scan(s)
  {
    if s != [] {
      ScanIgnoresSpaces(s[1..]);
      if !IsSpace(s[0]) {
        var t := NoSpaces(s);
        assert t[0] == s[0] && t[1..] == NoSpaces(s[1..]);
      } else {
        assert NoSpaces(s) == NoSpaces(s[1..]);
      }
    }
  }

  lemma {:induction false} ScanLetters(ds: seq<Sextet>, rest: seq<Byte>)
    requires rest == [] || rest[0] == PAD
    ensures Scan(Letters(ds) + rest) == (ds, false)
  {
    if ds == [] {
      assert Letters(ds) + rest == rest;
    } else {
      LetterTable(ds[0]);
      ScanLetters(ds[1..], rest);
      var t := Letters(ds) + rest;
      assert t[0] == Letter(ds[0]) && t[1..] == Letters(ds[1..]) + rest;
      assert ds == [ds[0]] + ds[1..];
    }
  }

  /** Decoding an encoding, with white space anywhere in it, gives the bytes back. */
  lemma DecodesEncoding(x: seq<Byte>, text: seq<Byte>, dstSize: int)
    requires NoSpaces(text) == Encode(x) && |x| <= dstSize - 1
    ensures Bytes(Scan(text).0) == x && ReturnCode(text, dstSize) == |x|
  {
    ScanIgnoresSpaces(text);
    ScanLetters(Sextets(x), Padding(|x|));
    BytesOfSextets(x);
  }

  // ---- the loop --------------------------------------------------------------------------

  /** Bytes of a whole number of groups come before the bytes of the rest. */
  lemma {:induction false} BytesSplit(a: seq<Sextet>, b: seq<Sextet>)
    requires |a| % 4 == 0
    ensures Bytes(a + b) == Bytes(a) + Bytes(b) && |Bytes(a)| == |a| / 4 * 3
  {
    if a == [] {
      assert a + b == b;
    } else {
      BytesSplit(a[4..], b);
      var s := a + b;
      assert s[4..] == a[4..] + b && s[0] == a[0] && s[1] == a[1] && s[2] == a[2] && s[3] == a[3];
      var g := [Byte0(a[0], a[1]), Byte1(a[1], a[2]), Byte2(a[2], a[3])];
      assert Bytes(s) == g + Bytes(s[4..]) && Bytes(a) == g + Bytes(a[4..]);
      Assoc(g, Bytes(a[4..]), Bytes(b));
    }
  }

  lemma {:induction false} BytesLength(ds: seq<Sextet>)
    ensures |ds| / 4 * 3 <= |Bytes(ds)| <= |ds| / 4 * 3 + 2
  {
    if |ds| >= 4 {
      BytesLength(ds[4..]);
      assert |ds[4..]| == |ds| - 4 && |ds| / 4 == |ds[4..]| / 4 + 1;
    }
  }

  /** The first i characters gave the sextets done, and scanning goes on from there. */
  predicate Continues(src: seq<Byte>, i: nat, done: seq<Sextet>)
    requires i <= |src|
  {
    Scan(src).0 == done + Scan(src[i..]).0 && Scan(src).1 == Scan(src[i..]).1
  }

  lemma ScanStep(src: seq<Byte>, i: nat, done: seq<Sextet>)
    requires i < |src| && src[i] != 0 && src[i] != PAD
    requires Continues(src, i, done)
    ensures IsSpace(src[i]) ==> Continues(src, i + 1, done)
    ensures !IsSpace(src[i]) && IsLetter(src[i]) ==> Continues(src, i + 1, done + [Table(src[i])])
    ensures !IsSpace(src[i]) && !IsLetter(src[i]) ==> Scan(src) == (done, true)
  {
    var s := src[i..];
    assert s[0] == src[i] && s[1..] == src[i + 1..];
    var ds := Scan(s[1..]).0;
    assert done + ([Table(src[i])] + ds) == done + [Table(src[i])] + ds;
    assert done + [] == done;
  }

  /** The three bytes of a full group. */
  function Group(g: seq<Sextet>): seq<Byte>
    requires |g| == 4
  {
    [Byte0(g[0], g[1]), Byte1(g[1], g[2]), Byte2(g[2], g[3])]
  }

  lemma GroupBytes(done: seq<Sextet>, g: seq<Sextet>)
    requires |done| % 4 == 0 && |g| == 4
    ensures Bytes(done + g) == Bytes(done) + Group(g) && |Bytes(done)| == |done| / 4 * 3
  {
    BytesSplit(done, g);
    assert g[4..] == [];
    assert Bytes(g) == Group(g);
  }

  lemma WholeGroups(n: nat, m: nat)
    requires n % 4 == 0 && m < 4
    ensures (n + m) / 4 == n / 4
  {
  }

  /** The loop stopped at a bad character, with room left. */
  lemma StoppedBad(src: seq<Byte>, done: seq<Sextet>, part: seq<Sextet>, dstSize: int)
    requires |done| % 4 == 0 && |part| < 4 && Scan(src) == (done + part, true)
    requires 0 < dstSize && |Bytes(done)| < dstSize - 1
    ensures ReturnCode(src, dstSize) == -1
  {
    var ds := done + part;
    assert |ds| / 4 * 3 == |Bytes(done)| by {
      BytesSplit(done, part);
      WholeGroups(|done|, |part|);
    }
  }

  /** The loop stopped at the end of the input. */
  lemma StoppedEnd(src: seq<Byte>, i: nat, done: seq<Sextet>, part: seq<Sextet>)
    requires i <= |src| && (i == |src| || src[i] == 0 || src[i] == PAD)
    requires |done| % 4 == 0 && Continues(src, i, done + part)
    ensures Scan(src) == (done + part, false) && Bytes(done + part) == Bytes(done) + Bytes(part)
  {
    assert i < |src| ==> src[i..][0] == src[i];
    assert done + part + [] == done + part;
    BytesSplit(done, part);
  }

  /** The loop stopped because the buffer is full. */
  lemma StoppedFull(src: seq<Byte>, i: nat, done: seq<Sextet>, dstSize: int)
    requires i <= |src| && |done| % 4 == 0 && Continues(src, i, done)
    requires 0 < dstSize && |Bytes(done)| >= dstSize - 1
    ensures ReturnCode(src, dstSize) == dstSize - 1 && Bytes(done) <= Bytes(Scan(src).0)
  {
    var rest := Scan(src[i..]).0;
    BytesSplit(done, rest);
    assert |done + rest| / 4 * 3 >= |done| / 4 * 3;
  }

  /** Stores the bytes of a full group as far as they fit. */
  method StoreGroup(dst: array<Byte>, j0: int, dstSize: int, g: seq<Sextet>) returns (j: int)
    requires 0 <= j0 < dstSize - 1 && dstSize <= dst.Length && |g| == 4
    modifies dst
    ensures j == Min(j0 + 3, dstSize - 1) && dst[..j] == (old(dst[..j0]) + Group(g))[..j]
    ensures forall k :: 0 <= k < dst.Length && k >= dstSize ==> dst[k] == old(dst[k])
  {
    j := j0;
    dst[j] := Byte0(g[0], g[1]);
    j := j + 1;
    if j < dstSize - 1 {
      dst[j] := Byte1(g[1], g[2]);
      j := j + 1;
    }
    if j < dstSize - 1 {
      dst[j] := Byte2(g[2], g[3]);
      j := j + 1;
    }
  }

  /** Stores what a partial group stands for, as far as it fits. */
  method StoreRest(dst: array<Byte>, j0: int, dstSize: int, part: seq<Sextet>) returns (j: int)
    requires 0 <= j0 <= dstSize - 1 && dstSize <= dst.Length && |part| < 4
    requires part != [] ==> j0 < dstSize - 1
    modifies dst
    ensures j == Min(j0 + |Bytes(part)|, dstSize - 1) && dst[..j] == (old(dst[..j0]) + Bytes(part))[..j]
    ensures forall k :: 0 <= k < dst.Length && k >= dstSize ==> dst[k] == old(dst[k])
  {
    j := j0;
    if |part| >= 2 {
      dst[j] := Byte0(part[0], part[1]);
      j := j + 1;
      if |part| >= 3 && j < dstSize - 1 {
        dst[j] := Byte1(part[1], part[2]);
        j := j + 1;
      }
    }
  }

  /** One more sextet: it completes a group, which is stored, or waits for the rest of it. */
  method TakeLetter(dst: array<Byte>, j0: int, dstSize: int, buf0: seq<Sextet>, d: Sextet, ghost done0: seq<Sextet>)
      returns (j: int, buf: seq<Sextet>, ghost done: seq<Sextet>)
    requires |buf0| < 4 && 0 <= j0 < dstSize - 1 && dstSize <= dst.Length && |done0| % 4 == 0
    requires j0 == Min(|Bytes(done0)|, dstSize - 1) && dst[..j0] == Bytes(done0)[..j0]
    modifies dst
    ensures |buf| < 4 && 0 <= j <= dstSize - 1 && |done| % 4 == 0 && done + buf == done0 + buf0 + [d]
    ensures j == Min(|Bytes(done)|, dstSize - 1) && dst[..j] == Bytes(done)[..j]
    ensures buf != [] ==> j < dstSize - 1
    ensures forall k :: 0 <= k < dst.Length && k >= dstSize ==> dst[k] == old(dst[k])
  {
    j, buf, done := j0, buf0 + [d], done0;
    assert done + buf == done0 + buf0 + [d];
    if |buf| == 4 {
      GroupBytes(done, buf);
      j := StoreGroup(dst, j, dstSize, buf);
      done, buf := done + buf, [];
    }
  }

  /** After the loop: the bytes of a partial group, and the terminating zero. */
  method Finish(src: seq<Byte>, ghost i: nat, dst: array<Byte>, j: int, dstSize: int, buf: seq<Sextet>,
                ghost done: seq<Sextet>) returns (rc: int)
    requires i <= |src| && |buf| < 4 && 0 <= j <= dstSize - 1 && dstSize <= dst.Length
    requires |done| % 4 == 0 && Continues(src, i, done + buf)
    requires j == Min(|Bytes(done)|, dstSize - 1) && dst[..j] == Bytes(done)[..j]
    requires buf != [] ==> j < dstSize - 1
    requires j < dstSize - 1 ==> i == |src| || src[i] == 0 || src[i] == PAD
    modifies dst
    ensures rc == ReturnCode(src, dstSize) && 0 <= rc < dstSize
    ensures dst[rc] == 0 && dst[..rc] == Bytes(Scan(src).0)[..rc]
    ensures forall k :: 0 <= k < dst.Length && k >= dstSize ==> dst[k] == old(dst[k])
  {
    if j < dstSize - 1 {
      StoppedEnd(src, i, done, buf);
    } else {
      assert done + buf == done;
      StoppedFull(src, i, done, dstSize);
    }
    rc := StoreRest(dst, j, dstSize, buf);
    dst[rc] := 0;
  }

  /** All writes stay below dstSize: while a group is partial, there is room for its bytes. */
  method Decode(src: seq<Byte>, dst: array<Byte>, dstSize: int) returns (rc: int)
    requires dstSize <= dst.Length
    modifies dst
    ensures rc == ReturnCode(src, dstSize)
    ensures rc >= 0 ==> rc < dstSize && dst[rc] == 0 && dst[..rc] == Bytes(Scan(src).0)[..rc]
    ensures forall k :: 0 <= k < dst.Length && k >= dstSize ==> dst[k] == old(dst[k])
  {
    if dstSize <= 0 {
      return -1;
    }
    var i, j := 0, 0;
    var buf: seq<Sextet> := [];
    ghost var done, all: seq<Sextet> := [], [];
    assert src[0..] == src;
    while i < |src| && src[i] != 0 && j < dstSize - 1
      invariant i <= |src| && |buf| < 4 && 0 <= j <= dstSize - 1
      invariant |done| % 4 == 0 && all == done + buf && Continues(src, i, all)
      invariant j == Min(|Bytes(done)|, dstSize - 1) && dst[..j] == Bytes(done)[..j]
      invariant buf != [] ==> j < dstSize - 1
      invariant forall k :: 0 <= k < dst.Length && k >= dstSize ==> dst[k] == old(dst[k])
      decreases |src| - i
    {
      if IsSpace(src[i]) {
        ScanStep(src, i, all);
        i := i + 1;
        continue;
      }
      if src[i] == PAD {
        break;
      }
      ScanStep(src, i, all);
      var c := src[i];
      if c >= 128 || !IsLetter(c) {
        StoppedBad(src, done, buf, dstSize);
        return -1;
      }
      j, buf, done := TakeLetter(dst, j, dstSize, buf, Table(c), done);
      all := all + [Table(c)];
      i := i + 1;
    }
    rc := Finish(src, i, dst, j, dstSize, buf, done);
  }
}
