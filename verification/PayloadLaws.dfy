/**
 The exact bytes and characters that provenex/index/sqlite_index.py and
 provenex/index/merkle_sqlite_index.py write, and which prefixed hashes provenex/cli/main.py reads.
 */
module PayloadLaws {
  import opened Basics
  import opened Payload

  /** The six bits of a continuation byte. */
  function Group(b: Bytes, i: nat): int
    requires i < |b|
  {
    b[i] as int - 0x80
  }

  /** The four forms of section 3 of RFC 3629: length by range, continuation bytes between 0x80 and 0xBF,
      and the code point as the sum of the groups. These determine the encoding. */
  lemma ScalarForm(c: nat)
    requires c < 0x110000
    ensures var b := EncodeScalar(c);
            && |b| == (if c < 0x80 then 1 else if c < 0x800 then 2 else if c < 0x10000 then 3 else 4)
            && (forall i :: 1 <= i < |b| ==> 0x80 <= b[i] < 0xC0)
            && (|b| == 1 ==> c == b[0])
            && (|b| == 2 ==> c == (b[0] as int - 0xC0) * 0x40 + Group(b, 1))
            && (|b| == 3 ==> c == (b[0] as int - 0xE0) * 0x1000 + Group(b, 1) * 0x40 + Group(b, 2))
            && (|b| == 4 ==> c == (b[0] as int - 0xF0) * 0x40000 + Group(b, 1) * 0x1000
                                + Group(b, 2) * 0x40 + Group(b, 3))
  {
    var d := c / 64;
    var e := d / 64;
    assert c == d * 64 + c % 64 && d == e * 64 + d % 64 && e == e / 64 * 64 + e % 64;
  }

  /** A text is encoded character by character. */
  lemma {:induction false} TextForm(a: string, b: string)
    ensures Utf8(a + b) == Utf8(a) + Utf8(b)
    ensures |a| == 1 ==> Utf8(a) == EncodeScalar(a[0] as nat)
  {
    if a == "" {
      assert a + b == b;
    } else {
      assert (a + b)[0] == a[0] && (a + b)[1..] == a[1..] + b;
      TextForm(a[1..], b);
    }
  }

  /** The signed bytes: the six fields in this order, one line each, as UTF-8. */
  lemma PayloadForm(f: Fields)
    requires CanonicalPayload(f).Ok?
    ensures CanonicalPayload(f).value ==
              Utf8(f.fingerprint + "\n" + f.documentId + "\n" + f.documentVersion + "\n" + f.ingestedAt + "\n"
                   + Dec(f.chunkOffset) + "\n" + Dec(f.chunkLength))
  {
    var l := Lines(f);
    assert l == [f.fingerprint, f.documentId, f.documentVersion, f.ingestedAt, Dec(f.chunkOffset), Dec(f.chunkLength)];
    JoinSix(f.fingerprint, f.documentId, f.documentVersion, f.ingestedAt, Dec(f.chunkOffset), Dec(f.chunkLength));
  }

  lemma JoinTwo(a: string, rest: seq<string>)
    requires rest != []
    ensures Join([a] + rest) == a + "\n" + Join(rest)
  {
    assert ([a] + rest)[1..] == rest;
  }

  lemma JoinSix(a: string, b: string, c: string, d: string, e: string, f: string)
    ensures Join([a, b, c, d, e, f]) == a + "\n" + b + "\n" + c + "\n" + d + "\n" + e + "\n" + f
  {
    JoinTwo(e, [f]);
    JoinTwo(d, [e, f]);
    JoinTwo(c, [d, e, f]);
    JoinTwo(b, [c, d, e, f]);
    JoinTwo(a, [b, c, d, e, f]);
    assert [a] + [b, c, d, e, f] == [a, b, c, d, e, f] && [b] + [c, d, e, f] == [b, c, d, e, f];
    assert [c] + [d, e, f] == [c, d, e, f] && [d] + [e, f] == [d, e, f] && [e] + [f] == [e, f];
    var tail3 := d + "\n" + (e + "\n" + f);
    assert a + "\n" + (b + "\n" + (c + "\n" + tail3)) == a + "\n" + b + "\n" + c + "\n" + d + "\n" + e + "\n" + f;
  }

  const DECIMAL := "0123456789"
  const HEXADECIMAL := "0123456789abcdef"

  /** The value of a string of decimal digits, read from the left. */
  function Value(s: string): int {
    if s == "" then 0 else Value(s[..|s| - 1]) * 10 + (s[|s| - 1] as int - 48)
  }

  /** A number is written in decimal digits without leading zeros, after a minus sign if it is negative. */
  lemma DecimalForm(n: int)
    ensures n < 0 ==> Dec(n) == "-" + Dec(-n)
    ensures n >= 0 ==> (forall i :: 0 <= i < |Dec(n)| ==> Dec(n)[i] in DECIMAL) && Value(Dec(n)) == n
    ensures n >= 0 && |Dec(n)| > 1 ==> Dec(n)[0] != '0'
  {
    if n >= 0 {
      NaturalForm(n);
    }
  }

  lemma {:induction false} NaturalForm(n: nat)
    ensures DecNat(n) != "" && Value(DecNat(n)) == n
    ensures forall i :: 0 <= i < |DecNat(n)| ==> DecNat(n)[i] in DECIMAL
    ensures DecNat(n)[0] == '0' ==> n == 0
    ensures n == 0 ==> |DecNat(n)| == 1
  {
    DigitForm(n % 10);
    var s := DecNat(n);
    if n < 10 {
      assert s == [Digit(n)] && s[..0] == "";
      assert Value(s[..0]) == 0;
    } else {
      NaturalForm(n / 10);
      assert s == DecNat(n / 10) + [Digit(n % 10)];
      assert s[..|s| - 1] == DecNat(n / 10);
    }
  }

  lemma DigitForm(d: nat)
    requires d < 10
    ensures Digit(d) in DECIMAL && Digit(d) as int - 48 == d
  {
    assert DECIMAL[d] == Digit(d);
  }

  /** A hash is printed as "sha256:" and two lower-case digits a byte, the high half first. */
  lemma PrintedForm(b: Bytes, i: nat)
    requires i < |b|
    ensures |PrefixedHex(b)| == 7 + 2 * |b| && PrefixedHex(b)[..7] == "sha256:"
    ensures PrefixedHex(b)[7 + 2 * i] == HEXADECIMAL[b[i] / 16]
    ensures PrefixedHex(b)[8 + 2 * i] == HEXADECIMAL[b[i] % 16]
  {
    HexForm(b, i);
    assert PrefixedHex(b) == "sha256:" + Hex(b);
  }

  lemma {:induction false} HexForm(b: Bytes, i: nat)
    requires i < |b|
    ensures |Hex(b)| == 2 * |b|
    ensures Hex(b)[2 * i] == HEXADECIMAL[b[i] / 16] && Hex(b)[2 * i + 1] == HEXADECIMAL[b[i] % 16]
  {
    HexLength(b[1..]);
    if i > 0 {
      HexForm(b[1..], i - 1);
      assert Hex(b)[2..] == Hex(b[1..]);
    }
  }

  lemma {:induction false} HexLength(b: Bytes)
    ensures |Hex(b)| == 2 * |b|
  {
    if b == [] {
    } else {
      HexLength(b[1..]);
    }
  }

  // ---------------------------------------------------------------- what the auditor reads

  predicate HexCharacter(c: char) {
    '0' <= c <= '9' || 'a' <= c <= 'f' || 'A' <= c <= 'F'
  }

  predicate AllHex(s: string) {
    forall i :: 0 <= i < |s| ==> HexCharacter(s[i])
  }

  predicate NoSpace(s: string) {
    forall i :: 0 <= i < |s| ==> !AsciiSpace(s[i])
  }

  lemma PairOff(s: string)
    requires |s| >= 2
    ensures AllHex(s) <==> HexCharacter(s[0]) && HexCharacter(s[1]) && AllHex(s[2..])
    ensures NoSpace(s) ==> NoSpace(s[2..])
  {
    var rest := s[2..];
    assert forall i :: 2 <= i < |s| ==> s[i] == rest[i - 2];
  }

  /** Without white space, exactly strings of hexadecimal digit pairs are read. */
  lemma {:induction false} ReadableIff(s: string)
    requires NoSpace(s)
    ensures FromHex(s).Some? <==> |s| % 2 == 0 && AllHex(s)
    decreases |s|
  {
    if |s| <= 1 {
    } else {
      PairOff(s);
      ReadableIff(s[2..]);
    }
  }

  lemma ReadsPair(c: char, d: char, hi: nat, lo: nat)
    requires hi < 16 && lo < 16 && HexValue(c) == Some(hi) && HexValue(d) == Some(lo)
    ensures FromHex([c, d]) == Some([hi * 16 + lo])
  {
    var s := [c, d];
    assert !AsciiSpace(c);
    assert s[0] == c && s[1] == d && s[2..] == "";
    assert FromHex(s[2..]) == Some([]);
    assert [hi * 16 + lo] + [] == [hi * 16 + lo];
  }

  lemma DigitValue(d: nat)
    requires d < 16
    ensures HexValue(HEXADECIMAL[d]) == Some(d) && HexValue(UPPER[d]) == Some(d)
  {
  }

  /** Digits of either case are read, the high half first. */
  lemma ReadsEitherCase(hi: nat, lo: nat)
    requires hi < 16 && lo < 16
    ensures FromHex([HEXADECIMAL[hi], HEXADECIMAL[lo]]) == Some([hi * 16 + lo])
    ensures FromHex([UPPER[hi], UPPER[lo]]) == Some([hi * 16 + lo])
  {
    DigitValue(hi);
    DigitValue(lo);
    ReadsPair(HEXADECIMAL[hi], HEXADECIMAL[lo], hi, lo);
    ReadsPair(UPPER[hi], UPPER[lo], hi, lo);
  }

  const UPPER := "0123456789ABCDEF"

  /** What stands before the first colon does not matter, and nothing has to stand there. */
  lemma PrefixIgnored(prefix: string, rest: string)
    requires ':' !in prefix
    ensures HexOf(prefix + ":" + rest) == FromHex(rest)
    ensures ':' !in rest ==> HexOf(rest) == FromHex(rest)
  {
    AfterColonSkips(prefix, rest);
  }
}
