/**
 The canonical row payload of provenex/index/sqlite_index.py: validated fields joined by
 newlines and encoded as UTF-8, together with a parser that undoes it.
 */
module Payload {
  import opened Basics

  // ---------------------------------------------------------------- UTF-8

  /** The UTF-8 encoding of one Unicode scalar value. */
  function EncodeScalar(c: nat): (b: Bytes)
    requires c < 0x110000
    ensures 1 <= |b| <= 4
  {
    if c < 0x80 then [c]
    else if c < 0x800 then [0xC0 + c / 64, 0x80 + c % 64]
    else if c < 0x10000 then [0xE0 + c / 64 / 64, 0x80 + c / 64 % 64, 0x80 + c % 64]
    else [0xF0 + c / 64 / 64 / 64, 0x80 + c / 64 / 64 % 64, 0x80 + c / 64 % 64, 0x80 + c % 64]
  }

  function Utf8(s: string): Bytes {
    if s == "" then [] else EncodeScalar(s[0] as nat) + Utf8(s[1..])
  }

  /** How many bytes the scalar value that starts with this byte occupies. */
  function ScalarWidth(b: byte): nat {
    if b < 0xC0 then 1 else if b < 0xE0 then 2 else if b < 0xF0 then 3 else 4
  }

  /** A scalar value from a lead value and the six-bit groups that follow it. */
  function SixBits(lead: int, rest: Bytes): int
    decreases |rest|
  {
    if rest == [] then lead else SixBits(lead * 64 + (rest[0] as int - 0x80), rest[1..])
  }

  function DecodeScalar(b: Bytes): int
    requires b != [] && |b| == ScalarWidth(b[0])
  {
    var lead := b[0] as int;
    if |b| == 1 then lead
    else if |b| == 2 then SixBits(lead - 0xC0, b[1..])
    else if |b| == 3 then SixBits(lead - 0xE0, b[1..])
    else SixBits(lead - 0xF0, b[1..])
  }

  lemma SixBitsStep(lead: int, c: nat, rest: Bytes, b: Bytes)
    requires b == [0x80 + c % 64] + rest && lead == c / 64
    ensures SixBits(lead, b) == SixBits(c, rest)
  {
    assert b[1..] == rest;
  }

  lemma ScalarRoundTrip(c: nat)
    requires c < 0x110000
    ensures |EncodeScalar(c)| == ScalarWidth(EncodeScalar(c)[0])
    ensures DecodeScalar(EncodeScalar(c)) == c
  {
    var b := EncodeScalar(c);
    if 0x80 <= c {
      SixBitsStep(c / 64, c, [], [0x80 + c % 64]);
      if 0x800 <= c {
        SixBitsStep(c / 64 / 64, c / 64, [0x80 + c % 64], [0x80 + c / 64 % 64, 0x80 + c % 64]);
        if 0x10000 <= c {
          SixBitsStep(c / 64 / 64 / 64, c / 64 / 64, [0x80 + c / 64 % 64, 0x80 + c % 64], b[1..]);
        }
      }
    }
  }

  /** UTF-8 texts that agree as bytes agree as strings: the encoding is prefix-free. */
  lemma {:induction false} Utf8Injective(s: string, t: string)
    requires Utf8(s) == Utf8(t)
    ensures s == t
  {
    if s != "" && t != "" {
      var a, b := EncodeScalar(s[0] as nat), EncodeScalar(t[0] as nat);
      ScalarRoundTrip(s[0] as nat);
      ScalarRoundTrip(t[0] as nat);
      assert Utf8(s)[0] == a[0] && Utf8(t)[0] == b[0];
      assert Utf8(s)[..|a|] == a && Utf8(t)[..|b|] == b;
      assert s[0] == t[0];
      assert Utf8(s)[|a|..] == Utf8(s[1..]) && Utf8(t)[|b|..] == Utf8(t[1..]);
      Utf8Injective(s[1..], t[1..]);
      assert s == [s[0]] + s[1..] && t == [t[0]] + t[1..];
    }
  }

  // ---------------------------------------------------------------- decimal integers

  function Digit(d: nat): char
    requires d < 10
  {
    '0' + d as char
  }

  function DecNat(n: nat): (s: string)
    ensures Digits(s)
  {
    if n < 10 then [Digit(n)] else DecNat(n / 10) + [Digit(n % 10)]
  }

  /** Python's `str` of an integer. */
  function Dec(n: int): (s: string)
    ensures s != "" && '\n' !in s
  {
    if n < 0 then "-" + DecNat(-n) else DecNat(n)
  }

  predicate Digits(s: string) {
    s != "" && forall i :: 0 <= i < |s| ==> '0' <= s[i] <= '9'
  }

  function ParseNat(s: string): nat
    requires Digits(s)
  {
    var units := s[|s| - 1] as nat - '0' as nat;
    if |s| == 1 then units else ParseNat(s[..|s| - 1]) * 10 + units
  }

  function ParseDec(s: string): Option<int> {
    if s != "" && s[0] == '-' then ParseNegated(s[1..])
    else if Digits(s) then Some(ParseNat(s))
    else None
  }

  function ParseNegated(s: string): Option<int> {
    if Digits(s) then
      var n: int := ParseNat(s);
      Some(-n)
    else None
  }

  lemma {:induction false} DecNatRoundTrip(n: nat)
    ensures ParseNat(DecNat(n)) == n
  {
    var s := DecNat(n);
    if n < 10 {
      assert |s| == 1;
    } else {
      assert s[..|s| - 1] == DecNat(n / 10);
      DecNatRoundTrip(n / 10);
    }
  }

  lemma ParsePositive(s: string, n: int)
    requires Digits(s) && ParseNat(s) == n
    ensures ParseDec(s) == Some(n)
  {
    assert s[0] != '-';
  }

  lemma ParseNegative(s: string, n: int)
    requires Digits(s) && ParseNat(s) == n
    ensures ParseDec("-" + s) == Some(-n)
  {
    var t := "-" + s;
    assert t[1..] == s;
    assert t[0] == '-';
  }

  lemma DecRoundTrip(n: int)
    ensures ParseDec(Dec(n)) == Some(n)
  {
    if n < 0 {
      DecNatRoundTrip(-n);
      ParseNegative(DecNat(-n), -n);
    } else {
      DecNatRoundTrip(n);
      ParsePositive(DecNat(n), n);
    }
  }

  // ---------------------------------------------------------------- joining and splitting lines

  function Join(lines: seq<string>): string
    requires lines != []
  {
    if |lines| == 1 then lines[0] else lines[0] + "\n" + Join(lines[1..])
  }

  function Split(s: string): (lines: seq<string>)
    ensures lines != []
  {
    if s == "" then [""]
    else
      var rest := Split(s[1..]);
      if s[0] == '\n' then [""] + rest else [[s[0]] + rest[0]] + rest[1..]
  }

  lemma {:induction false} SplitLine(line: string)
    requires '\n' !in line
    ensures Split(line) == [line]
  {
    if line == "" {
    } else {
      SplitLine(line[1..]);
      assert [line[0]] + line[1..] == line;
    }
  }

  lemma {:induction false} SplitAfterLine(line: string, rest: string)
    requires '\n' !in line
    ensures Split(line + "\n" + rest) == [line] + Split(rest)
  {
    var s := line + "\n" + rest;
    if line == "" {
      assert s[1..] == rest;
    } else {
      assert s[1..] == line[1..] + "\n" + rest;
      SplitAfterLine(line[1..], rest);
      assert [line[0]] + line[1..] == line;
    }
  }

  lemma {:induction false} SplitJoin(lines: seq<string>)
    requires lines != [] && forall l :: l in lines ==> '\n' !in l
    ensures Split(Join(lines)) == lines
    decreases |lines|
  {
    if |lines| == 1 {
      SplitLine(lines[0]);
    } else {
      SplitAfterLine(lines[0], Join(lines[1..]));
      SplitJoin(lines[1..]);
    }
  }

  // ---------------------------------------------------------------- the payload

  /** The six signed fields of a fingerprint row. */
  datatype Fields = Fields(
    fingerprint: string,
    documentId: string,
    documentVersion: string,
    ingestedAt: string,
    chunkOffset: int,
    chunkLength: int)

  /** The first field that holds a newline, a carriage return or a null character. */
  datatype PayloadError = ForbiddenCharacter(field: string)

  predicate ValidField(value: string) {
    '\n' !in value && '\r' !in value && '\0' !in value
  }

  predicate ValidFields(f: Fields) {
    ValidField(f.fingerprint) && ValidField(f.documentId) && ValidField(f.documentVersion) && ValidField(f.ingestedAt)
  }

  function Lines(f: Fields): seq<string> {
    [f.fingerprint, f.documentId, f.documentVersion, f.ingestedAt, Dec(f.chunkOffset), Dec(f.chunkLength)]
  }

  /** The bytes that are signed and logged for a row; fields are validated in source order. */
  function CanonicalPayload(f: Fields): (r: Result<Bytes, PayloadError>)
    ensures r.Ok? <==> ValidFields(f)
  {
    if !ValidField(f.fingerprint) then Err(ForbiddenCharacter("fingerprint"))
    else if !ValidField(f.documentId) then Err(ForbiddenCharacter("document_id"))
    else if !ValidField(f.documentVersion) then Err(ForbiddenCharacter("document_version"))
    else if !ValidField(f.ingestedAt) then Err(ForbiddenCharacter("ingested_at"))
    else Ok(Utf8(Join(Lines(f))))
  }

  /** Reads the six fields back from a payload's text. */
  function ParsePayload(text: string): Option<Fields> {
    var l := Split(text);
    if |l| != 6 then None
    else
      match (ParseDec(l[4]), ParseDec(l[5]))
      case (Some(offset), Some(length)) => Some(Fields(l[0], l[1], l[2], l[3], offset, length))
      case _ => None
  }

  /** The text of a payload determines all six fields. */
  lemma PayloadRoundTrip(f: Fields)
    requires ValidFields(f)
    ensures ParsePayload(Join(Lines(f))) == Some(f)
  {
    SplitJoin(Lines(f));
    DecRoundTrip(f.chunkOffset);
    DecRoundTrip(f.chunkLength);
  }

  /** Rows with the same signed bytes have the same six fields. */
  lemma PayloadInjective(f: Fields, g: Fields)
    requires CanonicalPayload(f).Ok? && CanonicalPayload(f) == CanonicalPayload(g)
    ensures f == g
  {
    Utf8Injective(Join(Lines(f)), Join(Lines(g)));
    PayloadRoundTrip(f);
    PayloadRoundTrip(g);
  }

  // ---------------------------------------------------------------- hexadecimal digests

  function HexDigit(d: nat): char
    requires d < 16
  {
    if d < 10 then '0' + d as char else 'a' + (d - 10) as char
  }

  function Hex(b: Bytes): string {
    if b == [] then "" else [HexDigit(b[0] / 16), HexDigit(b[0] % 16)] + Hex(b[1..])
  }

  function HexValue(c: char): Option<nat> {
    if '0' <= c <= '9' then Some(c as nat - '0' as nat)
    else if 'a' <= c <= 'f' then Some(c as nat - 'a' as nat + 10)
    else if 'A' <= c <= 'F' then Some(c as nat - 'A' as nat + 10)
    else None
  }

  predicate AsciiSpace(c: char) {
    c == ' ' || c == '\t' || c == '\n' || c == '\r' || c as nat == 11 || c as nat == 12
  }

  /** Python's `bytes.fromhex`: ASCII white space may stand between bytes. */
  function FromHex(s: string): (r: Option<Bytes>) {
    if s == "" then Some([])
    else if AsciiSpace(s[0]) then FromHex(s[1..])
    else if |s| == 1 then None
    else
      match (HexValue(s[0]), HexValue(s[1]), FromHex(s[2..]))
      case (Some(hi), Some(lo), Some(rest)) => Some([hi * 16 + lo] + rest)
      case _ => None
  }

  /** `_hex`: a digest as the index reports it. */
  function PrefixedHex(b: Bytes): string {
    "sha256:" + Hex(b)
  }

  /** `_hex_of`: what the auditor decodes, everything after the first colon if there is one. */
  function HexOf(s: string): Option<Bytes> {
    FromHex(AfterColon(s))
  }

  function AfterColon(s: string): string {
    if ':' !in s then s else if s[0] == ':' then s[1..] else AfterColon(s[1..])
  }

  lemma HexDigitRoundTrip(d: nat)
    requires d < 16
    ensures HexValue(HexDigit(d)) == Some(d) && !AsciiSpace(HexDigit(d))
  {
  }

  lemma {:induction false} HexRoundTrip(b: Bytes)
    ensures FromHex(Hex(b)) == Some(b)
  {
    if b == [] {
    } else {
      HexDigitRoundTrip(b[0] / 16);
      HexDigitRoundTrip(b[0] % 16);
      HexRoundTrip(b[1..]);
      assert Hex(b)[2..] == Hex(b[1..]);
      assert b[0] / 16 * 16 + b[0] % 16 == b[0];
      assert b == [b[0]] + b[1..];
    }
  }

  /** The auditor reads back the bytes the index wrote. */
  lemma PrefixedHexRoundTrip(b: Bytes)
    ensures HexOf(PrefixedHex(b)) == Some(b)
  {
    AfterColonSkips("sha256", Hex(b));
    assert PrefixedHex(b) == "sha256" + ":" + Hex(b);
    HexRoundTrip(b);
  }

  lemma {:induction false} AfterColonSkips(prefix: string, rest: string)
    requires ':' !in prefix
    ensures AfterColon(prefix + ":" + rest) == rest
  {
    var s := prefix + ":" + rest;
    assert s[|prefix|] == ':';
    if prefix != "" {
      assert s[1..] == prefix[1..] + ":" + rest;
      AfterColonSkips(prefix[1..], rest);
    }
  }
}
