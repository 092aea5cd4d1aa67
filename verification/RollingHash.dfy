/**
 The Rabin-Karp rolling hash and the windows over a text (provenex/core/hasher.py): the O(1)
 update equals the direct polynomial hash, and the emitted windows tile the text.
 */
module RollingHash {
  import opened Basics

  type Modulus = m: int | m > 0 witness 1

  /** Base and modulus of the hash; what is proved holds for every choice of them. */
  datatype Params = Params(base: int, modulus: Modulus)

  /** The source's choice: a prime above the Basic Multilingual Plane, and 2^61 - 1. */
  const RABIN_KARP := Params(1_000_003, 0x1FFF_FFFF_FFFF_FFFF)

  /** The direct hash, before reduction: the code points as digits. */
  function Poly(base: int, cps: seq<int>): int {
    if cps == [] then 0 else Poly(base, cps[..|cps| - 1]) * base + cps[|cps| - 1]
  }

  /** The direct hash of a window. */
  function DirectHash(p: Params, cps: seq<int>): int {
    Poly(p.base, cps) % p.modulus
  }

  function Power(b: int, e: nat): int {
    if e == 0 then 1 else Power(b, e - 1) * b
  }

  // ---------------------------------------------------------------- residues

  /** Congruence, by quotient. */
  ghost predicate Congruent(m: Modulus, a: int, b: int) {
    exists q: int :: Differ(m, a, b, q)
  }

  ghost predicate Differ(m: Modulus, a: int, b: int, q: int) {
    a - b == q * m
  }

  lemma ModIsCongruent(m: Modulus, a: int)
    ensures Congruent(m, a % m, a)
  {
    assert a == a / m * m + a % m;
    assert Differ(m, a % m, a, -(a / m));
  }

  /** Two residues that differ by a multiple of the modulus are the same. */
  lemma {:induction false} ResiduesEqual(m: Modulus, r: int, s: int, q: int)
    requires 0 <= r < m && 0 <= s < m && r - s == q * m
    ensures r == s
  {
    SmallMultiple(q, m);
    SmallMultiple(-q, m);
  }

  lemma CongruentMods(m: Modulus, a: int, b: int)
    requires Congruent(m, a, b)
    ensures a % m == b % m
  {
    var q: int :| Differ(m, a, b, q);
    var qa, qb, r, s := a / m, b / m, a % m, b % m;
    assert a == qa * m + r && b == qb * m + s;
    assert (q - qa + qb) * m == q * m - qa * m + qb * m;
    ResiduesEqual(m, r, s, q - qa + qb);
  }

  lemma CongruentAffine(m: Modulus, a: int, b: int, k: int, c: int)
    requires Congruent(m, a, b)
    ensures Congruent(m, a * k + c, b * k + c)
  {
    var q: int :| Differ(m, a, b, q);
    Distribute(m, a, b, k, q);
    assert Differ(m, a * k + c, b * k + c, q * k);
  }

  lemma Distribute(m: Modulus, a: int, b: int, k: int, q: int)
    requires a - b == q * m
    ensures a * k - b * k == (q * k) * m
  {
    assert a * k - b * k == (a - b) * k;
    assert (q * m) * k == (q * k) * m;
  }

  lemma CongruentTransitive(m: Modulus, a: int, b: int, c: int)
    requires Congruent(m, a, b) && Congruent(m, b, c)
    ensures Congruent(m, a, c)
  {
    var q: int :| Differ(m, a, b, q);
    var r: int :| Differ(m, b, c, r);
    assert (q + r) * m == q * m + r * m;
    assert Differ(m, a, c, q + r);
  }

  /** Removing the oldest code point takes its digit off the top. */
  lemma {:induction false} DropFirst(b: int, w: seq<int>)
    requires w != []
    ensures Poly(b, w) == w[0] * Power(b, |w| - 1) + Poly(b, w[1..])
  {
    if |w| > 1 {
      var front, x := w[..|w| - 1], w[|w| - 1];
      DropFirst(b, front);
      assert w[1..][..|w| - 2] == front[1..];
      AddDigit(w[0], Power(b, |w| - 2), Poly(b, front[1..]), b, x);
    }
  }

  lemma AddDigit(d: int, p: int, rest: int, b: int, x: int)
    ensures (d * p + rest) * b + x == d * (p * b) + (rest * b + x)
  {
    assert (d * p) * b == d * (p * b);
  }

  lemma PushPoly(b: int, w: seq<int>, x: int)
    ensures Poly(b, w + [x]) == Poly(b, w) * b + x
  {
    assert (w + [x])[..|w|] == w;
  }

  /** The rolling update of a window's exact hash, given its top digit's value. */
  lemma RollExact(b: int, w: seq<int>, x: int, top: int)
    requires w != [] && top == w[0] * Power(b, |w| - 1)
    ensures Poly(b, w[1..] + [x]) == (Poly(b, w) - top) * b + x
  {
    DropFirst(b, w);
    PushPoly(b, w[1..], x);
    assert Poly(b, w) - top == Poly(b, w[1..]);
  }

  // ---------------------------------------------------------------- the hasher

  class RollingHasher {
    const p: Params
    const windowSize: nat
    const topPower: int
    var value: int
    var primed: bool

    ghost predicate Valid() {
      windowSize >= 1 && topPower == Power(p.base, windowSize - 1) % p.modulus
    }

    /** The hasher holds the direct hash of this window. */
    ghost predicate Tracks(w: seq<int>)
      reads this
    {
      primed && |w| == windowSize && value == DirectHash(p, w)
    }

    constructor (p: Params, windowSize: nat)
      requires windowSize >= 1
      ensures Valid() && this.p == p && this.windowSize == windowSize && !primed
    {
      this.p := p;
      this.windowSize := windowSize;
      topPower := Power(p.base, windowSize - 1) % p.modulus;
      value := 0;
      primed := false;
    }

    /** A list of another length is rejected and changes nothing. */
    method Prime(codepoints: seq<int>) returns (ok: bool)
      requires Valid()
      modifies this
      ensures ok <==> |codepoints| == windowSize
      ensures ok ==> Tracks(codepoints)
      ensures !ok ==> value == old(value) && primed == old(primed)
    {
      if |codepoints| != windowSize {
        return false;
      }
      var h := 0;
      assert codepoints[..0] == [];
      for i := 0 to |codepoints|
        invariant h == DirectHash(p, codepoints[..i])
      {
        assert codepoints[..i] + [codepoints[i]] == codepoints[..i + 1];
        PushDigit(p, h, codepoints[..i], codepoints[i]);
        h := (h * p.base + codepoints[i]) % p.modulus;
      }
      assert codepoints[..|codepoints|] == codepoints;
      value := h;
      primed := true;
      ok := true;
    }

    /** Replaces the oldest code point of the tracked window `w` by a new one, in constant time. */
    method Roll(outCodepoint: int, inCodepoint: int, ghost w: seq<int>) returns (h: Option<int>)
      requires Valid()
      modifies this
      ensures h.Some? <==> old(primed)
      ensures h.Some? ==> primed && h.value == value
      ensures old(Tracks(w)) && w[0] == outCodepoint ==> Tracks(w[1..] + [inCodepoint])
      ensures h == None ==> value == old(value) && primed == old(primed)
    {
      if !primed {
        return None;
      }
      var v := (value - outCodepoint * topPower) % p.modulus;
      v := (v * p.base + inCodepoint) % p.modulus;
      if Tracks(w) && w[0] == outCodepoint {
        RollReduced(p, value, topPower, w, inCodepoint);
      }
      value := v;
      h := Some(v);
    }
  }

  lemma {:induction false} PushDigit(p: Params, h: int, w: seq<int>, x: int)
    requires h == DirectHash(p, w)
    ensures (h * p.base + x) % p.modulus == DirectHash(p, w + [x])
  {
    var exact := Poly(p.base, w);
    ModIsCongruent(p.modulus, exact);
    CongruentAffine(p.modulus, h, exact, p.base, x);
    CongruentMods(p.modulus, h * p.base + x, exact * p.base + x);
    PushPoly(p.base, w, x);
  }

  /** Taking the top digit off on residues: `h - d * top` for `poly - d * power`. */
  lemma DropResidue(m: Modulus, h: int, poly: int, top: int, power: int, d: int)
    requires Congruent(m, h, poly) && Congruent(m, top, power)
    ensures Congruent(m, h - d * top, poly - d * power)
  {
    CongruentAffine(m, top, power, -d, h);
    CongruentAffine(m, h, poly, 1, power * -d);
    Negate(top, d);
    Negate(power, d);
    CongruentTransitive(m, h - d * top, h - d * power, poly - d * power);
  }

  lemma Negate(a: int, d: int)
    ensures a * -d == -(d * a)
  {
  }

  /** The update on residues stays on the residue of the rolled window. */
  lemma {:induction false} RollReduced(p: Params, h: int, top: int, w: seq<int>, x: int)
    requires w != [] && h == DirectHash(p, w) && top == Power(p.base, |w| - 1) % p.modulus
    ensures ((h - w[0] * top) % p.modulus * p.base + x) % p.modulus == DirectHash(p, w[1..] + [x])
  {
    var m, b, d := p.modulus, p.base, w[0];
    var poly, power := Poly(b, w), Power(b, |w| - 1);
    ModIsCongruent(m, poly);
    ModIsCongruent(m, power);
    DropResidue(m, h, poly, top, power, d);
    var exact, kept := poly - d * power, (h - d * top) % m;
    ModIsCongruent(m, h - d * top);
    CongruentTransitive(m, kept, h - d * top, exact);
    CongruentAffine(m, kept, exact, b, x);
    CongruentMods(m, kept * b + x, exact * b + x);
    RollExact(b, w, x, d * power);
  }

  // ---------------------------------------------------------------- windows over a text

  datatype WindowHash = WindowHash(offset: nat, length: nat, rollingHash: int, fingerprint: string)

  datatype WindowError = BadWindowSize | BadStride

  /** SHA-256 of a text as the fingerprint string: any function. */
  type FingerprintFn = string -> string

  function Codepoints(text: string): (cps: seq<int>)
    ensures |cps| == |text|
  {
    seq(|text|, i requires 0 <= i < |text| => text[i] as int)
  }

  /** A correct window: its offset fits, and both hashes are those of its slice of the text. */
  ghost predicate WindowOf(p: Params, text: string, fp: FingerprintFn, w: WindowHash) {
    && w.offset + w.length <= |text|
    && w.rollingHash == DirectHash(p, Codepoints(text[w.offset..w.offset + w.length]))
    && w.fingerprint == fp(text[w.offset..w.offset + w.length])
  }

  lemma SliceCodepoints(text: string, a: nat, b: nat)
    requires a <= b <= |text|
    ensures Codepoints(text)[a..b] == Codepoints(text[a..b])
  {
  }

  /** Where j strides from the start lead. */
  function Strides(j: nat, stride: nat): nat {
    if j == 0 then 0 else Strides(j - 1, stride) + stride
  }

  lemma {:induction false} StridesProduct(j: nat, stride: nat)
    ensures Strides(j, stride) == j * stride
  {
    if j == 0 {
    } else {
      StridesProduct(j - 1, stride);
      assert j * stride == (j - 1) * stride + stride;
    }
  }

  /** The offsets are the multiples of the stride, in order, up to the last possible start. */
  ghost predicate Strided(lastStart: int, size: nat, stride: nat, out: seq<WindowHash>) {
    && out != []
    && (forall j :: 0 <= j < |out| ==> out[j].offset == Strides(j, stride) && out[j].length == size)
    && Strides(|out| - 1, stride) <= lastStart < Strides(|out|, stride)
  }

  /** The windows a text yields: none for an empty text, one for a text no longer than a window,
      and otherwise one at every multiple of the stride that fits. */
  ghost predicate Windows(p: Params, text: string, size: nat, stride: nat, fp: FingerprintFn, out: seq<WindowHash>) {
    && (text == "" ==> out == [])
    && (0 < |text| <= size ==> |out| == 1 && out[0].offset == 0 && out[0].length == |text|)
    && (|text| > size ==> Strided(|text| - size, size, stride, out))
    && forall w :: w in out ==> WindowOf(p, text, fp, w)
  }

  /** The text as a number in base 1000003, its characters' code points as digits. */
  function Digits(text: string): nat {
    if text == "" then 0 else Digits(text[..|text| - 1]) * 1_000_003 + text[|text| - 1] as int
  }

  /** The rolling hash of a window, on the text itself: that number modulo 2^61 - 1. */
  ghost predicate HasTextHash(w: WindowHash, text: string) {
    w.rollingHash == Digits(text) % MERSENNE_61
  }

  const MERSENNE_61 := Pow2(61) - 1

  lemma {:induction false} PolyOfText(text: string)
    ensures Poly(1_000_003, Codepoints(text)) == Digits(text)
  {
    if text == "" {
    } else {
      var front := text[..|text| - 1];
      assert Codepoints(text)[..|text| - 1] == Codepoints(front);
      PolyOfText(front);
    }
  }

  lemma HashOfText(text: string)
    ensures DirectHash(RABIN_KARP, Codepoints(text)) == Digits(text) % MERSENNE_61
  {
    PolyOfText(text);
    Mersenne();
  }

  lemma {:induction false} Pow2Sum(a: nat, b: nat, p: nat, q: nat)
    requires Pow2(a) == p && Pow2(b) == q
    ensures Pow2(a + b) == p * q
  {
    if a == 0 {
    } else {
      Pow2Sum(a - 1, b, p / 2, q);
      assert p == 2 * (p / 2) && p * q == 2 * (p / 2 * q);
    }
  }

  lemma PowerOfSixty(four: nat, fifteen: nat, thirty: nat)
    requires four == 4 && fifteen == 15 && thirty == 30
    ensures Pow2(thirty + thirty) == 0x1000_0000_0000_0000
  {
    assert Pow2(four) == 16;
    Pow2Sum(four, four, 16, 16);
    Pow2Sum(four + four, four, 256, 16);
    assert 2 * 2 * 2 * Pow2(four + four + four) == Pow2(fifteen);
    Pow2Sum(fifteen, fifteen, 0x8000, 0x8000);
    Pow2Sum(thirty, thirty, 0x4000_0000, 0x4000_0000);
  }

  lemma Mersenne()
    ensures MERSENNE_61 == 0x1FFF_FFFF_FFFF_FFFF
  {
    PowerOfSixty(4, 15, 30);
  }

  ghost function WindowAt(cps: seq<int>, a: nat, size: nat): seq<int>
    requires a + size <= |cps|
  {
    cps[a..a + size]
  }

  lemma RollWindow(cps: seq<int>, a: nat, b: nat, size: nat)
    requires size >= 1 && b == a + 1 && b + size <= |cps|
    ensures WindowAt(cps, a, size)[0] == cps[a]
    ensures WindowAt(cps, a, size)[1..] + [cps[b + size - 1]] == WindowAt(cps, b, size)
  {
  }

  method IterWindowHashes(text: string, windowSize: int, stride: int, fp: FingerprintFn)
    returns (res: Result<seq<WindowHash>, WindowError>)
    ensures res == Err(BadWindowSize) <==> windowSize < 1
    ensures res == Err(BadStride) <==> windowSize >= 1 && stride < 1
    ensures res.Ok? ==> Windows(RABIN_KARP, text, windowSize, stride, fp, res.value)
    ensures res.Ok? ==> forall w :: w in res.value ==> w.offset + w.length <= |text|
    ensures res.Ok? ==> forall w :: w in res.value ==> HasTextHash(w, text[w.offset..w.offset + w.length])
    ensures res.Ok? ==> forall w :: w in res.value ==> w.fingerprint == fp(text[w.offset..w.offset + w.length])
  {
    if windowSize < 1 {
      return Err(BadWindowSize);
    }
    if stride < 1 {
      return Err(BadStride);
    }
    var out;
    if |text| <= windowSize {
      out := WholeText(RABIN_KARP, text, fp);
    } else {
      out := Slide(RABIN_KARP, text, windowSize, stride, fp);
    }
    forall w | w in out ensures HasTextHash(w, text[w.offset..w.offset + w.length]) {
      assert WindowOf(RABIN_KARP, text, fp, w);
      HashOfText(text[w.offset..w.offset + w.length]);
    }
    res := Ok(out);
  }

  /** A text no longer than the window: one window over all of it, none over nothing. */
  method WholeText(p: Params, text: string, fp: FingerprintFn) returns (out: seq<WindowHash>)
    ensures text == "" ==> out == []
    ensures text != "" ==> |out| == 1 && out[0].offset == 0 && out[0].length == |text|
    ensures forall w :: w in out ==> WindowOf(p, text, fp, w)
  {
    if |text| == 0 {
      return [];
    }
    var rh := new RollingHasher(p, |text|);
    var primed := rh.Prime(Codepoints(text));
    assert text[0..|text|] == text;
    out := [WindowHash(0, |text|, rh.value, fp(text))];
  }

  ghost predicate AllWindows(p: Params, text: string, fp: FingerprintFn, out: seq<WindowHash>) {
    forall w :: w in out ==> WindowOf(p, text, fp, w)
  }

  /** Rolls one position at a time and emits every `stride` positions. */
  method Slide(p: Params, text: string, size: nat, stride: nat, fp: FingerprintFn) returns (out: seq<WindowHash>)
    requires 1 <= size < |text| && stride >= 1
    ensures Strided(|text| - size, size, stride, out)
    ensures forall w :: w in out ==> WindowOf(p, text, fp, w)
  {
    var cps := Codepoints(text);
    var hasher := new RollingHasher(p, size);
    out := FirstWindow(hasher, text, cps, size, stride, fp);
    for i := 1 to |text| - size + 1
      invariant hasher.Tracks(WindowAt(cps, i - 1, size))
      invariant Strided(i - 1, size, stride, out)
      invariant AllWindows(p, text, fp, out)
    {
      out := NextWindow(hasher, text, cps, i, size, stride, fp, out);
    }
  }

  /** Primes the hasher with the first window and emits it. */
  method FirstWindow(hasher: RollingHasher, text: string, cps: seq<int>, size: nat, stride: nat, fp: FingerprintFn)
    returns (out: seq<WindowHash>)
    requires hasher.Valid() && hasher.windowSize == size && size <= |text| && cps == Codepoints(text) && stride >= 1
    modifies hasher
    ensures hasher.Tracks(WindowAt(cps, 0, size))
    ensures Strided(0, size, stride, out) && AllWindows(hasher.p, text, fp, out)
  {
    SliceCodepoints(text, 0, size);
    assert cps[..size] == WindowAt(cps, 0, size);
    var primed := hasher.Prime(cps[..size]);
    out := [WindowHash(0, size, hasher.value, fp(text[0..size]))];
    assert Strides(|out|, stride) == stride;
  }

  /** One turn of the loop: rolls to position i and emits its window when it is due. */
  method NextWindow(hasher: RollingHasher, text: string, cps: seq<int>, i: nat, size: nat, stride: nat,
                    fp: FingerprintFn,
                    out: seq<WindowHash>) returns (more: seq<WindowHash>)
    requires hasher.Valid() && hasher.windowSize == size && cps == Codepoints(text)
    requires 1 <= i && i + size <= |text| && stride >= 1
    requires hasher.Tracks(WindowAt(cps, i - 1, size))
    requires Strided(i - 1, size, stride, out) && AllWindows(hasher.p, text, fp, out)
    modifies hasher
    ensures hasher.Tracks(WindowAt(cps, i, size))
    ensures Strided(i, size, stride, more) && AllWindows(hasher.p, text, fp, more)
  {
    var here := WindowHere(hasher, text, cps, i, size, fp);
    more := EmitIfDue(hasher.p, text, fp, out, here, stride);
  }

  /** Rolls to position i. */
  method WindowHere(hasher: RollingHasher, text: string, cps: seq<int>, i: nat, size: nat, fp: FingerprintFn)
    returns (here: WindowHash)
    requires hasher.Valid() && hasher.windowSize == size && cps == Codepoints(text)
    requires 1 <= i && i + size <= |text| && hasher.Tracks(WindowAt(cps, i - 1, size))
    modifies hasher
    ensures hasher.Tracks(WindowAt(cps, i, size))
    ensures here.offset == i && here.length == size && WindowOf(hasher.p, text, fp, here)
  {
    RollWindow(cps, i - 1, i, size);
    var h := hasher.Roll(cps[i - 1], cps[i + size - 1], WindowAt(cps, i - 1, size));
    SliceCodepoints(text, i, i + size);
    here := WindowHash(i, size, hasher.value, fp(text[i..i + size]));
  }

  /** The window at the current position is emitted when the position is a multiple of the stride. */
  method EmitIfDue(p: Params, text: string, fp: FingerprintFn, out: seq<WindowHash>, w: WindowHash, stride: nat)
    returns (more: seq<WindowHash>)
    requires w.offset >= 1 && stride >= 1 && Strided(w.offset - 1, w.length, stride, out)
    requires WindowOf(p, text, fp, w) && forall x :: x in out ==> WindowOf(p, text, fp, x)
    ensures Strided(w.offset, w.length, stride, more)
    ensures forall x :: x in more ==> WindowOf(p, text, fp, x)
  {
    StridedNext(w.offset, w.length, stride, out);
    if w.offset % stride == 0 {
      more := AppendWindow(p, text, fp, out, w, stride);
    } else {
      more := out;
    }
  }

  lemma StridedNext(i: nat, size: nat, stride: nat, out: seq<WindowHash>)
    requires i >= 1 && stride >= 1 && Strided(i - 1, size, stride, out)
    ensures i % stride == 0 ==> i == Strides(|out|, stride)
    ensures i % stride != 0 ==> Strided(i, size, stride, out)
  {
    StridesProduct(|out| - 1, stride);
    StridesProduct(|out|, stride);
    MultipleIsNext(i, stride, |out|);
  }

  function AppendWindow(p: Params, text: string, fp: FingerprintFn, out: seq<WindowHash>, w: WindowHash,
                        stride: nat): (more: seq<WindowHash>)
    requires Strided(w.offset - 1, w.length, stride, out) && stride >= 1
    requires w.offset == Strides(|out|, stride) && WindowOf(p, text, fp, w)
    requires forall x :: x in out ==> WindowOf(p, text, fp, x)
    ensures Strided(w.offset, w.length, stride, more)
    ensures forall x :: x in more ==> WindowOf(p, text, fp, x)
  {
    out + [w]
  }

  lemma {:induction false} AtLeastOnce(a: nat, s: nat)
    requires a >= 1
    ensures a * s >= s
  {
    if a <= 1 {
    } else {
      AtLeastOnce(a - 1, s);
      assert a * s == (a - 1) * s + s;
    }
  }

  /** No multiple of `s` other than zero is below `s`. */
  lemma SmallMultiple(a: int, s: nat)
    requires 0 <= a * s < s
    ensures a == 0
  {
    assert a * s == -(-a * s);
    if a >= 1 {
      AtLeastOnce(a, s);
    } else if a <= -1 {
      AtLeastOnce(-a, s);
    }
  }

  /** After m - 1 strides, position i is a multiple of the stride exactly when it is the m-th. */
  lemma {:induction false} MultipleIsNext(i: nat, stride: nat, m: nat)
    requires stride >= 1 && m >= 1 && (m - 1) * stride <= i - 1 < m * stride
    ensures i % stride == 0 <==> i == m * stride
  {
    var q := i / stride;
    var r := i % stride;
    assert i == q * stride + r;
    if i == m * stride {
      assert (m - q) * stride == m * stride - q * stride;
      SmallMultiple(m - q, stride);
    } else if r == 0 {
      assert (m - q) * stride == m * stride - q * stride;
      assert (m - 1) * stride == m * stride - stride;
      SmallMultiple(m - q, stride);
    }
  }

  /** With a stride no longer than the window every position before the last window's end lies in
      some window, and fewer than `stride` positions come after it. */
  lemma WindowsCover(p: Params, text: string, size: nat, stride: nat, fp: FingerprintFn, out: seq<WindowHash>, pos: nat)
    requires 1 <= stride <= size && text != "" && Windows(p, text, size, stride, fp, out)
    ensures out != []
    ensures var last := out[|out| - 1];
            && last.offset + last.length <= |text| < last.offset + last.length + stride
            && (pos < last.offset + last.length ==> exists w :: w in out && w.offset <= pos < w.offset + w.length)
  {
    if |text| <= size {
      assert out[0] in out;
    } else {
      if pos < out[|out| - 1].offset + size {
        var j := Covering(size, stride, out, pos, |out| - 1);
        assert out[j] in out;
      }
    }
  }

  /** The last window that starts at or before p. */
  lemma {:induction false} Covering(size: nat, stride: nat, out: seq<WindowHash>, p: nat, last: nat) returns (j: nat)
    requires 1 <= stride <= size && last < |out| && p < Strides(last, stride) + size
    requires forall j :: 0 <= j < |out| ==> out[j].offset == Strides(j, stride) && out[j].length == size
    ensures j <= last && out[j].offset <= p < out[j].offset + out[j].length
    decreases last
  {
    if Strides(last, stride) <= p {
      j := last;
    } else {
      j := Covering(size, stride, out, p, last - 1);
    }
  }
}
