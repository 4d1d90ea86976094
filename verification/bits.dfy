/**
 * The bit extractor: fixed-width unsigned and two's-complement fields read
 * from 32-bit navigation words, fields split over two places, and the
 * LNAV data-bit stream that IS-GPS-200 numbers its fields by.
 */
module NavBits {

  /** One navigation word as the receiver reports it: an unsigned 32-bit container. */
  type Word = w: int | 0 <= w < 0x1_0000_0000

  function Pow2(n: nat): (r: nat)
    ensures r >= 1
  {
    if n == 0 then 1 else 2 * Pow2(n - 1)
  }

  lemma {:induction false} Pow2Add(a: nat, b: nat)
    ensures Pow2(a + b) == Pow2(a) * Pow2(b)
  {
    if b > 0 {
      Pow2Add(a, b - 1);
      assert Pow2(a + b) == 2 * Pow2(a + b - 1);
    }
  }

  lemma Pow2Word()
    ensures Pow2(32) == 0x1_0000_0000 && Pow2(30) == 0x4000_0000
  {
    assert Pow2(8) == 0x100;
    assert Pow2(6) == 0x40;
    Pow2Add(8, 8);
    Pow2Add(16, 8);
    Pow2Add(24, 8);
    Pow2Add(24, 6);
  }

  /** The powers of two the navigation fields are masked with. */
  lemma Pow2Table()
    ensures Pow2(2) == 4 && Pow2(4) == 16 && Pow2(6) == 64 && Pow2(8) == 256
    ensures Pow2(10) == 1024 && Pow2(12) == 0x1000 && Pow2(14) == 0x4000 && Pow2(16) == 0x1_0000
    ensures Pow2(17) == 0x2_0000 && Pow2(22) == 0x40_0000 && Pow2(24) == 0x100_0000
  {
    assert Pow2(8) == 256;
    assert Pow2(6) == 64;
    Pow2Add(8, 2);
    Pow2Add(8, 4);
    Pow2Add(8, 6);
    Pow2Add(8, 8);
    Pow2Add(16, 1);
    Pow2Add(16, 6);
    Pow2Add(16, 8);
  }

  /** A field read with a power-of-two scale: the value is `raw * 2^exp`. */
  datatype Scaled = Scaled(raw: int, exp: int)

  // ---------------------------------------------------------------------------
  // Division facts the extractor relies on

  lemma DivModUnique(x: int, d: int, q: int, r: int)
    requires d > 0 && 0 <= r < d && x == d * q + r
    ensures x / d == q && x % d == r
  {
    var k := q - x / d;
    MulAtLeast(d, k);
    assert d * q == d * (x / d) + d * k;
  }

  lemma MulAtLeast(d: int, k: int)
    requires d > 0
    ensures k >= 1 ==> d * k >= d
    ensures k <= -1 ==> d * k <= -d
  {
    if k >= 1 {
      MulMonotone(d, 1, k);
    } else if k <= -1 {
      MulMonotone(d, k, -1);
    }
  }

  /** Shifting a concatenation left by one bit and filling the bottom bit. */
  lemma ShiftInStep(hi: int, q: int, lo: int, bit: int)
    ensures 2 * (hi * q + lo) + bit == hi * (2 * q) + (2 * lo + bit)
  {
  }

  lemma MulMonotone(d: int, a: int, b: int)
    requires d >= 0 && a <= b
    ensures d * a <= d * b
  {
    assert d * b - d * a == d * (b - a);
  }

  /** One more factor: `d * k` is `d * (k - 1) + d`. */
  lemma MulStep(d: int, k: int)
    ensures d * k == d * (k - 1) + d
  {
  }

  lemma MulAdd(d: int, a: int, b: int)
    ensures d * (a + b) == d * a + d * b
  {
  }

  lemma DivDiv(x: nat, a: nat, b: nat)
    requires a > 0 && b > 0
    ensures x / (a * b) == (x / a) / b
  {
    var q, r := x / a, x % a;
    var q2, r2 := q / b, q % b;
    assert x == a * (b * q2 + r2) + r;
    assert x == (a * b) * q2 + (a * r2 + r);
    assert a * r2 <= a * (b - 1) by { MulMonotone(a, r2, b - 1); }
    DivModUnique(x, a * b, q2, a * r2 + r);
  }

  /** `x / d` below `q` whenever `x` is below `q * d`. */
  lemma DivBelow(x: nat, d: nat, q: nat)
    requires d > 0 && x < q * d
    ensures x / d < q
  {
  }

  // ---------------------------------------------------------------------------
  // Single-word extraction

  /** `w >> shift` on a non-negative integer. */
  function Shr(w: nat, shift: nat): nat
  {
    DivNonNegative(w, Pow2(shift));
    w / Pow2(shift)
  }

  lemma DivNonNegative(x: nat, d: nat)
    requires d > 0
    ensures x / d >= 0
  {
  }

  /** `(w >> shift) & (2^width - 1)`: the `width` bits of `w` that start at bit `shift`. */
  function Field(w: nat, shift: nat, width: nat): (r: nat)
    ensures r < Pow2(width)
  {
    Shr(w, shift) % Pow2(width)
  }

  /** `w & (1 << n) != 0`: bit `n` of `w` is set. */
  predicate Bit(w: nat, n: nat)
  {
    Field(w, n, 1) == 1
  }

  /** An unmasked shift of a 32-bit word keeps only the bits above `shift`. */
  lemma ShrBound(w: Word, shift: nat)
    requires shift <= 32
    ensures Shr(w, shift) < Pow2(32 - shift)
  {
    Pow2Word();
    Pow2Add(32 - shift, shift);
    DivBelow(w, Pow2(shift), Pow2(32 - shift));
  }

  /** On a 32-bit word, `w >> s` is the field of all bits from s up. */
  lemma ShrIsField(w: Word, s: nat)
    requires s <= 32
    ensures Shr(w, s) == Field(w, s, 32 - s)
  {
    var v := Shr(w, s);
    ShrBound(w, s);
    DivModUnique(v, Pow2(32 - s), 0, v);
  }

  /** `w >> s` unmasked is the field from bit s to the top: the two padding bits above data bits 29 .. s. */
  lemma ShrTop(w: Word, s: nat)
    requires s <= 30
    ensures Shr(w, s) == Concat(Field(w, 30, 2), 2, Field(w, s, 30 - s), 30 - s)
  {
    var v := Shr(w, s);
    ShrBound(w, s);
    DivModUnique(v, Pow2(32 - s), 0, v);
    var a, b := 2, 30 - s;
    assert a + b == 32 - s && s + b == 30;
    FieldSplit(w, s, a, b);
  }

  /** Widening a field by one bit at the bottom: the step every extraction proof takes. */
  lemma FieldStep(x: nat, s: nat, w: nat)
    ensures Field(x, s, w + 1) == 2 * Field(x, s + 1, w) + Field(x, s, 1)
  {
    var y := x / Pow2(s);
    var p := Pow2(w);
    assert Pow2(s + 1) == Pow2(s) * 2;
    DivDiv(x, Pow2(s), 2);
    var q := y / 2;
    assert y == 2 * q + y % 2;
    assert q == p * (q / p) + q % p;
    assert y == (2 * p) * (q / p) + (2 * (q % p) + y % 2);
    DivModUnique(y, 2 * p, q / p, 2 * (q % p) + y % 2);
  }

  // ---------------------------------------------------------------------------
  // Two's complement

  /** The two's-complement reading of a `width`-bit raw field (`unpack_s<width>`). */
  function Signed(raw: nat, width: nat): (r: int)
    requires 0 < width && raw < Pow2(width)
    ensures -(Pow2(width - 1) as int) <= r < Pow2(width - 1)
    ensures r % Pow2(width) == raw
  {
    var h := Pow2(width - 1);
    SignedFacts(raw, width);
    if raw < h then raw as int else raw - 2 * h
  }

  lemma SignedFacts(raw: nat, width: nat)
    requires 0 < width && raw < Pow2(width)
    ensures Pow2(width) == 2 * Pow2(width - 1)
    ensures raw < Pow2(width - 1) ==> raw % Pow2(width) == raw
    ensures raw >= Pow2(width - 1) ==> (raw - 2 * Pow2(width - 1)) % Pow2(width) == raw
  {
    if raw < Pow2(width - 1) {
      DivModUnique(raw, Pow2(width), 0, raw);
    } else {
      DivModUnique(raw - Pow2(width), Pow2(width), -1, raw);
    }
  }

  /** A signed field is negative exactly when its top bit is set; then it is `raw - 2^width`. */
  lemma SignedTopBit(raw: nat, width: nat)
    requires 0 < width && raw < Pow2(width)
    ensures Signed(raw, width) < 0 <==> Bit(raw, width - 1)
    ensures Bit(raw, width - 1) ==> Signed(raw, width) == raw - Pow2(width)
    ensures !Bit(raw, width - 1) ==> Signed(raw, width) == raw
  {
    var h := Pow2(width - 1);
    assert Pow2(width) == 2 * h;
    assert Pow2(1) == 2;
    if raw < h {
      DivModUnique(raw, h, 0, raw);
    } else {
      DivModUnique(raw, h, 1, raw - h);
    }
    DivModUnique(raw / h, 2, 0, raw / h);
  }

  /** `unpack_s<width>(w, shift)`: a signed field read by shift-and-mask. */
  function SignedField(w: nat, shift: nat, width: nat): (r: int)
    requires 0 < width
    ensures -(Pow2(width - 1) as int) <= r < Pow2(width - 1)
    ensures r % Pow2(width) == Field(w, shift, width)
  {
    Signed(Field(w, shift, width), width)
  }

  // ---------------------------------------------------------------------------
  // Fields in two parts

  /** `(hi << loWidth) | lo`: a field whose high and low parts are read from different places. */
  function Concat(hi: nat, hiWidth: nat, lo: nat, loWidth: nat): (r: nat)
    requires hi < Pow2(hiWidth) && lo < Pow2(loWidth)
    ensures r < Pow2(hiWidth + loWidth)
    ensures r / Pow2(loWidth) == hi && r % Pow2(loWidth) == lo
  {
    ConcatFacts(hi, hiWidth, lo, loWidth);
    hi * Pow2(loWidth) + lo
  }

  lemma ConcatFacts(hi: nat, hiWidth: nat, lo: nat, loWidth: nat)
    requires hi < Pow2(hiWidth) && lo < Pow2(loWidth)
    ensures hi * Pow2(loWidth) + lo < Pow2(hiWidth + loWidth)
    ensures (hi * Pow2(loWidth) + lo) / Pow2(loWidth) == hi
    ensures (hi * Pow2(loWidth) + lo) % Pow2(loWidth) == lo
  {
    var p, h := Pow2(loWidth), Pow2(hiWidth);
    Pow2Add(hiWidth, loWidth);
    PlaceBelow(hi, h, lo, p);
    MulComm(hi, p);
    DivModUnique(hi * p + lo, p, hi, lo);
  }

  /** A high part below h placed above a low part below p stays below h * p. */
  lemma PlaceBelow(hi: nat, h: nat, lo: nat, p: nat)
    requires hi < h && lo < p
    ensures hi * p + lo < h * p
  {
    MulMonotone(p, hi, h - 1);
    MulStep(p, h);
    MulComm(hi, p);
    MulComm(h, p);
  }

  lemma MulComm(a: int, b: int)
    ensures a * b == b * a
  {
  }

  /** The low nibble, bit by bit. */
  lemma LowNibble(x: nat)
    ensures x % 16 == Field(x, 0, 1) + 2 * Field(x, 1, 1) + 4 * Field(x, 2, 1) + 8 * Field(x, 3, 1)
  {
    FieldStep(x, 0, 3);
    FieldStep(x, 1, 2);
    FieldStep(x, 2, 1);
    assert Field(x, 3, 0) == 0 by { assert Pow2(0) == 1; }
    assert Pow2(0) == 1;
    Pow2Table();
  }

  /** A field read in one go is its top `a` bits above its low `b` bits. */
  lemma {:induction false} FieldSplit(x: nat, s: nat, a: nat, b: nat)
    ensures Field(x, s, a + b) == Concat(Field(x, s + b, a), a, Field(x, s, b), b)
    decreases b
  {
    if b == 0 {
      assert Pow2(0) == 1;
    } else {
      FieldSplit(x, s + 1, a, b - 1);
      FieldStep(x, s, a + b - 1);
      FieldStep(x, s, b - 1);
      var hi, lo' := Field(x, s + b, a), Field(x, s + 1, b - 1);
      assert Field(x, s, a + b) == 2 * (hi * Pow2(b - 1) + lo') + Field(x, s, 1);
      assert Pow2(b) == 2 * Pow2(b - 1);
      ShiftInStep(hi, Pow2(b - 1), lo', Field(x, s, 1));
    }
  }

  /** `unpack_u32s(lo, hi)`: 8 high bits from bits 13..6 of `hi`, 24 low bits from bits 29..6 of `lo`. */
  function SpanU32(lo: Word, hi: Word): (r: nat)
    ensures r < Pow2(32)
  {
    Concat(Field(hi, 6, 8), 8, Field(lo, 6, 24), 24)
  }

  /** `unpack_s32s(lo, hi)`: the two's-complement reading of `SpanU32(lo, hi)`. */
  function SpanS32(lo: Word, hi: Word): int
  {
    Signed(SpanU32(lo, hi), 32)
  }

  // ---------------------------------------------------------------------------
  // The LNAV data-bit stream, numbered as IS-GPS-200 numbers it

  /** One bit of the data stream. */
  type Digit = d: nat | d < 2

  /**
   * The 24 data bits of one 30-bit LNAV word, most significant first. The
   * receiver right-aligns each word in 32 bits, so they are bits 29..6 of the
   * word (bits 5..0 are parity, bits 31..30 padding).
   */
  function WordBits(w: Word): (bs: seq<Digit>)
    ensures |bs| == 24
  {
    seq(24, k requires 0 <= k < 24 => Field(w, 29 - k, 1) as Digit)
  }

  /** The data-bit stream of a run of words: each word's 24 data bits in transmission order. */
  function DataBits(words: seq<Word>): (bs: seq<Digit>)
    ensures |bs| == 24 * |words|
  {
    if |words| == 0 then [] else DataBits(words[..|words| - 1]) + WordBits(words[|words| - 1])
  }

  /** A run of stream bits read as an unsigned number, most significant first. */
  function Value(bs: seq<Digit>): (r: nat)
    ensures r < Pow2(|bs|)
  {
    if |bs| == 0 then 0 else 2 * Value(bs[..|bs| - 1]) + bs[|bs| - 1]
  }

  /** The `width` stream bits from stream position `p` (counted from 0), read as an unsigned number. */
  function StreamField(words: seq<Word>, p: nat, width: nat): (r: nat)
    requires p + width <= 24 * |words|
    ensures r < Pow2(width)
  {
    Value(DataBits(words)[p..p + width])
  }

  /** A field in IS-GPS-200 terms: `width` bits starting at bit `bit` (1..24) of word `word` (1..10). */
  function NavField(words: seq<Word>, word: nat, bit: nat, width: nat): (r: nat)
    requires 1 <= word && 1 <= bit
    requires 24 * (word - 1) + (bit - 1) + width <= 24 * |words|
    ensures r < Pow2(width)
  {
    StreamField(words, 24 * (word - 1) + bit - 1, width)
  }

  /** Reading two runs of bits in a row: the first is the high part. */
  lemma {:induction false} ValueConcat(xs: seq<Digit>, ys: seq<Digit>)
    ensures Value(xs + ys) == Value(xs) * Pow2(|ys|) + Value(ys)
    decreases |ys|
  {
    if |ys| == 0 {
      assert xs + ys == xs;
    } else {
      var ys' := ys[..|ys| - 1];
      assert (xs + ys)[..|xs + ys| - 1] == xs + ys';
      ValueConcat(xs, ys');
      var hi, lo', bit := Value(xs), Value(ys'), ys[|ys| - 1];
      assert Value(xs + ys) == 2 * (hi * Pow2(|ys'|) + lo') + bit;
      assert Value(ys) == 2 * lo' + bit;
      assert Pow2(|ys|) == 2 * Pow2(|ys'|);
      ShiftInStep(hi, Pow2(|ys'|), lo', bit);
    }
  }

  /** Bits `a..a+width` of a word's data read as a number are the source's shift-and-mask. */
  lemma {:induction false} WordValue(w: Word, a: nat, width: nat)
    requires a + width <= 24
    ensures Value(WordBits(w)[a..a + width]) == Field(w, 30 - a - width, width)
    decreases width
  {
    var bs := WordBits(w)[a..a + width];
    if width == 0 {
      assert Pow2(0) == 1;
    } else {
      WordValue(w, a, width - 1);
      assert bs[..width - 1] == WordBits(w)[a..a + width - 1];
      FieldStep(w, 30 - a - width, width - 1);
    }
  }

  /** Word i of the run occupies stream bits `24i .. 24i+24`. */
  lemma {:induction false} DataBitsWord(words: seq<Word>, i: nat)
    requires i < |words|
    ensures DataBits(words)[24 * i..24 * i + 24] == WordBits(words[i])
    decreases |words|
  {
    var init := words[..|words| - 1];
    assert DataBits(words) == DataBits(init) + WordBits(words[|words| - 1]);
    if i < |words| - 1 {
      DataBitsWord(init, i);
      assert init[i] == words[i];
    }
  }

  /** A stream read inside word i is a shift-and-mask of that word. */
  lemma StreamFieldInWord(words: seq<Word>, i: nat, a: nat, width: nat)
    requires i < |words| && a + width <= 24
    ensures StreamField(words, 24 * i + a, width) == Field(words[i], 30 - a - width, width)
  {
    DataBitsWord(words, i);
    SliceOfSlice(DataBits(words), 24 * i, 24 * i + 24, a, a + width);
    WordValue(words[i], a, width);
  }

  /**
   * The stream field at absolute position p lies in word i, whose source shift for it
   * is `shift`. (Positions and shifts are parameters so that callers name them in the
   * form their own terms use.)
   */
  lemma StreamFieldAt(words: seq<Word>, p: nat, i: nat, shift: nat, width: nat)
    requires i < |words| && 24 * i <= p && p + width <= 24 * i + 24 && shift + p + width == 24 * i + 30
    ensures StreamField(words, p, width) == Field(words[i], shift, width)
  {
    StreamFieldInWord(words, i, p - 24 * i, width);
    assert 24 * i + (p - 24 * i) == p && 30 - (p - 24 * i) - width == shift;
  }

  /** `NavField` inside one word is the source's `(words[word-1] >> shift) & mask`. */
  lemma NavFieldInWord(words: seq<Word>, word: nat, bit: nat, width: nat)
    requires 1 <= word <= |words| && 1 <= bit && bit - 1 + width <= 24
    ensures NavField(words, word, bit, width) == Field(words[word - 1], 31 - bit - width, width)
  {
    StreamFieldInWord(words, word - 1, bit - 1, width);
  }

  /** A stream read of `a + b` bits is the concatenation of its first `a` bits and its last `b`. */
  lemma StreamFieldSplit(words: seq<Word>, p: nat, a: nat, b: nat)
    requires p + a + b <= 24 * |words|
    ensures StreamField(words, p, a + b) == Concat(StreamField(words, p, a), a, StreamField(words, p + a, b), b)
  {
    var d := DataBits(words);
    SliceSplit(d, p, p + a, p + a + b);
    ValueConcat(d[p..p + a], d[p + a..p + a + b]);
  }

  /**
   * A field that crosses from word i into word i+1: its top `hiWidth` bits are the
   * last data bits of word i, its low `loWidth` bits the first data bits of word i+1.
   */
  lemma CrossWord(words: seq<Word>, i: nat, hiWidth: nat, loWidth: nat)
    requires i + 1 < |words| && hiWidth <= 24 && loWidth <= 24
    ensures StreamField(words, 24 * i + 24 - hiWidth, hiWidth + loWidth)
         == Concat(Field(words[i], 6, hiWidth), hiWidth, Field(words[i + 1], 30 - loWidth, loWidth), loWidth)
  {
    var p := 24 * i + 24 - hiWidth;
    StreamFieldSplit(words, p, hiWidth, loWidth);
    StreamFieldInWord(words, i, 24 - hiWidth, hiWidth);
    StreamFieldInWord(words, i + 1, 0, loWidth);
  }

  lemma SliceSplit<T>(s: seq<T>, a: nat, b: nat, c: nat)
    requires a <= b <= c <= |s|
    ensures s[a..c] == s[a..b] + s[b..c]
  {
  }

  lemma SliceOfSlice<T>(s: seq<T>, a: nat, b: nat, c: nat, d: nat)
    requires a <= b <= |s| && c <= d <= b - a
    ensures s[a..b][c..d] == s[a + c..a + d]
  {
    var t := s[a..b];
    assert |t[c..d]| == |s[a + c..a + d]|;
    forall k | 0 <= k < d - c
      ensures t[c..d][k] == s[a + c..a + d][k]
    {
      assert t[c..d][k] == t[c + k] == s[a + c + k];
    }
  }

  /** `unpack_u32s(words[i+1], words[i])` is the 32 stream bits from bit 17 of word i+1 (IS-GPS-200 numbering). */
  lemma SpanIsStream(words: seq<Word>, i: nat)
    requires i + 1 < |words|
    ensures SpanU32(words[i + 1], words[i]) == NavField(words, i + 1, 17, 32)
  {
    CrossWord(words, i, 8, 24);
  }

  /** `unpack_s32s(words[i+1], words[i])` is the signed reading of the same 32 stream bits. */
  lemma SpanSignedIsStream(words: seq<Word>, i: nat)
    requires i + 1 < |words|
    ensures SpanS32(words[i + 1], words[i]) == Signed(NavField(words, i + 1, 17, 32), 32)
  {
    SpanIsStream(words, i);
  }

  /** `unpack_s<width>(words[word-1], shift)` is the signed reading of the IS-GPS-200 field. */
  lemma SignedFieldInWord(words: seq<Word>, word: nat, bit: nat, width: nat)
    requires 1 <= word <= |words| && 1 <= bit && bit - 1 + width <= 24 && 0 < width
    ensures SignedField(words[word - 1], 31 - bit - width, width) == Signed(NavField(words, word, bit, width), width)
  {
    NavFieldInWord(words, word, bit, width);
  }

  /** `n` consecutive `width`-bit stream fields from stream position `p`, in transmission order. */
  function StreamFields(words: seq<Word>, p: nat, width: nat, n: nat): (fs: seq<nat>)
    requires p + width * n <= 24 * |words|
    ensures |fs| == n
    decreases n
  {
    if n == 0 then [] else [StreamField(words, p, width)] + StreamFields(words, p + width, width, n - 1)
  }

  /** Element k of a run of fields is the field at q = p + width * k. */
  lemma {:induction false} StreamFieldsIndex(words: seq<Word>, p: nat, width: nat, n: nat, k: nat, q: nat)
    requires p + width * n <= 24 * |words| && k < n && q == p + width * k && q + width <= 24 * |words|
    ensures StreamFields(words, p, width, n)[k] == StreamField(words, q, width)
    decreases n
  {
    MulStep(width, n);
    if k > 0 {
      MulStep(width, k);
      StreamFieldsIndex(words, p + width, width, n - 1, k - 1, q);
    }
  }

  /**
   * A run of m + n fields from p is the run of the first m followed by the run of
   * the next n from q = p + width * m. (The positions and counts are parameters so
   * that callers name them in the form their own terms use.)
   */
  lemma {:induction false} StreamFieldsAppend(words: seq<Word>, p: nat, q: nat, width: nat, m: nat, n: nat, total: nat)
    requires q == p + width * m && total == m + n && p + width * total <= 24 * |words|
    ensures q + width * n <= 24 * |words|
    ensures StreamFields(words, p, width, total) == StreamFields(words, p, width, m) + StreamFields(words, q, width, n)
    decreases m
  {
    MulAdd(width, m, n);
    if m > 0 {
      MulStep(width, m);
      MulStep(width, total);
      StreamFieldsAppend(words, p + width, q, width, m - 1, n, total - 1);
    }
  }

  /** A run of two fields is the pair of fields at p and q = p + width. */
  lemma StreamFieldsPair(words: seq<Word>, p: nat, q: nat, width: nat)
    requires q == p + width && q + width <= 24 * |words|
    ensures StreamFields(words, p, width, 2) == [StreamField(words, p, width), StreamField(words, q, width)]
  {
    assert StreamFields(words, q, width, 1) == [StreamField(words, q, width)];
  }

  /** A run of four fields is the fields at p0 .. p3, each `width` after the last. */
  lemma StreamFieldsQuad(words: seq<Word>, p0: nat, p1: nat, p2: nat, p3: nat, width: nat)
    requires p1 == p0 + width && p2 == p1 + width && p3 == p2 + width && p3 + width <= 24 * |words|
    ensures StreamFields(words, p0, width, 4)
         == [StreamField(words, p0, width), StreamField(words, p1, width),
             StreamField(words, p2, width), StreamField(words, p3, width)]
  {
    StreamFieldsAppend(words, p0, p2, width, 2, 2, 4);
    StreamFieldsPair(words, p0, p1, width);
    StreamFieldsPair(words, p2, p3, width);
  }

  /** Every field of a run is below 2^width. */
  lemma {:induction false} StreamFieldsBelow(words: seq<Word>, p: nat, width: nat, n: nat)
    requires p + width * n <= 24 * |words|
    ensures forall f <- StreamFields(words, p, width, n) :: f < Pow2(width)
    decreases n
  {
    if n > 0 {
      MulStep(width, n);
      StreamFieldsBelow(words, p + width, width, n - 1);
    }
  }

  /**
   * Appending one field to a run: the run of k1 = k + 1 fields from p is the run of k
   * followed by the field at p + width * k, which the source reads as `words[i] >> shift`.
   */
  lemma StreamFieldsSnoc(words: seq<Word>, p: nat, width: nat, k: nat, k1: nat, i: nat, shift: nat)
    requires k1 == k + 1 && p + width * k1 <= 24 * |words|
    requires i < |words| && 24 * i <= p + width * k && p + width * k + width <= 24 * i + 24
    requires shift + p + width * k + width == 24 * i + 30
    ensures StreamFields(words, p, width, k1) == StreamFields(words, p, width, k) + [Field(words[i], shift, width)]
  {
    StreamFieldsAppend(words, p, p + width * k, width, k, 1, k1);
    assert StreamFields(words, p + width * k, width, 1) == [StreamField(words, p + width * k, width)];
    StreamFieldAt(words, p + width * k, i, shift, width);
  }

  /** Replacing the head of a sequence that starts with a pair. */
  lemma UpdateHead<T>(x: T, y: T, z: T, rest: seq<T>)
    ensures ([x, y] + rest)[0 := z] == [z, y] + rest
  {
    var s := ([x, y] + rest)[0 := z];
    forall k | 0 <= k < |s|
      ensures s[k] == ([z, y] + rest)[k]
    {
    }
  }
}
