/** When the end code of win/qrcodegen.js is cut short: exactly for images that parse into eleven phrases. */
module LzwCut {
  import opened Prelude
  import opened Bits
  import opened Lzw

  // ---- the greedy parse, without codes and widths ----

  /** A phrase goes on as long as it has been met before with its next pixel. The number of phrases from the one
      under way on, when the scan stands at i. */
  function PhrasesFrom(data: Str, i: nat, known: set<Str>, s: Str): (n: nat)
    requires i <= |data|
    ensures n > 0
    decreases |data| - i
  {
    if i == |data| then 1
    else
      var longer := s + [data[i]];
      if longer in known then PhrasesFrom(data, i + 1, known, longer)
      else 1 + PhrasesFrom(data, i + 1, known + {longer}, [data[i]])
  }

  function Phrases(data: Str): nat
    requires data != []
  {
    PhrasesFrom(data, 1, {}, [data[0]])
  }

  /** The table knows the phrases of the parse, and the single pixels besides. */
  ghost predicate Knows(entries: seq<Str>, known: set<Str>) {
    forall t: Str :: |t| > 1 ==> (t in entries <==> t in known)
  }

  lemma KnowsMore(entries: seq<Str>, known: set<Str>, t: Str)
    requires Knows(entries, known)
    ensures Knows(entries + [t], known + {t})
  {
  }

  lemma KnowsStart()
    ensures Knows(START, {})
  {
  }

  /** The parse, and the table at its end: one key for each phrase but the last, up to the limit. */
  ghost predicate Counted(data: Str, i: nat, e: Encoder, s: Str, phrases: nat)
    requires Pixels(data) && i <= |data| && Rooted(e.entries) && s in e.entries
  {
    var last := EncodeFrom(data, i, e, s).last;
    && EncoderInv(last)
    && if |last.entries| < MAX_TABLE then |last.entries| + 1 == |e.entries| + phrases
       else MAX_TABLE + 1 <= |e.entries| + phrases
  }

  /** A full table learns no more. */
  lemma {:induction false} Frozen(data: Str, i: nat, e: Encoder, s: Str)
    requires Pixels(data) && i <= |data| && Rooted(e.entries) && s in e.entries && |e.entries| == MAX_TABLE
    ensures EncodeFrom(data, i, e, s).last == e
    decreases |data| - i
  {
    if i < |data| {
      assert [data[i]] == e.entries[data[i]];
      if s + [data[i]] in e.entries {
        Frozen(data, i + 1, e, s + [data[i]]);
      } else {
        Frozen(data, i + 1, e, [data[i]]);
      }
    }
  }

  lemma {:induction false} PhraseCount(data: Str, i: nat, e: Encoder, s: Str, known: set<Str>)
    requires Pixels(data) && i <= |data| && EncoderInv(e) && s in e.entries && s != []
    requires |e.entries| < MAX_TABLE ==> Knows(e.entries, known)
    ensures Counted(data, i, e, s, PhrasesFrom(data, i, known, s))
    decreases |data| - i
  {
    if |e.entries| == MAX_TABLE {
      Frozen(data, i, e, s);
    } else if i < |data| {
      var longer := s + [data[i]];
      assert longer in e.entries <==> longer in known;
      hide EncoderInv, Knows, IndexOf;
      if longer in known {
        PhraseCount(data, i + 1, e, longer, known);
      } else {
        LearnInv(e, longer);
        LearnRoot(e, longer, data[i]);
        KnowsMore(e.entries, known, longer);
        EmittedPhrase(data, i, e, s);
        PhraseCount(data, i + 1, Learn(e, longer), [data[i]], known + {longer});
      }
    }
  }

  lemma LastTable(data: Str, i: nat, e: Encoder, s: Str)
    requires Pixels(data) && i <= |data| && EncoderInv(e) && s in e.entries
    requires |EncodeFrom(data, i, e, s).last.entries| < MAX_TABLE
    ensures |e.entries| < MAX_TABLE
  {
    if |e.entries| == MAX_TABLE { Frozen(data, i, e, s); }
  }

  lemma LearnRoot(e: Encoder, key: Str, x: nat)
    requires EncoderInv(e) && x < CLEAR
    ensures Rooted(e.entries) && Rooted(Learn(e, key).entries) && [x] in Learn(e, key).entries
  {
    assert Learn(e, key).entries[x] == [x];
  }

  // ---- the bits that are written ----

  function Times(a: nat, b: nat): nat {
    a * b
  }

  lemma TimesNext(a: nat, b: nat)
    ensures Times(a, b + 1) == Times(a, b) + a
  {
  }

  lemma TimesEight(a: nat, b: nat)
    ensures Times(a, 8 * b) % 8 == 0
  {
    assert Times(a, 8 * b) == 8 * (a * b);
  }

  /** The bits of the clear code and of one code for every table size above 4, all of w bits or fewer. */
  function FullBits(w: nat): nat {
    if w <= 2 then 0 else FullBits(w - 1) + Times(w, Pow2(w - 1))
  }

  /** The bits written when the table has come to its present size. */
  function BitsBefore(e: Encoder): nat
    requires EncoderInv(e)
  {
    FullBits(e.width - 1) + Times(e.width, |e.entries| - 1 - Pow2(e.width - 1))
  }

  lemma LearnBits(e: Encoder, key: Str)
    requires EncoderInv(e) && |e.entries| < MAX_TABLE
    ensures EncoderInv(Learn(e, key)) && BitsBefore(Learn(e, key)) == BitsBefore(e) + e.width
  {
    LearnInv(e, key);
    hide Times;
    TimesNext(e.width, |e.entries| - 1 - Pow2(e.width - 1));
    if |e.entries| == Pow2(e.width) { PowerBits(e); }
  }

  lemma TimesNone(a: nat)
    ensures Times(a, 0) == 0
  {
  }

  /** At a power of two the code that comes next is the first of one bit more. */
  lemma PowerBits(e: Encoder)
    requires EncoderInv(e) && |e.entries| == Pow2(e.width)
    ensures BitsBefore(e) + e.width == FullBits(e.width) + Times(e.width + 1, 0)
  {
    hide Times;
    var h := Pow2(e.width - 1);
    assert |e.entries| == 2 * h;
    TimesNext(e.width, h - 1);
    TimesNone(e.width + 1);
  }

  lemma OneCodeBits(c: Code, codes: seq<Code>)
    ensures |CodeBits([c] + codes)| == c.width + |CodeBits(codes)|
  {
    CodeBitsCons(c, codes, []);
    assert CodeBits([c] + codes) + [] == CodeBits([c] + codes) && CodeBits(codes) + [] == CodeBits(codes);
  }

  lemma LastCodeBits(c: Code)
    ensures |CodeBits([c])| == c.width
  {
    OneCodeBits(c, []);
    assert [c] + [] == [c];
  }

  lemma {:induction false} PhraseBits(data: Str, i: nat, e: Encoder, s: Str)
    requires Pixels(data) && i <= |data| && EncoderInv(e) && s in e.entries
    requires |EncodeFrom(data, i, e, s).last.entries| < MAX_TABLE
    ensures var enc := EncodeFrom(data, i, e, s);
            EncoderInv(enc.last) && BitsBefore(e) + |CodeBits(enc.codes)| == BitsBefore(enc.last) + enc.last.width
    decreases |data| - i
  {
    hide EncoderInv, IndexOf, BitsBefore, CodeBits;
    var c := Code(IndexOf(e.entries, s), e.width);
    if i == |data| {
      LastCodeBits(c);
    } else if s + [data[i]] in e.entries {
      PhraseBits(data, i + 1, e, s + [data[i]]);
    } else {
      LearnRoot(e, s + [data[i]], data[i]);
      LastTable(data, i, e, s);
      LearnBits(e, s + [data[i]]);
      EmittedPhrase(data, i, e, s);
      PhraseBits(data, i + 1, Learn(e, s + [data[i]]), [data[i]]);
      OneCodeBits(c, EncodeFrom(data, i + 1, Learn(e, s + [data[i]]), [data[i]]).codes);
    }
  }

  lemma FullBitsStart()
    ensures FullBits(3) == 12
  {
    assert Pow2(2) == 4;
    assert FullBits(2) == 0;
  }

  lemma Eights(k: nat)
    requires k >= 3
    ensures Pow2(k) == 8 * Pow2(k - 3)
  {
    assert Pow2(k) == 2 * Pow2(k - 1);
    assert Pow2(k - 1) == 2 * Pow2(k - 2);
    assert Pow2(k - 2) == 2 * Pow2(k - 3);
  }

  lemma FullBitsNext(w: nat)
    requires w > 3
    ensures FullBits(w) == FullBits(w - 1) + Times(w, 8 * Pow2(w - 4))
  {
    Eights(w - 1);
    hide Times, Pow2;
  }

  lemma AddEights(a: nat, b: nat)
    requires a % 8 == 4 && b % 8 == 0
    ensures (a + b) % 8 == 4
  {
  }

  /** Up to a power of two, everything written is 4 bits more than whole bytes. */
  lemma {:induction false} FullBitsRest(w: nat)
    requires w >= 3
    ensures FullBits(w) % 8 == 4
  {
    if w == 3 {
      FullBitsStart();
    } else {
      FullBitsRest(w - 1);
      FullBitsNext(w);
      TimesEight(w, Pow2(w - 4));
      hide Times, Pow2, FullBits;
      AddEights(FullBits(w - 1), Times(w, 8 * Pow2(w - 4)));
    }
  }

  lemma StartBits()
    ensures EncoderInv(Encoder(START, FIRST_WIDTH)) && BitsBefore(Encoder(START, FIRST_WIDTH)) == FIRST_WIDTH
  {
    assert Pow2(2) == 4 && Pow2(3) == 8;
    assert FullBits(2) == 0;
  }

  lemma AllBits(data: Str)
    requires Pixels(data) && data != [] && |Encode(data).last.entries| < MAX_TABLE
    ensures EncoderInv(Encode(data).last)
    ensures |CodeBits(AllCodes(data))| == BitsBefore(Encode(data).last) + 2 * Encode(data).last.width
  {
    StartInv(data[0]);
    StartBits();
    PhraseBits(data, 1, Encoder(START, FIRST_WIDTH), [data[0]]);
    AllCodesBits(data, []);
    assert CodeBits(AllCodes(data)) + [] == CodeBits(AllCodes(data));
  }

  lemma TwelveBits(w: nat)
    requires w >= 12
    ensures Pow2(w) >= 4096
  {
    Pow2Monotone(12, w);
    assert Pow2(12) == 4096;
  }

  lemma PowerBelow(w: nat)
    requires 3 <= w && Pow2(w) < MAX_TABLE
    ensures w < 12 && (Pow2(w) == 16 <==> w == 4)
  {
    if w >= 12 {
      TwelveBits(w);
    } else if w > 4 {
      Pow2Monotone(5, w);
      assert Pow2(5) == 32;
    } else {
      assert Pow2(4) == 16 && Pow2(3) == 8;
    }
  }

  /** Where the table stands at a power of two, whole bytes are written for the width 4 only. */
  lemma AtPower(e: Encoder)
    requires EncoderInv(e) && |e.entries| < MAX_TABLE && |e.entries| == Pow2(e.width)
    ensures (BitsBefore(e) + 2 * e.width) % 8 == 0 <==> |e.entries| == 16
  {
    PowerBits(e);
    TimesNone(e.width + 1);
    FullBitsRest(e.width);
    PowerBelow(e.width);
    hide Times, BitsBefore, FullBits, Pow2, EncoderInv;
    FourMore(FullBits(e.width), e.width);
  }

  lemma FourMore(n: nat, w: nat)
    requires n % 8 == 4 && w < 12
    ensures (n + w) % 8 == 0 <==> w == 4
  {
  }

  lemma FullNoPower(e: Encoder)
    requires EncoderInv(e) && |e.entries| == MAX_TABLE
    ensures |e.entries| != Pow2(e.width)
  {
    FullWidth(e);
    assert Pow2(12) == 4096;
  }

  lemma SixteenIsPower(e: Encoder)
    requires EncoderInv(e) && |e.entries| == 16
    ensures Pow2(e.width) == 16
  {
    assert Pow2(3) == 8 && Pow2(4) == 16;
    if e.width > 4 { Pow2Monotone(4, e.width - 1); }
  }

  /** The table has as many keys as there are phrases, and five more. */
  lemma LastEntries(data: Str)
    requires Pixels(data) && data != []
    ensures EncoderInv(Encode(data).last)
    ensures |Encode(data).last.entries| < MAX_TABLE ==> |Encode(data).last.entries| == Phrases(data) + 5
    ensures |Encode(data).last.entries| == MAX_TABLE ==> Phrases(data) + 5 >= MAX_TABLE
  {
    StartInv(data[0]);
    KnowsStart();
    hide EncoderInv, Knows, EncodeFrom, PhrasesFrom;
    PhraseCount(data, 1, Encoder(START, FIRST_WIDTH), [data[0]], {});
  }

  /** It stops growing at 4095 keys. */
  lemma TableSize(data: Str)
    requires Pixels(data) && data != []
    ensures |Encode(data).last.entries| == Min(Phrases(data) + 5, 4095)
  {
    hide EncoderInv, Encode, Phrases;
    LastEntries(data);
    TableLimit(Encode(data).last);
  }

  lemma TableLimit(e: Encoder)
    requires EncoderInv(e)
    ensures |e.entries| <= MAX_TABLE
  {
  }

  /** The end code is cut short exactly for the images that parse into eleven phrases. */
  lemma CutExactly(data: Str)
    requires Pixels(data) && data != []
    ensures EndCodeCut(data) <==> Phrases(data) == 11
  {
    hide EncoderInv, Encode, Phrases, AllCodes, BitsBefore, Pow2, CodeBits;
    var last := Encode(data).last;
    LastEntries(data);
    TableLimit(last);
    if |last.entries| == MAX_TABLE {
      FullNoPower(last);
    } else {
      AllBits(data);
      if |last.entries| == 16 { SixteenIsPower(last); }
      if |last.entries| == Pow2(last.width) { AtPower(last); }
    }
  }

  /** A decoder of the specification gets every pixel, and meets the end code unless the image has eleven phrases. */
  lemma RasterEnds(data: Str)
    requires Pixels(data) && data != []
    ensures Decode(RasterBits(data), RESET) == Decoded(data, if Phrases(data) == 11 then OutOfBits else EndCode)
  {
    CutExactly(data);
    RasterRoundTrip(data);
  }

  // ---- the smallest such image of one colour ----

  const SIZE: nat := 56

  function Row(n: nat): Str {
    seq(n, _ => 0)
  }

  /** The rows from 2 to n pixels. */
  function Rows(n: nat): set<Str> {
    set k: nat | 2 <= k <= n :: Row(k)
  }

  lemma RowsNext(n: nat)
    requires n > 0
    ensures Row(n + 1) !in Rows(n) && Rows(n + 1) == Rows(n) + {Row(n + 1)}
  {
    forall k: nat | 2 <= k <= n
      ensures Row(k) != Row(n + 1)
    {
      assert |Row(k)| == k;
    }
  }

  /** When the rows of up to n pixels are known, the phrase that starts is the row of n pixels. */
  lemma {:induction false} RowPhrase(data: Str, i: nat, n: nat, j: nat)
    requires 0 < j <= n && i + (n - j) < |data| && data == Row(|data|)
    ensures PhrasesFrom(data, i, Rows(n), Row(j)) == 1 + PhrasesFrom(data, i + (n - j) + 1, Rows(n + 1), Row(1))
    decreases n - j
  {
    assert Row(j) + [data[i]] == Row(j + 1) && [data[i]] == Row(1);
    RowsNext(n);
    if j < n {
      RowPhrase(data, i + 1, n, j + 1);
    }
  }

  /** 56 pixels of one colour are phrases of 1 to 10 pixels, and one more: the decoder of the specification recovers
      them all, but never sees the end code. */
  lemma EndCodeCutHappens() returns (data: Str)
    ensures |data| == SIZE && (forall k :: 0 <= k < SIZE ==> data[k] == 0)
    ensures Decode(RasterBits(data), RESET) == Decoded(data, OutOfBits)
  {
    data := Row(SIZE);
    assert [data[0]] == Row(1) && Rows(1) == {};
    assert Pixels(data);
    RowCount(data);
    hide Phrases, Row, Pixels, Decode;
    RasterEnds(data);
  }

  lemma RowCount(data: Str)
    requires data == Row(SIZE)
    ensures Phrases(data) == 11
  {
    assert [data[0]] == Row(1) && Rows(1) == {};
    hide PhrasesFrom, Row, Rows;
    var n, i := 1, 1;
    while n <= 10
      invariant 1 <= n <= 11 && 2 * i == n * (n - 1) + 2
      invariant Phrases(data) == n - 1 + PhrasesFrom(data, i, Rows(n), Row(1))
    {
      RowPhrase(data, i, n, 1);
      i, n := i + n, n + 1;
    }
    LastRow(data);
  }

  lemma LastRow(data: Str)
    ensures PhrasesFrom(data, |data|, Rows(11), Row(1)) == 1
  {
  }
}
