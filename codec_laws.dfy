/** What the variant codec guarantees: how `parse_colors_sizes` reads each
    piece of the text, that it reads back what `format_colors_sizes` wrote for
    any map whose names cannot be confused with the separators, and that what
    it reads is always such a map. */
module CodecLaws {
  import opened Wrappers
  import opened Text
  import opened IntText
  import opened OrderedMaps
  import opened VariantCodec

  // ---------------------------------------------------------------------
  // Maps the text format can carry
  // ---------------------------------------------------------------------

  /** A color name the block format keeps apart: no surrounding whitespace
      (the decoder strips it), no `:` (the first one ends the color) and no
      block separator. */
  ghost predicate ColorOk(c: string) {
    IsTrimmed(c) && ':' !in c && !Contains(c, BlockSep)
  }

  /** A size label the pair format keeps apart: no surrounding whitespace, no
      `-` (the first one ends the size) and neither separator. */
  ghost predicate SizeOk(s: string) {
    IsTrimmed(s) && '-' !in s && !Contains(s, PairSep) && !Contains(s, BlockSep)
  }

  ghost predicate SizesOk(sizes: Sizes) {
    UniqueKeys(sizes) && forall e :: e in sizes ==> SizeOk(e.0)
  }

  /** A variant map the text format carries unchanged. */
  ghost predicate WellFormed(v: Variants) {
    UniqueKeys(v) && forall e :: e in v ==> ColorOk(e.0) && SizesOk(e.1)
  }

  // ---------------------------------------------------------------------
  // How the decoder reads the pieces
  // ---------------------------------------------------------------------

  /** Any text without a colon, the empty text and blanks among them, decodes
      to the empty map. */
  lemma NoColonDecodesEmpty(s: string)
    requires ':' !in s
    ensures Decode(Some(s)) == Ok([])
  {
    FreeOfFirstChar(s, ":");
    SplitKeepsFree(s, BlockSep, ":");
    NoColonBlocks(Split(s, BlockSep));
  }

  lemma {:induction false} NoColonBlocks(blocks: seq<string>)
    requires forall k :: 0 <= k < |blocks| ==> !Contains(blocks[k], ":")
    ensures DecodeBlocks(blocks) == Ok([])
  {
    if blocks != [] {
      NoColonBlocks(blocks[..|blocks| - 1]);
    }
  }

  /** A block without a colon is skipped. */
  lemma BlockWithoutColonSkipped(block: string, v: Variants)
    requires ':' !in block
    ensures DecodeBlock(block, v) == Ok(v)
  {
    FreeOfFirstChar(block, ":");
  }

  /** A block is split at its first colon: the stripped text before it is the
      color, and the text after it gives the sizes. */
  lemma BlockSplitsAtFirstColon(color: string, rest: string, v: Variants)
    requires ':' !in color
    ensures BlockSizes(rest).Ok? ==>
              DecodeBlock(color + ":" + rest, v) == Ok(Put(v, Strip(color), BlockSizes(rest).value))
    ensures BlockSizes(rest).Err? ==>
              DecodeBlock(color + ":" + rest, v) == Err(BlockSizes(rest).error)
  {
    var block := color + ":" + rest;
    FreeOfFirstChar(color, ":");
    assert block == color + (":" + rest);
    IndexOfConcat(color, ":" + rest, ":");
    assert block[..|color|] == color;
    assert block[|color| + 1..] == rest;
  }

  /** A color followed by nothing but blanks after its colon is bound to an
      empty size map. */
  lemma ColorWithoutSizes(color: string, rest: string, v: Variants)
    requires ':' !in color && Strip(rest) == ""
    ensures DecodeBlock(color + ":" + rest, v) == Ok(Put(v, Strip(color), []))
  {
    BlockSplitsAtFirstColon(color, rest, v);
  }

  /** When a later block names a color again, the later block wins: reading
      both is reading the later one alone, and the color keeps the position
      it was first given. */
  lemma LaterBlockWins(c1: string, r1: string, c2: string, r2: string, v: Variants)
    requires ':' !in c1 && ':' !in c2 && Strip(c1) == Strip(c2)
    requires BlockSizes(r1).Ok?
    ensures DecodeBlock(c1 + ":" + r1, v).Ok?
    ensures DecodeBlock(c2 + ":" + r2, DecodeBlock(c1 + ":" + r1, v).value)
            == DecodeBlock(c2 + ":" + r2, v)
    ensures Strip(c1) in KeySet(v) ==>
              |DecodeBlock(c1 + ":" + r1, v).value| == |v| &&
              forall i :: 0 <= i < |v| ==> DecodeBlock(c1 + ":" + r1, v).value[i].0 == v[i].0
  {
    var color := Strip(c1);
    var s1 := BlockSizes(r1).value;
    BlockSplitsAtFirstColon(c1, r1, v);
    BlockSplitsAtFirstColon(c2, r2, v);
    BlockSplitsAtFirstColon(c2, r2, Put(v, color, s1));
    if BlockSizes(r2).Ok? {
      PutPut(v, color, s1, BlockSizes(r2).value);
    }
    if color in KeySet(v) {
      PutInPlace(v, color, s1);
    }
  }

  /** A pair without a dash is skipped. */
  lemma PairWithoutDashSkipped(pair: string, sizes: Sizes)
    requires '-' !in pair
    ensures DecodePair(pair, sizes) == Ok(sizes)
  {
    FreeOfFirstChar(pair, "-");
  }

  /** A pair is split at its first dash: the stripped text before it is the
      size, `int()` of the stripped text after it the quantity, and a
      quantity `int()` rejects is the error. */
  lemma PairSplitsAtFirstDash(size: string, rest: string, sizes: Sizes)
    requires '-' !in size
    ensures ParseInt(Strip(rest)).Some? ==>
              DecodePair(size + "-" + rest, sizes) == Ok(Put(sizes, Strip(size), ParseInt(Strip(rest)).value))
    ensures ParseInt(Strip(rest)).None? ==>
              DecodePair(size + "-" + rest, sizes) == Err(BadQuantity(Strip(rest)))
  {
    var pair := size + "-" + rest;
    FreeOfFirstChar(size, "-");
    assert pair == size + ("-" + rest);
    IndexOfConcat(size, "-" + rest, "-");
    assert pair[..|size|] == size;
    assert pair[|size| + 1..] == rest;
  }

  /** A size given twice in one block keeps the later quantity, at the
      position of the first. */
  lemma RepeatedSizeOverwrites(z1: string, r1: string, z2: string, r2: string, sizes: Sizes)
    requires '-' !in z1 && '-' !in z2 && Strip(z1) == Strip(z2)
    requires ParseInt(Strip(r1)).Some?
    ensures DecodePair(z1 + "-" + r1, sizes).Ok?
    ensures DecodePair(z2 + "-" + r2, DecodePair(z1 + "-" + r1, sizes).value)
            == DecodePair(z2 + "-" + r2, sizes)
    ensures Strip(z1) in KeySet(sizes) ==>
              |DecodePair(z1 + "-" + r1, sizes).value| == |sizes| &&
              forall i :: 0 <= i < |sizes| ==> DecodePair(z1 + "-" + r1, sizes).value[i].0 == sizes[i].0
  {
    var size := Strip(z1);
    var q1 := ParseInt(Strip(r1)).value;
    PairSplitsAtFirstDash(z1, r1, sizes);
    PairSplitsAtFirstDash(z2, r2, sizes);
    PairSplitsAtFirstDash(z2, r2, Put(sizes, size, q1));
    if ParseInt(Strip(r2)).Some? {
      PutPut(sizes, size, q1, ParseInt(Strip(r2)).value);
    }
    if size in KeySet(sizes) {
      PutInPlace(sizes, size, q1);
    }
  }

  /** A field without a block separator is one block. */
  lemma OneBlockField(block: string)
    requires ';' !in block
    ensures Decode(Some(block)) == DecodeBlock(block, [])
  {
    FreeOfFirstChar(block, BlockSep);
    assert Split(block, BlockSep) == [block];
    assert [block][..0] == [];
    assert DecodeBlocks([block][..0]) == Ok([]);
  }

  /** A block with a single pair after its colon reads that pair alone into
      an empty size map. */
  lemma OnePairBlock(color: string, pair: string, v: Variants)
    requires ':' !in color && ',' !in pair && IsTrimmed(pair) && pair != ""
    ensures DecodePair(pair, []).Ok? ==>
              DecodeBlock(color + ": " + pair, v) == Ok(Put(v, Strip(color), DecodePair(pair, []).value))
    ensures DecodePair(pair, []).Err? ==>
              DecodeBlock(color + ": " + pair, v) == Err(DecodePair(pair, []).error)
  {
    var rest := " " + pair;
    assert color + ": " + pair == color + ":" + rest;
    StripLeadingBlank(pair);
    FreeOfFirstChar(pair, PairSep);
    assert Split(pair, PairSep) == [pair];
    assert [pair][..0] == [];
    assert BlockSizes(rest) == DecodePairs([pair]);
    BlockSplitsAtFirstColon(color, rest, v);
  }

  /** A pair whose quantity text `int()` rejects fails with that text. */
  lemma BadQuantityFails(size: string, qtyText: string, sizes: Sizes)
    requires '-' !in size && IsTrimmed(qtyText) && ParseInt(qtyText) == None
    ensures DecodePair(size + "-" + qtyText, sizes) == Err(BadQuantity(qtyText))
  {
    PairSplitsAtFirstDash(size, qtyText, sizes);
  }

  /** A size label that itself holds a dash cannot be stored: `"a-b-3"` is
      split into size `a` and quantity text `b-3`, which `int()` rejects. */
  lemma CompositeSizeLabelFails()
    ensures DecodePair("a-b-3", []) == Err(BadQuantity("b-3"))
  {
    assert "a-b-3" == "a" + "-" + "b-3";
    assert IsTrimmed("b-3");
    assert ParseInt("b-3") == None;
    BadQuantityFails("a", "b-3", []);
  }

  /** A pair that fails makes the whole field fail, with the same error:
      `"Qizil: a-b-3"` is such a field. */
  lemma FieldWithBadPairFails(color: string, pair: string)
    requires ':' !in color && ';' !in color
    requires ',' !in pair && ';' !in pair && IsTrimmed(pair) && pair != ""
    requires DecodePair(pair, []).Err?
    ensures Decode(Some(color + ": " + pair)) == Err(DecodePair(pair, []).error)
  {
    OnePairBlock(color, pair, []);
    OneBlockField(color + ": " + pair);
  }

  // ---------------------------------------------------------------------
  // Round trip: parse_colors_sizes(format_colors_sizes(v)) == v
  // ---------------------------------------------------------------------

  /** What `f"{q}"` writes has no whitespace at either end and no separator. */
  lemma QuantityTextFacts(q: int)
    ensures IsTrimmed(IntToString(q))
    ensures ',' !in IntToString(q) && ';' !in IntToString(q)
  {
    var d := IntToString(q);
    assert !IsSpace(d[0]) && !IsSpace(d[|d| - 1]);
    assert forall i :: 0 <= i < |d| ==> d[i] != ',' && d[i] != ';';
  }

  /** One `size-qty` pair: it holds no separator, it begins with a non-blank
      and ends with a digit, and it is read back as that size and quantity. */
  lemma {:induction false} PairRoundTrip(size: string, q: int, sizes: Sizes)
    requires SizeOk(size)
    ensures !Contains(EncodePair(size, q), PairSep) && !Contains(EncodePair(size, q), BlockSep)
    ensures |EncodePair(size, q)| > 0 && !IsSpace(EncodePair(size, q)[0])
    ensures IsDigit(EncodePair(size, q)[|EncodePair(size, q)| - 1])
    ensures DecodePair(EncodePair(size, q), sizes) == Ok(Put(sizes, size, q))
  {
    DashTextFacts(size, q, sizes);
    assert EncodePair(size, q) == size + ("-" + IntToString(q));
  }

  /** The text `size + "-" + str(q)`, before it is named a pair. */
  lemma DashTextFacts(size: string, q: int, sizes: Sizes)
    requires SizeOk(size)
    ensures var p := size + ("-" + IntToString(q));
      && !Contains(p, PairSep) && !Contains(p, BlockSep)
      && |p| > 0 && !IsSpace(p[0]) && IsDigit(p[|p| - 1])
      && DecodePair(p, sizes) == Ok(Put(sizes, size, q))
  {
    var d := IntToString(q);
    var tail := "-" + d;
    assert size + "-" + d == size + tail;
    PairSplitsAtFirstDash(size, d, sizes);
    QuantityTextFacts(q);
    FreeOfFirstChar(tail, PairSep);
    FreeOfFirstChar(tail, BlockSep);
    ConcatFree(size, tail, PairSep);
    ConcatFree(size, tail, BlockSep);
  }

  /** A well-formed size map without its last entry, and that entry. */
  lemma SizesOkInit(sizes: Sizes)
    requires SizesOk(sizes) && sizes != []
    ensures SizesOk(sizes[..|sizes| - 1]) && SizeOk(sizes[|sizes| - 1].0)
    ensures sizes[|sizes| - 1].0 !in KeySet(sizes[..|sizes| - 1])
    ensures sizes == sizes[..|sizes| - 1] + [sizes[|sizes| - 1]]
  {
    UniqueInit(sizes);
    assert sizes[|sizes| - 1] in sizes;
    forall e | e in sizes[..|sizes| - 1]
      ensures e in sizes
    {
    }
  }

  lemma EncodePairsInit(sizes: Sizes)
    requires sizes != []
    ensures EncodePairs(sizes)[..|sizes| - 1] == EncodePairs(sizes[..|sizes| - 1])
  {
  }

  /** The pairs written for a size map are read back as that map. */
  lemma {:induction false} PairsRoundTrip(sizes: Sizes)
    requires SizesOk(sizes)
    ensures DecodePairs(EncodePairs(sizes)) == Ok(sizes)
  {
    if sizes != [] {
      var n := |sizes|;
      var init := sizes[..n - 1];
      var last := sizes[n - 1];
      var pairs := EncodePairs(sizes);
      EncodePairsInit(sizes);
      SizesOkInit(sizes);
      PairsRoundTrip(init);
      assert DecodePairs(pairs[..n - 1]) == Ok(init);
      PairRoundTrip(last.0, last.1, init);
      assert pairs[n - 1] == EncodePair(last.0, last.1);
      assert Put(init, last.0, last.1) == sizes;
      assert DecodePairs(pairs) == DecodePair(pairs[n - 1], init);
    }
  }

  /** Each written pair begins with a non-blank, ends with a digit and holds
      no separator. */
  lemma EncodedPairsFacts(sizes: Sizes)
    requires SizesOk(sizes)
    ensures forall k :: 0 <= k < |sizes| ==>
              var pair := EncodePairs(sizes)[k];
              |pair| > 0 && !IsSpace(pair[0]) && IsDigit(pair[|pair| - 1]) &&
              !Contains(pair, PairSep) && !Contains(pair, BlockSep)
  {
    forall k | 0 <= k < |sizes|
      ensures var pair := EncodePairs(sizes)[k];
              |pair| > 0 && !IsSpace(pair[0]) && IsDigit(pair[|pair| - 1]) &&
              !Contains(pair, PairSep) && !Contains(pair, BlockSep)
    {
      assert sizes[k] in sizes;
      PairRoundTrip(sizes[k].0, sizes[k].1, []);
    }
  }

  /** The text after a block's colon is trimmed and free of the block
      separator. */
  lemma SizesTextFacts(sizes: Sizes)
    requires SizesOk(sizes)
    ensures IsTrimmed(Join(EncodePairs(sizes), PairSep))
    ensures !Contains(Join(EncodePairs(sizes), PairSep), BlockSep)
  {
    var pairs := EncodePairs(sizes);
    EncodedPairsFacts(sizes);
    FreeOfFirstChar(PairSep, BlockSep);
    JoinFree(pairs, PairSep, BlockSep);
    if sizes != [] {
      JoinEnds(pairs, PairSep);
    }
  }

  /** The text after a block's colon is read back as the size map. */
  lemma SizesTextReads(sizes: Sizes)
    requires SizesOk(sizes)
    ensures BlockSizes(" " + Join(EncodePairs(sizes), PairSep)) == Ok(sizes)
  {
    var pairs := EncodePairs(sizes);
    var text := Join(pairs, PairSep);
    SizesTextFacts(sizes);
    StripLeadingBlank(text);
    assert Strip(" " + text) == text;
    if sizes != [] {
      EncodedPairsFacts(sizes);
      JoinEnds(pairs, PairSep);
      assert text != "";
      SplitJoin(pairs, PairSep);
      PairsRoundTrip(sizes);
      assert BlockSizes(" " + text) == DecodePairs(Split(text, PairSep));
    }
  }

  /** One `color: pairs` block holds no block separator. */
  lemma BlockFree(color: string, sizes: Sizes)
    requires ColorOk(color) && SizesOk(sizes)
    ensures !Contains(EncodeBlock(color, sizes), BlockSep)
  {
    var text := Join(EncodePairs(sizes), PairSep);
    SizesTextFacts(sizes);
    ColonGlueFree(color, text);
    assert EncodeBlock(color, sizes) == color + ": " + text;
  }

  /** Gluing two texts free of `"; "` with `": "` leaves it free of `"; "`. */
  lemma ColonGlueFree(color: string, text: string)
    requires !Contains(color, BlockSep) && !Contains(text, BlockSep)
    ensures !Contains(color + ": " + text, BlockSep)
  {
    var tail := ": " + text;
    FreeOfFirstChar(": ", BlockSep);
    ConcatFree(": ", text, BlockSep);
    assert !Contains(tail, BlockSep) && tail[0] == ':';
    ConcatFree(color, tail, BlockSep);
    assert color + ": " + text == color + tail;
  }

  /** One `color: pairs` block is read back as that color bound to those
      sizes. */
  lemma BlockRoundTrip(color: string, sizes: Sizes, v: Variants)
    requires ColorOk(color) && SizesOk(sizes)
    ensures DecodeBlock(EncodeBlock(color, sizes), v) == Ok(Put(v, color, sizes))
  {
    var rest := " " + Join(EncodePairs(sizes), PairSep);
    assert EncodeBlock(color, sizes) == color + ":" + rest;
    SizesTextReads(sizes);
    assert BlockSizes(rest) == Ok(sizes);
    assert Strip(color) == color;
    BlockSplitsAtFirstColon(color, rest, v);
  }

  /** A well-formed variant map without its last entry, and that entry. */
  lemma WellFormedInit(v: Variants)
    requires WellFormed(v) && v != []
    ensures WellFormed(v[..|v| - 1])
    ensures ColorOk(v[|v| - 1].0) && SizesOk(v[|v| - 1].1)
    ensures v[|v| - 1].0 !in KeySet(v[..|v| - 1])
    ensures v == v[..|v| - 1] + [v[|v| - 1]]
  {
    UniqueInit(v);
    assert v[|v| - 1] in v;
    forall e | e in v[..|v| - 1]
      ensures e in v
    {
    }
  }

  /** The blocks written for a variant map are read back as that map. */
  lemma {:induction false} BlocksRoundTrip(v: Variants)
    requires WellFormed(v)
    ensures DecodeBlocks(EncodeBlocks(v)) == Ok(v)
  {
    if v != [] {
      var n := |v|;
      var init := v[..n - 1];
      var last := v[n - 1];
      var blocks := EncodeBlocks(v);
      assert blocks[..n - 1] == EncodeBlocks(init);
      WellFormedInit(v);
      BlocksRoundTrip(init);
      BlockRoundTrip(last.0, last.1, init);
      assert DecodeBlocks(blocks) == DecodeBlock(blocks[n - 1], init);
    }
  }

  /** `parse_colors_sizes(format_colors_sizes(v)) == v` for every map whose
      names survive the format, negative quantities included. */
  lemma RoundTrip(v: Variants)
    requires WellFormed(v)
    ensures Decode(Some(Encode(v))) == Ok(v)
  {
    if v != [] {
      var blocks := EncodeBlocks(v);
      forall k | 0 <= k < |blocks|
        ensures !Contains(blocks[k], BlockSep)
      {
        assert v[k] in v;
        BlockFree(v[k].0, v[k].1);
      }
      SplitJoin(blocks, BlockSep);
      BlocksRoundTrip(v);
    }
  }

  // ---------------------------------------------------------------------
  // What the decoder returns is always well formed
  // ---------------------------------------------------------------------

  /** The text before the first occurrence of a character lacks it. */
  lemma BeforeFirst(s: string, c: char, i: nat)
    requires IndexOf(s, [c]) == Some(i)
    ensures c !in s[..i]
  {
    forall j | 0 <= j < i
      ensures s[..i][j] != c
    {
      assert !OccursAt(s, [c], j);
    }
  }

  /** The stripped text before the first `-` of a pair that holds no
      separator is a size label the format carries. */
  lemma {:induction false} DecodedSizeOk(pair: string, i: nat)
    requires IndexOf(pair, "-") == Some(i)
    requires !Contains(pair, PairSep) && !Contains(pair, BlockSep)
    ensures SizeOk(Strip(pair[..i]))
  {
    var size := pair[..i];
    BeforeFirst(pair, '-', i);
    ContainsChar(size, '-');
    StripKeepsFree(size, "-");
    ContainsChar(Strip(size), '-');
    SliceFree(pair, i, PairSep);
    SliceFree(pair, i, BlockSep);
    StripKeepsFree(size, PairSep);
    StripKeepsFree(size, BlockSep);
  }

  lemma {:induction false} DecodedPairsOk(pairs: seq<string>)
    requires forall k :: 0 <= k < |pairs| ==> !Contains(pairs[k], PairSep) && !Contains(pairs[k], BlockSep)
    ensures DecodePairs(pairs).Ok? ==> SizesOk(DecodePairs(pairs).value)
  {
    if pairs != [] {
      var init := pairs[..|pairs| - 1];
      var pair := pairs[|pairs| - 1];
      DecodedPairsOk(init);
      if DecodePairs(init).Ok? {
        var sizes := DecodePairs(init).value;
        var dash := IndexOf(pair, "-");
        if dash.Some? {
          var i := dash.value;
          var q := ParseInt(Strip(pair[i + 1..]));
          if q.Some? {
            DecodedSizeOk(pair, i);
            PutUnique(sizes, Strip(pair[..i]), q.value);
            PutEntries(sizes, Strip(pair[..i]), q.value);
          }
        }
      }
    }
  }

  /** The sizes read from the text after a colon of a block that holds no
      block separator are well formed. */
  lemma DecodedSizesOk(rest: string)
    requires !Contains(rest, BlockSep)
    ensures BlockSizes(rest).Ok? ==> SizesOk(BlockSizes(rest).value)
  {
    var text := Strip(rest);
    if text != "" {
      StripKeepsFree(rest, BlockSep);
      SplitKeepsFree(text, PairSep, BlockSep);
      DecodedPairsOk(Split(text, PairSep));
    }
  }

  lemma DecodedBlockOk(block: string, v: Variants)
    requires WellFormed(v) && !Contains(block, BlockSep)
    ensures DecodeBlock(block, v).Ok? ==> WellFormed(DecodeBlock(block, v).value)
  {
    var colon := IndexOf(block, ":");
    if colon.Some? {
      var i := colon.value;
      var color := block[..i];
      SliceFree(block, i + 1, BlockSep);
      DecodedSizesOk(block[i + 1..]);
      if BlockSizes(block[i + 1..]).Ok? {
        var sizes := BlockSizes(block[i + 1..]).value;
        BeforeFirst(block, ':', i);
        ContainsChar(color, ':');
        StripKeepsFree(color, ":");
        ContainsChar(Strip(color), ':');
        SliceFree(block, i, BlockSep);
        StripKeepsFree(color, BlockSep);
        PutUnique(v, Strip(color), sizes);
        PutEntries(v, Strip(color), sizes);
      }
    }
  }

  lemma {:induction false} DecodedBlocksOk(blocks: seq<string>)
    requires forall k :: 0 <= k < |blocks| ==> !Contains(blocks[k], BlockSep)
    ensures DecodeBlocks(blocks).Ok? ==> WellFormed(DecodeBlocks(blocks).value)
  {
    if blocks != [] {
      var init := blocks[..|blocks| - 1];
      DecodedBlocksOk(init);
      if DecodeBlocks(init).Ok? {
        DecodedBlockOk(blocks[|blocks| - 1], DecodeBlocks(init).value);
      }
    }
  }

  /** Every map `parse_colors_sizes` returns has unique, trimmed names that
      hold no separator. */
  lemma DecodedWellFormed(field: Option<string>)
    ensures Decode(field).Ok? ==> WellFormed(Decode(field).value)
  {
    if field.Some? {
      DecodedBlocksOk(Split(field.value, BlockSep));
    }
  }

  /** Writing back what was read and reading it again gives the same map:
      a parse-format-parse cycle is stable. */
  lemma ReencodeStable(field: Option<string>)
    requires Decode(field).Ok?
    ensures Decode(Some(Encode(Decode(field).value))) == Decode(field)
  {
    DecodedWellFormed(field);
    RoundTrip(Decode(field).value);
  }
}
