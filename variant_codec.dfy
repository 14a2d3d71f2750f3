/** The variant field of an inventory record: an ordered map color -> (size ->
    quantity) stored as one string such as `"Qora: S-5, M-3; Oq: L-2"`.
    `Encode` is `format_colors_sizes`; `Decode` specifies
    `parse_colors_sizes`, which `Parse` carries out with the source's loops. */
module VariantCodec {
  import opened Wrappers
  import opened Text
  import opened IntText
  import opened OrderedMaps

  /** size label -> quantity, in insertion order */
  type Sizes = OMap<int>

  /** color -> sizes, in insertion order */
  type Variants = OMap<Sizes>

  /** The `ValueError` that `int()` raises on a quantity text, with that text. */
  datatype DecodeError = BadQuantity(text: string)

  /** Separator between color blocks. */
  const BlockSep: string := "; "

  /** Separator between the size-quantity pairs of one block. */
  const PairSep: string := ", "

  // ---------------------------------------------------------------------
  // Encoding: format_colors_sizes
  // ---------------------------------------------------------------------

  /** `f"{size}-{qty}"`: the size, a dash, then the quantity's text;
      `PairRoundTrip` shows the reader gets both back. */
  function EncodePair(size: string, qty: int): (r: string)
    ensures |r| > |size| + 1 && r[..|size|] == size && r[|size|] == '-'
  {
    var r := size + "-" + IntToString(qty);
    assert r[|size| + 1..] == IntToString(qty);
    r
  }

  function EncodePairs(sizes: Sizes): (pairs: seq<string>)
    ensures |pairs| == |sizes|
    ensures forall i :: 0 <= i < |sizes| ==> pairs[i] == EncodePair(sizes[i].0, sizes[i].1)
  {
    seq(|sizes|, i requires 0 <= i < |sizes| => EncodePair(sizes[i].0, sizes[i].1))
  }

  /** `f"{color}: {size_str}"` with the pairs joined by `", "`: the color,
      then `": "`, then the pairs; a color without sizes gives `"color: "`. */
  function EncodeBlock(color: string, sizes: Sizes): (r: string)
    ensures |r| >= |color| + 2 && r[..|color|] == color && r[|color|..|color| + 2] == ": "
    ensures |sizes| == 0 ==> r == color + ": "
  {
    var r := color + ": " + Join(EncodePairs(sizes), PairSep);
    assert r[|color| + 2..] == Join(EncodePairs(sizes), PairSep);
    r
  }

  function EncodeBlocks(v: Variants): (blocks: seq<string>)
    ensures |blocks| == |v|
    ensures forall i :: 0 <= i < |v| ==> blocks[i] == EncodeBlock(v[i].0, v[i].1)
  {
    seq(|v|, i requires 0 <= i < |v| => EncodeBlock(v[i].0, v[i].1))
  }

  /** `format_colors_sizes`: one block per color in map order, joined by
      `"; "`. Only the empty map gives the empty string. */
  function Encode(v: Variants): (s: string)
    ensures s == "" <==> v == []
  {
    var blocks := EncodeBlocks(v);
    assert v != [] ==> |Join(blocks, BlockSep)| >= |blocks[0]| >= 2;
    Join(blocks, BlockSep)
  }

  // ---------------------------------------------------------------------
  // Decoding: parse_colors_sizes, stated as folds over the pieces
  // ---------------------------------------------------------------------

  /** One pair, read into `sizes`: skipped without a `-`; otherwise split at
      the first `-`, the stripped left part is the size and `int()` of the
      stripped right part its quantity. */
  function DecodePair(pair: string, sizes: Sizes): Result<Sizes, DecodeError> {
    match IndexOf(pair, "-")
    case None => Ok(sizes)
    case Some(i) =>
      var qtyText := Strip(pair[i + 1..]);
      match ParseInt(qtyText)
      case None => Err(BadQuantity(qtyText))
      case Some(q) => Ok(Put(sizes, Strip(pair[..i]), q))
  }

  /** The pairs read one after the other into an initially empty size map;
      the first failing `int()` ends the decoding. */
  function DecodePairs(pairs: seq<string>): Result<Sizes, DecodeError> {
    if pairs == [] then Ok([])
    else
      match DecodePairs(pairs[..|pairs| - 1])
      case Err(e) => Err(e)
      case Ok(sizes) => DecodePair(pairs[|pairs| - 1], sizes)
  }

  /** The sizes of a block, from the text after its colon: none when that text
      is blank, else its stripped text split on `", "`. */
  function BlockSizes(rest: string): Result<Sizes, DecodeError> {
    var text := Strip(rest);
    if text == "" then Ok([]) else DecodePairs(Split(text, PairSep))
  }

  /** One block, read into `v`: skipped without a `:`; otherwise the stripped
      text before the first `:` is the color, bound to the block's sizes. */
  function DecodeBlock(block: string, v: Variants): Result<Variants, DecodeError> {
    match IndexOf(block, ":")
    case None => Ok(v)
    case Some(i) =>
      match BlockSizes(block[i + 1..])
      case Err(e) => Err(e)
      case Ok(sizes) => Ok(Put(v, Strip(block[..i]), sizes))
  }

  /** The blocks read one after the other into an initially empty map. */
  function DecodeBlocks(blocks: seq<string>): Result<Variants, DecodeError> {
    if blocks == [] then Ok([])
    else
      match DecodeBlocks(blocks[..|blocks| - 1])
      case Err(e) => Err(e)
      case Ok(v) => DecodeBlock(blocks[|blocks| - 1], v)
  }

  /** `parse_colors_sizes`: an absent (NaN) field is the empty map; otherwise
      the field's blocks, split on `"; "`. The empty string decodes to the
      empty map too, its only block having no colon. */
  function Decode(field: Option<string>): (r: Result<Variants, DecodeError>)
    ensures field == None || field == Some("") ==> r == Ok([])
  {
    match field
    case None => Ok([])
    case Some(s) =>
      EmptyTextDecodes();
      DecodeBlocks(Split(s, BlockSep))
  }

  lemma EmptyTextDecodes()
    ensures DecodeBlocks(Split("", BlockSep)) == Ok([])
  {
    assert Split("", BlockSep) == [""];
    assert [""][..0] == [];
    assert IndexOf("", ":") == None;
  }

  /** Once a prefix of the pairs fails, so do all of them, with that error. */
  lemma {:induction false} PairsErrorPersists(pairs: seq<string>, n: nat)
    requires n <= |pairs| && DecodePairs(pairs[..n]).Err?
    ensures DecodePairs(pairs) == DecodePairs(pairs[..n])
  {
    if n < |pairs| {
      var init := pairs[..|pairs| - 1];
      assert init[..n] == pairs[..n];
      PairsErrorPersists(init, n);
    } else {
      assert pairs[..n] == pairs;
    }
  }

  /** One more block read extends the fold by that block. */
  lemma BlocksStep(blocks: seq<string>, b: nat, v: Variants)
    requires b < |blocks| && DecodeBlocks(blocks[..b]) == Ok(v)
    ensures DecodeBlocks(blocks[..b + 1]) == DecodeBlock(blocks[b], v)
  {
    var q := blocks[..b + 1];
    assert q[..|q| - 1] == blocks[..b];
    assert q[|q| - 1] == blocks[b];
  }

  /** Once a prefix of the blocks fails, so do all of them, with that error. */
  lemma {:induction false} BlocksErrorPersists(blocks: seq<string>, n: nat)
    requires n <= |blocks| && DecodeBlocks(blocks[..n]).Err?
    ensures DecodeBlocks(blocks) == DecodeBlocks(blocks[..n])
  {
    if n < |blocks| {
      var init := blocks[..|blocks| - 1];
      assert init[..n] == blocks[..n];
      BlocksErrorPersists(init, n);
    } else {
      assert blocks[..n] == blocks;
    }
  }

  /** One more pair read into the sizes read so far. */
  lemma PairsStep(pairs: seq<string>, p: nat, sizes: Sizes)
    requires p < |pairs| && DecodePairs(pairs[..p]) == Ok(sizes)
    ensures DecodePairs(pairs[..p + 1]) == DecodePair(pairs[p], sizes)
  {
    assert pairs[..p + 1][..p] == pairs[..p];
  }

  /** The body of the source's loop over pairs: a pair with a `-` writes
      `int()` of its stripped right part under its stripped left part. */
  method ParsePair(pair: string, sizes: Sizes) returns (r: Result<Sizes, DecodeError>)
    ensures r == DecodePair(pair, sizes)
  {
    var dash := IndexOf(pair, "-");
    if dash.None? {
      return Ok(sizes);
    }
    var j := dash.value;
    var qtyText := Strip(pair[j + 1..]);
    var qty := ParseInt(qtyText);
    if qty.None? {
      return Err(BadQuantity(qtyText));
    }
    return Ok(Put(sizes, Strip(pair[..j]), qty.value));
  }

  /** The source's inner loop over the `", "`-separated pairs of one color,
      writing each quantity into that color's dict. A quantity `int()`
      rejects aborts with that error. */
  method ParsePairs(pairs: seq<string>) returns (r: Result<Sizes, DecodeError>)
    ensures r == DecodePairs(pairs)
  {
    var sizes: Sizes := [];
    for p := 0 to |pairs|
      invariant DecodePairs(pairs[..p]) == Ok(sizes)
    {
      PairsStep(pairs, p, sizes);
      var next := ParsePair(pairs[p], sizes);
      if next.Err? {
        PairsErrorPersists(pairs, p + 1);
        return next;
      }
      sizes := next.value;
    }
    assert pairs[..|pairs|] == pairs;
    return Ok(sizes);
  }

  /** The body of the source's loop over blocks: a block with a colon binds
      its color to an empty dict, then fills it from its pairs. */
  method ParseBlock(block: string, colors: Variants) returns (r: Result<Variants, DecodeError>)
    ensures r == DecodeBlock(block, colors)
  {
    var colon := IndexOf(block, ":");
    if colon.None? {
      return Ok(colors);
    }
    var i := colon.value;
    var color := Strip(block[..i]);
    var sizesText := Strip(block[i + 1..]);
    var updated := Put(colors, color, []);
    if sizesText != "" {
      var sizes := ParsePairs(Split(sizesText, PairSep));
      if sizes.Err? {
        return Err(sizes.error);
      }
      PutPut(colors, color, [], sizes.value);
      updated := Put(updated, color, sizes.value);
    }
    return Ok(updated);
  }

  /** `parse_colors_sizes` as the source runs it: NaN gives the empty dict;
      otherwise a loop over the `"; "`-separated blocks, each read into the
      dict built so far. A failing block aborts the whole call. */
  method Parse(field: Option<string>) returns (r: Result<Variants, DecodeError>)
    ensures r == Decode(field)
  {
    if field.None? {
      return Ok([]);
    }
    var blocks := Split(field.value, BlockSep);
    var colors: Variants := [];
    for b := 0 to |blocks|
      invariant DecodeBlocks(blocks[..b]) == Ok(colors)
    {
      BlocksStep(blocks, b, colors);
      var next := ParseBlock(blocks[b], colors);
      if next.Err? {
        BlocksErrorPersists(blocks, b + 1);
        return next;
      }
      colors := next.value;
    }
    assert blocks[..|blocks|] == blocks;
    return Ok(colors);
  }
}
