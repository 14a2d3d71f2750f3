/** The statistics page: unit total, value total and the per-color and
    per-size unit counts over the stored products, each product's variant
    field decoded with `parse_colors_sizes`. */
module Statistics {
  import opened Wrappers
  import opened OrderedMaps
  import opened VariantCodec

  /** One stored product row. The statistics read only `variants` and
      `price`; `price` is a whole amount of money. */
  datatype Product = Product(
    productId: string,
    name: string,
    category: string,
    origin: string,
    storeId: string,
    manager: string,
    imagePath: string,
    variants: Option<string>,
    price: int)

  // ---------------------------------------------------------------------
  // Reference definitions
  // ---------------------------------------------------------------------

  /** Every product's variant map, in row order; the first field that fails
      to decode fails the page. */
  function DecodeAll(ps: seq<Product>): (r: Result<seq<Variants>, DecodeError>)
    ensures r.Ok? ==> |r.value| == |ps|
    ensures r.Ok? ==> forall i :: 0 <= i < |ps| ==> Decode(ps[i].variants) == Ok(r.value[i])
  {
    if ps == [] then Ok([])
    else
      match DecodeAll(ps[..|ps| - 1])
      case Err(e) => Err(e)
      case Ok(vs) =>
        match Decode(ps[|ps| - 1].variants)
        case Err(e) => Err(e)
        case Ok(v) =>
          assert forall i :: 0 <= i < |ps| - 1 ==> ps[..|ps| - 1][i] == ps[i];
          Ok(vs + [v])
  }

  /** The units of one product: all quantities of all its colors and sizes. */
  function Units(v: Variants): int {
    if v == [] then 0 else Units(v[..|v| - 1]) + SumValues(v[|v| - 1].1)
  }

  /** The units of all products. */
  function TotalUnitsOf(vs: seq<Variants>): int {
    if vs == [] then 0 else TotalUnitsOf(vs[..|vs| - 1]) + Units(vs[|vs| - 1])
  }

  /** The money value of all products: each product's price times its units. */
  function ValueOf(ps: seq<Product>, vs: seq<Variants>): int
    requires |ps| == |vs|
  {
    if ps == [] then 0
    else ValueOf(ps[..|ps| - 1], vs[..|vs| - 1]) + Units(vs[|vs| - 1]) * ps[|ps| - 1].price
  }

  /** The quantities a size map holds under the key `k`. */
  function QuantityOf(sizes: Sizes, k: string): int {
    if sizes == [] then 0
    else QuantityOf(sizes[..|sizes| - 1], k) + (if sizes[|sizes| - 1].0 == k then sizes[|sizes| - 1].1 else 0)
  }

  /** The units a product holds in color `c`. */
  function ColorUnits(v: Variants, c: string): int {
    if v == [] then 0
    else ColorUnits(v[..|v| - 1], c) + (if v[|v| - 1].0 == c then SumValues(v[|v| - 1].1) else 0)
  }

  /** The units a product holds in size `s`, over all its colors. */
  function SizeUnits(v: Variants, s: string): int {
    if v == [] then 0 else SizeUnits(v[..|v| - 1], s) + QuantityOf(v[|v| - 1].1, s)
  }

  function ColorTotal(vs: seq<Variants>, c: string): int {
    if vs == [] then 0 else ColorTotal(vs[..|vs| - 1], c) + ColorUnits(vs[|vs| - 1], c)
  }

  function SizeTotal(vs: seq<Variants>, s: string): int {
    if vs == [] then 0 else SizeTotal(vs[..|vs| - 1], s) + SizeUnits(vs[|vs| - 1], s)
  }

  /** The sizes a product names, over all its colors. */
  function SizeKeys(v: Variants): set<string> {
    if v == [] then {} else SizeKeys(v[..|v| - 1]) + KeySet(v[|v| - 1].1)
  }

  /** The colors the products name. */
  function AllColors(vs: seq<Variants>): set<string> {
    if vs == [] then {} else AllColors(vs[..|vs| - 1]) + KeySet(vs[|vs| - 1])
  }

  /** The sizes the products name. */
  function AllSizes(vs: seq<Variants>): set<string> {
    if vs == [] then {} else AllSizes(vs[..|vs| - 1]) + SizeKeys(vs[|vs| - 1])
  }

  // ---------------------------------------------------------------------
  // The counting dicts, as the source builds them
  // ---------------------------------------------------------------------

  /** `counts[k] = counts.get(k, 0) + n`: the source's `if k not in counts:
      counts[k] = 0` followed by `counts[k] += n`. */
  function Bump(counts: OMap<int>, k: string, n: int): (r: OMap<int>)
    ensures Get(r, k) == Some(GetOr(counts, k, 0) + n)
    ensures forall k' :: k' != k ==> Get(r, k') == Get(counts, k')
    ensures KeySet(r) == KeySet(counts) + {k}
  {
    Put(counts, k, GetOr(counts, k, 0) + n)
  }

  /** Incrementing a key just written increments the written value. */
  lemma BumpAfterPut(counts: OMap<int>, k: string, x: int, n: int)
    ensures Bump(Put(counts, k, x), k, n) == Put(Put(counts, k, x), k, x + n)
  {
    assert Get(Put(counts, k, x), k) == Some(x);
  }

  /** Two increments of one key are one increment by their sum. */
  lemma BumpBump(counts: OMap<int>, k: string, a: int, b: int)
    ensures Bump(Bump(counts, k, a), k, b) == Bump(counts, k, a + b)
  {
    var x := GetOr(counts, k, 0) + a;
    BumpAfterPut(counts, k, x, b);
    PutPut(counts, k, x, x + b);
  }

  /** Entering an absent key with 0 before incrementing it changes nothing. */
  lemma EnterZero(counts: OMap<int>, k: string, n: int)
    requires k !in KeySet(counts)
    ensures Bump(Put(counts, k, 0), k, n) == Bump(counts, k, n)
  {
    PutPut(counts, k, 0, n);
  }

  /** `color_counts` after one product: each color gains its units, a color
      without sizes is entered with 0. */
  function AddColors(counts: OMap<int>, v: Variants): OMap<int> {
    if v == [] then counts
    else Bump(AddColors(counts, v[..|v| - 1]), v[|v| - 1].0, SumValues(v[|v| - 1].1))
  }

  /** `size_counts` after one size map. */
  function AddSizes(counts: OMap<int>, sizes: Sizes): OMap<int> {
    if sizes == [] then counts
    else Bump(AddSizes(counts, sizes[..|sizes| - 1]), sizes[|sizes| - 1].0, sizes[|sizes| - 1].1)
  }

  /** `size_counts` after one product. */
  function AddProductSizes(counts: OMap<int>, v: Variants): OMap<int> {
    if v == [] then counts else AddSizes(AddProductSizes(counts, v[..|v| - 1]), v[|v| - 1].1)
  }

  function ColorCounts(vs: seq<Variants>): OMap<int> {
    if vs == [] then [] else AddColors(ColorCounts(vs[..|vs| - 1]), vs[|vs| - 1])
  }

  function SizeCounts(vs: seq<Variants>): OMap<int> {
    if vs == [] then [] else AddProductSizes(SizeCounts(vs[..|vs| - 1]), vs[|vs| - 1])
  }

  // ---------------------------------------------------------------------
  // What the page shows, as functions of the stored products
  // ---------------------------------------------------------------------

  /** "Jami mahsulot birliklari": the unit total. */
  function UnitTotal(ps: seq<Product>): Result<int, DecodeError> {
    match DecodeAll(ps)
    case Err(e) => Err(e)
    case Ok(vs) => Ok(TotalUnitsOf(vs))
  }

  /** "Jami qiymat": the value total. */
  function ValueTotal(ps: seq<Product>): Result<int, DecodeError> {
    match DecodeAll(ps)
    case Err(e) => Err(e)
    case Ok(vs) => Ok(ValueOf(ps, vs))
  }

  /** The per-color and per-size unit counts. */
  function Counts(ps: seq<Product>): Result<(OMap<int>, OMap<int>), DecodeError> {
    match DecodeAll(ps)
    case Err(e) => Err(e)
    case Ok(vs) => Ok((ColorCounts(vs), SizeCounts(vs)))
  }

  /** Once a prefix of the products fails to decode, so do all of them. */
  lemma {:induction false} DecodeAllErrorPersists(ps: seq<Product>, n: nat)
    requires n <= |ps| && DecodeAll(ps[..n]).Err?
    ensures DecodeAll(ps) == DecodeAll(ps[..n])
  {
    if n < |ps| {
      var init := ps[..|ps| - 1];
      assert init[..n] == ps[..n];
      DecodeAllErrorPersists(init, n);
    } else {
      assert ps[..n] == ps;
    }
  }

  /** One more decoded product extends the decoded prefix by its map. */
  lemma DecodeAllStep(ps: seq<Product>, i: nat, vs: seq<Variants>, v: Variants)
    requires i < |ps| && DecodeAll(ps[..i]) == Ok(vs) && Decode(ps[i].variants) == Ok(v)
    ensures DecodeAll(ps[..i + 1]) == Ok(vs + [v])
  {
    assert ps[..i + 1][..i] == ps[..i];
  }

  lemma TotalUnitsStep(vs: seq<Variants>, v: Variants)
    ensures TotalUnitsOf(vs + [v]) == TotalUnitsOf(vs) + Units(v)
  {
    assert (vs + [v])[..|vs|] == vs;
  }

  /** A product that fails to decode fails the page, with its error, when
      every product before it decoded. */
  lemma DecodeAllFails(ps: seq<Product>, i: nat, vs: seq<Variants>)
    requires i < |ps| && DecodeAll(ps[..i]) == Ok(vs) && Decode(ps[i].variants).Err?
    ensures DecodeAll(ps) == Err(Decode(ps[i].variants).error)
  {
    var q := ps[..i + 1];
    assert q[..|q| - 1] == ps[..i];
    assert q[|q| - 1] == ps[i];
    assert DecodeAll(q) == Err(Decode(ps[i].variants).error);
    DecodeAllErrorPersists(ps, i + 1);
  }

  lemma ValueStep(ps: seq<Product>, i: nat, vs: seq<Variants>, v: Variants)
    requires i < |ps| && |vs| == i
    ensures ValueOf(ps[..i + 1], vs + [v]) == ValueOf(ps[..i], vs) + Units(v) * ps[i].price
  {
    assert ps[..i + 1][..i] == ps[..i];
    assert (vs + [v])[..|vs|] == vs;
  }

  // ---------------------------------------------------------------------
  // The page's loops
  // ---------------------------------------------------------------------

  /** The inner loops of "Jami mahsulot birliklari" for one product: every
      quantity of every color added to the running `total_items`. */
  method AddItems(totalItems: int, v: Variants) returns (total: int)
    ensures total == totalItems + Units(v)
  {
    total := totalItems;
    for c := 0 to |v|
      invariant total == totalItems + Units(v[..c])
    {
      var sizes := v[c].1;
      assert v[..c + 1][..c] == v[..c];
      for k := 0 to |sizes|
        invariant total == totalItems + Units(v[..c]) + SumValues(sizes[..k])
      {
        assert sizes[..k + 1] == sizes[..k] + [sizes[k]];
        SumSnoc(sizes[..k], sizes[k]);
        total := total + sizes[k].1;
      }
      assert sizes[..|sizes|] == sizes;
    }
    assert v[..|v|] == v;
  }

  /** The loop behind "Jami mahsulot birliklari": every quantity of every
      product added to `total_items`. */
  method TotalUnits(ps: seq<Product>) returns (r: Result<int, DecodeError>)
    ensures r == UnitTotal(ps)
  {
    var totalItems := 0;
    ghost var vs: seq<Variants> := [];
    for i := 0 to |ps|
      invariant DecodeAll(ps[..i]) == Ok(vs)
      invariant totalItems == TotalUnitsOf(vs)
    {
      var parsed := Parse(ps[i].variants);
      if parsed.Err? {
        DecodeAllFails(ps, i, vs);
        return Err(parsed.error);
      }
      var v := parsed.value;
      totalItems := AddItems(totalItems, v);
      DecodeAllStep(ps, i, vs, v);
      TotalUnitsStep(vs, v);
      vs := vs + [v];
    }
    assert ps[..|ps|] == ps;
    return Ok(totalItems);
  }

  /** The units of one product, the `item_count` loop. */
  method CountItems(v: Variants) returns (itemCount: int)
    ensures itemCount == Units(v)
  {
    itemCount := 0;
    for c := 0 to |v|
      invariant itemCount == Units(v[..c])
    {
      var sizes := v[c].1;
      assert v[..c + 1][..c] == v[..c];
      for k := 0 to |sizes|
        invariant itemCount == Units(v[..c]) + SumValues(sizes[..k])
      {
        assert sizes[..k + 1] == sizes[..k] + [sizes[k]];
        SumSnoc(sizes[..k], sizes[k]);
        itemCount := itemCount + sizes[k].1;
      }
      assert sizes[..|sizes|] == sizes;
    }
    assert v[..|v|] == v;
  }

  /** One product's share of "Jami qiymat": its `item_count` times its price. */
  method AddValue(totalValue: int, v: Variants, price: int) returns (total: int)
    ensures total == totalValue + Units(v) * price
  {
    var itemCount := CountItems(v);
    total := totalValue + itemCount * price;
  }

  /** The loop behind "Jami qiymat": each product's `item_count` times its
      price, added to `total_value`. */
  method TotalValue(ps: seq<Product>) returns (r: Result<int, DecodeError>)
    ensures r == ValueTotal(ps)
  {
    var totalValue := 0;
    ghost var vs: seq<Variants> := [];
    for i := 0 to |ps|
      invariant DecodeAll(ps[..i]) == Ok(vs)
      invariant totalValue == ValueOf(ps[..i], vs)
    {
      var parsed := Parse(ps[i].variants);
      if parsed.Err? {
        DecodeAllFails(ps, i, vs);
        return Err(parsed.error);
      }
      var v := parsed.value;
      totalValue := AddValue(totalValue, v, ps[i].price);
      DecodeAllStep(ps, i, vs, v);
      ValueStep(ps, i, vs, v);
      vs := vs + [v];
    }
    assert ps[..|ps|] == ps;
    return Ok(totalValue);
  }

  /** The innermost loop for one color: each of its quantities added to
      the color's count and to its size's count, a size first entered with 0. */
  method CountSizes(colorCounts: OMap<int>, sizeCounts: OMap<int>, color: string, sizes: Sizes)
    returns (cc: OMap<int>, sc: OMap<int>)
    requires color in KeySet(colorCounts)
    ensures cc == Bump(colorCounts, color, SumValues(sizes))
    ensures sc == AddSizes(sizeCounts, sizes)
  {
    cc, sc := colorCounts, sizeCounts;
    PutExisting(colorCounts, color);
    for k := 0 to |sizes|
      invariant cc == Bump(colorCounts, color, SumValues(sizes[..k]))
      invariant sc == AddSizes(sizeCounts, sizes[..k])
    {
      CountStep(colorCounts, sizeCounts, color, sizes, k);
      cc := Bump(cc, color, sizes[k].1);
      sc := CountSize(sc, sizes[k].0, sizes[k].1);
    }
    assert sizes[..|sizes|] == sizes;
  }

  /** One more size counted: the color's count and the size's count each grow
      by its quantity. */
  lemma CountStep(colorCounts: OMap<int>, sizeCounts: OMap<int>, color: string, sizes: Sizes, k: nat)
    requires k < |sizes|
    ensures Bump(colorCounts, color, SumValues(sizes[..k + 1])) ==
              Bump(Bump(colorCounts, color, SumValues(sizes[..k])), color, sizes[k].1)
    ensures AddSizes(sizeCounts, sizes[..k + 1]) ==
              Bump(AddSizes(sizeCounts, sizes[..k]), sizes[k].0, sizes[k].1)
  {
    assert sizes[..k + 1] == sizes[..k] + [sizes[k]];
    assert sizes[..k + 1][..k] == sizes[..k];
    SumSnoc(sizes[..k], sizes[k]);
    BumpBump(colorCounts, color, SumValues(sizes[..k]), sizes[k].1);
  }

  /** `if size not in size_counts: size_counts[size] = 0`, then
      `size_counts[size] += qty`. */
  method CountSize(sizeCounts: OMap<int>, size: string, qty: int) returns (sc: OMap<int>)
    ensures sc == Bump(sizeCounts, size, qty)
  {
    sc := sizeCounts;
    if size !in KeySet(sc) {
      EnterZero(sc, size, qty);
      sc := Put(sc, size, 0);
    }
    sc := Put(sc, size, Get(sc, size).value + qty);
  }

  /** The loops for one product: each color entered with 0 when new, then its
      sizes counted. */
  method CountProduct(colorCounts: OMap<int>, sizeCounts: OMap<int>, v: Variants)
    returns (cc: OMap<int>, sc: OMap<int>)
    ensures cc == AddColors(colorCounts, v)
    ensures sc == AddProductSizes(sizeCounts, v)
  {
    cc, sc := colorCounts, sizeCounts;
    for c := 0 to |v|
      invariant cc == AddColors(colorCounts, v[..c])
      invariant sc == AddProductSizes(sizeCounts, v[..c])
    {
      var color := v[c].0;
      assert v[..c + 1][..c] == v[..c];
      if color !in KeySet(cc) {
        EnterZero(cc, color, SumValues(v[c].1));
        cc := Put(cc, color, 0);
      }
      cc, sc := CountSizes(cc, sc, color, v[c].1);
    }
    assert v[..|v|] == v;
  }

  /** The loop that fills `color_counts` and `size_counts` over all
      products. */
  method ColorSizeCounts(ps: seq<Product>) returns (r: Result<(OMap<int>, OMap<int>), DecodeError>)
    ensures r == Counts(ps)
  {
    var colorCounts: OMap<int> := [];
    var sizeCounts: OMap<int> := [];
    ghost var vs: seq<Variants> := [];
    for i := 0 to |ps|
      invariant DecodeAll(ps[..i]) == Ok(vs)
      invariant colorCounts == ColorCounts(vs) && sizeCounts == SizeCounts(vs)
    {
      var parsed := Parse(ps[i].variants);
      if parsed.Err? {
        DecodeAllFails(ps, i, vs);
        return Err(parsed.error);
      }
      var v := parsed.value;
      colorCounts, sizeCounts := CountProduct(colorCounts, sizeCounts, v);
      DecodeAllStep(ps, i, vs, v);
      assert (vs + [v])[..|vs|] == vs;
      vs := vs + [v];
    }
    assert ps[..|ps|] == ps;
    return Ok((colorCounts, sizeCounts));
  }
}
