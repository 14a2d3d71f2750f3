/** What the statistics page's numbers mean: the unit total, the color
    counts and the size counts agree; every color and size the products name
    has a count, and nothing else does; each count is the sum of the
    quantities recorded under its key; and the value total is price times
    units, product by product. */
module StatisticsLaws {
  import opened Wrappers
  import opened OrderedMaps
  import opened VariantCodec
  import opened Statistics

  // ---------------------------------------------------------------------
  // The three totals agree
  // ---------------------------------------------------------------------

  /** An increment raises the sum of the counts by its amount. */
  lemma SumBump(counts: OMap<int>, k: string, n: int)
    ensures SumValues(Bump(counts, k, n)) == SumValues(counts) + n
  {
    SumPut(counts, k, GetOr(counts, k, 0) + n);
  }

  lemma {:induction false} SumAddSizes(counts: OMap<int>, sizes: Sizes)
    ensures SumValues(AddSizes(counts, sizes)) == SumValues(counts) + SumValues(sizes)
  {
    if sizes != [] {
      var init := sizes[..|sizes| - 1];
      var last := sizes[|sizes| - 1];
      SumAddSizes(counts, init);
      SumBump(AddSizes(counts, init), last.0, last.1);
      assert sizes == init + [last];
      SumSnoc(init, last);
    }
  }

  lemma {:induction false} SumAddProductSizes(counts: OMap<int>, v: Variants)
    ensures SumValues(AddProductSizes(counts, v)) == SumValues(counts) + Units(v)
  {
    if v != [] {
      var init := v[..|v| - 1];
      SumAddProductSizes(counts, init);
      SumAddSizes(AddProductSizes(counts, init), v[|v| - 1].1);
    }
  }

  lemma {:induction false} SumAddColors(counts: OMap<int>, v: Variants)
    ensures SumValues(AddColors(counts, v)) == SumValues(counts) + Units(v)
  {
    if v != [] {
      var init := v[..|v| - 1];
      SumAddColors(counts, init);
      SumBump(AddColors(counts, init), v[|v| - 1].0, SumValues(v[|v| - 1].1));
    }
  }

  /** The color counts and the size counts each add up to the unit total. */
  lemma {:induction false} CountsAgree(vs: seq<Variants>)
    ensures SumValues(ColorCounts(vs)) == TotalUnitsOf(vs)
    ensures SumValues(SizeCounts(vs)) == TotalUnitsOf(vs)
  {
    if vs != [] {
      var init := vs[..|vs| - 1];
      CountsAgree(init);
      SumAddColors(ColorCounts(init), vs[|vs| - 1]);
      SumAddProductSizes(SizeCounts(init), vs[|vs| - 1]);
    }
  }

  /** On the page: "Jami mahsulot birliklari" is the sum of the color table
      and the sum of the size table, and all three fail together. */
  lemma PageTotalsAgree(ps: seq<Product>)
    ensures UnitTotal(ps).Ok? <==> Counts(ps).Ok?
    ensures Counts(ps).Ok? ==>
              UnitTotal(ps).value == SumValues(Counts(ps).value.0) &&
              UnitTotal(ps).value == SumValues(Counts(ps).value.1)
  {
    if DecodeAll(ps).Ok? {
      CountsAgree(DecodeAll(ps).value);
    }
  }

  // ---------------------------------------------------------------------
  // Which keys the counts have
  // ---------------------------------------------------------------------

  lemma {:induction false} KeysAddSizes(counts: OMap<int>, sizes: Sizes)
    ensures KeySet(AddSizes(counts, sizes)) == KeySet(counts) + KeySet(sizes)
  {
    if sizes != [] {
      var init := sizes[..|sizes| - 1];
      KeysAddSizes(counts, init);
      assert sizes == init + [sizes[|sizes| - 1]];
      KeySetSnoc(init, sizes[|sizes| - 1]);
    }
  }

  lemma {:induction false} KeysAddProductSizes(counts: OMap<int>, v: Variants)
    ensures KeySet(AddProductSizes(counts, v)) == KeySet(counts) + SizeKeys(v)
  {
    if v != [] {
      var init := v[..|v| - 1];
      KeysAddProductSizes(counts, init);
      KeysAddSizes(AddProductSizes(counts, init), v[|v| - 1].1);
    }
  }

  lemma {:induction false} KeysAddColors(counts: OMap<int>, v: Variants)
    ensures KeySet(AddColors(counts, v)) == KeySet(counts) + KeySet(v)
  {
    if v != [] {
      var init := v[..|v| - 1];
      KeysAddColors(counts, init);
      assert v == init + [v[|v| - 1]];
      KeySetSnoc(init, v[|v| - 1]);
    }
  }

  /** `color_counts` has exactly the colors the products name, a color whose
      sizes are all absent included; `size_counts` has exactly the sizes they
      name. */
  lemma {:induction false} CountKeys(vs: seq<Variants>)
    ensures KeySet(ColorCounts(vs)) == AllColors(vs)
    ensures KeySet(SizeCounts(vs)) == AllSizes(vs)
  {
    if vs != [] {
      var init := vs[..|vs| - 1];
      CountKeys(init);
      KeysAddColors(ColorCounts(init), vs[|vs| - 1]);
      KeysAddProductSizes(SizeCounts(init), vs[|vs| - 1]);
    }
  }

  /** The colors the products name are the keys of their variant maps. */
  lemma {:induction false} AllColorsMeans(vs: seq<Variants>, c: string)
    ensures c in AllColors(vs) <==> exists i :: 0 <= i < |vs| && c in KeySet(vs[i])
  {
    if vs != [] {
      var init := vs[..|vs| - 1];
      AllColorsMeans(init, c);
      assert forall i :: 0 <= i < |init| ==> init[i] == vs[i];
    }
  }

  /** The sizes a product names are the keys of its size maps. */
  lemma {:induction false} SizeKeysMeans(v: Variants, s: string)
    ensures s in SizeKeys(v) <==> exists j :: 0 <= j < |v| && s in KeySet(v[j].1)
  {
    if v != [] {
      var init := v[..|v| - 1];
      SizeKeysMeans(init, s);
      assert forall j :: 0 <= j < |init| ==> init[j] == v[j];
    }
  }

  /** The sizes the products name are the keys of their size maps. */
  lemma {:induction false} AllSizesMeans(vs: seq<Variants>, s: string)
    ensures s in AllSizes(vs) <==>
              exists i, j :: 0 <= i < |vs| && 0 <= j < |vs[i]| && s in KeySet(vs[i][j].1)
  {
    if vs != [] {
      var init := vs[..|vs| - 1];
      var last := vs[|vs| - 1];
      AllSizesMeans(init, s);
      SizeKeysMeans(last, s);
      assert forall i :: 0 <= i < |init| ==> init[i] == vs[i];
      if s in SizeKeys(last) {
        var j :| 0 <= j < |last| && s in KeySet(last[j].1);
        assert 0 <= |vs| - 1 < |vs| && 0 <= j < |vs[|vs| - 1]| && s in KeySet(vs[|vs| - 1][j].1);
      }
    }
  }

  // ---------------------------------------------------------------------
  // What each count holds
  // ---------------------------------------------------------------------

  /** An increment changes only its own key's count. */
  lemma GetOrBump(counts: OMap<int>, k: string, n: int, c: string)
    ensures GetOr(Bump(counts, k, n), c, 0) == GetOr(counts, c, 0) + (if c == k then n else 0)
  {
  }

  lemma {:induction false} ValuesAddSizes(counts: OMap<int>, sizes: Sizes, s: string)
    ensures GetOr(AddSizes(counts, sizes), s, 0) == GetOr(counts, s, 0) + QuantityOf(sizes, s)
  {
    if sizes != [] {
      var init := sizes[..|sizes| - 1];
      var last := sizes[|sizes| - 1];
      ValuesAddSizes(counts, init, s);
      GetOrBump(AddSizes(counts, init), last.0, last.1, s);
    }
  }

  lemma {:induction false} ValuesAddProductSizes(counts: OMap<int>, v: Variants, s: string)
    ensures GetOr(AddProductSizes(counts, v), s, 0) == GetOr(counts, s, 0) + SizeUnits(v, s)
  {
    if v != [] {
      var init := v[..|v| - 1];
      ValuesAddProductSizes(counts, init, s);
      ValuesAddSizes(AddProductSizes(counts, init), v[|v| - 1].1, s);
    }
  }

  lemma {:induction false} ValuesAddColors(counts: OMap<int>, v: Variants, c: string)
    ensures GetOr(AddColors(counts, v), c, 0) == GetOr(counts, c, 0) + ColorUnits(v, c)
  {
    if v != [] {
      var init := v[..|v| - 1];
      ValuesAddColors(counts, init, c);
      GetOrBump(AddColors(counts, init), v[|v| - 1].0, SumValues(v[|v| - 1].1), c);
    }
  }

  /** The count of a color is all the units the products hold in it; the
      count of a size is all the units they hold in it, over all colors. */
  lemma {:induction false} CountValues(vs: seq<Variants>, c: string, s: string)
    ensures GetOr(ColorCounts(vs), c, 0) == ColorTotal(vs, c)
    ensures GetOr(SizeCounts(vs), s, 0) == SizeTotal(vs, s)
  {
    if vs != [] {
      var init := vs[..|vs| - 1];
      CountValues(init, c, s);
      ValuesAddColors(ColorCounts(init), vs[|vs| - 1], c);
      ValuesAddProductSizes(SizeCounts(init), vs[|vs| - 1], s);
    }
  }

  /** In a size map with unique keys, the quantity under a size is the one
      stored for it (0 when absent). */
  lemma {:induction false} QuantityOfLookup(sizes: Sizes, s: string)
    requires UniqueKeys(sizes)
    ensures QuantityOf(sizes, s) == GetOr(sizes, s, 0)
  {
    if sizes != [] {
      UniqueInit(sizes);
      var init := sizes[..|sizes| - 1];
      QuantityOfLookup(init, s);
      GetSnoc(init, sizes[|sizes| - 1], s);
    }
  }

  /** In a variant map with unique keys, the units in a color are those of
      the size map stored for it (0 when absent). */
  lemma {:induction false} ColorUnitsLookup(v: Variants, c: string)
    requires UniqueKeys(v)
    ensures ColorUnits(v, c) == SumValues(GetOr(v, c, []))
  {
    if v != [] {
      UniqueInit(v);
      var init := v[..|v| - 1];
      ColorUnitsLookup(init, c);
      GetSnoc(init, v[|v| - 1], c);
    }
  }

  /** A color every product either lacks or lists without sizes still has a
      count, of 0, as long as some product names it. */
  lemma ColorWithoutUnitsCountsZero(vs: seq<Variants>, c: string)
    requires forall i :: 0 <= i < |vs| ==> UniqueKeys(vs[i]) && GetOr(vs[i], c, []) == []
    requires exists i :: 0 <= i < |vs| && c in KeySet(vs[i])
    ensures c in KeySet(ColorCounts(vs)) && GetOr(ColorCounts(vs), c, 0) == 0
  {
    CountKeys(vs);
    AllColorsMeans(vs, c);
    CountValues(vs, c, "");
    ZeroColorTotal(vs, c);
  }

  lemma {:induction false} ZeroColorTotal(vs: seq<Variants>, c: string)
    requires forall i :: 0 <= i < |vs| ==> UniqueKeys(vs[i]) && GetOr(vs[i], c, []) == []
    ensures ColorTotal(vs, c) == 0
  {
    if vs != [] {
      var init := vs[..|vs| - 1];
      assert forall i :: 0 <= i < |init| ==> init[i] == vs[i];
      ZeroColorTotal(init, c);
      ColorUnitsLookup(vs[|vs| - 1], c);
    }
  }

  // ---------------------------------------------------------------------
  // The value total
  // ---------------------------------------------------------------------

  /** With one price for every product, the value total is that price times
      the unit total. */
  lemma {:induction false} UniformPriceValue(ps: seq<Product>, vs: seq<Variants>, p: int)
    requires |ps| == |vs|
    requires forall i :: 0 <= i < |ps| ==> ps[i].price == p
    ensures ValueOf(ps, vs) == p * TotalUnitsOf(vs)
  {
    if ps != [] {
      var n := |ps| - 1;
      assert forall i :: 0 <= i < n ==> ps[..n][i] == ps[i];
      UniformPriceValue(ps[..n], vs[..n], p);
      assert ValueOf(ps, vs) == p * TotalUnitsOf(vs[..n]) + Units(vs[n]) * p;
    }
  }

  /** A product without variants adds nothing to the value total, whatever
      its price, and nothing to the unit total. */
  lemma EmptyProductAddsNothing(ps: seq<Product>, vs: seq<Variants>, p: Product)
    requires |ps| == |vs|
    ensures ValueOf(ps + [p], vs + [[]]) == ValueOf(ps, vs)
    ensures TotalUnitsOf(vs + [[]]) == TotalUnitsOf(vs)
  {
    assert (ps + [p])[..|ps|] == ps;
    assert (vs + [[]])[..|vs|] == vs;
  }

  /** On the page, a product whose variant field is empty or absent adds
      nothing to either total, whatever its price. */
  lemma EmptyFieldAddsNothing(ps: seq<Product>, p: Product)
    requires p.variants == None || p.variants == Some("")
    ensures ValueTotal(ps + [p]) == ValueTotal(ps)
    ensures UnitTotal(ps + [p]) == UnitTotal(ps)
  {
    var qs := ps + [p];
    assert qs[..|qs| - 1] == ps;
    assert DecodeAll(qs) == match DecodeAll(ps) case Err(e) => Err(e) case Ok(vs) => Ok(vs + [[]]);
    if DecodeAll(ps).Ok? {
      EmptyProductAddsNothing(ps, DecodeAll(ps).value, p);
    }
  }

  /** On the page: the value and unit totals fail together, and with every
      price 1 the value total is the unit total. */
  lemma PageValue(ps: seq<Product>)
    ensures ValueTotal(ps).Ok? <==> UnitTotal(ps).Ok?
    ensures (ValueTotal(ps).Ok? && forall i :: 0 <= i < |ps| ==> ps[i].price == 1) ==>
              ValueTotal(ps) == UnitTotal(ps)
  {
    if DecodeAll(ps).Ok? && forall i :: 0 <= i < |ps| ==> ps[i].price == 1 {
      UniformPriceValue(ps, DecodeAll(ps).value, 1);
    }
  }
}
