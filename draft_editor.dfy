/** The add/edit form's variant editor: the session keeps a draft map
    color -> (size -> quantity) and the id of the product being edited. The
    buttons add a color, set a size's quantity, remove a size, load a stored
    product, save the draft as a variant field, or cancel the edit. */
module DraftEditor {
  import opened Wrappers
  import opened Text
  import opened OrderedMaps
  import opened VariantCodec
  import opened CodecLaws
  import opened Statistics

  /** The colors the form offers. */
  const AvailableColors: seq<string> :=
    ["Qora", "Oq", "Ko'k", "Qizil", "Yashil", "Jigarrang", "Sariq", "Kulrang", "Pushti", "Boshqa"]

  /** The sizes the form offers. */
  const AvailableSizes: seq<string> :=
    ["XS", "S", "M", "L", "XL", "XXL", "XXXL", "Bir o'lcham"]

  /** Why the save button refused to save. */
  datatype SaveError = MissingName | NoColors

  /** What a successful save writes: the record's variant field, and the id of
      the record it replaces when a product was being edited (a new record is
      appended otherwise). */
  datatype Saved = Saved(field: string, replacing: Option<string>)

  // ---------------------------------------------------------------------
  // The edits, as functions of the draft
  // ---------------------------------------------------------------------

  /** "Rang qo'shish": a color not yet in the draft enters it without sizes;
      one already there is left as it is. */
  function WithColor(v: Variants, c: string): (r: Variants)
    ensures c in KeySet(v) ==> r == v
    ensures c !in KeySet(v) ==> r == v + [(c, [])]
  {
    if c in KeySet(v) then v else Put(v, c, [])
  }

  /** "Qo'shish": the quantity of one size of a color already in the draft is
      set, replacing an earlier quantity of that size. */
  function WithSize(v: Variants, c: string, s: string, q: int): (r: Variants)
    ensures KeySet(r) == KeySet(v) + {c}
    ensures Get(r, c) == Some(Put(GetOr(v, c, []), s, q))
    ensures forall c' :: c' != c ==> Get(r, c') == Get(v, c')
  {
    Put(v, c, Put(GetOr(v, c, []), s, q))
  }

  /** "O'chirish" on one size: the size is dropped, and the color with it when
      it was the color's last size. */
  function WithoutSize(v: Variants, c: string, s: string): (r: Variants)
    ensures forall c' :: c' != c ==> Get(r, c') == Get(v, c')
  {
    var rest := Remove(GetOr(v, c, []), s);
    if rest == [] then Remove(v, c) else Put(v, c, rest)
  }

  // ---------------------------------------------------------------------
  // What the edits promise
  // ---------------------------------------------------------------------

  /** Pressing "Rang qo'shish" twice with one color is pressing it once. */
  lemma WithColorTwice(v: Variants, c: string)
    ensures WithColor(WithColor(v, c), c) == WithColor(v, c)
    ensures c in KeySet(WithColor(v, c))
  {
  }

  /** Removing a size drops the color exactly when no other size of it is
      left; the color's other sizes stay. */
  lemma WithoutSizeDropsColor(v: Variants, c: string, s: string)
    requires c in KeySet(v)
    ensures c in KeySet(WithoutSize(v, c, s)) <==> KeySet(GetOr(v, c, [])) - {s} != {}
    ensures c in KeySet(WithoutSize(v, c, s)) ==>
              GetOr(WithoutSize(v, c, s), c, []) == Remove(GetOr(v, c, []), s)
  {
    var rest := Remove(GetOr(v, c, []), s);
    assert rest != [] ==> rest[0].0 in KeySet(rest);
  }

  /** A stock edit moves the product's unit count by the difference between
      the new quantity and the old one. */
  lemma WithSizeUnits(v: Variants, c: string, s: string, q: int)
    ensures Units(WithSize(v, c, s, q)) ==
              Units(v) - GetOr(GetOr(v, c, []), s, 0) + q
  {
    var sizes := GetOr(v, c, []);
    UnitsPut(v, c, Put(sizes, s, q));
    SumPut(sizes, s, q);
  }

  /** Removing a size takes its quantity out of the product's unit count. */
  lemma WithoutSizeUnits(v: Variants, c: string, s: string)
    requires WellFormed(v)
    ensures Units(WithoutSize(v, c, s)) == Units(v) - GetOr(GetOr(v, c, []), s, 0)
  {
    var sizes := GetOr(v, c, []);
    var rest := Remove(sizes, s);
    StoredSizesOk(v, c);
    SumRemove(sizes, s);
    if rest == [] {
      UnitsRemove(v, c);
    } else {
      UnitsPut(v, c, rest);
    }
  }

  lemma {:induction false} UnitsCons(x: (string, Sizes), v: Variants)
    ensures Units([x] + v) == SumValues(x.1) + Units(v)
  {
    if v != [] {
      assert ([x] + v)[..|v|] == [x] + v[..|v| - 1];
      UnitsCons(x, v[..|v| - 1]);
    }
  }

  /** `d[c] = sizes` moves the unit count by the difference in the color's units. */
  lemma {:induction false} UnitsPut(v: Variants, c: string, sizes: Sizes)
    ensures Units(Put(v, c, sizes)) == Units(v) - SumValues(GetOr(v, c, [])) + SumValues(sizes)
  {
    if v != [] {
      assert v == [v[0]] + v[1..];
      UnitsCons(v[0], v[1..]);
      if v[0].0 == c {
        UnitsCons((c, sizes), v[1..]);
      } else {
        UnitsPut(v[1..], c, sizes);
        UnitsCons(v[0], Put(v[1..], c, sizes));
      }
    }
  }

  /** `del d[c]` takes the color's units out of the unit count. */
  lemma {:induction false} UnitsRemove(v: Variants, c: string)
    requires UniqueKeys(v)
    ensures Units(Remove(v, c)) == Units(v) - SumValues(GetOr(v, c, []))
  {
    if v != [] {
      assert v == [v[0]] + v[1..];
      UniqueCons(v[0], v[1..]);
      UnitsCons(v[0], v[1..]);
      UnitsRemove(v[1..], c);
      if v[0].0 != c {
        UnitsCons(v[0], Remove(v[1..], c));
      }
    }
  }

  /** `del d[k]` takes the key's value out of the sum. */
  lemma {:induction false} SumRemove(m: OMap<int>, k: string)
    requires UniqueKeys(m)
    ensures SumValues(Remove(m, k)) == SumValues(m) - GetOr(m, k, 0)
  {
    if m != [] {
      assert m == [m[0]] + m[1..];
      UniqueCons(m[0], m[1..]);
      SumRemove(m[1..], k);
    }
  }

  /** The colors the form offers survive the text format. */
  lemma AvailableColorsOk()
    ensures forall c :: c in AvailableColors ==> ColorOk(c)
  {
    forall c | c in AvailableColors
      ensures ColorOk(c)
    {
      PlainColorOk(c);
    }
  }

  /** The sizes the form offers survive the text format. */
  lemma AvailableSizesOk()
    ensures forall s :: s in AvailableSizes ==> SizeOk(s)
  {
    forall s | s in AvailableSizes
      ensures SizeOk(s)
    {
      PlainSizeOk(s);
    }
  }

  /** A name without surrounding blanks and without `:` or `;` is a valid
      color. */
  lemma PlainColorOk(s: string)
    requires IsTrimmed(s) && ':' !in s && ';' !in s
    ensures ColorOk(s)
  {
    FreeOfFirstChar(s, BlockSep);
  }

  /** A name without surrounding blanks and without `-`, `,` or `;` is a
      valid size. */
  lemma PlainSizeOk(s: string)
    requires IsTrimmed(s) && '-' !in s && ',' !in s && ';' !in s
    ensures SizeOk(s)
  {
    FreeOfFirstChar(s, BlockSep);
    FreeOfFirstChar(s, PairSep);
  }

  lemma PutWellFormed(v: Variants, c: string, sizes: Sizes)
    requires WellFormed(v) && ColorOk(c) && SizesOk(sizes)
    ensures WellFormed(Put(v, c, sizes))
  {
    PutUnique(v, c, sizes);
    PutEntries(v, c, sizes);
  }

  /** The sizes stored under a color of a well-formed map are well formed. */
  lemma StoredSizesOk(v: Variants, c: string)
    requires WellFormed(v)
    ensures SizesOk(GetOr(v, c, []))
  {
    if c in KeySet(v) {
      GetEntry(v, c);
    }
  }

  /** Each edit keeps the draft one the text format carries unchanged. */
  lemma EditsKeepWellFormed(v: Variants, c: string, s: string, q: int)
    requires WellFormed(v)
    ensures ColorOk(c) ==> WellFormed(WithColor(v, c))
    ensures ColorOk(c) && SizeOk(s) ==> WellFormed(WithSize(v, c, s, q))
    ensures WellFormed(WithoutSize(v, c, s))
  {
    var sizes := GetOr(v, c, []);
    StoredSizesOk(v, c);
    if ColorOk(c) {
      PutWellFormed(v, c, []);
      if SizeOk(s) {
        PutUnique(sizes, s, q);
        PutEntries(sizes, s, q);
        PutWellFormed(v, c, Put(sizes, s, q));
      }
    }
    var rest := Remove(sizes, s);
    RemoveUnique(sizes, s);
    RemoveEntries(sizes, s);
    if rest == [] {
      RemoveUnique(v, c);
      RemoveEntries(v, c);
    } else {
      GetEntry(v, c);
      PutWellFormed(v, c, rest);
    }
  }

  // ---------------------------------------------------------------------
  // The session state
  // ---------------------------------------------------------------------

  class Draft {
    /** `st.session_state.colors_data` */
    var colors: Variants
    /** `st.session_state.editing_product_id` */
    var editingProductId: Option<string>

    /** The draft is always one that saves and reads back unchanged. */
    ghost predicate Valid()
      reads this
    {
      WellFormed(colors)
    }

    /** Python's truth test on the id: a product is being edited. `None` and
        the empty id are both false. */
    predicate Editing()
      reads this
      ensures editingProductId == None ==> !Editing()
      ensures editingProductId == Some("") ==> !Editing()
      ensures Editing() <==> editingProductId.Some? && |editingProductId.value| > 0
    {
      editingProductId.Some? && editingProductId.value != ""
    }

    /** The session starts with an empty draft and no product being edited. */
    constructor ()
      ensures Valid()
      ensures colors == [] && editingProductId == None
    {
      colors := [];
      editingProductId := None;
    }

    /** "Tahrirlash": the product's id becomes the one being edited, then its
        variant field is read into the draft. A field `int()` rejects leaves
        the draft as it was and reports the error. */
    method BeginEdit(id: string, field: Option<string>) returns (r: Result<Variants, DecodeError>)
      requires Valid()
      modifies this
      ensures Valid()
      ensures r == Decode(field)
      ensures editingProductId == Some(id)
      ensures r.Ok? ==> colors == r.value
      ensures r.Err? ==> colors == old(colors)
    {
      editingProductId := Some(id);
      r := Parse(field);
      if r.Ok? {
        DecodedWellFormed(field);
        colors := r.value;
      }
    }

    /** "Rang qo'shish" with a color chosen from the list. */
    method AddColor(c: string)
      requires Valid() && c in AvailableColors
      modifies this
      ensures Valid()
      ensures colors == WithColor(old(colors), c)
      ensures editingProductId == old(editingProductId)
    {
      AvailableColorsOk();
      EditsKeepWellFormed(colors, c, "", 0);
      if c !in KeySet(colors) {
        colors := Put(colors, c, []);
      }
    }

    /** "Qo'shish" under one of the draft's colors, with a size chosen from the
        list and a quantity the number input keeps non-negative. */
    method AddSize(c: string, s: string, q: int)
      requires Valid() && c in KeySet(colors) && s in AvailableSizes && q >= 0
      modifies this
      ensures Valid()
      ensures colors == WithSize(old(colors), c, s, q)
      ensures editingProductId == old(editingProductId)
    {
      AvailableSizesOk();
      StoredSizesOk(colors, c);
      assert ColorOk(c) by {
        GetEntry(colors, c);
      }
      EditsKeepWellFormed(colors, c, s, q);
      var sizes := Get(colors, c).value;
      colors := Put(colors, c, Put(sizes, s, q));
    }

    /** "O'chirish" under one of the draft's sizes: the size goes, and the
        color goes with its last size. */
    method RemoveSize(c: string, s: string)
      requires Valid() && c in KeySet(colors) && s in KeySet(GetOr(colors, c, []))
      modifies this
      ensures Valid()
      ensures colors == WithoutSize(old(colors), c, s)
      ensures c !in KeySet(colors) <==> KeySet(GetOr(old(colors), c, [])) == {s}
      ensures editingProductId == old(editingProductId)
    {
      EditsKeepWellFormed(colors, c, s, 0);
      WithoutSizeDropsColor(colors, c, s);
      var sizes := Get(colors, c).value;
      var rest := Remove(sizes, s);
      if rest == [] {
        colors := Remove(colors, c);
      } else {
        colors := Put(colors, c, rest);
      }
    }

    /** "Saqlash": refused without a product name, then refused with an empty
        draft; otherwise the draft is written as the record's variant field,
        replacing the edited product's record if there is one, and the
        session is reset. The written field reads back as the draft. */
    method Save(productName: string) returns (r: Result<Saved, SaveError>)
      requires Valid()
      modifies this
      ensures Valid()
      ensures productName == "" ==> r == Err(MissingName)
      ensures productName != "" && old(colors) == [] ==> r == Err(NoColors)
      ensures r.Err? ==> colors == old(colors) && editingProductId == old(editingProductId)
      ensures r.Ok? <==> productName != "" && old(colors) != []
      ensures r.Ok? ==> r.value.field == Encode(old(colors))
      ensures r.Ok? ==> r.value.replacing == (if old(Editing()) then old(editingProductId) else None)
      ensures r.Ok? ==> Decode(Some(r.value.field)) == Ok(old(colors)) && r.value.field != ""
      ensures r.Ok? ==> colors == [] && editingProductId == None
    {
      if productName == "" {
        return Err(MissingName);
      }
      if colors == [] {
        return Err(NoColors);
      }
      RoundTrip(colors);
      var field := Encode(colors);
      var replacing := if Editing() then editingProductId else None;
      editingProductId := None;
      colors := [];
      return Ok(Saved(field, replacing));
    }

    /** "Bekor qilish", shown only while a product is being edited: the
        session is reset. */
    method Cancel()
      requires Valid()
      modifies this
      ensures Valid()
      ensures old(Editing()) ==> colors == [] && editingProductId == None
      ensures !old(Editing()) ==> colors == old(colors) && editingProductId == old(editingProductId)
    {
      if Editing() {
        editingProductId := None;
        colors := [];
      }
    }
  }
}
