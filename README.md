# Warehouse inventory: variant field, statistics and draft editor

This project models the core of a small warehouse inventory app. Each stored
product row carries a *variant field*: an ordered map color -> (size ->
quantity), written as one string such as `Qora: S-5, M-3; Oq: L-2`. The model
covers four parts:

- the field's writer `format_colors_sizes` and reader `parse_colors_sizes`;
- the statistics page's three loops over the products:
  - the unit total;
  - the value total (price times units);
  - the per-color and per-size unit counts;
- the add/edit form's session draft, which can add a color, set a size's
  quantity, remove a size, load a stored product, save, and cancel.

Layout, one module per file:

- `wrappers.dfy`: `Option` and `Result`.
- `text.dfy`: the Python string operations the reader uses.
  - `str.strip`, with Python's whitespace set;
  - `in` and `find`;
  - `split`, and `join`.
- `int_text.dfy`: `int()` on a stripped decimal text, and `str()` of an integer.
- `ordered_maps.dfy`: insertion-ordered dicts (`d[k] = v`, `del d[k]`, `d.get`).
- `variant_codec.dfy`: the encoder `Encode`.
  - The decoder is specified as the fold `Decode` and carried out by the
    method `Parse`, which uses the source's loops.
- `codec_laws.dfy`: how the decoder reads each piece, the round trip, and the
  well-formedness of whatever it returns.
- `statistics.dfy`: the page's loops as methods, each proved equal to a
  reference fold.
- `statistics_laws.dfy`: what the page's numbers mean.
- `draft_editor.dfy`: the session draft as a class `Draft`.
  - The edits are functions of the draft. The class's methods are proved to
    apply them and to keep the draft well formed.

Behaviour of the source worth knowing:

- **A bad quantity fails the whole read.** `int()` raises `ValueError` on a
  quantity text it rejects, and nothing catches it.
  - `parse_colors_sizes` therefore fails. The model returns `Err(BadQuantity(text))`.
  - `a-b-3` is split at its first `-`, so the size is `a` and the quantity
    text is `b-3`. It fails that way too.
- **The statistics page has no per-product isolation.** The first row whose
  field fails to read fails the whole computation (`UnitTotal`, `ValueTotal`,
  `Counts`). No row is skipped.
- **Negative quantities.** The reader accepts `S--2`: `int("-2")` is -2. The
  round trip holds for negative quantities too.
- **`stats_page` is defined twice, identically** (app.py:106 and app.py:436).
  It is modelled once, from the first definition.

## Model

| member | source | states |
|---|---|---|
| Text.Strip | app.py:93 | the result is a middle slice of the text with only whitespace before and after it, and it has no leading or trailing Python whitespace itself; a text without such whitespace is returned unchanged |
| Text.IndexOf | app.py:91-92 | the first occurrence of the separator, or none exactly when it does not occur |
| Text.Split | app.py:89 | `str.split(sep)`: at least one part, the parts joined by the separator give back the text, and no part holds the separator |
| Text.Join | app.py:79-81 | `t.join(parts)`: no parts give the empty string and one part gives that part; `Split` undoes it (`Text.SplitJoin`) |
| Text.SplitJoin | app.py:89 | splitting a join of separator-free parts gives back the parts |
| IntText.ParseInt | app.py:101 | `int()` accepts only an optional sign followed by digits (single `_` between digits allowed) ending in a digit; a negative value has a leading `-` |
| IntText.ParseIntAccepts | app.py:101 | `int()` succeeds exactly on an optional `+` or `-` followed by digit groups |
| IntText.LeadingZeroIgnored | app.py:101 | a leading zero does not change the value: `int("007") == int("7")` |
| IntText.SignRead | app.py:101 | a `+` sign does not change the value and a `-` sign negates it |
| IntText.UnderscoreIgnored | app.py:101 | an `_` between digit groups does not change the value: `int("1_000") == int("1000")` |
| IntText.IntToString | app.py:79 | `str(q)` is canonical: a `-` exactly for negatives, then digits with no leading zero (`"0"` exactly for zero, so never `"-0"`), and `int()` of it gives back `q` |
| OrderedMaps.Put | app.py:94 | `d[k] = v`: `k` now maps to `v`, every other key keeps its value, the key set gains `k`, and a new key is appended at the end |
| OrderedMaps.PutInPlace | app.py:101 | writing a present key keeps every key in its position |
| OrderedMaps.PutPut | app.py:94-101 | writing a key twice equals writing it once with the later value |
| OrderedMaps.Remove | app.py:372-374 | `del d[k]`: `k` is gone, every other key keeps its value, the key set loses `k`; on a missing key the map comes back unchanged, where `del` would raise `KeyError` (app.py deletes only keys it has just read) |
| OrderedMaps.RemoveKeepsOrder | app.py:372-374 | in a dict, `del d[k]` cuts out the one entry of `k` and keeps the other entries in insertion order |
| OrderedMaps.PutUnique | app.py:94 | `d[k] = v` keeps the keys unique |
| OrderedMaps.RemoveUnique | app.py:372 | `del d[k]` keeps the keys unique |
| OrderedMaps.SumPut | app.py:172-173 | writing a key moves the sum of the values by the new value minus the old one (0 for an absent key) |
| VariantCodec.EncodePair | app.py:79 | `f"{size}-{qty}"` starts with the size followed by a dash; `CodecLaws.PairRoundTrip` shows the reader gets the size and quantity back |
| VariantCodec.EncodeBlock | app.py:80 | `f"{color}: {size_str}"` starts with the color followed by `": "`, and a color without sizes is written as exactly `color: `; `CodecLaws.BlockRoundTrip` shows the reader gets the color and its sizes back |
| VariantCodec.Encode | app.py:76-81 | `format_colors_sizes` gives the empty string exactly for the empty map |
| VariantCodec.Decode | app.py:84-103 | an absent (NaN) field and the empty string both read as the empty map |
| VariantCodec.PairsErrorPersists | app.py:98-101 | once a pair's `int()` fails, the rest of the pairs cannot change the outcome |
| VariantCodec.BlocksErrorPersists | app.py:90-101 | once a block fails, the rest of the blocks cannot change the outcome |
| VariantCodec.ParsePair | app.py:99-101 | one pair is read exactly as `DecodePair`: skipped without `-`, else `int()` of the stripped right part under the stripped left part, or the error with that text |
| VariantCodec.ParsePairs | app.py:97-101 | the loop over the pairs computes exactly the reference fold `DecodePairs`, and stops at the first failing `int()` |
| VariantCodec.ParseBlock | app.py:91-101 | one block is read exactly as `DecodeBlock`; the color is first bound to an empty dict and then filled |
| VariantCodec.Parse | app.py:84-103 | `parse_colors_sizes` as the loop over the blocks computes exactly `Decode` |
| CodecLaws.NoColonDecodesEmpty | app.py:89-91 | a text with no `:` anywhere (blank text included) reads as the empty map |
| CodecLaws.BlockWithoutColonSkipped | app.py:91 | a block without `:` leaves the map as it was |
| CodecLaws.BlockSplitsAtFirstColon | app.py:92-97 | a block is split at its first `:`; the stripped left part is the color, bound to the sizes read from the right part, or the read fails with their error |
| CodecLaws.ColorWithoutSizes | app.py:94-96 | a color whose size text is blank is bound to the empty size map |
| CodecLaws.LaterBlockWins | app.py:92-94 | two blocks naming the same color: reading both equals reading the later one alone, and a color already in the map keeps its position |
| CodecLaws.PairWithoutDashSkipped | app.py:99 | a pair without `-` is skipped |
| CodecLaws.PairSplitsAtFirstDash | app.py:100-101 | a pair is split at its first `-`; the stripped left part maps to `int()` of the stripped right part, or the read fails with that text |
| CodecLaws.RepeatedSizeOverwrites | app.py:101 | a repeated size of one color: reading both pairs equals reading the later one alone, and a size already in the map keeps its position |
| CodecLaws.OneBlockField | app.py:89-90 | a field without `;` is read as its one block |
| CodecLaws.OnePairBlock | app.py:96-101 | a block with a single pair reads as that pair read into an empty size map |
| CodecLaws.BadQuantityFails | app.py:101 | a quantity text `int()` rejects fails the read with that text |
| CodecLaws.CompositeSizeLabelFails | app.py:100-101 | the pair `a-b-3` fails with quantity text `b-3` |
| CodecLaws.FieldWithBadPairFails | app.py:84-101 | a whole field `color: pair` with a rejected pair fails with that pair's error |
| CodecLaws.PairRoundTrip | app.py:79-101 | a written pair reads back as its size and quantity |
| CodecLaws.PairsRoundTrip | app.py:79-101 | a written size map reads back unchanged |
| CodecLaws.SizesTextFacts | app.py:79-97 | the written size text is trimmed and holds no `; ` |
| CodecLaws.SizesTextReads | app.py:79-101 | the size text written after a block's `: ` reads back as the size map |
| CodecLaws.BlockFree | app.py:80 | a written block holds no block separator |
| CodecLaws.BlockRoundTrip | app.py:80-101 | a written block reads back as its color bound to its sizes |
| CodecLaws.BlocksRoundTrip | app.py:80-101 | the written blocks read back as the map |
| CodecLaws.RoundTrip | app.py:76-103 | `parse_colors_sizes(format_colors_sizes(v)) == v` for every map whose names hold no separator and no surrounding blanks, negative quantities included |
| CodecLaws.DecodedSizeOk | app.py:100-101 | a size label the reader produces is trimmed and holds no `-` or separator |
| CodecLaws.DecodedPairsOk | app.py:97-101 | a size map the reader produces has unique, well-formed size labels |
| CodecLaws.DecodedSizesOk | app.py:96-101 | the same for the sizes of one block |
| CodecLaws.DecodedBlockOk | app.py:91-101 | reading a block into a well-formed map keeps it well formed |
| CodecLaws.DecodedBlocksOk | app.py:89-101 | the map read from the blocks is well formed |
| CodecLaws.DecodedWellFormed | app.py:84-103 | every map `parse_colors_sizes` returns has unique, trimmed, separator-free names |
| CodecLaws.ReencodeStable | app.py:76-103 | writing back what was read and reading it again gives the same map |
| Statistics.DecodeAll | app.py:122-123 | on success, one variant map per product, each the product's decoded field |
| Statistics.Bump | app.py:169-173 | entering a missing key at 0 and adding `n`: the key's count becomes its old count (0 when absent) plus `n`, every other count is unchanged, and the key set gains the key |
| Statistics.BumpBump | app.py:172-173 | two increments of one count are one increment by their sum |
| Statistics.EnterZero | app.py:165-170 | entering a missing key at 0 and then incrementing it equals incrementing it from the default 0 |
| Statistics.DecodeAllErrorPersists | app.py:122-123 | once a row fails to read, the rest of the rows cannot change the outcome |
| Statistics.TotalUnitsStep | app.py:122-126 | the unit total of the products grows by each product's units |
| Statistics.AddItems | app.py:124-126 | the nested loop adds exactly the product's units to the running total |
| Statistics.TotalUnits | app.py:121-126 | "Jami mahsulot birliklari": the loop computes exactly the reference `UnitTotal`, failing with the first row's read error |
| Statistics.CountItems | app.py:134-137 | `item_count` is exactly the product's units |
| Statistics.AddValue | app.py:134-138 | one product adds exactly its units times its price to the running value |
| Statistics.TotalValue | app.py:131-138 | "Jami qiymat": the loop computes exactly the sum of units times price, failing with the first row's read error |
| Statistics.CountSizes | app.py:168-173 | one color's inner loop raises the color's count by the color's units and adds each size's quantity to its size count |
| Statistics.CountSize | app.py:169-173 | entering a missing size at 0 and then adding the quantity is one increment of its count |
| Statistics.CountProduct | app.py:164-173 | one product's loop is the reference update of both count maps |
| Statistics.ColorSizeCounts | app.py:159-173 | the page's loop computes exactly the reference color and size counts |
| StatisticsLaws.SumBump | app.py:172-173 | an increment raises the sum of the counts by its amount |
| StatisticsLaws.SumAddSizes | app.py:168-173 | adding a size map raises the size counts' sum by the map's quantities |
| StatisticsLaws.SumAddProductSizes | app.py:164-173 | adding a product raises the size counts' sum by its units |
| StatisticsLaws.SumAddColors | app.py:164-172 | adding a product raises the color counts' sum by its units |
| StatisticsLaws.CountsAgree | app.py:121-173 | the color counts and the size counts each add up to the unit total |
| StatisticsLaws.PageTotalsAgree | app.py:121-173 | on the page, the unit total and the sums of both count tables agree, and they fail together |
| StatisticsLaws.KeysAddSizes | app.py:168-170 | adding a size map adds exactly its sizes as keys |
| StatisticsLaws.KeysAddProductSizes | app.py:164-170 | adding a product adds exactly the sizes it names as keys |
| StatisticsLaws.KeysAddColors | app.py:164-166 | adding a product adds exactly its colors as keys |
| StatisticsLaws.CountKeys | app.py:159-173 | `color_counts` has exactly the colors the products name, including a color with no sizes; `size_counts` has exactly the sizes they name |
| StatisticsLaws.AllColorsMeans | app.py:164 | a color is named exactly when it is a key of some product's map |
| StatisticsLaws.SizeKeysMeans | app.py:168 | a size is named by a product exactly when one of its colors has it |
| StatisticsLaws.AllSizesMeans | app.py:162-168 | a size is named exactly when some product's color has it |
| StatisticsLaws.GetOrBump | app.py:172-173 | an increment changes only its own key's count |
| StatisticsLaws.ValuesAddSizes | app.py:168-173 | adding a size map raises a size's count by its quantity there |
| StatisticsLaws.ValuesAddProductSizes | app.py:164-173 | adding a product raises a size's count by the product's units in that size |
| StatisticsLaws.ValuesAddColors | app.py:164-172 | adding a product raises a color's count by the product's units in that color |
| StatisticsLaws.CountValues | app.py:159-173 | each color's count is all the units the products hold in it; each size's count is all the units they hold in it over all colors |
| StatisticsLaws.QuantityOfLookup | app.py:168 | in a size map with unique keys, the quantity summed under a size is the one stored for it, 0 when absent |
| StatisticsLaws.ColorUnitsLookup | app.py:164 | in a map with unique colors, a color's units are those of its stored sizes, 0 when absent |
| StatisticsLaws.ColorWithoutUnitsCountsZero | app.py:165-166 | a color that is named but never holds a size has a count of 0 |
| StatisticsLaws.ZeroColorTotal | app.py:164-172 | a color no product lists any size under totals 0 |
| StatisticsLaws.UniformPriceValue | app.py:131-138 | with one price for all products, the value total is that price times the unit total |
| StatisticsLaws.EmptyProductAddsNothing | app.py:132-138 | a product without variants adds nothing to the value total, whatever its price, and nothing to the unit total |
| StatisticsLaws.EmptyFieldAddsNothing | app.py:121-138 | on the page, appending a product whose variant field is empty or absent leaves both the value total and the unit total as they were, whatever its price |
| StatisticsLaws.PageValue | app.py:121-138 | the value total fails exactly when the unit total does; with every price 1 the two agree |
| DraftEditor.WithColor | app.py:345-347 | a color already in the draft leaves it unchanged; a new one is appended without sizes |
| DraftEditor.WithSize | app.py:361-362 | the color's size map gets the quantity under the size; the other colors are untouched |
| DraftEditor.WithoutSize | app.py:371-374 | the other colors are untouched |
| DraftEditor.WithColorTwice | app.py:345-347 | adding the same color twice is adding it once, and the color is then present |
| DraftEditor.WithoutSizeDropsColor | app.py:371-374 | the color is dropped exactly when the removed size was its last; otherwise it keeps its other sizes |
| DraftEditor.WithSizeUnits | app.py:361-362 | setting a size moves the product's units by the new quantity minus the old one |
| DraftEditor.WithoutSizeUnits | app.py:371-374 | removing a size takes its quantity out of the product's units |
| DraftEditor.UnitsPut | app.py:362 | rebinding a color moves the units by the difference in that color's units |
| DraftEditor.UnitsRemove | app.py:374 | deleting a color takes its units out |
| DraftEditor.SumRemove | app.py:372 | deleting a size takes its quantity out of the size map's sum |
| DraftEditor.AvailableColorsOk | app.py:334 | every color the form offers survives the text format |
| DraftEditor.AvailableSizesOk | app.py:335 | every size the form offers survives the text format |
| DraftEditor.PlainColorOk | app.py:334 | a name with no surrounding blanks and no `:` or `;` is a valid color |
| DraftEditor.PlainSizeOk | app.py:335 | a name with no surrounding blanks and no `-`, `,` or `;` is a valid size |
| DraftEditor.PutWellFormed | app.py:347-362 | binding a valid color to valid sizes keeps the draft well formed |
| DraftEditor.StoredSizesOk | app.py:362 | the sizes stored under a color of a well-formed draft are well formed |
| DraftEditor.EditsKeepWellFormed | app.py:345-374 | each edit keeps the draft well formed |
| DraftEditor.Draft.Editing | app.py:412 | Python's truth test on the edited id: false for `None` and for the empty id, true for any other id |
| DraftEditor.Draft.constructor | app.py:216-220 | the session starts with an empty draft and no product being edited |
| DraftEditor.Draft.BeginEdit | app.py:281-282 | the product's id becomes the edited one, then its field is read into the draft; a failed read leaves the draft as it was |
| DraftEditor.Draft.AddColor | app.py:345-347 | the draft becomes `WithColor` of the old draft and stays well formed |
| DraftEditor.Draft.AddSize | app.py:361-362 | the draft becomes `WithSize` of the old draft and stays well formed |
| DraftEditor.Draft.RemoveSize | app.py:371-374 | the draft becomes `WithoutSize` of the old draft; the color is gone exactly when the size was its only one |
| DraftEditor.Draft.Save | app.py:380-427 | refused without a name, then refused with an empty draft, and nothing changes on refusal; otherwise it writes a non-empty field that reads back as the draft, replaces the edited product's record if there is one, and resets the session |
| DraftEditor.Draft.Cancel | app.py:430-432 | while a product is being edited the session is reset; otherwise nothing changes |

## Left out

- Streamlit UI: layout, widgets, reruns, messages and the image display are not modelled.
- Files are not modelled: CSV load and save, image upload, and the Excel download link.
- `uuid` ids for new products and for images are not modelled.
- The `df.empty` early return is left out. With no rows every total is 0 anyway, and only the message differs.
- "Jami mahsulotlar" (`len(df)`) is left out.
- The category and warehouse-manager `value_counts` tables are left out.
- The display sort by quantity is left out. Only the order the dicts are built in is modelled.
- The product list's category filter and search filter are left out.
- The deletion of a product row is left out.
- `Statistics.Product.price` is a whole number. The form stores a float, and the page formats the value total with `{:,.0f}`. Floating-point rounding is not modelled.
- `OrderedMaps.Remove` returns the map unchanged when the key is missing, where Python's `del d[k]` raises `KeyError`. The editor at app.py:368-374 deletes only a size or color it has just read from the dict, so that case never arises there.
- `IntText.ParseInt` accepts ASCII digits only. Python's `int()` also accepts other Unicode decimal digits.
- `IntText.ParseInt`, `IntText.IntToString`, `CodecLaws.RoundTrip`: the interpreter's limit on decimal conversions is not modelled. Recent CPython versions refuse texts of more than 4300 digits (`sys.get_int_max_str_digits()`). On such a quantity `int()` raises at app.py:101 and `f"{qty}"` raises at app.py:79. The model reads and writes integers of any length, and the round trip is claimed for them too. The limit depends on the interpreter version and its settings.
- `CodecLaws.CompositeSizeLabelFails` states the failure for the pair `a-b-3` alone. The whole field `Qizil: a-b-3` is covered by the general `CodecLaws.FieldWithBadPairFails` instead of a literal instance.
- `DraftEditor.Draft.AddSize` requires a non-negative quantity. This reflects the number input's `min_value=0`, not a check in the handler.
- `DraftEditor.Draft.Save` models only the variant field and the id of the record it replaces. The other form fields are copied through unchanged and are not modelled.
- `DraftEditor.Draft.BeginEdit` sets the edited id before reading the field, as the source does. After a failed read the id stays set.
