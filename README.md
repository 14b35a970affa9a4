# E-Book-Maker core, modelled in Dafny

E-Book-Maker turns Markdown manuscripts into e-books and print books for Amazon KDP. It
computes the print geometry, generates covers, normalises text and converts it, numbers
pages, keeps a project history, watermarks documents, and parses suggestions from an AI
service. This project models the logic behind those features and proves what it promises.
One Dafny module stands for each core source file:

- `KdpCalculator` (modules/kdp_calculator.py): spine width per paper type, the gutter table,
  full-wrap cover dimensions with bleed, manuscript margins, the trim-size catalogue and
  page-count validation.
- `CoverGenerator` (modules/covers/cover_generator.py): the cover generator's own spine and
  dimension rules, `hex_to_rgb`, the canvas and text-colour choices of `create_cover`, the
  section and aspect-fit arithmetic of `convert_cover` and the text overlays, and the
  barcode safe area.
- `GenerateCovers` (modules/covers/generate_covers.py): the per-page thickness table, the
  wrap width, the text offsets and the gradient channel formula.
- `TextNormalizer` (modules/conversion/text_normalizer.py): the replacement table, list and
  line-break fixing, symbol fixing, and the `normalize_text` pipeline.
- `Converter` (modules/conversion/converter.py): blank lines before lists, the YAML metadata
  block, the PDF-engine choice, and the slug and format filtering of `convert`.
- `PageNumbering` (modules/conversion/page_numbering.py): the configuration merge, the LaTeX
  header, the front- and main-matter commands, and EPUB pagination. Configurations are a
  JSON-like `Value` datatype.
- `FileHandler` and `Paths` (modules/utils/file_handler.py): `safe_filename`,
  `get_unique_filename`, `list_files`, and the `Path.name`, `stem` and `suffix` they rely on.
- `ProjectManager` (modules/project_manager.py): a class whose `projects` and `stats` fields
  the methods update, as `ProjectManager` does with its in-memory history.
- `Server` (server.py): `allowed_file` and the upload extension sets.
- `WatermarkGenerator` (modules/watermarking/watermark_generator.py): the logo scan, the
  `WatermarkSystem` class with its current logo, and the logo data URI.
- `Watermarker` (modules/watermarking/watermarker.py): validation, clamping and dispatch in
  `apply_watermark`, CSS positions, the HTML and Markdown watermark builders, and output
  naming.
- `GroqAssistant` (modules/ai/groq_assistant.py): the `Assistant` class holding the model
  choice and the key state, and the parsers for keywords, categories, cover style, colour
  scheme and chapter outline.

`Wrappers`, `PyStr`, `PyNum` and `Sorting` hold the `Option` and `Result` types and the
Python built-ins the core relies on: `str.lower`, `find`, `replace`, `split`, `strip`,
`int()`, `round()` and `sorted`.

Methods with loops, such as the replacement loop, the unique-name search, the logo selection
and the response parsers, are proved equal to a function. Lemmas then state what the source
promises about that function.

## Model

| member | source | states |
|---|---|---|
| KdpCalculator.SpineCoefficient | modules/kdp_calculator.py:26-31 | a known paper type (white, cream, color, standard_color) has a positive per-page thickness; any other has none |
| KdpCalculator.SpineWidth | modules/kdp_calculator.py:135-179 | an out-of-range page count fails with the range error before the paper type is looked at; an unknown paper type fails next; otherwise the width is the count times the paper's thickness, rounded to three decimals, and it succeeds exactly then |
| KdpCalculator.SpineWidthRounding | modules/kdp_calculator.py:176-179 | a spine width is within 0.0005" of the exact thickness and has at most three decimals |
| KdpCalculator.SpineWidthMonotone | modules/kdp_calculator.py:176-179 | on the same paper, more pages never give a thinner spine |
| KdpCalculator.SpineWidthExamples | modules/kdp_calculator.py:26-31 | 250 white pages give 0.563", 300 cream 0.75", 200 color 0.469", 150 standard color 0.338"; 20 pages and the paper "glossy" fail |
| KdpCalculator.SpineWidthIsRounded | modules/kdp_calculator.py:179 | rounding a spine width to three decimals again changes nothing |
| KdpCalculator.FirstGutter | modules/kdp_calculator.py:208-210 | the scan finds a gutter exactly when some row covers the count, and it is the gutter of the first such row |
| KdpCalculator.GutterTablePartition | modules/kdp_calculator.py:75-81 | the gutter rows start at 24, end at 828, are contiguous and non-overlapping, and their gutters strictly increase |
| KdpCalculator.GutterRowUnique | modules/kdp_calculator.py:75-81 | every page count in [24, 828] is covered by exactly one row |
| KdpCalculator.GutterMargin | modules/kdp_calculator.py:182-213 | an out-of-range count fails with the range error; an in-range count gets the gutter of a row that covers it |
| KdpCalculator.GutterMarginSteps | modules/kdp_calculator.py:75-81 | the gutter is 0.375" up to 150 pages, 0.5" up to 300, 0.625" up to 500, 0.75" up to 700 and 0.875" above |
| KdpCalculator.GutterMarginMonotone | modules/kdp_calculator.py:75-81 | the gutter never decreases as the page count grows |
| KdpCalculator.GutterMarginExamples | modules/kdp_calculator.py:182-213 | 100, 200, 400, 600 and 800 pages give 0.375", 0.5", 0.625", 0.75" and 0.875"; 829 pages fail |
| KdpCalculator.CoverDimensionsFor | modules/kdp_calculator.py:216-276 | the cover fails exactly when the spine width fails, with the same error; otherwise the width is both covers plus the spine plus 0.125" bleed on each side (plus the case wrap for "hardback") and the height is the trim height plus both bleeds; pixel fields truncate the unrounded inches times the dpi, inch fields are rounded to three decimals, and the bleed is 0.125" |
| KdpCalculator.CoverWidth | modules/kdp_calculator.py:253-260 | the unrounded width is 2 x trim + spine + 0.25", plus 3" exactly for the cover type "hardback" |
| KdpCalculator.HardbackWiderByCaseWrap | modules/kdp_calculator.py:253-260 | a hardback and a paperback of the same book share height and spine, and the hardback is exactly 3" wider |
| KdpCalculator.CoverDimensionsExample | modules/kdp_calculator.py:216-276 | 6" x 9" with 250 white pages at 300 dpi: 12.813" x 9.25" (3843 x 2775 px) as a paperback, 15.813" wide (4743 px) as a hardback, spine 0.563" (168 px) |
| KdpCalculator.ManuscriptMarginsFor | modules/kdp_calculator.py:279-315 | a custom gutter is used verbatim and the page count is then not checked; otherwise the gutter is the table's, an out-of-range count fails, and top, bottom, outside and the 0.125" bleed are passed through |
| KdpCalculator.ManuscriptMarginsExample | modules/kdp_calculator.py:279-315 | with the 0.75" defaults, 250 pages give a 0.5" gutter; a custom 0.625" gutter is used as given, even for 5 pages |
| KdpCalculator.FirstMatchFromIsFirst | modules/kdp_calculator.py:335-339 | the scan over the catalogue returns no name exactly when no entry matches, and otherwise the name of the first matching entry |
| KdpCalculator.ValidateTrimSize | modules/kdp_calculator.py:318-339 | the flag is true exactly when a name is returned; the name is that of the first catalogue entry whose width and height are both strictly within 0.01", and there is none exactly when no entry is that close |
| KdpCalculator.ValidateTrimSizeSixByNine | modules/kdp_calculator.py:47-68 | 6 x 9 (and 6.005 x 8.995) is reported as "6x9", never as "6x9_color" |
| KdpCalculator.ValidateTrimSizeExamples | modules/kdp_calculator.py:47-68 | 5 x 8, 7 x 10 and 8.5 x 11 are recognised under their own names |
| KdpCalculator.ValidateTrimSizeRejects | modules/kdp_calculator.py:335-339 | 5.5 x 7 is no catalogue size, and 6.02 x 9 is rejected: its width is 0.02 from that of every 6-inch entry |
| KdpCalculator.TrimSizeInfo | modules/kdp_calculator.py:342-357 | a name is found exactly when a catalogue entry carries it, and the entry returned carries that name |
| KdpCalculator.FindByName | modules/kdp_calculator.py:342-357 | The lookup by name finds a size exactly when the catalogue holds one with that name, and the size it returns is in the catalogue under that name. |
| KdpCalculator.TrimSizeNamesUnique | modules/kdp_calculator.py:47-68 | no two catalogue entries share a name |
| KdpCalculator.FilterInterior | modules/kdp_calculator.py:373-376 | the filtered list holds exactly the catalogue entries of the interior type |
| KdpCalculator.ListTrimSizes | modules/kdp_calculator.py:360-376 | with no interior type the whole catalogue, otherwise exactly the entries of that type |
| KdpCalculator.FilterInteriorAppend | modules/kdp_calculator.py:373-376 | filtering a concatenation filters each part and concatenates the results, so catalogue order is kept |
| KdpCalculator.FilterInteriorAll | modules/kdp_calculator.py:373-376 | a run of entries all of the type is kept whole, in its order |
| KdpCalculator.FilterInteriorNone | modules/kdp_calculator.py:373-376 | a run of entries none of the type is dropped whole |
| KdpCalculator.CatalogueHalves | modules/kdp_calculator.py:47-68 | the catalogue is its fourteen black-and-white entries followed by its four colour entries |
| KdpCalculator.ListTrimSizesBlackAndWhite | modules/kdp_calculator.py:373-376 | listing "bw" gives the fourteen black-and-white entries in catalogue order |
| KdpCalculator.ListTrimSizesColour | modules/kdp_calculator.py:373-376 | listing "color" gives the four colour entries in catalogue order |
| KdpCalculator.ListTrimSizesOther | modules/kdp_calculator.py:373-376 | any other interior type lists nothing |
| KdpCalculator.ValidatePageCount | modules/kdp_calculator.py:379-403 | valid exactly when the count is in [24, 828] and even, with no message exactly then; too low is reported first, then too high, then odd |
| KdpCalculator.ValidatePageCountExamples | modules/kdp_calculator.py:379-403 | 250 is valid; 21 is too low (not odd), 901 too high, 251 odd |
| CoverGenerator.SpineWidth | modules/covers/cover_generator.py:70-92 | fails exactly when the calculator's spine width fails, with the same error; otherwise it is the calculator's width plus 0.25" exactly for the binding "hardcover" |
| CoverGenerator.SpineWidthExamples | modules/covers/cover_generator.py:86-92 | 250 white pages: 0.563" as a paperback, 0.813" as "hardcover", and 0.563" for "hardback", which gets no boards; 900 pages fail with the range error |
| CoverGenerator.CoverDimensions | modules/covers/cover_generator.py:94-147 | fails exactly when the spine width fails; for "hardcover" both trim dimensions grow by 0.25" first; width = 0.25 + 2 x trim + spine, height = 0.25 + trim, pixels truncate inches times dpi, and the adjusted trim values are the ones returned |
| CoverGenerator.HardcoverGrowth | modules/covers/cover_generator.py:89-90 | a "hardcover" wrap is 0.75" wider (two boards on the trim, one on the spine) and 0.25" taller than the paperback of the same book |
| CoverGenerator.CoverDimensionsExample | modules/covers/cover_generator.py:94-147 | 6" x 9" with 250 white pages at 300 dpi: 12.813" x 9.25", 3843 x 2775 px, spine 168 px |
| CoverGenerator.ParseHexInt | modules/covers/cover_generator.py:183 | Python `int(chunk, 16)` on a slice of at most two characters: two hex digits give their value; a sign is accepted, so the value lies in [-15, 255]; blanks and the empty slice are refused |
| CoverGenerator.HexToRgb | modules/covers/cover_generator.py:180-183 | leading `#`s are stripped and characters 0-2, 2-4 and 4-6 are parsed as base-16 integers; every channel of a result lies in [-15, 255] |
| CoverGenerator.Combine | modules/covers/cover_generator.py:183 | the colour exists exactly when all three channels parsed, and holds them in order |
| CoverGenerator.ChannelsOfPairs | modules/covers/cover_generator.py:183 | the three channels are read from the first three two-character pairs, whatever follows them |
| CoverGenerator.HexToRgbRoundTrip | modules/covers/cover_generator.py:180-183 | the `#rrggbb` spelling of any colour with channels in [0, 255], followed by any text, parses back to that colour |
| CoverGenerator.HexToRgbInverse | modules/covers/cover_generator.py:180-183 | parsing the `#rrggbb` spelling of a colour gives the colour back |
| CoverGenerator.HexToRgbAcceptsSigns | modules/covers/cover_generator.py:183 | "#-1-1-1" parses to the colour (-1, -1, -1), outside the channel range |
| CoverGenerator.HexToRgbRepeatedHash | modules/covers/cover_generator.py:182 | all leading `#`s are stripped: "##667eea" parses to (102, 126, 234) |
| CoverGenerator.HexToRgbShort | modules/covers/cover_generator.py:183 | the three-digit form "#abc" does not parse (its third slice is empty) |
| CoverGenerator.HexToRgbStrict | modules/covers/cover_generator.py:180-183 | the corrected parser: only hex digits are accepted, so every channel of a result lies in [0, 255] |
| CoverGenerator.HexToRgbStrictAgrees | modules/covers/cover_generator.py:180-183 | wherever the corrected parser gives a colour, the parser as written gives the same one |
| CoverGenerator.HexToRgbStrictRoundTrip | modules/covers/cover_generator.py:180-183 | the corrected parser reads back the `#rrggbb` spelling of every colour |
| CoverGenerator.HexToRgbStrictRejectsSigns | modules/covers/cover_generator.py:183 | the corrected parser refuses "#-1-1-1" |
| CoverGenerator.CanvasFor | modules/covers/cover_generator.py:310-328 | "ebook" gets 1600 x 2560, "hardback" the alternate 4650 x 2850 hardback size, every other type the alternate 3666 x 2700 paperback size; 300 dpi; title, subtitle and author sizes decrease |
| CoverGenerator.TextColour | modules/covers/cover_generator.py:348 | text is white exactly when the background is not the white minimalist one (the styles "gradient" and "solid"), and black otherwise |
| CoverGenerator.CentreOffset | modules/covers/cover_generator.py:353 | `(outer - inner) // 2`: the two margins differ by at most one pixel, and a narrower item lies inside |
| CoverGenerator.CoverFileName | modules/covers/cover_generator.py:384-389 | the file name starts with the cover type and `_cover_`, and ends in `.jpg` for "ebook" and `.pdf` otherwise |
| CoverGenerator.Layout | modules/covers/cover_generator.py:333-393 | once both colours have parsed, the plan keeps them as they are and meets the layout of `create_cover`: the type's canvas, the style's background and text colour, the three texts centred at the given heights, the rule exactly on a non-minimalist ebook, and the output name |
| CoverGenerator.CreateCover | modules/covers/cover_generator.py:288-393 | fails exactly when the given or default primary (#667eea) or secondary (#764ba2) colour does not parse, naming the primary first (where `hex_to_rgb` raises); otherwise the plan holds both parsed colours, the type's canvas, the style's background and text colour; title, subtitle and author are centred; the title sits at a third of the height, the subtitle 200 px lower and only when non-empty, the author 300 px above the bottom; the ebook rule appears exactly for an ebook that is not minimalist, 600 px wide, 50 px above the title |
| CoverGenerator.CreateCoverRejectsShortColour | modules/covers/cover_generator.py:330-331 | a three-digit primary colour such as "#abc" makes cover creation fail on that colour |
| CoverGenerator.CreateCoverDefaults | modules/covers/cover_generator.py:330-331 | with no colours given, the defaults parse to (102, 126, 234) and (118, 75, 162) and the cover is planned |
| CoverGenerator.AspectFit | modules/covers/cover_generator.py:481-504 | width-fit when the image is wider than the box ratio, else height-fit; the fitted side is truncated, the image fits inside the box with non-negative centring offsets, and an image of height 0 has no fit (Python would divide by zero) |
| CoverGenerator.FitSide | modules/covers/cover_generator.py:489-499 | the scaled side is the truncated exact quotient and never exceeds the box |
| CoverGenerator.AspectFitExample | modules/covers/cover_generator.py:481-504 | a 3200 x 2560 image in a 1600 x 2560 box becomes 1600 x 1280 at (0, 640); an 800 x 2560 image becomes 800 x 2560 at (400, 0) |
| CoverGenerator.PaperbackSections | modules/covers/cover_generator.py:509-537 | back, spine and front follow each other from x = 0; back and front have the same width, the spine is 399 px, and the three fill the width up to one pixel |
| CoverGenerator.HardbackSections | modules/covers/cover_generator.py:561-589 | flap, back, spine, front and flap follow each other; the front starts at flap + cover + spine, the spine is 450 px, and all five fill the width up to one pixel |
| CoverGenerator.OverlaySections | modules/covers/cover_generator.py:678-692 | the paperback front runs from the spine's end to the edge of the image; the hardback sections are the wrap's |
| CoverGenerator.SectionsAtTargetSizes | modules/covers/cover_generator.py:35-58 | at the target sizes the paperback is 2550 + 399 + 2550 px and the hardback 900 + 1200 + 450 + 1200 + 900 px, with no pixel left over |
| CoverGenerator.TitleBand | modules/covers/cover_generator.py:695-704 | the band is 10%/15% of the height for "top", 40%/20% for "center" and 75%/15% otherwise, truncated, and it lies inside the image |
| CoverGenerator.OverlayTitleX | modules/covers/cover_generator.py:718 | the title is centred on the front cover, and a title narrower than the front stays on it |
| CoverGenerator.SpineText | modules/covers/cover_generator.py:745 | the spine text is the first 30 characters of the title, two spaces, a bullet, two spaces and the author |
| CoverGenerator.EbookTitleY | modules/covers/cover_generator.py:776-781 | the title's top is at 15% of the height for "top", centred for "center", at 75% otherwise |
| CoverGenerator.ConvertTarget | modules/covers/cover_generator.py:469-477 | conversion targets 1600 x 2560 for "ebook", the alternate hardback size for "hardback", and the 5499 x 3375 paperback size otherwise, all at 300 dpi |
| CoverGenerator.Clearances | modules/covers/cover_generator.py:842-849 | clearances are int(0.76 dpi) from the bottom and int(0.25 dpi) from the side for a hardback, int(0.25 dpi) for both otherwise |
| CoverGenerator.BarcodeArea | modules/covers/cover_generator.py:813-869 | there is a rectangle exactly for "paperback" and "hardback"; it is int(2.0 dpi) wide and int(1.2 dpi) tall, its right edge is the side clearance left of the back cover's end, and its bottom is the bottom clearance above the image's bottom |
| CoverGenerator.BarcodeInsideBackCover | modules/covers/cover_generator.py:813-869 | at the target sizes the rectangle is (1875, 2940)-(2475, 3300) on a paperback and (1425, 2262)-(2025, 2622) on a hardback, inside the back cover and clear of the spine; an ebook gets none |
| CoverGenerator.BarcodeClearOfSpine | modules/covers/cover_generator.py:850-869 | whenever the back cover is wide enough for the rectangle and its side clearance, the rectangle starts on the back cover, ends before the spine and stays above the image's bottom |
| GenerateCovers.Thickness | modules/covers/generate_covers.py:154-160 | the paper type is lower-cased first; cream is 0.0027" per page and every other type, known or not, 0.0025" |
| GenerateCovers.SpineWidth | modules/covers/generate_covers.py:161-167 | For a non-negative page count the width is at least the 0.25" hardcover board (0 otherwise); a negative count on a paperback gives a negative width, since the script checks no bounds. |
| GenerateCovers.SpineWidthLinear | modules/covers/generate_covers.py:161-167 | with no bounds and no rounding, the width grows by exactly one page's thickness per page, and "hardcover" adds exactly 0.25" |
| GenerateCovers.SpineWidthStrictlyIncreasing | modules/covers/generate_covers.py:161-167 | more pages always give a strictly wider spine |
| GenerateCovers.ThicknessExamples | modules/covers/generate_covers.py:154-167 | "Cream" and "CREAM" count as cream, "glossy" falls back to 0.0025"; 100 white pages give 0.25", 100 cream pages bound as hardcover 0.52", and 2000 pages are accepted (5.0") |
| GenerateCovers.PaperbackWrap | modules/covers/generate_covers.py:184-189 | the spine is int(width x 300) px, the wrap is 1800 + spine + 1800 px wide and 2700 tall, and the front cover starts at 1800 + spine, leaving exactly 1800 px |
| GenerateCovers.PaperbackWrapExample | modules/covers/generate_covers.py:184-218 | 100 white pages: a 75 px spine, 3675 px of width, front at 1875 |
| GenerateCovers.FrontTextX | modules/covers/generate_covers.py:218-224 | front text is centred on the 1800 px front panel, and narrower text stays on it |
| GenerateCovers.SpineTextY | modules/covers/generate_covers.py:279 | the offset is `max(8, (spine - 50) // 2)`: never below 8, centred on spines of 66 px and more, exactly 8 below that |
| GenerateCovers.Channel | modules/covers/generate_covers.py:195-198 | a gradient channel at a row inside the image lies between its two end values, never reaching the end value when the channel rises |
| GenerateCovers.ChannelBetween | modules/covers/generate_covers.py:195-198 | the unrounded channel value for a fraction in [0, 1) lies between the start and the end value |
| GenerateCovers.GradientRow | modules/covers/generate_covers.py:22-27 | every row's colour has red in [102, 117], green in [75, 126] and blue in [162, 234] |
| GenerateCovers.GradientStartsAtPrimary | modules/covers/generate_covers.py:22-27 | the first row is #667eea, (102, 126, 234) |
| GenerateCovers.GradientMonotone | modules/covers/generate_covers.py:195-198 | going down the image, red never decreases and green and blue never increase |
| GenerateCovers.ChannelMonotone | modules/covers/generate_covers.py:195-198 | a truncated channel moves in one direction only as the fraction grows |
| GenerateCovers.PaintGradient | modules/covers/generate_covers.py:195-199 | the loop paints one row per pixel row, each with the gradient colour of that row |
| GenerateCovers.NonEmptyLinesSpec | modules/covers/generate_covers.py:308-313 | the lines drawn are exactly the non-empty lines, in increasing order |
| GenerateCovers.PlaceBackText | modules/covers/generate_covers.py:307-314 | each non-empty back-cover line is drawn centred on the 1800 px panel at 400 + 80 x its index, empty lines are skipped but still advance, and the final offset is 400 + 80 x the number of lines |
| GenerateCovers.BackTextSpaced | modules/covers/generate_covers.py:307-314 | any two drawn back-cover lines are at least 80 px apart |
| GenerateCovers.EbookRule | modules/covers/generate_covers.py:83-87 | the ebook rule is 800 px wide and centred on the 1600 px cover |
| GenerateCovers.EbookRowsOrdered | modules/covers/generate_covers.py:47-87 | title, second title, subtitle, rule, tagline and author follow each other down the cover and all lie inside it; the rule runs from 400 to 1200 |
| TextNormalizer.Lookup | modules/conversion/text_normalizer.py:17-57 | a character without a table entry maps to itself; one with an entry maps to that entry's replacement |
| TextNormalizer.ReplaceCharConcat | modules/conversion/text_normalizer.py:66-67 | replacing a character in a concatenation replaces it in each part |
| TextNormalizer.MapCharsStep | modules/conversion/text_normalizer.py:66-67 | one more `replace` of the next table entry turns the map of the first i entries into the map of the first i + 1 |
| TextNormalizer.ApplyTableIsMap | modules/conversion/text_normalizer.py:66-67 | for a table whose replacements contain no table key, replacing entry after entry equals mapping each character once |
| TextNormalizer.MapCharsRemovesKeys | modules/conversion/text_normalizer.py:66-67 | after the per-character map, no table key is left in the text |
| TextNormalizer.MapCharsKeepsOthers | modules/conversion/text_normalizer.py:66-67 | text without any table key is left unchanged |
| TextNormalizer.ReplacementsWellFormed | modules/conversion/text_normalizer.py:17-57 | no replacement in the normalizer's table contains any key of the table, and the keys are distinct |
| TextNormalizer.ReplacementKeysDistinct | modules/conversion/text_normalizer.py:17-57 | the normalizer's table is a dictionary: no character appears as a key twice |
| TextNormalizer.ApplyReplacements | modules/conversion/text_normalizer.py:66-67 | the replacement loop leaves the text mapped character by character through the table |
| TextNormalizer.ReplacementsRemoveKeys | modules/conversion/text_normalizer.py:17-67 | after the replacement step none of the listed characters (non-breaking spaces, dashes, curly quotes, bullets, separators, soft hyphen, BOM) is left |
| TextNormalizer.DropCombining | modules/conversion/text_normalizer.py:74-77 | the result keeps only non-combining characters of the input, and text without combining characters is unchanged |
| TextNormalizer.NormalizeUnicode | modules/conversion/text_normalizer.py:60-79 | the replacements, then the decomposition, then the removal of combining characters, in that order |
| TextNormalizer.KeepParagraphsIdentity | modules/conversion/text_normalizer.py:86 | the first substitution of `fix_list_formatting` replaces each match by itself and changes nothing |
| TextNormalizer.SpaceListsInserts | modules/conversion/text_normalizer.py:89 | the list substitution only inserts line feeds: removing them gives the input back |
| TextNormalizer.SpaceListsNoTight | modules/conversion/text_normalizer.py:89 | afterwards no character of `[a-z.:,;]` is followed by a single line feed and a `-`, `*` or `+` item marker with whitespace |
| TextNormalizer.SpaceColonListsIdentity | modules/conversion/text_normalizer.py:92 | the colon substitution changes nothing once the list substitution has run, since every colon-led list already has its blank line |
| TextNormalizer.FixListFormatting | modules/conversion/text_normalizer.py:81-94 | The result only inserts newlines into the input, and no list item is left directly under a line of text or a colon without a blank line. |
| TextNormalizer.FixListFormattingSpec | modules/conversion/text_normalizer.py:81-94 | `fix_list_formatting` equals its second substitution alone, only inserts line feeds, and leaves no tight list |
| TextNormalizer.FixListFormattingExample | modules/conversion/text_normalizer.py:81-94 | "Items:\n- a" becomes "Items:\n\n- a" |
| TextNormalizer.ColonListExample | modules/conversion/text_normalizer.py:89 | ":\n- a" gets its blank line from the list substitution, since `:` is in its character class |
| TextNormalizer.EraseLeavesNone | modules/conversion/text_normalizer.py:96-109 | erasing a class of characters leaves none of them |
| TextNormalizer.TrimLineEndsNoTrailing | modules/conversion/text_normalizer.py:101 | after the first substitution of `fix_line_breaks`, no line ends in spaces or tabs |
| TextNormalizer.TrimLineEndsErasesBlanks | modules/conversion/text_normalizer.py:101 | that substitution only removes spaces and tabs |
| TextNormalizer.CollapseNewlinesNoFour | modules/conversion/text_normalizer.py:104 | after the second, there is no run of four or more line feeds |
| TextNormalizer.CollapseNewlinesErasesNewlines | modules/conversion/text_normalizer.py:104 | the second substitution only removes line feeds |
| TextNormalizer.CollapseNewlinesKeepsTrim | modules/conversion/text_normalizer.py:101-104 | collapsing line feeds keeps every line free of trailing blanks |
| TextNormalizer.DropSpaceBeforePunctSpec | modules/conversion/text_normalizer.py:107 | after the third, no whitespace directly precedes `.`, `,`, `;`, `:`, `!` or `?` |
| TextNormalizer.DropSpaceBeforePunctErasesSpace | modules/conversion/text_normalizer.py:107 | the third substitution only removes whitespace |
| TextNormalizer.DropSpaceBeforePunctKeeps | modules/conversion/text_normalizer.py:101-107 | dropping whitespace before punctuation keeps lines free of trailing blanks and creates no run of four line feeds |
| TextNormalizer.FixLineBreaks | modules/conversion/text_normalizer.py:96-109 | The three substitutions remove only whitespace: erasing all whitespace from input and result gives the same text. |
| TextNormalizer.FixLineBreaksSpec | modules/conversion/text_normalizer.py:96-109 | after `fix_line_breaks`, no line ends in blanks, no run of four line feeds remains, no whitespace precedes punctuation, and only whitespace was removed |
| TextNormalizer.SymbolsWellFormed | modules/conversion/text_normalizer.py:116-130 | no symbol replacement contains a symbol of the table |
| TextNormalizer.FixSpecialSymbols | modules/conversion/text_normalizer.py:111-132 | The chained replacements equal a single character-by-character mapping through the symbol table, so no replacement rewrites the output of an earlier one. |
| TextNormalizer.FixSpecialSymbolsSpec | modules/conversion/text_normalizer.py:111-132 | the chain of `replace` calls is a per-character map: none of the nine symbols is left, and text without them is unchanged |
| TextNormalizer.TradeMarkKept | modules/conversion/text_normalizer.py:121-122 | the trade mark sign is kept as it is |
| TextNormalizer.FixSpecialSymbolsOfOne | modules/conversion/text_normalizer.py:116-130 | each symbol alone becomes its fixed ASCII text (" degrees", "(c)", "(R)", "x", "/", "~", "!=", "<=", ">=") |
| TextNormalizer.LookupDistinct | modules/conversion/text_normalizer.py:116-130 | in a table with distinct keys, each key maps to its own replacement |
| TextNormalizer.SymbolsLineSafe | modules/conversion/text_normalizer.py:116-130 | no symbol is a line feed or a blank, and no replacement contains a line feed or ends in a blank |
| TextNormalizer.MapCharsKeepsLines | modules/conversion/text_normalizer.py:111-132 | mapping such a table over text keeps its lines free of trailing blanks and of runs of four line feeds |
| TextNormalizer.NormalizeText | modules/conversion/text_normalizer.py:164-178 | `normalize_text` composes the four stages in order; the result holds none of the nine symbols, no trailing blanks on a line and no run of four line feeds |
| Converter.AvailablePdfEngine | modules/conversion/converter.py:52-57 | no engine exactly when none of wkhtmltopdf, pdflatex, weasyprint is installed; otherwise the first installed one in that order |
| Converter.DigitRun | modules/conversion/converter.py:134 | the length of the leading run of ASCII digits |
| Converter.Gaps | modules/conversion/converter.py:124-149 | one mark per line: a blank goes after line i exactly when i is not the last line, line i stripped is non-empty, does not start with `#` and is no list item, and line i + 1 stripped is a list item (`- `, `* `, or digits, `.` and whitespace) |
| Converter.BlankAfter | modules/conversion/converter.py:124-149 | the test made after copying line i is that line's mark |
| Converter.EnsureBlankBeforeLists | modules/conversion/converter.py:112-151 | the loop copies each line and appends an empty one after each marked line; the result is the joined spaced list |
| Converter.SpacedLength | modules/conversion/converter.py:121-149 | the spaced list has one entry per input line plus one per marked line |
| Converter.SpacedPrefix | modules/conversion/converter.py:121-149 | copying more lines only extends the result |
| Converter.SpacedAt | modules/conversion/converter.py:121-149 | input line i sits after the blanks inserted before it, and is followed by an empty line when it is marked |
| Converter.SpacedPositions | modules/conversion/converter.py:121-149 | every input line appears, in order, at its index plus the number of blanks inserted before it, and nothing else is added but those blanks |
| Converter.SpacedBlanks | modules/conversion/converter.py:145-149 | an empty line follows an input line exactly where that line is marked |
| Converter.SpacedLast | modules/conversion/converter.py:124 | the last line is never followed by an inserted blank |
| Converter.SpacedIdentity | modules/conversion/converter.py:121-149 | with no marked line nothing is inserted |
| Converter.BlankBeforeListsIdentity | modules/conversion/converter.py:112-151 | text in which no content line is directly followed by a list item comes back unchanged |
| Converter.SpacedElements | modules/conversion/converter.py:118-151 | lines split at line feeds stay free of line feeds after spacing |
| Converter.BlankBeforeListsLines | modules/conversion/converter.py:118-151 | splitting the result at line feeds gives back exactly the spaced list of lines |
| Converter.BlankBeforeListsExample | modules/conversion/converter.py:112-151 | "Intro\n- a" becomes "Intro\n\n- a" |
| Converter.ExampleNeedsBlank | modules/conversion/converter.py:124-149 | in "Intro" then "- a", a blank goes after the first line and none after the last |
| Converter.NormalizeContent | modules/conversion/converter.py:105-110 | the text normalizer's pipeline, then the blank lines before lists |
| Converter.IndentedSpec | modules/conversion/converter.py:178-179 | every LaTeX header line is written prefixed by two spaces |
| Converter.AppendHeaderIncludes | modules/conversion/converter.py:175-179 | with a non-empty header, `header-includes: \|` followed by every header line indented is appended; with an empty one nothing is |
| Converter.NumberingBlock | modules/conversion/converter.py:172-179 | the page-numbering lines of the front matter, failing exactly when the configuration lookups fail |
| Converter.CreateMetadata | modules/conversion/converter.py:153-189 | the front matter is the joined list of its lines, or the configuration's error |
| Converter.MetadataShape | modules/conversion/converter.py:156-189 | the front matter starts with `---`, the quoted title and the quoted author, has the subtitle line exactly when the subtitle is non-empty, and ends with the numbering lines, `---` and an empty line |
| Converter.NumberingFromSpec | modules/conversion/converter.py:172-182 | with numbering on, `documentclass: book` appears only for front matter, and a `header-includes: \|` block appears exactly when the LaTeX header is non-empty, holding its lines indented |
| Converter.Metadata | modules/conversion/converter.py:153-189 | The metadata block is produced exactly when the page-numbering lines can be built from the configuration, and then it opens with the YAML fence line. |
| Converter.SlugSpec | modules/conversion/converter.py:467 | the file base name maps the title character by character (lower-cased, spaces and underscores to `-`), so it has the title's length and neither spaces nor underscores |
| Converter.Slug | modules/conversion/converter.py:467 | Lower-casing and replacing spaces and underscores by hyphens keeps the title's length, one character for one. |
| Converter.OutputsSpec | modules/conversion/converter.py:469-497 | every result is a requested, supported format that was produced, named slug + "." + format; every requested supported format that was produced gives a result; the others are skipped |
| Converter.Outputs | modules/conversion/converter.py:469-497 | Each requested format yields at most one output file. |
| Converter.Convert | modules/conversion/converter.py:424-499 | fails exactly when pandoc is missing; otherwise fails with the configuration error when the front matter cannot be built; otherwise the outputs of the requested formats under the title's slug |
| PageNumbering.Get | modules/conversion/page_numbering.py:71 | a key is found exactly when the dictionary has it, and the value found is stored under it |
| PageNumbering.Put | modules/conversion/page_numbering.py:74 | after the assignment the key holds the new value, every other key is unchanged, and the keys are the old ones plus this one |
| PageNumbering.Index | modules/conversion/page_numbering.py:78 | `d[k]` succeeds exactly on a dictionary holding k; otherwise `KeyError` on a dictionary and `TypeError` on anything else |
| PageNumbering.GetOr | modules/conversion/page_numbering.py:93 | `d.get(k, x)` succeeds exactly on a dictionary, giving the stored value or x when k is absent |
| PageNumbering.MergeConfig | modules/conversion/page_numbering.py:68-74 | the loop over the user's entries produces the recursive merge of the user configuration into the defaults |
| PageNumbering.MergeGet | modules/conversion/page_numbering.py:68-74 | each key of the merge holds the user's value, or the recursive merge when both values are dictionaries, or the default's value when the user has no entry |
| PageNumbering.MergeKeys | modules/conversion/page_numbering.py:68-74 | the merged keys are the default keys plus the user's |
| PageNumbering.MergeOverwrites | modules/conversion/page_numbering.py:73-74 | a user value replaces the default unless both are dictionaries |
| PageNumbering.MergeRecurses | modules/conversion/page_numbering.py:71-72 | when both values are dictionaries they are merged recursively |
| PageNumbering.MergeKeepsDefault | modules/conversion/page_numbering.py:68-74 | a default key the user does not mention keeps its value |
| PageNumbering.NewConfig | modules/conversion/page_numbering.py:33-66 | with no user configuration, or an empty one, the defaults stay as they are; otherwise the user's configuration is merged into them |
| PageNumbering.PositionLetter | modules/conversion/page_numbering.py:15-22 | a LaTeX position letter exists exactly for the six header-/footer- left/center/right names |
| PageNumbering.CustomLines | modules/conversion/page_numbering.py:91-104 | the custom lines of a header or footer section: they fail exactly when the section is no dictionary, and hold at most one line per side |
| PageNumbering.CustomLinesStep | modules/conversion/page_numbering.py:92-96 | left, center and right in that order, each contributing one `\fancyhead`/`\fancyfoot` line with its letter exactly when its content is truthy |
| PageNumbering.AppendCustomLines | modules/conversion/page_numbering.py:92-104 | the loop appends exactly the section's custom lines to the lines so far, or fails as the section does |
| PageNumbering.BuildHeaderLines | modules/conversion/page_numbering.py:82-114 | the header lines of an enabled pdf section, or the error of the first failing look-up |
| PageNumbering.GenerateLatexHeader | modules/conversion/page_numbering.py:76-116 | the joined header lines, or "" when numbering or the pdf section is off |
| PageNumbering.PdfSection | modules/conversion/page_numbering.py:78-79 | A missing global switch is an error; a falsy global switch gives no PDF section; a section is returned only when the global switch and its own `enabled` are truthy, and it is the configuration's `pdf` entry. |
| PageNumbering.LatexHeader | modules/conversion/page_numbering.py:76-116 | A lookup failure in the switches fails the header; when page numbering is off for PDF the header is the empty string. |
| PageNumbering.LatexHeaderEmptyIffOff | modules/conversion/page_numbering.py:78-79 | the header is "" exactly when the global or the pdf `enabled` flag is false |
| PageNumbering.HeaderLinesShape | modules/conversion/page_numbering.py:82-116 | an enabled header starts with the `\usepackage{fancyhdr}`, `\pagestyle{fancy}` and `\fancyhf{}` lines and ends with the two rule-width lines |
| PageNumbering.PlainPositionFooter | modules/conversion/page_numbering.py:105-110 | without custom headers or footers, exactly one `\fancyfoot[X]{\thepage}` line appears when the position is one of the six names (header ones included), and none otherwise |
| PageNumbering.DefaultHeaderLines | modules/conversion/page_numbering.py:39-116 | the default configuration gives the preamble, `\fancyfoot[C]{\thepage}` and the rule widths |
| PageNumbering.CustomLinesNeedDict | modules/conversion/page_numbering.py:93 | a section that is no dictionary fails with `AttributeError` on `get` |
| PageNumbering.CustomLinesExample | modules/conversion/page_numbering.py:91-96 | a header section with a left and a right entry gives `\fancyhead[L]{Book}` then `\fancyhead[R]{Author}` |
| PageNumbering.FrontmatterCommand | modules/conversion/page_numbering.py:118-127 | a non-empty front-matter command is always `\pagenumbering{style}` |
| PageNumbering.MainmatterCommand | modules/conversion/page_numbering.py:129-135 | a non-empty main-matter command is always `\pagenumbering{style}` |
| PageNumbering.NumberingCommandsSpec | modules/conversion/page_numbering.py:118-135 | the front-matter command is non-empty exactly when numbering, pdf and front_matter are all enabled and a style is set; the main-matter command exactly when numbering and pdf are on and the pdf style is set |
| PageNumbering.DefaultCommands | modules/conversion/page_numbering.py:39-135 | by default the front-matter command is "" and the main-matter command is `\pagenumbering{arabic}` |
| PageNumbering.MainmatterOf | modules/conversion/page_numbering.py:134-135 | the main-matter command names the pdf style |
| PageNumbering.DefaultPdf | modules/conversion/page_numbering.py:39-54 | the default pdf section is on and is the one listed in the defaults |
| PageNumbering.EpubPaginationSpec | modules/conversion/page_numbering.py:150-154 | EPUB pagination is on exactly when the global, `epub.enabled` and `epub.page_list` flags are all truthy |
| PageNumbering.EpubPagination | modules/conversion/page_numbering.py:150-154 | A missing global switch is an error; a falsy global switch is returned as it is (the `and` short-circuits); a truthy result implies a truthy global switch. |
| PageNumbering.ReferenceDocPath | modules/conversion/page_numbering.py:137-148 | a reference document is returned only when its path is non-empty and exists |
| FileHandler.RemoveUnsafe | modules/utils/file_handler.py:106 | the result keeps only characters of the name that are not among `< > : " / \ \| ? *`, and a name without them is unchanged |
| FileHandler.CollapseUnderscores | modules/utils/file_handler.py:112 | the result uses only characters of its input and is no longer |
| FileHandler.CollapseNoDouble | modules/utils/file_handler.py:112 | after collapsing, no two underscores are adjacent |
| FileHandler.CollapseIdentity | modules/utils/file_handler.py:112 | text without two adjacent underscores is unchanged |
| FileHandler.SafeFilenameSafe | modules/utils/file_handler.py:93-118 | the safe name is never empty, contains none of the unsafe characters and no space, and never holds `__` |
| FileHandler.SafeFilename | modules/utils/file_handler.py:93-118 | The sanitised name is never empty: a name with nothing left becomes "unnamed". |
| FileHandler.SafeFilenameIdempotent | modules/utils/file_handler.py:93-118 | applying `safe_filename` twice equals applying it once |
| FileHandler.KeptChars | modules/utils/file_handler.py:106-112 | the characters that no step of `safe_filename` touches |
| FileHandler.SafeFilenameKeeps | modules/utils/file_handler.py:93-118 | the characters other than the unsafe ones, spaces and underscores survive in order |
| FileHandler.CandidateInjective | modules/utils/file_handler.py:144-145 | different counters give different candidate paths |
| FileHandler.GetUniqueFilename | modules/utils/file_handler.py:121-148 | the result never exists; it is directory/filename when that is free, and otherwise stem_N + suffix for the smallest N of at least 1 that is free |
| FileHandler.ListFiles | modules/utils/file_handler.py:36-57 | nothing for a missing directory; otherwise the sorted listing of the files kept by the filter |
| FileHandler.ListedFilesSpec | modules/utils/file_handler.py:51-57 | the listing is sorted, is a permutation of the kept paths in listing order, and holds exactly the directory's files whose lower-cased suffix is among the extensions (every file when there are none given) |
| FileHandler.FilteredMembers | modules/utils/file_handler.py:52-55 | the filter keeps exactly the files that pass it |
| Paths.RFind | modules/utils/file_handler.py:139-140 | the index of the last occurrence of a character, or -1 when it does not occur |
| Paths.Name | modules/utils/file_handler.py:139 | a path's last component has no `/` and ends the path |
| Paths.JoinPath | modules/utils/file_handler.py:133 | Joining a directory and a name without a slash gives a path whose last component is that name. |
| Paths.Suffix | modules/utils/file_handler.py:140 | The suffix is empty or starts with a dot and has at least one character after it. |
| Paths.Stem | modules/utils/file_handler.py:139 | The stem is a prefix of the name. |
| Paths.StemSuffix | modules/utils/file_handler.py:139-140 | stem and suffix put together give the name back; a suffix is a `.` followed by at least one character and no further `.`, and comes after a non-empty stem |
| Paths.SuffixExample | modules/utils/file_handler.py:139-140 | "report.md" has the stem "report" and the suffix ".md"; ".bashrc" and "notes." have no suffix |
| ProjectManager.BumpedSpec | modules/project_manager.py:224-236 | `_update_stats` sets the last activity, adds one to exactly the counter of an ebook, cover, conversion or watermark project, and changes no counter for any other type |
| ProjectManager.AppliedSpec | modules/project_manager.py:95-96 | an update keeps the id and the creation time, sets the update time, takes each of the seven fields it carries (title, type, status, files, metadata, thumbnail, tags) and keeps each it does not |
| ProjectManager.IndexOf | modules/project_manager.py:93-94 | the index of the first project with the id, or -1 when none has it |
| ProjectManager.WithoutIdSpec | modules/project_manager.py:149-160 | deleting keeps exactly the projects with another id; the list shrinks exactly when some project had the id, and is unchanged otherwise |
| ProjectManager.OfType | modules/project_manager.py:132-133 | the filter keeps exactly the projects of the type and is never longer |
| ProjectManager.WithoutIdAppend | modules/project_manager.py:151-154 | deleting from a concatenation deletes from each part, so stored order is kept |
| ProjectManager.OfTypeAppend | modules/project_manager.py:133 | the type filter of a concatenation filters each part, so stored order is kept |
| ProjectManager.MatchingAppend | modules/project_manager.py:140-146 | searching a concatenation searches each part, so stored order is kept |
| ProjectManager.MatchingSpec | modules/project_manager.py:137-147 | search keeps exactly the projects whose lower-cased title or some lower-cased tag contains the query |
| ProjectManager.ProjectManager.constructor | modules/project_manager.py:15-36 | the manager starts from the stored history, or an empty one with zero counters when none could be read |
| ProjectManager.ProjectManager.UpdateStats | modules/project_manager.py:224-236 | the counters are bumped and the projects are unchanged |
| ProjectManager.ProjectManager.CreateProject | modules/project_manager.py:56-89 | one draft project with no files, the given metadata, thumbnail and tags, and its creation and update times from their own clock readings, is inserted at the front; the old projects follow unchanged; the counters are bumped for its type; its id is returned |
| ProjectManager.ProjectManager.Find | modules/project_manager.py:93-94 | the scan finds the first project with the id |
| ProjectManager.ProjectManager.UpdateProject | modules/project_manager.py:91-99 | true exactly when some project has the id; then only the first such project is updated; otherwise nothing changes; counters are untouched |
| ProjectManager.ProjectManager.AddFileToProject | modules/project_manager.py:101-113 | true exactly when some project has the id; then only the first such project gets exactly one file record, stamped with the first clock reading, appended and the second reading as its update time; otherwise nothing changes |
| ProjectManager.ProjectManager.GetProject | modules/project_manager.py:115-120 | a project is returned exactly when one has the id, and it is the first such project |
| ProjectManager.ProjectManager.SearchProjects | modules/project_manager.py:137-147 | the projects matching the lower-cased query, in stored order |
| ProjectManager.ProjectManager.DeleteProject | modules/project_manager.py:149-160 | every project with the id is removed, the others keep their order, and true is returned exactly when the list shrank |
| ProjectManager.ProjectManager.ClearProjectHistory | modules/project_manager.py:253-261 | the history becomes empty with zero counters, and true is returned |
| ProjectManager.RecentProjectsSpec | modules/project_manager.py:122-135 | the result is a prefix of the stored list (filtered by a non-empty type when one is given), of length `limit` when there are enough, with Python's negative-limit slicing otherwise |
| ProjectManager.ShouldIgnoreExamples | modules/project_manager.py:162-170 | ".gitkeep", "README.md", names starting with `_` or `test-` are ignored; "book.epub" and "readme.md" are not |
| Server.LastExtension | server.py:52-55 | the text after the last `.` of a file name: it holds no `.` and is a suffix following a `.` of the name |
| Server.AllowedFile | server.py:52-55 | A file is allowed only when its name holds a dot and the file type is one of the configured kinds. |
| Server.AllowedFileRefusals | server.py:52-55 | a name without a `.` or an unknown upload type is never allowed |
| Server.AllowedFileExtension | server.py:39-55 | a name stem.ext is allowed for a known upload type exactly when the lower-cased ext is one of that type's extensions |
| Server.AllowedFileIgnoresCase | server.py:52-55 | lower-casing the file name never changes the answer |
| Server.KindsDisjoint | server.py:39-43 | no extension is both a document and an image |
| WatermarkGenerator.ScanLogos | modules/watermarking/watermark_generator.py:63-79 | the logos are the sorted listing of the logo directory's image files, and none when the directory is missing |
| WatermarkGenerator.ScannedLogos | modules/watermarking/watermark_generator.py:74-79 | the scan is sorted and holds exactly the paths of the directory's files whose lower-cased suffix is a supported image format |
| WatermarkGenerator.FirstIndex | modules/watermarking/watermark_generator.py:133-136 | the position of the first name equal to the one sought, or none when no name is |
| WatermarkGenerator.SelectionPrecedence | modules/watermarking/watermark_generator.py:110-141 | a given index decides alone; a file name alone selects a logo of that name, and fails only when no logo has it |
| WatermarkGenerator.FirstIndexIs | modules/watermarking/watermark_generator.py:133-136 | the first match is found, not a later one |
| WatermarkGenerator.ImageTypeOfLogo | modules/watermarking/watermark_generator.py:163-165 | the data URI type of a supported logo is png, jpeg, gif or bmp, and jpeg exactly for `.jpg` and `.jpeg` |
| WatermarkGenerator.WatermarkSystem.constructor | modules/watermarking/watermark_generator.py:50-61 | the logos are scanned and the first one, if any, becomes the current logo |
| WatermarkGenerator.WatermarkSystem.SelectLogo | modules/watermarking/watermark_generator.py:110-141 | true exactly when a logo is selected (1-based index in range, or first logo of that name); then it becomes current; otherwise the current logo stays; the list is unchanged |
| WatermarkGenerator.WatermarkSystem.LogoDataUri | modules/watermarking/watermark_generator.py:143-172 | empty exactly when there is no logo to use or it does not exist; otherwise a data URI ending in the base64 payload |
| Watermarker.Dispatch | modules/watermarking/watermarker.py:576-585 | the kind of document chosen for an extension handles that extension, and none is chosen for an extension no kind handles |
| Watermarker.DispatchTotal | modules/watermarking/watermarker.py:567-585 | a watermarker is chosen exactly for the supported formats |
| Watermarker.Clamp | modules/watermarking/watermarker.py:573 | the opacity is forced into [0, 1] and kept when already there |
| Watermarker.ClampIdempotent | modules/watermarking/watermarker.py:573 | clamping twice is clamping once |
| Watermarker.OutputNameParts | modules/watermarking/watermarker.py:131-132 | the output keeps the input's suffix and appends `_watermarked` to its stem (the same naming recurs for each format); the metadata file, named at line 540, is that stem plus `.watermark.json` |
| Watermarker.TextRequiredExactly | modules/watermarking/watermarker.py:566-580 | `ApplyWatermark` fails with `TextRequired` exactly when the input exists, its lower-cased suffix is ".pdf" and the text is empty. |
| Watermarker.JobFiles | modules/watermarking/watermarker.py:538-541 | the output and metadata files sit in the output directory under those names |
| Watermarker.ApplyWatermark | modules/watermarking/watermarker.py:544-585 | a missing input is an error; on success the kind handles the input's lower-cased suffix and the opacity is the clamped one |
| Watermarker.ApplyWatermarkErrors | modules/watermarking/watermarker.py:562-585 | an unsupported suffix is refused naming it, and a PDF needs watermark text: that error happens exactly for an existing PDF with empty text |
| Watermarker.ApplyWatermarkFiles | modules/watermarking/watermarker.py:544-585 | a successful job writes the renamed output and its metadata file |
| Watermarker.PositionFallback | modules/watermarking/watermarker.py:49-57 | an unknown position is styled as the centre |
| Watermarker.WatermarkCss | modules/watermarking/watermarker.py:46-87 | The generated style block ends with the requested opacity followed by the fixed closing rules, whatever the position. |
| Watermarker.Overlay | modules/watermarking/watermarker.py:108-114 | the overlay is one `div` block, opened and closed |
| Watermarker.OverlayLogo | modules/watermarking/watermarker.py:110 | the overlay starts with an image exactly when there is a logo |
| Watermarker.OverlayText | modules/watermarking/watermarker.py:111-112 | the overlay holds the text `div` exactly when there is text, just before the closing tag |
| Watermarker.CssBeforeHead | modules/watermarking/watermarker.py:116-120 | the style goes just before the first `</head>` |
| Watermarker.CssAfterBody | modules/watermarking/watermarker.py:121-124 | without `</head>`, the style goes just after the first `<body>` |
| Watermarker.CssPrepended | modules/watermarking/watermarker.py:125-126 | with neither tag, the style is put in front |
| Watermarker.InsertCss | modules/watermarking/watermarker.py:116-126 | Inserting the style block never shortens the page: the result is at least as long as page and style together. |
| Watermarker.OverlayAfterBody | modules/watermarking/watermarker.py:127-128 | the overlay goes on its own line just after the first `<body>` |
| Watermarker.OverlayPrepended | modules/watermarking/watermarker.py:129 | without `<body>`, the overlay is put in front on its own line |
| Watermarker.InsertOverlay | modules/watermarking/watermarker.py:127-129 | The overlay is inserted once: the result grows by the overlay plus two newlines after the first `<body>`, or by the overlay plus one newline at the front. |
| Watermarker.WatermarkHtml | modules/watermarking/watermarker.py:89-141 | The watermarked page is strictly longer than page, style and overlay together; a page with neither `</head>` nor `<body>` becomes overlay, newline, style, page. |
| Watermarker.FrontmatterParts | modules/watermarking/watermarker.py:431 | the front matter is found exactly when the document has two `---` fences; its text holds no fence and the document ends with fence, front matter, fence, body |
| Watermarker.Kept | modules/watermarking/watermarker.py:431-470 | the body kept after the original front matter is a suffix of the document |
| Watermarker.WatermarkMdShape | modules/watermarking/watermarker.py:471-512 | the output starts with a `---` front-matter fence and ends with the notice comment, the kept body and the footer |
| Watermarker.WatermarkMd | modules/watermarking/watermarker.py:413-526 | The watermarked Markdown always opens with a front-matter fence. |
| Watermarker.WatermarkMdExtends | modules/watermarking/watermarker.py:471-488 | With well-formed front matter, the existing keys are stripped and kept under a "# Watermark Information" heading followed by the watermark keys, then the notice, the rest of the document and the footer. |
| Watermarker.WatermarkMdPrepends | modules/watermarking/watermarker.py:489-494 | Without well-formed front matter, a new front-matter block, the notice and the whole original document precede the footer. |
| Watermarker.WatermarkedMdHasFrontmatter | modules/watermarking/watermarker.py:413-526 | a watermarked Markdown file always carries front matter |
| GroqAssistant.ChosenKey | modules/ai/groq_assistant.py:81-94 | the key from the secrets wins when there is one, else the configured key; none exactly when both are empty |
| GroqAssistant.Assistant.constructor | modules/ai/groq_assistant.py:66-98 | with no key the assistant keeps the loaded configuration and is not enabled; with a key it is tried: a working key with a configured model is stored and enables the assistant, any other leaves the stored key, switches the AI off and leaves the assistant disabled |
| GroqAssistant.Assistant.Request | modules/ai/groq_assistant.py:233-271 | no reply at all unless the assistant is enabled; otherwise the service's reply, none standing for a failed request |
| GroqAssistant.Assistant.CurrentModel | modules/ai/groq_assistant.py:176-183 | the configured model when there is one, else a model that is in the catalogue |
| GroqAssistant.Assistant.CurrentModelInfo | modules/ai/groq_assistant.py:185-199 | the catalogue entry of the current model, or a stand-in entry named after an unknown model |
| GroqAssistant.Assistant.SetApiKey | modules/ai/groq_assistant.py:119-151 | success exactly when the key works and a model is configured; then the key is stored and the assistant is enabled; on failure it is disabled and the stored key is kept |
| GroqAssistant.Assistant.SetModel | modules/ai/groq_assistant.py:201-231 | success exactly for a catalogued model whose test call succeeds (no test without a client); then it becomes the current model; otherwise the model is unchanged; the key and switches never change |
| GroqAssistant.Assistant.DisabledSuggestsNothing | modules/ai/groq_assistant.py:246-247 | a disabled assistant suggests no keywords, categories, cover style, colours or outline |
| GroqAssistant.Take | modules/ai/groq_assistant.py:723 | a slice `[:n]` is a prefix of at most n items, the whole list when it is short enough |
| GroqAssistant.KeptLinesSpec | modules/ai/groq_assistant.py:722 | the kept lines are exactly the non-empty stripped response lines (holding `>` for categories), none empty, none with surrounding space |
| GroqAssistant.KeptLinesAppend | modules/ai/groq_assistant.py:722 | filtering a concatenation filters each part |
| GroqAssistant.Keywords | modules/ai/groq_assistant.py:719-723 | no keywords exactly when there is no or an empty reply; otherwise at most 7, the first kept lines in order |
| GroqAssistant.Categories | modules/ai/groq_assistant.py:757-761 | no categories exactly when there is no or an empty reply; otherwise at most 3, the first kept lines holding `>` in order |
| GroqAssistant.ParsedEntries | modules/ai/groq_assistant.py:719-723 | every keyword or category is a non-empty stripped line of the reply (with `>` for a category) |
| GroqAssistant.CoverStyle | modules/ai/groq_assistant.py:413-418 | a style is returned exactly when the stripped, lower-cased reply is gradient, solid or minimalist, and it is that style |
| GroqAssistant.CoverStyleTolerant | modules/ai/groq_assistant.py:415-417 | surrounding whitespace and upper case do not stop a style from being recognised |
| GroqAssistant.ColorCode | modules/ai/groq_assistant.py:373 | the colour taken from a line is at most six characters |
| GroqAssistant.StepRole | modules/ai/groq_assistant.py:371-375 | a primary or secondary line without `#` fails the parse; otherwise a primary line sets the primary colour (a secondary line the secondary) to its code and leaves the other alone |
| GroqAssistant.ColorScheme | modules/ai/groq_assistant.py:367-386 | both colours, when found, are `#` followed by at most six characters |
| GroqAssistant.ScanColorsFails | modules/ai/groq_assistant.py:369-383 | the parse raises, and yields nothing, exactly when some primary or secondary line has no `#` |
| GroqAssistant.ScanColorsLastWins | modules/ai/groq_assistant.py:371-375 | a colour is found exactly when some line names its role, and it comes from the last such line |
| GroqAssistant.ParseColorScheme | modules/ai/groq_assistant.py:367-386 | the loop over the lines computes the colour scheme defined above |
| GroqAssistant.After | modules/ai/groq_assistant.py:531 | the text after the first occurrence of a character |
| GroqAssistant.ChapterTitle | modules/ai/groq_assistant.py:531-532 | a chapter title has no surrounding whitespace |
| GroqAssistant.LineTitle | modules/ai/groq_assistant.py:529-534 | a line yields a title only when it is non-empty after stripping |
| GroqAssistant.TitlesSpec | modules/ai/groq_assistant.py:528-534 | the titles are exactly those the reply's lines yield, none empty and none with surrounding whitespace |
| GroqAssistant.Outline | modules/ai/groq_assistant.py:524-537 | an outline, when returned, is never empty |
| GroqAssistant.ParseOutline | modules/ai/groq_assistant.py:524-537 | the loop over the lines computes the outline defined above |
| PyStr.Lower | modules/utils/file_handler.py:53 | `str.lower`: same length, each character lower-cased |
| PyStr.Upper | modules/ai/groq_assistant.py:372 | `str.upper`: same length, each character upper-cased |
| PyStr.Find | modules/watermarking/watermarker.py:116-119 | `str.find`: -1 exactly when the pattern is absent, otherwise an index where it occurs |
| PyStr.FindIsFirst | modules/watermarking/watermarker.py:116-119 | the index found is that of the first occurrence |
| PyStr.ReplaceAllAbsent | modules/conversion/text_normalizer.py:66-67 | `str.replace` leaves text without the pattern unchanged |
| PyStr.ReplaceAll | modules/conversion/text_normalizer.py:66-67 | `str.replace` with a replacement as long as the pattern keeps the length, and with a longer one never shortens the text |
| PyStr.ReplaceAllFind | modules/conversion/text_normalizer.py:66-67 | `str.replace` rewrites the first occurrence and continues after it |
| PyStr.ReplaceFirst | modules/watermarking/watermarker.py:118-128 | `str.replace(p, q, 1)` rewrites the first occurrence and nothing before it |
| PyStr.ReplaceCharRemoves | modules/utils/file_handler.py:106-109 | replacing a character by text without it leaves none of it |
| PyStr.Split | modules/ai/groq_assistant.py:369 | `str.split(sep)`: at least one part, none holding the separator |
| PyStr.JoinSplit | modules/conversion/converter.py:118 | joining the parts of a split gives the text back |
| PyStr.SplitJoin | modules/conversion/converter.py:118 | splitting a join of separator-free parts gives the parts back |
| PyStr.Strip | modules/ai/groq_assistant.py:722 | `str.strip`: the middle slice of the text without surrounding whitespace |
| PyStr.StripPadded | modules/ai/groq_assistant.py:415 | stripping padded trimmed text gives that text |
| PyStr.NatToString | modules/utils/file_handler.py:144-145 | decimal digits of a natural number, a single one exactly below 10 |
| PyStr.NatToStringInjective | modules/utils/file_handler.py:144-145 | different numbers print differently |
| PyNum.Trunc | modules/kdp_calculator.py:263-265 | `int()` of a float truncates toward zero |
| PyNum.RoundHalfEven | modules/kdp_calculator.py:179 | `round()` picks the nearest integer, an even one on a tie |
| PyNum.Round3 | modules/kdp_calculator.py:179 | `round(x, 3)` is within half a thousandth and a whole number of thousandths |
| PyNum.Round3Monotone | modules/kdp_calculator.py:179 | rounding to three places keeps order |
| Sorting.Sort | modules/utils/file_handler.py:57 | `sorted`: an ordered permutation of its input |
| Sorting.SortedUnique | modules/utils/file_handler.py:57 | two ordered permutations of the same list are equal |

## Left out

- Pixel drawing, fonts, gradients, compositing, rotation and image codecs (PIL, reportlab, fitz) are not modelled. Only the coordinates and sizes handed to them are.
- Pandoc, subprocesses and PDF engines are not modelled. Whether an engine is installed, whether pandoc is present, and whether a format was produced are parameters of the model.
- The filesystem is not modelled. Existence checks, directory listings and file contents are parameters; reading and writing JSON (`_load_projects`, `_save_projects`, `_save_config`) is not modelled.
- The clock, `uuid4`, `base64.b64encode` and the Groq network call are parameters: one time string for each clock reading (so two readings in one call may differ), an id, the encoded payload, and the service's reply (with `None` for a failed request).
- ProjectManager.AppliedSpec: `update_project(**updates)` can also overwrite 'id' and 'created_at' and add keys the record did not have; an update here carries only the seven editable fields, so those writes are not modelled.
- GroqAssistant.Assistant.constructor: it takes the loaded configuration, the key read from the secrets (empty when they may not be read or hold none) and whether the service accepts the key as parameters. Reading the files, and recording where the key came from (`api_key_source`), are not modelled.
- The AI suggestions that return free text unparsed (titles, descriptions, bios, chapter content, proofreading, marketing copy) are not modelled. Each is just the reply of the request, and the prompts are not modelled either.
- KdpCalculator.ValidateTrimSize: sizes within rounding error of the 0.01" boundary may be decided differently, because the model compares exact reals and Python compares binary floats (6.01 x 9 is accepted in Python, since 6.01 - 6.0 rounds to just under 0.01).
- Python floats are modelled as exact reals. `round(x, 3)` rounds the exact decimal value half to even. Python rounds the nearest binary float, so the two can differ by one in the last place on a tie. `int(x * dpi)` can likewise differ by one pixel.
- `str.lower`, `str.upper` and `isdigit` are modelled on ASCII letters and digits only. `strip()` uses the full `str.isspace` set.
- The NFKD decomposition and the combining-mark test in `normalize_unicode` (modules/conversion/text_normalizer.py:71-77) are parameters of the model, because they come from Unicode data in the standard library.
- `get_stats`, `export_project`, `clear_output_files`, `reset_all` and `format_file_size` are not modelled. They are filesystem walks or float formatting.
- Printed and logged messages are not modelled. The model keeps only whether an operation succeeded and which error it raised.
- Flask routes other than `allowed_file`, the Streamlit front-end, launch and migration scripts, and modules/watermarking/apply_watermarks.py are not part of this model.
- The PDF and DOCX watermark bodies (PyPDF2 page merging, python-docx editing) are not modelled. For those formats the model covers only validation, dispatch and output naming.
- Converter.DigitRun: Python's `\d` in `re.match(r'^\d+\.\s', …)` also matches non-ASCII decimal digits (Arabic-Indic, Devanagari and so on). The model counts ASCII digits only, so a numbered list item written with such digits is not recognised as one.
- PageNumbering.CustomLines: `Render` writes a list or dictionary content as "[...]" or "{...}" where Python writes its repr, so such contents give different LaTeX. A configuration `Value` has no float case either, so a float content such as `1.5` cannot be expressed.
- CoverGenerator.ParseHexInt and CoverGenerator.HexToRgb: Python's `int(…, 16)` also reads non-ASCII decimal digits (for example '٣' as 3), so `hex_to_rgb("#٣٣٣٣٣٣")` gives (51, 51, 51). The model accepts ASCII hex digits only and refuses such a colour, so `CreateCover` fails on it where Python succeeds.
- Paths.JoinPath, Paths.Name and FileHandler.GetUniqueFilename: paths are compared as text, with no normalisation of empty, `.` or absolute components or of trailing slashes. So `Path(d) / "."` is `d` in Python but "d/." here, and `get_unique_filename(d, ".")` checks and numbers different candidates in the model than in Python.
- PageNumbering.MergeConfig: `_merge_config` updates the default dictionary in place. The model returns the merged fields as a new value, so aliasing of the default configuration is not captured.
- CoverGenerator.AspectFit: a zero image height gives no fit, where Python raises `ZeroDivisionError`. The box sides are required to be positive, as the fixed e-book target sizes are.
- GroqAssistant.ColorScheme: its own contract states only the shape of the two colours. Which lines they come from is stated by `ScanColorsFails` and `ScanColorsLastWins`.
- GroqAssistant.Outline: its own contract states only that a returned outline is non-empty. Which titles it holds is stated by `TitlesSpec`.
- Watermarker.Overlay: its own contract states only the enclosing `div`. Its content is stated by `OverlayLogo` and `OverlayText`.
- ProjectManager.WithoutIdSpec, ProjectManager.OfType and ProjectManager.MatchingSpec state membership only. Order is stated separately by the `...Append` lemmas.
- `create_cover` takes the text colour from the style alone and draws each title on one line. The spine-text threshold of 79 pages appears only in user-interface messages, so the model has no such gate.

## Findings

| source | as written | input that shows it | evidently intended | confidence | as-written member | corrected member |
|---|---|---|---|---|---|---|
| modules/covers/cover_generator.py:183 | each channel is read with `int(slice, 16)`, which also accepts a sign and surrounding whitespace | `"#-1-1-1"` parses to (-1, -1, -1) | only hex digits are accepted, so every channel lies in 0..255 | not executed | CoverGenerator.HexToRgbAcceptsSigns | CoverGenerator.HexToRgbStrict |
