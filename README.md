# ldr_tools in Dafny

A model of the Rust crate `ldr_tools`, which loads LDraw brick models for
Blender. It covers the following parts:

- **The LDraw line parser** (`ldraw/parse.rs`). This is a nom parser from one
  line of text to a `Command`, and from a byte buffer to the list of
  commands of its non-blank lines. The model has one function per nom
  parser, over a `string` and a position. Each returns `Done(pos, value)`,
  the recoverable `Error(pos, kind)`, or the fatal `Failure`.
- **The document loader** (`ldraw.rs`). It covers how reference names are
  normalised, how an MPD document is split into its `0 FILE` blocks, and
  the `SourceMap` class that stores them under their normal names. It also
  covers the depth-first loader that drains a stack of unresolved
  references.
- **The geometry assembler** (`geometry.rs`). This part has three layers:
  - **Imperative layer** (`GeometryMesh`). `LDrawGeometry` and `VertexMap`
    are classes whose buffers grow in place. `append_geometry` is a loop over
    the commands that recurses into referenced files. `create_geometry`
    finishes the mesh: it computes the edge indices, splits along them,
    collapses the colours and scales the vertices.
  - **Functional layer** (`Geometry`, `GeometryWalk`). Each method of the
    imperative layer is proved to leave exactly the state that a function
    here describes.
  - **Face listing** (`GeometryWalk.FileFaces`). It lists the faces a file
    contributes: colour, stud flag and moved corners, depth first. The
    walk is proved to store exactly these faces, in order, while keeping the
    buffers' invariant.
- **Edge splitting** (`edge_split.rs`). Vertices on marked or sharp edges
  are duplicated per face. Duplicated edges that were not meant to be split
  are merged back, and unused vertices are dropped. Every index slot
  keeps showing the position it showed.
- **Studio textures** (`pe_tex_info.rs`). This covers `PE_TEX_INFO`
  parsing, texture buffers with their sentinels, and the UVs of a face.
- **The scene builder** (`lib.rs`). This covers the node tree of
  `load_node`, the instance lists of `load_node_instanced`, the geometry
  descriptors both register, scaled transforms, and the folders the disk
  resolver searches.
- **Slopes and the colour table** (`slope.rs`, `color.rs`).
- **The crate's unit tests**, restated as lemmas over literal inputs
  (`ParseTests`, `GeometryFixtures`, `EdgeSplitFixtures`). Each states
  the output the Rust test expects.

Floating-point numbers are modelled as exact `real`s. Integer widths
(`u8` colour channels and `u32`/`i32` values) are bounded explicitly where
the parser rejects values out of range.

The source recurses without bound in three places: `append_geometry`,
`load_node` and `load_node_instanced`. A self-referencing document
overflows its stack there. The model gives each of these walks a `depth`
argument that stops the recursion.

## Model

| member | source | states |
|---|---|---|
| Settings.ReplaceColor | ldr_tools/src/lib.rs:234-240 | colour 16 (the current colour) is replaced by the inherited colour; every other code is kept |
| Parse.Opt | ldr_tools/src/ldraw/parse.rs:193-212 | `opt`: a parsed value becomes `Some` at the parser's end, a recoverable error becomes `None` consuming nothing, and a hard failure passes through unchanged |
| Parse.RunEnd | ldr_tools/src/ldraw/parse.rs:98-100 | the end of the longest run of a character class from `p`: every character before it is in the class and the one at it is not |
| Parse.TakeWhile | ldr_tools/src/ldraw/parse.rs:121-123 | `split_at_position_complete` always succeeds and returns exactly the maximal run |
| Parse.TakeWhile1 | ldr_tools/src/ldraw/parse.rs:116-118 | `take_while1` succeeds exactly when the run is non-empty and returns it; otherwise it fails with the given kind at `p` |
| Parse.Space0 | ldr_tools/src/ldraw/parse.rs:679-681 | consumes exactly the run of spaces and tabs, possibly empty |
| Parse.Sp | ldr_tools/src/ldraw/parse.rs:685-687 | succeeds exactly when a space or tab comes next, and then consumes the whole run of them; otherwise a `Space` error at `p` |
| Parse.TakeNotCrOrLf | ldr_tools/src/ldraw/parse.rs:98-100 | returns the text up to the first CR or LF, or to the end |
| Parse.SingleComma | ldr_tools/src/ldraw/parse.rs:103-112 | succeeds exactly when the next character is a comma, consuming it; otherwise a `Tag` error at `p` |
| Parse.TakeNotCommaOrEol | ldr_tools/src/ldraw/parse.rs:116-118 | a non-empty run without comma, CR or LF, ended by one of them or by the end; an error exactly when there is no such character at `p` |
| Parse.TakeNotSpace | ldr_tools/src/ldraw/parse.rs:121-123 | always succeeds, with the characters of the line from `start` up to the first space or tab or the end of the line, none of them blank |
| Parse.ExpectTag | ldr_tools/src/ldraw/parse.rs:133-136 | `tag` succeeds exactly when the text at `p` starts with the tag, consuming it; otherwise a `Tag` error |
| Parse.ExpectTagNoCase | ldr_tools/src/ldraw/parse.rs:669-675 | `tag_no_case` succeeds exactly when the next characters equal the tag in ASCII lower case |
| Parse.ReadCmdIdStr | ldr_tools/src/ldraw/parse.rs:126-131 | the line type is the non-empty run of decimal digits after the leading spaces, and the spaces after it are consumed; with no digit there it is a `Digit` error at the first non-space |
| Parse.FromHex | ldr_tools/src/ldraw/parse.rs:160-168 | a byte exactly when the text (after an optional sign) is non-empty hexadecimal, and then its value |
| Parse.TwoHexDigits | ldr_tools/src/ldraw/parse.rs:160-176 | two hex digits always make a byte: the high digit times 16 plus the low digit |
| Parse.HexPrimary | ldr_tools/src/ldraw/parse.rs:174-176 | succeeds exactly when two hex digits follow, consuming them and returning their byte |
| Parse.HexColor | ldr_tools/src/ldraw/parse.rs:178-182 | `#RRGGBB` is accepted exactly when `#` is followed by six hex digits, and gives those three bytes |
| Parse.Digit1AsU8 | ldr_tools/src/ldraw/parse.rs:184-186 | succeeds exactly when a digit run follows whose value is below 256, and returns that value |
| Parse.Digit1AsI32 | ldr_tools/src/ldraw/parse.rs:188-190 | succeeds exactly when a digit run follows whose value is below 2^31, and then returns that value and consumes exactly the run; an error consumes nothing |
| Parse.ColourAlpha | ldr_tools/src/ldraw/parse.rs:193-201 | `ALPHA n` gives `Some(n)` exactly when the clause parses, including a byte value, and then ends where the clause ends; otherwise `None`, consuming nothing |
| Parse.ColourLuminance | ldr_tools/src/ldraw/parse.rs:204-212 | the same for `LUMINANCE n` |
| Parse.TrimHexPrefixes | ldr_tools/src/ldraw/parse.rs:439-449 | `trim_start_matches("0x")` leaves a suffix of the text that does not start with `0x` |
| Parse.ColorIdValue | ldr_tools/src/ldraw/parse.rs:439-449 | a colour code exactly when the text is a decimal `u32` or, after its `0x` prefixes, a hexadecimal `u32`; decimal takes precedence, and a code that is not decimal is the value of its hexadecimal digits |
| Parse.ColorId | ldr_tools/src/ldraw/parse.rs:439-449 | succeeds exactly when the run of colour-code characters is a valid code, consuming exactly that run |
| Parse.KeywordsTail | ldr_tools/src/ldraw/parse.rs:146-148 | the text consumed after a first keyword is the remaining keywords, each after a comma; every keyword is non-empty and has no comma |
| Parse.KeywordsList | ldr_tools/src/ldraw/parse.rs:146-148 | a non-empty comma-separated list whose items joined by commas are exactly the consumed text |
| Parse.TrimAll | ldr_tools/src/ldraw/parse.rs:150-158 | every keyword is trimmed, in order |
| Parse.FinishTag | ldr_tools/src/ldraw/parse.rs:308-326 | a finish keyword is matched without regard to case exactly when the text starts with it, giving its finish and consuming the keyword; otherwise a `Tag` error at the start |
| Parse.ColorFinish | ldr_tools/src/ldraw/parse.rs:308-326 | the finish clause is optional and never a recoverable error: without a leading space there is no finish and nothing is consumed; after spaces the keywords `CHROME`, `PEARLESCENT`, `RUBBER`, `MATTE_METALLIC`, `METAL` are tried in that order, then `MATERIAL`, and a clause that matches none of them gives no finish and consumes nothing |
| Parse.Comment | ldr_tools/src/ldraw/parse.rs:363-366 | a comment is the rest of the line, verbatim |
| Parse.Filename | ldr_tools/src/ldraw/parse.rs:451-454 | a file name is the rest of the line with surrounding whitespace trimmed |
| Parse.ReadBase64 | ldr_tools/src/ldraw/parse.rs:394-397 | succeeds exactly when the rest of the line is canonical padded Base64, and returns the decoded bytes |
| Parse.Winding | ldr_tools/src/ldraw/parse.rs:669-675 | `CW` is tried before `CCW`, both without regard to case: `CW` exactly when `CW` matches, `CCW` exactly when `CW` does not and `CCW` does; never a hard failure |
| Parse.OptWinding | ldr_tools/src/ldraw/parse.rs:660-667 | a winding after at least one space gives `Some` with the end of the winding; anything else gives `None` and consumes nothing |
| Parse.BfcKeyword | ldr_tools/src/ldraw/parse.rs:629-658 | succeeds exactly when the text starts with the keyword, consuming just the keyword and giving its statement; otherwise a `Tag` error at the start |
| Parse.BfcWithWinding | ldr_tools/src/ldraw/parse.rs:634-653 | `CERTIFY` and `CLIP` succeed exactly when the text starts with the keyword; the statement carries the optional winding read right after the keyword and ends where it ends |
| Parse.Bfc | ldr_tools/src/ldraw/parse.rs:612-627 | a `BFC` line parses exactly when the keyword, spaces and a BFC statement follow, and it is the `Bfc` command holding that statement, ending where the statement ends |
| Parse.PeTexPath | ldr_tools/src/ldraw/parse.rs:575-581 | without the `PE_TEX_PATH` keyword it is a `Tag` error at the start; it parses iff the keyword, spaces and a first non-negative `i32` follow, and the paths are that first index followed by the space-separated indices after it |
| Parse.MetaCmd | ldr_tools/src/ldraw/parse.rs:412-427 | the first five meta commands are tried first, then the next five, and a line that none of them matches becomes `Comment` of the rest of the line; a hard failure of an alternative is passed on, so a type 0 line is never a recoverable error |
| Parse.ByteClause | ldr_tools/src/ldraw/parse.rs:193-212 | an `ALPHA` or `LUMINANCE` clause parses exactly when spaces, the keyword, spaces and a byte value follow, and then it is that byte value; it never fails hard and stays within the line |
| Parse.ReadFloat | ldr_tools/src/ldraw/parse.rs:429-437 | a float never reads past the line, and a parsed float consumes at least one character |
| Parse.V2 | ldr_tools/src/ldraw/parse.rs:429-432 | a UV pair stays within the line |
| Parse.V3 | ldr_tools/src/ldraw/parse.rs:434-437 | a point stays within the line |
| Parse.V3s | ldr_tools/src/ldraw/parse.rs:486-546 | `n` points separated by spaces: a parsed list has exactly `n` points |
| Parse.V2s | ldr_tools/src/ldraw/parse.rs:501-546 | `n` UV pairs separated by spaces: a parsed list has exactly `n` pairs |
| Parse.ReadTransform | ldr_tools/src/ldraw/parse.rs:473-484 | a transform stays within the line |
| Parse.ArgumentStart | ldr_tools/src/ldraw/parse.rs:133-158 | the argument of a keyword line starts after the keyword and all of its spaces |
| Parse.Category | ldr_tools/src/ldraw/parse.rs:133-144 | a `!CATEGORY` line parses exactly when the keyword is followed by spaces, and the category is the rest of the line verbatim |
| Parse.Keywords | ldr_tools/src/ldraw/parse.rs:150-158 | a `!KEYWORDS` line parses exactly when the keyword, spaces and a keyword list follow; it holds at least one keyword, each trimmed |
| Parse.TaggedFloat | ldr_tools/src/ldraw/parse.rs:218-229 | a keyword and a float stay within the line |
| Parse.SingleGrainSize | ldr_tools/src/ldraw/parse.rs:218-222 | `SIZE` and a float stay within the line |
| Parse.MinMaxGrainSize | ldr_tools/src/ldraw/parse.rs:224-229 | `MINSIZE` and `MAXSIZE` clauses stay within the line |
| Parse.MaterialGrainSize | ldr_tools/src/ldraw/parse.rs:214-216 | a grain size stays within the line |
| Parse.MaterialHead | ldr_tools/src/ldraw/parse.rs:232-290 | the shared head of a glitter or speckle material is a `Tag` error at the start when the keyword is absent, and stays within the line |
| Parse.GlitterMaterial | ldr_tools/src/ldraw/parse.rs:232-262 | a glitter material is a `Tag` error at the start when `GLITTER` is absent, and stays within the line |
| Parse.SpeckleMaterial | ldr_tools/src/ldraw/parse.rs:265-290 | a speckle material is a `Tag` error at the start when `SPECKLE` is absent, and stays within the line |
| Parse.OtherMaterial | ldr_tools/src/ldraw/parse.rs:293-297 | any other material always parses, as the trimmed rest of the line, consuming the whole line |
| Parse.MaterialFinish | ldr_tools/src/ldraw/parse.rs:300-304 | without `MATERIAL` (any case) a `Tag` error at the start; without spaces after it a `Space` error; with spaces and neither `GLITTER` nor `SPECKLE`, exactly the other-material reading of the rest of the line |
| Parse.FinishClause | ldr_tools/src/ldraw/parse.rs:308-326 | a finish clause needs leading spaces (else a `Space` error); then a finish keyword gives its finish and consumes it, and otherwise the clause is exactly the material finish read after the spaces |
| Parse.MetaColour | ldr_tools/src/ldraw/parse.rs:329-361 | a `!COLOUR` line that does not start with the keyword is a `Tag` error; a parsed line is the `Colour` command whose name and code come from the name and `CODE` clauses and whose colours, alpha, luminance, finish and end are those that `ColourRest` reads after the code |
| Parse.ColourNameCode | ldr_tools/src/ldraw/parse.rs:330-336 | a line not starting with `!COLOUR` is a `Tag` error; a parsed head has the keyword and spaces, a name that is the run of non-blank characters followed by a space, and the code that `color_id` reads after `CODE` and its spaces |
| Parse.CodeClause | ldr_tools/src/ldraw/parse.rs:334-336 | a clause not starting with `CODE` is a `Tag` error; it parses exactly when the keyword, spaces and a colour code follow, and is then the code `color_id` reads |
| Parse.TaggedHex | ldr_tools/src/ldraw/parse.rs:337-344 | never a hard failure; parses exactly when spaces, the keyword, spaces and a `#RRGGBB` colour follow, and is then exactly that colour |
| Parse.KeywordHex | ldr_tools/src/ldraw/parse.rs:338-344 | parses exactly when the keyword, spaces and a `#RRGGBB` colour follow, and is then exactly that colour |
| Parse.ValueAndEdge | ldr_tools/src/ldraw/parse.rs:337-344 | the `VALUE` colour and then the `EDGE` colour after it; parses exactly when both do |
| Parse.ColourOptions | ldr_tools/src/ldraw/parse.rs:345-347 | the optional alpha, luminance and finish, each read where the previous one ended; the clauses never fail, and the options end where the finish ends |
| Parse.ColourRest | ldr_tools/src/ldraw/parse.rs:337-360 | given the name and code, a parsed rest of line is the `Colour` command with those, the `VALUE` and `EDGE` colours and the alpha, luminance and finish after them, ending where the finish ends |
| Parse.MetaFile | ldr_tools/src/ldraw/parse.rs:368-379 | a `FILE` line parses exactly when the keyword is followed by spaces, and names the trimmed rest of the line |
| Parse.MetaData | ldr_tools/src/ldraw/parse.rs:381-392 | a `!DATA` line parses exactly when the keyword is followed by spaces, and names the rest of the line verbatim |
| Parse.MetaBase64Data | ldr_tools/src/ldraw/parse.rs:399-405 | a `!:` line parses exactly when the keyword is followed by spaces and Base64 that decodes, and holds the decoded bytes |
| Parse.MetaNoFile | ldr_tools/src/ldraw/parse.rs:407-410 | `NOFILE` parses exactly when the text starts with it, and consumes just the keyword |
| Parse.BfcWinding | ldr_tools/src/ldraw/parse.rs:640-642 | a bare winding is a BFC statement exactly when a winding parses, and it sets that winding; it never fails hard |
| Parse.BfcStatement | ldr_tools/src/ldraw/parse.rs:612-627 | the statement alternatives are tried in order `NOCERTIFY`, `CERTIFY`, a winding, `NOCLIP`, `CLIP`, `INVERTNEXT`: the first that parses is the result, and when none does it is a `Tag` error at the start |
| Parse.PathTail | ldr_tools/src/ldraw/parse.rs:575-581 | the further path indices of a `PE_TEX_PATH` line stay within the line and are non-negative `i32` values |
| Parse.TexPlacement | ldr_tools/src/ldraw/parse.rs:583-610 | the optional projection box stays within the line |
| Parse.PeTexInfo | ldr_tools/src/ldraw/parse.rs:583-610 | a parsed `PE_TEX_INFO` line is a `PeTexInfo` command |
| Parse.MetaHeader | ldr_tools/src/ldraw/parse.rs:412-427 | the first five meta alternatives give only meta commands |
| Parse.MetaBody | ldr_tools/src/ldraw/parse.rs:412-427 | the next five give only meta commands |
| Parse.FileRefCmd | ldr_tools/src/ldraw/parse.rs:456-471 | a type 1 line starts with its colour code, so a bad code is the line's error; a parsed line is a `SubFileRef` with that colour, read up to the end of the line |
| Parse.LineCmd | ldr_tools/src/ldraw/parse.rs:486-499 | a bad colour code is the colour's error at the start; otherwise it parses iff the colour and two points do, and gives a `Line` whose colour is the code read and whose corners are the two points |
| Parse.FaceUvs | ldr_tools/src/ldraw/parse.rs:501-546 | the UVs are `Some` of the `n` points read, with the spaces after them consumed, exactly when they parse; a recoverable error gives `None` consuming nothing, and a hard failure is passed on |
| Parse.FaceCmd | ldr_tools/src/ldraw/parse.rs:501-546 | type 3 gives a triangle and type 4 a quad; a bad colour code is its error at the start; the command holds the code read, the points read and the optional UVs that follow them |
| Parse.OptLineCmd | ldr_tools/src/ldraw/parse.rs:548-573 | a bad colour code is its error at the start; an `OptLine` holds the code read, the two points, and the two control points when they parse, or two origins consuming nothing when they do not |
| Parse.ReadLine | ldr_tools/src/ldraw/parse.rs:698-710 | a line without a line type is the type's error; type 0 is read by `MetaCmd`, 1 by `FileRefCmd`, 2 by `LineCmd`, 3 and 4 by `FaceCmd` with three and four corners, 5 by `OptLineCmd`; any other type is a `Switch` error after the type |
| Parse.StripBom | ldr_tools/src/ldraw/parse.rs:80-82 | the content is the result with the three byte-order-mark bytes put back if it started with them, and unchanged otherwise |
| Parse.Lines | ldr_tools/src/ldraw/parse.rs:52-74 | splitting at CR and LF gives at least one line, and no line holds CR or LF |
| Parse.ParseLine | ldr_tools/src/ldraw/parse.rs:52-74 | a line gives a command exactly when it is not blank (spaces and tabs only) and `read_line` succeeds on it |
| Parse.LineCommands | ldr_tools/src/ldraw/parse.rs:52-74 | `filter_map` keeps at most one command per line: the parsed one, or none when the line is dropped |
| Parse.ParseLines | ldr_tools/src/ldraw/parse.rs:52-74 | at most one command per line, each with the arrays its type needs |
| Parse.ParseCommands | ldr_tools/src/ldraw/parse.rs:52-74 | every command of a document has the arrays its type needs |
| Parse.LinesOfOneLine | ldr_tools/src/ldraw/parse.rs:52-74 | text without CR or LF is a single line |
| Parse.LinesAppend | ldr_tools/src/ldraw/parse.rs:52-74 | a line followed by CR or LF and more text is that line followed by the lines of the rest |
| Parse.ParseLinesAppend | ldr_tools/src/ldraw/parse.rs:52-74 | parsing distributes over concatenation: each line is parsed independently |
| Parse.StripBomOfLonger | ldr_tools/src/ldraw/parse.rs:80-82 | stripping the mark from a longer buffer only affects its first line |
| Parse.CharsAppend | ldr_tools/src/ldraw/parse.rs:52-74 | the bytes of a document read as characters one for one |
| Parse.LinesOfFirstLine | ldr_tools/src/ldraw/parse.rs:52-74 | a document's first line is the mark-stripped bytes up to the first CR or LF |
| Parse.ParseCommandsSplit | ldr_tools/src/ldraw/parse.rs:52-74 | the commands of `a`, a line break and `b` are the commands of `a` followed by those of `b`: a bad line never affects the lines after it |
| ParseTests.FromHexCases | ldr_tools/src/ldraw/parse.rs:733-744 | `from_hex` of "0", "a", "F", "10" and "FF" gives 0, 10, 15, 16 and 255; "G", "1G" and "100" are rejected |
| ParseTests.ReadCmdIdStrCases | ldr_tools/src/ldraw/parse.rs:1213-1222 | the line type "0" is read alone and with the spaces after it |
| ParseTests.HexColorCases | ldr_tools/src/ldraw/parse.rs:747-777 | the empty text is a `Tag` error; `#FFFFFF` is white; `#12345Z` fails at its last pair |
| ParseTests.ColourAlphaCases | ldr_tools/src/ldraw/parse.rs:781-786 | no clause gives `None`; ` ALPHA 34 ` gives 34 |
| ParseTests.ColourAlphaOverflow | ldr_tools/src/ldraw/parse.rs:789 | ` ALPHA 256` is out of range and gives `None`, consuming nothing |
| ParseTests.KeywordsListCases | ldr_tools/src/ldraw/parse.rs:1250-1257 | `a,b,c` is the three keywords |
| ParseTests.FilenameCases | ldr_tools/src/ldraw/parse.rs:1260-1280 | a padded file name before CR LF is read trimmed, stopping before the line break |
| ParseTests.TrimFileName | ldr_tools/src/ldraw/parse.rs:1260-1280 | trimming the padded name gives the bare name |
| ParseTests.ColorFinishCases | ldr_tools/src/ldraw/parse.rs:990-1017 | the empty text and `CHROME` without a space give no finish, consuming nothing; ` METAL` is `Metal`; ` CHROMEas` is `Chrome`, leaving `as` |
| ParseTests.ColorFinishOtherMaterial | ldr_tools/src/ldraw/parse.rs:1018-1026 | ` MATERIAL custom values` is the other material `custom values`, consuming the whole text |
| ParseTests.BfcCertifyCcw | ldr_tools/src/ldraw/parse.rs:1640-1672 | `BFC CERTIFY CCW` is a `Certify` statement with the counter-clockwise winding |
| ParseTests.BfcClip | ldr_tools/src/ldraw/parse.rs:1640-1672 | `BFC CLIP` is a `Clip` statement without winding |
| ParseTests.BfcWindingCw | ldr_tools/src/ldraw/parse.rs:1640-1672 | `BFC CW` sets the clockwise winding |
| Documents.ForwardSlashes | ldr_tools/src/ldraw.rs:286-292 | every backslash becomes a slash and nothing else changes |
| Documents.CollapseDoubleSlashes | ldr_tools/src/ldraw.rs:286-292 | `replace("//", "/")` never lengthens a name, keeps the first character, and is empty only for the empty name |
| Documents.NormalizeIsThreePasses | ldr_tools/src/ldraw.rs:286-292 | the character-wise normal form is lower-casing, then backslashes to slashes, then one pass collapsing double slashes |
| Documents.NormalFormCharacters | ldr_tools/src/ldraw.rs:286-292 | a normal name holds no backslash and no upper-case letter |
| Documents.CollapseKeepsCharacters | ldr_tools/src/ldraw.rs:286-292 | collapsing slashes only keeps characters that were in the name |
| Documents.CollapseWithoutDoubles | ldr_tools/src/ldraw.rs:286-292 | a name without a double slash is left unchanged by the collapse |
| Documents.CollapseRemovesDoubles | ldr_tools/src/ldraw.rs:286-292 | a name without a triple slash has no double slash after one pass |
| Documents.NormalizeIdempotent | ldr_tools/src/ldraw.rs:286-292 | normalising twice is normalising once, unless the name has three slashes in a row |
| Documents.NormalizeTripleSlash | ldr_tools/src/ldraw.rs:286-292 | one pass turns `a///b` into `a//b`, which a second pass would turn into `a/b`: normalisation is not idempotent on three slashes in a row |
| Documents.CanonicalName | ldr_tools/src/ldraw.rs:286-292 | a lower-case name with forward slashes only and no double slash is its own normal form |
| Documents.PathEqIgnoresSeparators | ldr_tools/src/ldraw.rs:273-275 | paths that differ only in slash direction are equal |
| Documents.PathEqIgnoresCase | ldr_tools/src/ldraw.rs:1038-1054 | `TEST.LDR` and `test.LDR` name the same file |
| Documents.NextBoundary | ldr_tools/src/ldraw.rs:354-380 | the first FILE or NOFILE command at or after `k`, or the end |
| Documents.BlockEnd | ldr_tools/src/ldraw.rs:354-380 | a block runs from its FILE command up to, not including, the next FILE or NOFILE, or to the end |
| Documents.FileStarts | ldr_tools/src/ldraw.rs:354-380 | the positions of the FILE commands, all of them, in increasing order |
| Documents.SplitMpdFile | ldr_tools/src/ldraw.rs:354-380 | one block per FILE command, in order, named by it and holding the commands from it to the block end |
| Documents.SplitFrom | ldr_tools/src/ldraw.rs:354-380 | one block for each FILE command at or after a position, named by it and holding the commands up to the block end |
| Documents.BlocksAreDelimited | ldr_tools/src/ldraw.rs:354-380 | each block starts with its own FILE command and holds no other FILE or NOFILE |
| Documents.NoFileNoBlocks | ldr_tools/src/ldraw.rs:608-708 | a document has no blocks exactly when it has no FILE command |
| Documents.Put | ldr_tools/src/ldraw.rs:318-337 | `HashMap::insert` under the normal name: that key now holds the file, every other key is kept, and the map stays keyed by normal names |
| Documents.PutBlocks | ldr_tools/src/ldraw.rs:318-337 | storing the blocks in order keeps every key, keeps the map keyed by normal names, and leaves the last block under its name |
| Documents.PutBlocksStoresAll | ldr_tools/src/ldraw.rs:318-337 | every block can be found under its normal name afterwards |
| Documents.PutBlocksElsewhere | ldr_tools/src/ldraw.rs:318-337 | a key no block is named by keeps its entry |
| Documents.SubFileRefs | ldr_tools/src/ldraw.rs:339-351 | a name is listed exactly when some type 1 command refers to it |
| Documents.Find | ldr_tools/src/ldraw.rs:310-313 | a name is found exactly when its normal form is a key, and then gives that entry |
| Documents.SourceMap.constructor | ldr_tools/src/ldraw.rs:303-307 | the source map starts empty |
| Documents.SourceMap.Get | ldr_tools/src/ldraw.rs:310-313 | `get` finds exactly the stored entries whose path normalises like the name asked for |
| Documents.SourceMap.Unloaded | ldr_tools/src/ldraw.rs:339-351 | the references that `get` cannot find yet |
| Documents.SourceMap.Insert | ldr_tools/src/ldraw.rs:318-337 | stores the whole file, then each MPD block under its own name; returns the name of the first block, or the file's own name when there are no blocks |
| Documents.SourceMap.QueueSubfiles | ldr_tools/src/ldraw.rs:339-351 | pushes, in command order, every reference not yet in the map |
| Documents.InsertFindsBlocks | ldr_tools/src/ldraw.rs:318-337 | after `insert` the file and every block can be found, old keys stay, and the file keeps its own key unless a block has the same name |
| Documents.EmptyFile | ldr_tools/src/ldraw.rs:90-108 | an unresolved file (no bytes) has no commands |
| Documents.ContentRefsReachable | ldr_tools/src/ldraw.rs:90-108 | every name a loaded file refers to comes from the resolver's contents |
| Documents.LoadFile | ldr_tools/src/ldraw.rs:90-108 | `load_file` parses the resolver's bytes (none when unresolved), queues the references not yet loaded, and inserts the file and its blocks |
| Documents.LoadRoot | ldr_tools/src/ldraw.rs:58-88 | the root is loaded first and starts the exploration with its queued references |
| Documents.PopStack | ldr_tools/src/ldraw.rs:73-84 | one turn of the loop: popping a name keeps the exploration invariant, and either a reachable name gains an entry or the map is unchanged and the stack shrinks |
| Documents.Drain | ldr_tools/src/ldraw.rs:58-88 | the loop pops names until the stack is empty, keeping the exploration invariant: every loaded file stored, parsed from the resolver, loaded once, and its references stored or still queued |
| Documents.ParseDocument | ldr_tools/src/ldraw.rs:58-88 | `parse`: every loaded file is stored and parsed from the resolver, no file is loaded twice, and every reference of every loaded file ends up in the map |
| EdgeSplit.NewEdge | ldr_tools/src/edge_split.rs:11-18 | an undirected edge is its two end points, the smaller first |
| EdgeSplit.NewEdgeUndirected | ldr_tools/src/edge_split.rs:11-18 | the edge from `a` to `b` is the edge from `b` to `a` |
| EdgeSplit.ContiguousRuns | ldr_tools/src/edge_split.rs:268-277 | the runs of faces stored back to back lie inside the index buffer and do not overlap |
| EdgeSplit.FaceIndices | ldr_tools/src/edge_split.rs:268-277 | `face_indices` is exactly the face's run of the index buffer |
| EdgeSplit.FirstPosition | ldr_tools/src/edge_split.rs:366-376 | `position`: the first index holding the vertex |
| EdgeSplit.IncidentEdgesAt | ldr_tools/src/edge_split.rs:366-376 | the edges from the vertex's first occurrence to its predecessor and to its successor around the face, wrapping around |
| EdgeSplit.Least | ldr_tools/src/edge_split.rs:317-364 | the first element a `BTreeSet` iteration yields is its minimum |
| EdgeSplit.FirstTwoOf | ldr_tools/src/edge_split.rs:161-198 | the first two elements in ascending order, when there are two |
| EdgeSplit.AdjacentFaces | ldr_tools/src/edge_split.rs:143-159 | for every vertex, exactly the set of faces whose run holds it |
| EdgeSplit.SharpEdgeAt | ldr_tools/src/edge_split.rs:95-121 | the edge between corner `j` and corner `j + 1` of a face is marked exactly when it is sharp there |
| EdgeSplit.AddFaceSharpEdges | ldr_tools/src/edge_split.rs:105-119 | for one face, adds exactly the sharp edges between consecutive corners, never the closing edge back to the first corner |
| EdgeSplit.AddSharpEdges | ldr_tools/src/edge_split.rs:95-121 | adds exactly the sharp edges of all faces to the marked edges |
| EdgeSplit.CopyVertexInFace | ldr_tools/src/edge_split.rs:317-364 | each slot of the face holding the vertex gets a fresh copy of it; the other slots are untouched, and old vertices stay a prefix |
| EdgeSplit.RecordIncidentEdges | ldr_tools/src/edge_split.rs:340-352 | the two incident edges of the vertex in the original face are added to the duplicated edges |
| EdgeSplit.VisitFace | ldr_tools/src/edge_split.rs:317-364 | visiting one face of a marked vertex keeps the split invariant, with that face now done |
| EdgeSplit.SplitVertex | ldr_tools/src/edge_split.rs:317-364 | after all faces of a marked vertex, every face but its first has its own copy |
| EdgeSplit.SplitFaceVerts | ldr_tools/src/edge_split.rs:317-364 | every slot still shows its original position; a slot moved exactly when its vertex is marked and the face is not the vertex's first face; moved slots point at distinct fresh copies; nothing marked changes nothing |
| EdgeSplit.FindOldVertexInFace | ldr_tools/src/edge_split.rs:290-315 | the new index in the slot where the vertex first occurs in the original face |
| EdgeSplit.FoundVertexPosition | ldr_tools/src/edge_split.rs:290-315 | that new vertex shows the original position of the vertex |
| EdgeSplit.RelabelRun | ldr_tools/src/edge_split.rs:200-266 | relabels one face's slots and leaves every other slot unchanged |
| EdgeSplit.RelabelFaces | ldr_tools/src/edge_split.rs:200-266 | every slot of the listed faces is relabelled, and every other slot is unchanged |
| EdgeSplit.MergeVertsInFaces | ldr_tools/src/edge_split.rs:200-266 | merges the adjacency of the two copies of each end point and relabels the slots of the merged faces; every slot still shows its original position |
| EdgeSplit.FirstEdge | ldr_tools/src/edge_split.rs:161-198 | the least edge of a set in `BTreeSet` order |
| EdgeSplit.MergeDuplicateEdges | ldr_tools/src/edge_split.rs:161-198 | the loop over the duplicated edges that were not marked, least first in `BTreeSet` order, ends in the slots and face sets that `MergeEdges` describes: an edge merges its two copies only when its end points shared two faces before splitting, and every slot still shows its original position |
| EdgeSplitFixtures.MergeEdgeSkips | ldr_tools/src/edge_split.rs:173-197 | a duplicated edge whose end points shared fewer than two faces before splitting changes nothing |
| EdgeSplitFixtures.MergeEdgeMerges | ldr_tools/src/edge_split.rs:173-197 | a duplicated edge whose end points shared the faces `f0 < f1` merges the copies of its end points in exactly those two faces |
| EdgeSplit.RankUsed | ldr_tools/src/edge_split.rs:124-131 | the used indices come out strictly ascending, and each maps to its own place among them |
| EdgeSplit.RemoveLooseVertices | ldr_tools/src/edge_split.rs:123-141 | every slot shows the same position as before, every kept vertex is used, the order of vertex indices is kept, and a mesh using all its vertices comes back unchanged |
| EdgeSplit.SplitAndMerge | ldr_tools/src/edge_split.rs:28-93 | splitting every vertex and then merging the duplicated edges gives exactly `SplitMerge` of the input; every slot keeps its position, and with nothing to split nothing changes |
| EdgeSplit.SplitEdges | ldr_tools/src/edge_split.rs:28-93 | returns exactly `SplitEdgesSpec` of the input: every slot shows the position it showed, no vertex is unused, and a mesh with no marked or sharp edge whose vertices are all used comes back unchanged |
| EdgeSplitFixtures.SplitQuadBoundary | ldr_tools/src/edge_split.rs:400-423 | splitting the boundary edge 2-3 of a single quad gives back the quad's four vertices and its indices unchanged |
| EdgeSplitFixtures.SplitCutQuads | ldr_tools/src/edge_split.rs:456-482 | splitting the shared diagonal 1-3 of two triangulated quads gives the vertices `[0, 1, 2, 3, 4, 5, 1, 3]` and the indices `[0, 1, 2, 2, 1, 3, 7, 6, 5, 7, 5, 4]` |
| TexInfo.NewTextureInfo | ldr_tools/src/pe_tex_info.rs:19-27 | no images, one sentinel index per existing face and one zero UV per existing slot |
| TexInfo.Floats | ldr_tools/src/pe_tex_info.rs:94-144 | every cell is converted exactly when every cell is a float |
| TexInfo.FloatsInOrder | ldr_tools/src/pe_tex_info.rs:94-144 | the converted cells are the floats of the cells, in order |
| TexInfo.NextArray | ldr_tools/src/pe_tex_info.rs:200-206 | takes exactly the next `n` items when there are that many, and otherwise gives `None` |
| TexInfo.ParseTexInfo | ldr_tools/src/pe_tex_info.rs:94-144 | `PE_TEX_INFO` with an image alone, or with sixteen floats (translation, 3x3 matrix, two 2D points) and an image; any other word count, a non-float or bad Base64 gives `None`. Storing the image, with the 255-texture limit of line 130, is stated by `Geometry.TextureRegisterSpec` |
| TexInfo.QuadIntersection | ldr_tools/src/pe_tex_info.rs:147-153 | a quad meets the projection box exactly when its triangle (a, b, c) or its triangle (c, d, a) does |
| TexInfo.ProjectTexture | ldr_tools/src/pe_tex_info.rs:40-70 | explicit UVs are used as given; without UVs and without a placement there is no mapping; a mapping has the texture's index and one UV per corner |
| TexInfo.MinMax | ldr_tools/src/pe_tex_info.rs:191-198 | bounds every value, starting from plus and minus the largest `f32`, each bound either attained or the starting value |
| Geometry.InvertWinding | ldr_tools/src/geometry.rs:587-594 | the winding is clockwise exactly when exactly one of "was clockwise" and "invert" holds |
| Geometry.ReplaceStuds | ldr_tools/src/geometry.rs:539-559 | `Disabled` drops stud files; `Normal` and `HighContrast` keep every name; `Logo4` swaps only the three plain stud files |
| Geometry.ReplaceStudsKeepsOtherFiles | ldr_tools/src/geometry.rs:539-559 | a file that is not a stud is never renamed |
| Geometry.ParseInts | ldr_tools/src/geometry.rs:326-333 | `Some` exactly when every word is an `i32`, and then those integers in order |
| Geometry.ParseTexPath | ldr_tools/src/geometry.rs:326-333 | `Some` only with the `PE_TEX_PATH ` prefix, and then exactly when every following word is an `i32`, giving them in order |
| Geometry.Reversed | ldr_tools/src/geometry.rs:648-651 | `reverse` puts element `n - 1 - k` at `k` |
| Geometry.Oriented | ldr_tools/src/geometry.rs:648-651 | an oriented face has as many corners as the face; which corner each slot holds is `OrientedCorners` |
| Geometry.OrientedCorners | ldr_tools/src/geometry.rs:648-651 | slot `k` of an oriented face holds a distinct corner of the original; a counter-clockwise face is unchanged |
| Geometry.FaceUvs | ldr_tools/src/geometry.rs:638-653 | the UVs reoriented with the corners: present exactly when given, one per corner |
| Geometry.UvsFollowCorners | ldr_tools/src/geometry.rs:638-653 | with the UVs reoriented, each slot gets the UV given with the corner it holds |
| Geometry.UvsDetachedAsWritten | ldr_tools/src/geometry.rs:648-653 | as written, a clockwise triangle with distinct UVs gets its first corner's UV in the slot holding its third corner |
| Geometry.EmptyBuffers | ldr_tools/src/geometry.rs:201-211 | the empty geometry satisfies the buffers' invariant and has no texture buffers |
| Geometry.ContiguousPush | ldr_tools/src/geometry.rs:655-660 | pushing a run that starts at the end of the index buffer keeps the runs back to back |
| Geometry.FirstClose | ldr_tools/src/geometry.rs:169-177 | the first stored entry within the welding distance, or the end when there is none |
| Geometry.Lookup | ldr_tools/src/geometry.rs:169-177 | `get` finds nothing exactly when no entry is within the welding distance, and otherwise gives the index of such an entry |
| Geometry.NearestAt | ldr_tools/src/geometry.rs:164-167 | the position of a nearest entry in a non-empty map |
| Geometry.NearestAtSpec | ldr_tools/src/geometry.rs:164-167 | that entry is no farther than any other, and strictly nearer than every entry before it |
| Geometry.NearestSpec | ldr_tools/src/geometry.rs:164-167 | `get_nearest` finds something exactly when the map is not empty, and then the index of a nearest entry |
| Geometry.VertexInsertSpec | ldr_tools/src/geometry.rs:731-750 | the index names a vertex within the welding distance of the moved point; without welding it is always a new vertex; with welding the buffer grows exactly when no stored point is close; the map still agrees with the vertices |
| Geometry.VerticesInsertSpec | ldr_tools/src/geometry.rs:652-653 | one index per corner, each naming a vertex close to that corner, and exactly the next free indices without welding |
| Geometry.EnsureInfo | ldr_tools/src/geometry.rs:32-36 | `texture_info` keeps the existing buffers, or creates them padded for the faces and slots already there |
| Geometry.TexturePush | ldr_tools/src/geometry.rs:661-675 | the texture half of `add_face` changes nothing but the texture buffers |
| Geometry.FaceTexture | ldr_tools/src/geometry.rs:651 | a face's mapping comes only from an active texture; with UVs it is the texture's index and the UVs reoriented with the corners, the corrected order of the Findings row |
| Geometry.Moved | ldr_tools/src/geometry.rs:731-750 | each corner moved by the transform |
| Geometry.RunNearKept | ldr_tools/src/geometry.rs:638-676 | a face's run keeps naming its corners while the buffers are only appended to |
| Geometry.FaceAddGeometry | ldr_tools/src/geometry.rs:638-676 | `add_face` appends one run of the face's size at the end of the index buffer; each slot names a vertex close to the moved corner in slot order; the buffers' invariant is kept and nothing else changes |
| Geometry.FaceAddTextures | ldr_tools/src/geometry.rs:638-676 | the texture buffers are created only for a face with a mapping; existing ones only grow; a face with no texture gets the sentinel and zero UVs; a textured face with UVs gets the index and the UVs of its corners, in the corrected order of the Findings row |
| Geometry.ColoredFaceAddSpec | ldr_tools/src/geometry.rs:561-585 | `add_triangle_face` adds the face, then its colour and stud flag, keeping the full invariant with one colour per face |
| Geometry.TextureRegisterSpec | ldr_tools/src/pe_tex_info.rs:94-144 | a line that does not parse leaves the mesh alone; a parsed image is stored as the next texture (at most 255) and the pending texture names it with its placement and path |
| Geometry.EdgeIndicesSpec | ldr_tools/src/geometry.rs:310-324 | with an empty map there are no edge indices; otherwise one pair per type 2 line, the nearest vertices of its two ends |
| Geometry.NearestBelow | ldr_tools/src/geometry.rs:310-324 | the nearest entry always names an existing vertex |
| Geometry.EdgeIndicesBelow | ldr_tools/src/geometry.rs:310-324 | every edge index names an existing vertex, as `split_edges` needs |
| Geometry.CollapsedSpec | ldr_tools/src/geometry.rs:251-257 | the colours collapse to one entry exactly when there are faces and all share the first colour; otherwise they are kept; expanding the collapsed list gives back the original |
| Geometry.Scaled | ldr_tools/src/geometry.rs:282-287 | every vertex is multiplied by the scale, component by component |
| GeometryWalk.WordsArm | ldr_tools/src/geometry.rs:398-407 | after a comment the inversion is untouched, and INVERTNEXT is armed exactly when it was already armed or the comment holds the word |
| GeometryWalk.WordsWinding | ldr_tools/src/geometry.rs:398-407 | after a comment the winding is the one named by its last CW or CCW word, and unchanged without one |
| GeometryWalk.StartFlags | ldr_tools/src/geometry.rs:350-358 | a file starts counter-clockwise with nothing armed, inverted exactly when the inherited inversion and a mirroring transform disagree |
| GeometryWalk.WithoutPath | ldr_tools/src/geometry.rs:363-368 | exactly the textures without a path |
| GeometryWalk.WithPath | ldr_tools/src/geometry.rs:363-368 | exactly the textures with a path |
| GeometryWalk.PartitionSizes | ldr_tools/src/geometry.rs:363-368 | the partition loses no texture |
| GeometryWalk.Routed | ldr_tools/src/geometry.rs:496-503 | a child receives exactly the pending textures whose path starts with its reference's ordinal, that step removed |
| GeometryWalk.Route | ldr_tools/src/geometry.rs:383-395 | a texture with an empty path or the path `[-1]` becomes active with its path cleared; any other is kept pending |
| GeometryWalk.Resolve | ldr_tools/src/geometry.rs:475-481 | a reference resolves only when references are followed, and then to the entry of its normal name after stud substitution |
| GeometryWalk.ChildFrame | ldr_tools/src/geometry.rs:483-512 | the child is a stud if its parent is or its name is; it is inverted exactly when INVERTNEXT disagrees with the parent; its transform is the parent's times the reference's; its colour is 0 for high-contrast stud walls and the replaced colour otherwise |
| GeometryWalk.ChildContext | ldr_tools/src/geometry.rs:483-521 | the child is a slope if its parent is or its name is one; it receives the active textures followed by the routed ones |
| GeometryWalk.PickUvs | ldr_tools/src/geometry.rs:425-450 | three of a quad's UVs, present exactly when the quad has UVs |
| GeometryWalk.CommandFaces | ldr_tools/src/geometry.rs:411-468 | a command has faces exactly when it is a triangle or a quad; a quad gives one face, or two triangles when triangulating |
| GeometryWalk.FacesAddOne | ldr_tools/src/geometry.rs:411-468 | adding one face is `add_triangle_face` under the frame and flags |
| GeometryWalk.FacesOf | ldr_tools/src/geometry.rs:411-468 | the faces, one for each face of the command, in order |
| GeometryWalk.ShowsKept | ldr_tools/src/geometry.rs:638-676 | a stored face stays as it was while the buffers are only appended to |
| GeometryWalk.ShowsAllJoin | ldr_tools/src/geometry.rs:375-537 | the faces added in two stretches are the first stretch's faces followed by the second's |
| GeometryWalk.FaceShown | ldr_tools/src/geometry.rs:561-585 | one added face keeps the buffers sound and shows the command's face |
| GeometryWalk.FacesShown | ldr_tools/src/geometry.rs:411-468 | the faces of a command added in turn keep the buffers sound and show exactly those faces, in order |
| GeometryWalk.CommentKeeps | ldr_tools/src/geometry.rs:377-409 | a comment keeps the buffers sound, adds no face, and leaves only stored images in the locals |
| GeometryWalk.ChildRegistered | ldr_tools/src/geometry.rs:496-503 | the textures handed to a child are stored images |
| GeometryWalk.StartHolds | ldr_tools/src/geometry.rs:363-368 | the textures a file starts with are stored images |
| GeometryWalk.StepShows | ldr_tools/src/geometry.rs:375-537 | a step keeps the buffers sound, only appends, and adds exactly the faces of the command |
| GeometryWalk.FaceStepShows | ldr_tools/src/geometry.rs:411-468 | a triangle or quad adds its faces under the active texture and leaves the locals alone |
| GeometryWalk.RefStepShows | ldr_tools/src/geometry.rs:473-534 | a reference that resolves below the depth bound adds the faces of the referenced file |
| GeometryWalk.RefStepIs | ldr_tools/src/geometry.rs:473-534 | a resolved reference walks the referenced file with the child context, disarms INVERTNEXT and advances the ordinal |
| GeometryWalk.AppendKeeps | ldr_tools/src/geometry.rs:526-531 | the locals' textures stay stored images across a walk into a referenced file |
| GeometryWalk.WalkShows | ldr_tools/src/geometry.rs:375-537 | the walk over the commands keeps the buffers sound and adds exactly their faces, in order |
| GeometryWalk.AppendShowsFaces | ldr_tools/src/geometry.rs:336-537 | `append_geometry` keeps the buffers sound, only appends, and adds exactly the faces of the file, depth first and in command order |
| GeometryMesh.VertexMap.constructor | ldr_tools/src/geometry.rs:151-162 | the vertex map starts empty |
| GeometryMesh.VertexMap.Get | ldr_tools/src/geometry.rs:169-177 | `get` is `Lookup` on the stored entries |
| GeometryMesh.VertexMap.GetNearest | ldr_tools/src/geometry.rs:164-167 | `get_nearest` is `Nearest` on the stored entries |
| GeometryMesh.VertexMap.Insert | ldr_tools/src/geometry.rs:179-188 | returns the index already stored near the point, or records the point with its index and returns `None` |
| GeometryMesh.Mesh.constructor | ldr_tools/src/geometry.rs:201-211 | all buffers empty, grainy as given, no texture buffers |
| GeometryMesh.Mesh.EnsureTextureInfo | ldr_tools/src/geometry.rs:32-36 | the buffers gain the texture buffers `EnsureInfo` describes and nothing else changes |
| GeometryMesh.Mesh.InsertVertex | ldr_tools/src/geometry.rs:731-750 | leaves the state and index `VertexInsert` describes |
| GeometryMesh.Mesh.AddFace | ldr_tools/src/geometry.rs:638-676 | leaves the state `FaceAdd` describes, with the UVs in the corrected order of the Findings row |
| GeometryMesh.Mesh.InsertVertices | ldr_tools/src/geometry.rs:652-653 | inserts the corners in order, as `VerticesInsert` describes |
| GeometryMesh.Mesh.PushTexture | ldr_tools/src/geometry.rs:661-675 | leaves the state `TexturePush` describes |
| GeometryMesh.Mesh.AddColoredFace | ldr_tools/src/geometry.rs:561-585 | leaves the state `ColoredFaceAdd` describes |
| GeometryMesh.Mesh.RegisterTexture | ldr_tools/src/pe_tex_info.rs:94-144 | leaves the state and pending texture `TextureRegister` describes |
| GeometryMesh.ScanWords | ldr_tools/src/geometry.rs:398-407 | the loop over a comment's words gives `WordsFlags` |
| GeometryMesh.ChildTextures | ldr_tools/src/geometry.rs:494-503 | the active textures followed by the routed pending ones |
| GeometryMesh.StepCommand | ldr_tools/src/geometry.rs:375-536 | one pass of the loop leaves the state `Step` describes |
| GeometryMesh.CommentCommand | ldr_tools/src/geometry.rs:377-409 | a comment arm leaves the state `TextureComment` describes |
| GeometryMesh.RefCommand | ldr_tools/src/geometry.rs:473-534 | a reference arm leaves the state `Step` describes |
| GeometryMesh.QuadFaces | ldr_tools/src/geometry.rs:425-468 | the quad arm adds the faces `CommandFaces` lists |
| GeometryMesh.AppendGeometry | ldr_tools/src/geometry.rs:336-537 | leaves the buffers and collected lines `Append` describes |
| GeometryMesh.EdgeIndices | ldr_tools/src/geometry.rs:310-324 | the loop gives `EdgeIndicesOf` over the vertex map |
| GeometryMesh.CollapseColors | ldr_tools/src/geometry.rs:251-257 | the colours become `Collapsed` of the old colours |
| GeometryMesh.ScaleVertices | ldr_tools/src/geometry.rs:282-287 | the vertices become `Scaled` of the old vertices |
| GeometryMesh.SplitAlong | ldr_tools/src/geometry.rs:234-247 | every slot still names the position it named; nothing changes without edge lines |
| GeometryMesh.Finish | ldr_tools/src/geometry.rs:232-289 | runs, stud flags and texture buffers are kept; colours are collapsed; edge lines become indices; each slot names its old position scaled; the scale is the scene scale unless gaps are added |
| GeometryMesh.CreateGeometry | ldr_tools/src/geometry.rs:192-290 | the walk leaves sound buffers, grainy for a slope piece, and the finished mesh keeps them as `Finish` states |
| GeometryFixtures.FacesOnly | ldr_tools/src/geometry.rs:411-468 | a list of triangles and quads gives one face per command, with the replaced colour and the command's corner count |
| GeometryFixtures.RefFaces | ldr_tools/src/geometry.rs:473-534 | a reference to a block of faces gives one face per command, coloured through both the reference and the frame |
| GeometryFixtures.ThreeSteps | ldr_tools/src/geometry.rs:375-537 | the walk is the faces of the first three commands followed by the rest |
| GeometryFixtures.FourRuns | ldr_tools/src/geometry.rs:797-850 | colours and sizes of a concatenation are concatenated |
| GeometryFixtures.RefPair | ldr_tools/src/geometry.rs:473-534 | a reference to a two-face block gives the pair that the block's colours and sizes make |
| GeometryFixtures.MpdOwn | ldr_tools/src/geometry.rs:797-850 | the main block's own triangle and quad give colours 7 and 8, sizes 3 and 4 |
| GeometryFixtures.MpdJoin | ldr_tools/src/geometry.rs:797-850 | the four runs make colours [7, 2, 3, 1, 4, 5, 7, 8] and sizes [3, 4, 3, 3, 3, 4, 3, 4] |
| GeometryFixtures.WalkSuffix | ldr_tools/src/geometry.rs:375-537 | the walk from index `i` is the walk of the list from `i` on |
| GeometryFixtures.MpdFaces | ldr_tools/src/geometry.rs:797-850 | the test's main block, whose references resolve to blocks a, b and c, gives face colours [7, 2, 3, 1, 4, 5, 7, 8] and face sizes [3, 4, 3, 3, 3, 4, 3, 4] |
| GeometryFixtures.NormalizePlain | ldr_tools/src/ldraw.rs:286-292 | a name of lower-case letters and dots is its own normal form |
| GeometryFixtures.Stored | ldr_tools/src/geometry.rs:475-478 | a name stored under itself resolves to its block |
| GeometryFixtures.MpdPlain | ldr_tools/src/geometry.rs:797-850 | the test's document is well formed, and its settings keep faces and studs as they are |
| GeometryFixtures.MpdStored | ldr_tools/src/geometry.rs:797-850 | the test's document stores blocks a, b and c under their own names |
| GeometryFixtures.MpdStarts | ldr_tools/src/geometry.rs:842-847 | runs of the test's face sizes laid out contiguously start at [0, 3, 7, 10, 13, 16, 20, 23] and fill 3 + 4 + 3 + 3 + 3 + 4 + 3 + 4 index slots |
| GeometryFixtures.MpdDocument | ldr_tools/src/geometry.rs:797-850 | the test's document and settings meet the hypothesis of `MpdFaces` |
| Slope.SlopeAnglesAre45Except2876 | ldr_tools/src/slope.rs:4-94 | every listed slope has 45 degrees except 2876.dat, which has 40 |
| Slope.ListedNamesFound | ldr_tools/src/slope.rs:96-99 | listed names such as 3039.dat, 2876.dat and 4195004.dat are slope pieces |
| Slope.UpperCaseNotFound | ldr_tools/src/slope.rs:96-99 | the lookup is case-sensitive: `3039.dat` is a slope piece and `3039.DAT` is not |
| Slope.IsGrainySlope | ldr_tools/src/slope.rs:101-115 | only a non-stud face of a slope piece can be grainy, and then exactly when its angle is in range |
| Colors.MetallicFinishes | ldr_tools/src/color.rs:38-49 | a colour is metallic exactly for the Chrome, MatteMetallic and Metal finishes |
| Colors.OpaqueColours | ldr_tools/src/color.rs:51-58 | a colour is transmissive exactly when it has an alpha other than 255 |
| Colors.Entry | ldr_tools/src/color.rs:10-36 | a table entry keeps the name and sRGB value and flags metallic and transmissive as the predicates say |
| Colors.ColorTable | ldr_tools/src/color.rs:10-36 | a code is in the table exactly when some `!COLOUR` command defines it |
| Colors.LastDefinitionWins | ldr_tools/src/color.rs:10-36 | a code's entry comes from its last definition |
| Colors.OtherCommandsIgnored | ldr_tools/src/color.rs:10-36 | commands other than `!COLOUR` do not change the table |
| Scene.IsPart | ldr_tools/src/lib.rs:606-609 | a file is a part exactly when its name ends in `.dat`, ignoring case |
| Scene.HasFace | ldr_tools/src/lib.rs:611-618 | true exactly when some command is a triangle or a quad |
| Scene.HasGeometry | ldr_tools/src/lib.rs:611-618 | a file has geometry exactly when it has a triangle or a quad |
| Scene.ScaledTransform | ldr_tools/src/lib.rs:430-436 | only the translation is scaled; the rows are kept |
| Scene.ScaledOrigin | ldr_tools/src/lib.rs:430-436 | the origin is carried to the scaled image of where the transform carries it |
| Scene.ScaledTwice | ldr_tools/src/lib.rs:430-436 | scaling twice is scaling by the product, so the scale does not accumulate differently along a path; a unit scale changes nothing |
| Scene.Register | ldr_tools/src/lib.rs:339-347 | `entry().or_insert_with`: the name gains an entry, every existing entry is kept, and a new name gets the given descriptor |
| Scene.DescriptorMap.constructor | ldr_tools/src/lib.rs:261 | the descriptors start empty |
| Scene.DescriptorMap.Insert | ldr_tools/src/lib.rs:339-347 | the entries become `Register` of the old entries |
| Scene.NodeOf | ldr_tools/src/lib.rs:326-397 | loading a node only adds descriptors, never replaces one, and registers only parts |
| Scene.ChildrenOf | ldr_tools/src/lib.rs:363-383 | the loop over references only adds descriptors and registers only parts |
| Scene.ResolvedRefs | ldr_tools/src/lib.rs:363-383 | the type 1 commands whose file is in the map, in order |
| Scene.NodeShape | ldr_tools/src/lib.rs:326-397 | a part or a file with faces is a leaf named by its lower-case name and registered as a part; otherwise no geometry; the transform is scaled |
| Scene.ChildrenFollowRefs | ldr_tools/src/lib.rs:363-383 | one child per resolved reference, in order, named by the reference, coloured by `replace_color`, placed by the reference's own transform |
| Scene.NoFuelNoChildren | ldr_tools/src/lib.rs:363-383 | with the depth spent, no child is loaded |
| Scene.LoadNode | ldr_tools/src/lib.rs:326-397 | the node and the descriptors are those `NodeOf` describes |
| Scene.AddInstance | ldr_tools/src/lib.rs:565-569 | `entry(key).or_default().push(m)`: the key's list gains `m` at its end and every other list is kept |
| Scene.InstancedOf | ldr_tools/src/lib.rs:531-604 | only adds descriptors, and instance lists only grow |
| Scene.InstancedChildren | ldr_tools/src/lib.rs:580-603 | the same for the loop over references |
| Scene.PartInstance | ldr_tools/src/lib.rs:542-559 | a part adds exactly one transform under its lower-case name and colour, registers a part descriptor, and loads nothing below it |
| Scene.GeometryFileInstance | ldr_tools/src/lib.rs:560-576 | a non-part file with faces adds its transform first and registers a descriptor with its current colour that does not follow references |
| Scene.AssemblyAddsNothingItself | ldr_tools/src/lib.rs:531-604 | a file that is neither a part nor has faces adds nothing itself |
| Scene.NoFuelNoInstances | ldr_tools/src/lib.rs:580-603 | with the depth spent, no sub-file is loaded |
| Scene.InstanceMap.constructor | ldr_tools/src/lib.rs:497-528 | the instance lists start empty |
| Scene.InstanceMap.Push | ldr_tools/src/lib.rs:565-569 | the lists become `AddInstance` of the old lists |
| Scene.LoadNodeInstanced | ldr_tools/src/lib.rs:531-604 | the descriptors and instance lists are those `InstancedOf` describes |
| Scene.Join | ldr_tools/src/lib.rs:52-80 | a relative name under a folder is the folder, a slash and the name |
| Scene.LastSlash | ldr_tools/src/lib.rs:290-293 | the position of the last slash, if any |
| Scene.Parent | ldr_tools/src/lib.rs:290-293 | a path has a parent exactly when it is neither empty nor the root, and the parent is a prefix of it |
| Scene.NewFromLibrary | ldr_tools/src/lib.rs:52-80 | the primitive folder for the resolution (8 for low, 48 for high, none for normal), then the six library folders, then the additional folders in order |
| Scene.SearchPaths | ldr_tools/src/lib.rs:281-296 | the model's own folder is searched before all library folders |
| Scene.FirstHit | ldr_tools/src/lib.rs:84-101 | the first folder that holds the file, and none exactly when no folder does |
| Scene.DiskResolve | ldr_tools/src/lib.rs:84-101 | a file no folder holds resolves to no bytes |
| Scene.ModelFolderWins | ldr_tools/src/lib.rs:281-296 | a file next to the model is read from there, whatever the library holds |
| Scene.LibraryBeforeAdditional | ldr_tools/src/lib.rs:52-101 | a file in a library folder and not among the primitives is read from the first library folder holding it, before any additional folder |

## Left out

- Floating point: every `f32` is an exact `real`, so rounding, NaN and infinities are not modelled. `str::parse::<f32>` is modelled as decimal literals with an optional sign, fraction and exponent; `inf`, `nan` and hexadecimal floats are left out.
- UTF-8: bytes are read one for one as characters, so invalid UTF-8 and the lossy decoding of file names are not modelled. `to_lowercase` is ASCII lower-casing.
- The Base64 decoder of the `base64` crate is modelled as canonical decoding of the standard alphabet with padding.
- Recursion depth: `append_geometry`, `load_node` and `load_node_instanced` recurse without bound in the source. The model's `depth` argument stops them, so a self-referencing document, which overflows the source's stack, is not modelled.
- The R-tree of `VertexMap` is a list of entries searched linearly. When several entries are equally near or equally close, the model takes the earliest one; the R-tree's own tie-break is not modelled.
- `init_texture_transform`, `intersect_tri_box`, `gaps_scale` and the normal-angle test of `split_edges` are parameters of the model (`placement`, `triBox`, `gaps`, `sharp`). They are matrix decompositions and floating-point geometry.
- The `weldr` crate that geometry.rs matches on is not part of this model. The model feeds the walk with this crate's own `Command` type. As a result, only CW, CCW and INVERTNEXT words inside a comment change the winding. A `0 BFC ...` line parses to a `Bfc` command, which the walk ignores, as geometry.rs's catch-all arm does. The winding and invert-next tests of geometry.rs (lines 853-960) are therefore not restated.
- `load_node` has a second `has_geometry` branch (lib.rs:350-361) that is never reached, because the first condition already covers it. The model has only the reachable branches.
- Geometry.FaceTexture: follows the corrected UV order of the Findings row, reversing a clockwise face's UVs with its corners. geometry.rs:648-653 passes them unreversed; `Geometry.UvsDetachedAsWritten` models that as-written behaviour.
- Geometry.FaceAddTextures: stores the UVs in that corrected order, not in the as-written order of geometry.rs:648-653.
- GeometryMesh.Mesh.AddFace: stores the UVs in that corrected order too. So do `AddColoredFace`, `StepCommand`, `AppendGeometry`, `CreateGeometry` and the `GeometryWalk` lemmas, which are built on it.
- `add_face` initialises the texture buffers lazily when a face has a mapping. The model's `EnsureInfo` and `FaceAddTextures` state that behaviour directly.
- `create_geometry_cache` (a parallel map over the descriptors), `load_file`, `load_file_instanced`, `load_file_instanced_points`, `geometry_point_instances`, `ensure_studs`, the `.io` zip resolver and the Python bindings are not modelled. They are I/O, threading and glue around the modelled functions.
- Disk access is a map from path to bytes. `Path::join` and `Path::parent` are simplified to slash-separated strings.
- Of the literal fixtures of edge_split.rs, `split_edges_quad` (lines 400-423) and the two triangulated quads (lines 456-482) are restated with no sharp edge, since their normals are all equal. The others (two quads at lines 425-454, `split_edges_split_two_quads`, the 1-8cyli part and the normals fixtures, lines 484-581) are not restated: each is a further long hand computation of the same split, and the normals fixtures need `f32` arithmetic.
- `srgb_to_linear` is left out because it is floating-point arithmetic. `load_color_table` is modelled over a list of commands rather than the embedded LDConfig file.
- GeometryFixtures.MpdFaces: the six welded vertices that create_geometry_mpd expects are not restated, because welding compares transformed corner positions. Its face starts and index count are `MpdStarts`.
- EdgeSplit.SplitFaceVerts: the set of duplicated edges is stated only as naming existing vertices.
- Parse.ParseCommands: stated as well-formedness of every command; its line-by-line meaning is `ParseCommandsSplit`.
- Parse.FileRefCmd: states the colour and where the line ends, not the transform or the file name.
- Parse.PeTexInfo: states only that a parsed line is a `PeTexInfo` command.
- Parse.MetaHeader: states only that a parsed line is a meta command.
- Parse.MetaBody: states only that a parsed line is a meta command.
- Parse.ReadFloat: states only the positions consumed.
- Parse.V2: states only the positions consumed.
- Parse.V3: states only the positions consumed.
- Parse.V3s: states only the positions consumed and the count.
- Parse.V2s: states only the positions consumed and the count.
- Parse.ReadTransform: states only the positions consumed.
- Parse.TaggedFloat: states only the positions consumed.
- Parse.SingleGrainSize: states only the positions consumed.
- Parse.MinMaxGrainSize: states only the positions consumed.
- Parse.MaterialGrainSize: states only the positions consumed.
- Parse.MaterialHead: states the missing-keyword error and the positions consumed, not the values read.
- Parse.GlitterMaterial: states the missing-keyword error and the positions consumed, not the glitter fields read.
- Parse.SpeckleMaterial: states the missing-keyword error and the positions consumed, not the speckle fields read.
- Parse.MaterialFinish: for `GLITTER` and `SPECKLE` materials it states only the positions consumed.
- Parse.PathTail: states the positions consumed and that each index is a non-negative `i32`, not which indices are read.
- Parse.TexPlacement: states only the positions consumed.

## Findings

| source | as written | input that shows it | evidently intended | confidence | as-written member | corrected member |
|---|---|---|---|---|---|---|
| ldr_tools/src/geometry.rs:648-651 | `add_face` reverses the corners of a clockwise face but passes the UVs to `project_texture` unreversed, so each slot's UV belongs to another corner | a clockwise triangle with corners (1,0,0), (0,1,0), (0,0,1) and UVs (0,0), (1,0), (0,1) under an active texture: the slot holding the third corner gets the UV (0,0) of the first | the UVs reversed with the corners, so that each UV stays with its corner | not executed | Geometry.UvsDetachedAsWritten | Geometry.UvsFollowCorners |
