# LinearAlifold energy parameters, modelled in Dafny

This project models the thermodynamic parameter subsystem of LinearAlifold
(`LinearAlifold_MFE/src/Utils`), and proves properties of the model:

- **Scoring** (`scoring.dfy`, module `Scoring`) covers the loop-energy functions of `energy_model.h`:
  `score_hairpin`, `score_single_alifold`, `E_MLstem`, `score_multi`,
  `score_M1`, `score_external_paired` and the two unpaired scores. They are
  functions over an immutable parameter table. The pair and nucleotide
  encodings `NUM_TO_PAIR`, `NUM_TO_NUC` and `NUC_TO_PAIR` are in
  `alphabet.dfy` (module `Alphabet`).
- **Tables** (`params.dfy`, `arrays.dfy`) hold the eighteen parameter tables and six
  scalars. Each table has its shape: the 1-D length tables, and the 2-D to 6-D
  pair/nucleotide tables. Each table is stored row-major in one flat buffer.
  `NdArrays.Create` models `create2DArray` .. `create6DArray`. It fills the buffer with
  `VIE_INF` slice by slice, as the rank-N helper fills rank N-1 slices.
- **Key decoding** (`keys.dfy`, module `KeyDecoder`) models `decodeEnergyString`,
  `updateNucsIdx` and the if-chain of `parseEnergyData`. Each key of the
  parameter file goes to the cell it sets, or to one of three error outcomes:
  - `Unknown`: no rule's prefix occurs in the key;
  - `Rejected`: the key would make the source index outside a buffer;
  - `Throws`: `std::stoi` throws.

  Reading `"<key> <int>"` from a line, and splitting the file into lines,
  are in `text.dfy` (module `Text`).
- **Loading** (`loader.dfy`, module `Loader`) models the loading itself. The class
  `EnergyModel` holds the six scalars and one array per table, and its methods
  change them in place. The effect of a line and of a whole file is also given
  as functions on table values, and `EnergyModel.Load` is proved to follow them.
- **Dump** (`dump.dfy`, module `Dump`) models the program of `energy_model_extract.cpp`.
  It prints the compiled-in tables as `"<key> <value>"` lines: the six scalars,
  then one nested loop per table, skipping `VIE_INF` cells except in the
  hairpin-length and hairpin-mismatch sections.
- **Round trip** (`routes.dfy`, `roundtrip.dfy`, `reload.dfy`) proves what the loader makes
  of the dump:
  - every printed key decodes to the cell it was printed from, except that
    pair "NP" (index 0) decodes to "NN" (index 7);
  - loading the whole dump onto any table leaves each scalar and each printed
    cell with the dumped value and leaves every other cell alone.

The nucleotide alphabets differ between the two halves of the source, and the
model keeps that difference:
- the loader indexes nucleotide dimensions by position in "ACGUN";
- the scorers index them through `NUM_TO_NUC`, that is by position in "NACGU".

## Model

| member | source | states |
|---|---|---|
| Alphabet.NumToPair | LinearAlifold_MFE/src/Utils/energy_model.h:13 | `NUM_TO_PAIR` always yields a pair code between 1 and 7 |
| Alphabet.NumToPairCanonical | LinearAlifold_MFE/src/Utils/energy_model.h:13 | the code is below 7 exactly for the six ordered canonical pairs (1,2), (2,1), (2,3), (3,2), (0,3), (3,0), which get 1..6 in that order |
| Alphabet.NumToPairDirectional | LinearAlifold_MFE/src/Utils/energy_model.h:13 | pair codes are ordered: reversing a canonical pair changes its code |
| Alphabet.NumToNucRelabels | LinearAlifold_MFE/src/Utils/energy_model.h:12 | `NUM_TO_NUC` sends the loader code of each letter of "ACGUN" to the position of the same letter in "NACGU" |
| Alphabet.NumToNuc | LinearAlifold_MFE/src/Utils/energy_model.h:12 | `NUM_TO_NUC`: a loader nucleotide code becomes a scorer code in 0..4, a code is negative exactly when it was negative, -1 stays -1, A, C, G and U move up by one, and N (4) and 5 become 0 |
| Alphabet.NucToPair | LinearAlifold_MFE/src/Utils/energy_model.h:14 | `NUC_TO_PAIR` over scorer codes always yields 0..6, with 0 for no pair (its agreement with `NUM_TO_PAIR` is `Alphabet.NucToPairAgrees`) |
| Alphabet.NucToPairAgrees | LinearAlifold_MFE/src/Utils/energy_model.h:12-14 | `NUC_TO_PAIR` applied after `NUM_TO_NUC` agrees with `NUM_TO_PAIR`, with "no pair" written 0 instead of 7 |
| Alphabet.IndexOf | LinearAlifold_MFE/src/Utils/energy_model.cpp:77 | `find` of a character: -1 iff the character is absent, else the position of its first occurrence |
| Alphabet.NucIndexOfLetter | LinearAlifold_MFE/src/Utils/energy_model.cpp:74-78 | the loader code of each letter of "ACGUN" is its position |
| Alphabet.PairNameCode | LinearAlifold_MFE/src/Utils/energy_model_extract.cpp:10 | decoding the two letters of a printed pair name gives its index back, except that "NP" gives 7 |
| NdArrays.Offset | LinearAlifold_MFE/src/Utils/array_utils.cpp:4-53 | the row-major position of an in-range index lies inside the buffer |
| NdArrays.ProductUnrolled | LinearAlifold_MFE/src/Utils/array_utils.cpp:4-53 | a 1-D to 6-D table has exactly d1·…·dN cells |
| NdArrays.OffsetLexOrder | LinearAlifold_MFE/src/Utils/array_utils.cpp:4-53 | the buffer position order is the lexicographic order of indices, in both directions |
| NdArrays.OffsetInjective | LinearAlifold_MFE/src/Utils/array_utils.cpp:4-23 | distinct indices occupy distinct cells, so writing one cell changes no other |
| NdArrays.SliceBlock | LinearAlifold_MFE/src/Utils/array_utils.cpp:15-53 | slice i of a rank-N table is a contiguous rank-(N-1) table of shape d2..dN |
| NdArrays.FillRow | LinearAlifold_MFE/src/Utils/array_utils.cpp:10 | `std::fill_n` sets exactly the cells of one row to `VIE_INF` and keeps the rest |
| NdArrays.FillSlices | LinearAlifold_MFE/src/Utils/array_utils.cpp:4-53 | the recursive fill sets exactly the cells of its block to `VIE_INF` and keeps the rest |
| NdArrays.Create | LinearAlifold_MFE/src/Utils/array_utils.cpp:4-53 | a fresh table of d1·…·dN cells, all `VIE_INF` |
| ParamTable.Shape | LinearAlifold_MFE/src/Utils/energy_model.cpp:86-107 | every table has one to six dimensions |
| ParamTable.ShapeLayout | LinearAlifold_MFE/src/Utils/energy_model.cpp:86-107 | pair dimensions (size 8) come first, then nucleotide dimensions (size 5); a table has no pair dimension iff it is a 1-D length table |
| ParamTable.SizeIsProduct | LinearAlifold_MFE/src/Utils/energy_model.cpp:86-107 | the allocated size of a table is the product of its shape, and only the length tables are 1-D |
| ParamTable.AllTablesListed | LinearAlifold_MFE/src/Utils/energy_model.cpp:86-107 | every table is allocated, once |
| ParamTable.PutGet | LinearAlifold_MFE/src/Utils/energy_model.cpp:128-223 | storing a value changes exactly the addressed scalar or cell |
| Text.Occurs | LinearAlifold_MFE/src/Utils/energy_model.cpp:65 | `find(prefix) != npos`, characterised by `Text.OccursIffWindow` |
| Text.OccursIffWindow | LinearAlifold_MFE/src/Utils/energy_model.cpp:65 | `find != npos` holds iff the prefix appears at some position of the key, not only at its start |
| Text.OccursCount | LinearAlifold_MFE/src/Utils/energy_model.cpp:65 | a pattern that occurs in a key uses no letter more often than the key does |
| Text.RemoveAll | LinearAlifold_MFE/src/Utils/energy_model.cpp:69 | the `erase(remove(...))` result has no '_' and keeps every other letter, with its count |
| Text.RemoveAllAppend | LinearAlifold_MFE/src/Utils/energy_model.cpp:69 | removing '_' distributes over concatenation |
| Text.RemoveAllAbsent | LinearAlifold_MFE/src/Utils/energy_model.cpp:69 | removing '_' from a string without one changes nothing |
| Text.SkipSpaceSkips | LinearAlifold_MFE/src/Utils/energy_model.cpp:126 | `>>` skips exactly the leading whitespace |
| Text.TokenLengthMaximal | LinearAlifold_MFE/src/Utils/energy_model.cpp:126 | `is >> key` reads the longest run of non-space characters |
| Text.LeadingDigitsMaximal | LinearAlifold_MFE/src/Utils/energy_model.cpp:126 | an integer read takes the longest run of digits |
| Text.ParseLeadingInt | LinearAlifold_MFE/src/Utils/energy_model.cpp:146-162 | an integer read (`>> value`, `std::stoi`) yields an int32 value or fails |
| Text.DecimalDigitsValue | LinearAlifold_MFE/src/Utils/energy_model_extract.cpp:33 | the decimal digits printed for a natural number read back as that number |
| Text.ParseDecimal | LinearAlifold_MFE/src/Utils/energy_model_extract.cpp:14-33 | every printed int32 is read back unchanged |
| Text.ReadKeyValue | LinearAlifold_MFE/src/Utils/energy_model.cpp:126 | `is >> key >> value` yields a non-empty key without spaces and an int32 value, or fails |
| Text.ReadPrinted | LinearAlifold_MFE/src/Utils/energy_model.cpp:126 | a printed line `key + " " + value` is read back as exactly that key and value |
| Text.Lines | LinearAlifold_MFE/src/Utils/energy_model.cpp:114-115 | the lines `getline` yields from the file's text; `Text.LinesOfJoin` proves it inverts printing lines |
| Text.LineLength | LinearAlifold_MFE/src/Utils/energy_model.cpp:114-115 | `getline` stops at the first newline |
| Text.LinesOfJoin | LinearAlifold_MFE/src/Utils/energy_model.cpp:114-115 | reading lines back from printed lines, each ended by `std::endl`, gives those lines |
| KeyDecoder.PatternsDistinct | LinearAlifold_MFE/src/Utils/energy_model.cpp:128-223 | `Patterns` lists the twenty key prefixes of the if-chain in the order it tries them, no prefix twice |
| KeyDecoder.DecodeEnergyString | LinearAlifold_MFE/src/Utils/energy_model.cpp:63-71 | the decoder fails iff the prefix occurs nowhere in the key |
| KeyDecoder.DecodedRemainder | LinearAlifold_MFE/src/Utils/energy_model.cpp:63-71 | when the prefix occurs, the result is the key without its first \|prefix\| characters, with every '_' removed: no '_' is left, every other letter keeps its count, and the letters keep their order (cut the remainder anywhere and the result is the decoded front followed by the decoded back) |
| KeyDecoder.DecodeLeadingPrefix | LinearAlifold_MFE/src/Utils/energy_model.cpp:63-71 | a key that starts with the prefix decodes to the rest of the key without '_' |
| KeyDecoder.NucsIdx | LinearAlifold_MFE/src/Utils/energy_model.cpp:74-78 | one code per letter: -1 iff the letter is not in "ACGUN", otherwise the letter's position there |
| KeyDecoder.UpdateNucsIdx | LinearAlifold_MFE/src/Utils/energy_model.cpp:74-78 | the loop writes exactly the first \|input\| slots, with the letters' codes, and no other slot |
| KeyDecoder.RuleAction | LinearAlifold_MFE/src/Utils/energy_model.cpp:128-223 | length rules address 1-D tables and letter rules address pair tables |
| KeyDecoder.ReadIndex | LinearAlifold_MFE/src/Utils/energy_model.cpp:164-223 | a pair dimension reads `NUM_TO_PAIR` of two codes and a nucleotide dimension one code; it fails iff a slot it reads is unwritten or a nucleotide code is -1 |
| KeyDecoder.CellOf | LinearAlifold_MFE/src/Utils/energy_model.cpp:164-223 | the cell a letter rule writes is in range and has no pair index 0; it exists iff every dimension reads |
| KeyDecoder.DecodeIndexed | LinearAlifold_MFE/src/Utils/energy_model.cpp:123-223 | a letter rule writes iff the remainder fits the ten-slot buffer and every index reads; it writes an in-range cell of its own table |
| KeyDecoder.DecodeLength | LinearAlifold_MFE/src/Utils/energy_model.cpp:146-162 | a length rule throws iff `std::stoi` finds no int32, and writes iff the number is inside the table |
| KeyDecoder.InternalMismatchTable | LinearAlifold_MFE/src/Utils/energy_model.cpp:200-209 | `key[0]` '1' selects mismatch1nI, '2' mismatch23I, anything else mismatchI |
| KeyDecoder.InternalExplicitTable | LinearAlifold_MFE/src/Utils/energy_model.cpp:211-223 | `key[0]` '1' selects int11; otherwise `key[1]` '1' selects int21; otherwise int22 |
| KeyDecoder.Perform | LinearAlifold_MFE/src/Utils/energy_model.cpp:128-223 | a matched rule never reports an unknown key, and writes only in-range cells without pair index 0 |
| KeyDecoder.FirstMatchIsFirst | LinearAlifold_MFE/src/Utils/energy_model.cpp:128-223 | the chosen rule is the first whose prefix occurs; no earlier prefix occurs; none occurs if no rule is chosen |
| KeyDecoder.FirstRule | LinearAlifold_MFE/src/Utils/energy_model.cpp:128-223 | the chosen rule's prefix occurs in the key, and the remainder is what the decoder leaves |
| KeyDecoder.Decode | LinearAlifold_MFE/src/Utils/energy_model.cpp:128-227 | a key is unknown iff no rule's prefix occurs in it; a write is always in range |
| KeyDecoder.DecodeKey | LinearAlifold_MFE/src/Utils/energy_model.cpp:123-227 | the if-chain computes `Decode` |
| KeyDecoder.PerformRule | LinearAlifold_MFE/src/Utils/energy_model.cpp:146-223 | the branch bodies compute `Perform` |
| KeyDecoder.ReadCell | LinearAlifold_MFE/src/Utils/energy_model.cpp:123-223 | filling a fresh ten-slot buffer and reading it computes `DecodeIndexed` |
| KeyDecoder.PassOver | LinearAlifold_MFE/src/Utils/energy_model.cpp:128-223 | rules whose prefixes do not occur are passed over |
| KeyRoutes.RouteTriloop | LinearAlifold_MFE/src/Utils/energy_model.cpp:128-147 | a triloop key of digits reaches the triloop rule: no earlier prefix occurs in it |
| KeyRoutes.NinioPassedOver | LinearAlifold_MFE/src/Utils/energy_model.cpp:140 | "ninio" never occurs in a triloop key, which has only one 'n' |
| KeyRoutes.RouteTetraloop | LinearAlifold_MFE/src/Utils/energy_model.cpp:128-150 | a tetraloop key of digits reaches the tetraloop rule |
| KeyRoutes.RouteHexaloop | LinearAlifold_MFE/src/Utils/energy_model.cpp:128-153 | a hexaloop key of digits reaches the hexaloop rule |
| KeyRoutes.RouteHairpin | LinearAlifold_MFE/src/Utils/energy_model.cpp:128-156 | a hairpin-length key of digits reaches the hairpin rule |
| KeyRoutes.RouteInternal | LinearAlifold_MFE/src/Utils/energy_model.cpp:128-159 | an internal-length key of digits reaches the internal-length rule |
| KeyRoutes.RouteBulge | LinearAlifold_MFE/src/Utils/energy_model.cpp:128-162 | a bulge-length key of digits reaches the bulge rule |
| KeyRoutes.RouteStack | LinearAlifold_MFE/src/Utils/energy_model.cpp:128-168 | a stack key spelled with pair letters reaches the stack rule |
| KeyRoutes.RouteMismatchH | LinearAlifold_MFE/src/Utils/energy_model.cpp:128-174 | a hairpin-mismatch key reaches its rule |
| KeyRoutes.RouteMismatchM | LinearAlifold_MFE/src/Utils/energy_model.cpp:128-180 | a multiloop-mismatch key reaches its rule |
| KeyRoutes.RouteMismatchExt | LinearAlifold_MFE/src/Utils/energy_model.cpp:128-186 | an external-mismatch key reaches its rule |
| KeyRoutes.RouteDangle5 | LinearAlifold_MFE/src/Utils/energy_model.cpp:128-192 | a dangle-5 key reaches its rule |
| KeyRoutes.RouteDangle3 | LinearAlifold_MFE/src/Utils/energy_model.cpp:128-198 | a dangle-3 key reaches its rule |
| KeyRoutes.RouteMismatchI | LinearAlifold_MFE/src/Utils/energy_model.cpp:128-209 | an internal-mismatch key reaches the internal-mismatch rule |
| KeyRoutes.RouteMismatch1nI | LinearAlifold_MFE/src/Utils/energy_model.cpp:128-209 | a "1n" internal-mismatch key reaches the internal-mismatch rule |
| KeyRoutes.RouteMismatch23I | LinearAlifold_MFE/src/Utils/energy_model.cpp:128-209 | a "23" internal-mismatch key reaches the internal-mismatch rule |
| KeyRoutes.RouteInt11 | LinearAlifold_MFE/src/Utils/energy_model.cpp:128-223 | a 1-1 explicit key reaches the internal-explicit rule |
| KeyRoutes.RouteInt21 | LinearAlifold_MFE/src/Utils/energy_model.cpp:128-223 | a 2-1 explicit key reaches the internal-explicit rule |
| KeyRoutes.RouteInt22 | LinearAlifold_MFE/src/Utils/energy_model.cpp:128-223 | a 2-2 explicit key reaches the internal-explicit rule |
| KeyRoutes.RouteMLClosing | LinearAlifold_MFE/src/Utils/energy_model.cpp:128-132 | "ML_closing37" reaches the ML_closing rule, not "ML_intern" |
| KeyRoutes.RouteMLBase | LinearAlifold_MFE/src/Utils/energy_model.cpp:128-135 | "ML_BASE37" reaches the ML_BASE rule |
| KeyRoutes.RouteMaxNinio | LinearAlifold_MFE/src/Utils/energy_model.cpp:128-138 | "MAX_NINIO" reaches the MAX_NINIO rule |
| KeyRoutes.RouteNinio | LinearAlifold_MFE/src/Utils/energy_model.cpp:128-141 | "ninio37" reaches the ninio rule |
| KeyRoutes.RouteTerminalAU | LinearAlifold_MFE/src/Utils/energy_model.cpp:128-144 | "TerminalAU37" reaches the TerminalAU rule |
| Loader.KeyEffect | LinearAlifold_MFE/src/Utils/energy_model.cpp:128-227 | a line sets a cell iff its key decodes to a write, with the line's value; it aborts iff `std::stoi` throws |
| Loader.LineEffect | LinearAlifold_MFE/src/Utils/energy_model.cpp:123-231 | a line sets at most one cell, in range and without pair index 0, to an int32 value |
| Loader.EffectsAppend | LinearAlifold_MFE/src/Utils/energy_model.cpp:121-232 | the lines are handled one by one in file order: the effects of a file are the effects of its first part followed by those of the rest |
| Loader.LastWrite | LinearAlifold_MFE/src/Utils/energy_model.cpp:121-232 | the value a cell holds after a run of lines: the last value set to it, else its old value (its laws are `Loader.LastWriteAppend` and `Loader.LoadedLastWrite`) |
| Loader.Step | LinearAlifold_MFE/src/Utils/energy_model.cpp:128-227 | a line keeps the tables well formed, and loading goes on iff it does not throw |
| Loader.Loaded | LinearAlifold_MFE/src/Utils/energy_model.cpp:121-232 | loading succeeds iff no line throws |
| Loader.LoadedStops | LinearAlifold_MFE/src/Utils/energy_model.cpp:121-232 | after a throw, later lines change nothing |
| Loader.LoadedAppend | LinearAlifold_MFE/src/Utils/energy_model.cpp:121-232 | loading two files one after the other is loading their concatenation |
| Loader.LastWriteAppend | LinearAlifold_MFE/src/Utils/energy_model.cpp:121-232 | the last write to a cell over two runs of lines is the second run's, when it has one |
| Loader.LoadedLastWrite | LinearAlifold_MFE/src/Utils/energy_model.cpp:121-232 | without a throw, every cell ends with the value of the last line that sets it, or keeps its value |
| Loader.NewBuffer | LinearAlifold_MFE/src/Utils/energy_model.cpp:86-107 | each table gets a fresh buffer of its size; the 2-D to 6-D ones are all `VIE_INF` |
| Loader.ReadLines | LinearAlifold_MFE/src/Utils/energy_model.cpp:114-115 | the `getline` loop collects exactly the lines of the file |
| Loader.EnergyModel.constructor | LinearAlifold_MFE/src/Utils/energy_model.cpp:37-107 | the scalars hold 0, the value of the zero-initialised globals before the first load, and after allocation every cell of the 2-D to 6-D tables is `VIE_INF` |
| Loader.EnergyModel.Allocate | LinearAlifold_MFE/src/Utils/energy_model.cpp:86-107 | allocating a table adds one fresh buffer and touches no other |
| Loader.EnergyModel.StoreScalar | LinearAlifold_MFE/src/Utils/energy_model.cpp:128-144 | storing a scalar changes that scalar only |
| Loader.EnergyModel.StoreEntry | LinearAlifold_MFE/src/Utils/energy_model.cpp:146-223 | storing a table cell changes that cell only |
| Loader.EnergyModel.Apply | LinearAlifold_MFE/src/Utils/energy_model.cpp:128-227 | applying a decoded key changes the tables as `Step` says |
| Loader.EnergyModel.LoadLine | LinearAlifold_MFE/src/Utils/energy_model.cpp:123-231 | one line changes the tables as its effect says |
| Loader.EnergyModel.Load | LinearAlifold_MFE/src/Utils/energy_model.cpp:121-232 | the line loop leaves the tables as `Loaded` says, and reports whether a line threw |
| Loader.ParseEnergyData | LinearAlifold_MFE/src/Utils/energy_model.cpp:81-239 | allocation then loading: the result is the file's lines loaded onto a table whose 2-D to 6-D cells are all `VIE_INF` and whose scalars are 0 (the first call in a process) |
| Dump.RuleOf | LinearAlifold_MFE/src/Utils/energy_model_extract.cpp:27-296 | each section prints keys of one loader rule |
| Dump.Names | LinearAlifold_MFE/src/Utils/energy_model_extract.cpp:82-294 | one name per index: a pair name or a nucleotide letter |
| Dump.ScalarPosition | LinearAlifold_MFE/src/Utils/energy_model_extract.cpp:14-25 | each scalar has exactly one place in the printed order |
| Dump.ScalarLines | LinearAlifold_MFE/src/Utils/energy_model_extract.cpp:14-25 | six lines; each scalar's key and value is printed on the line at its one position |
| Dump.IndexText | LinearAlifold_MFE/src/Utils/energy_model_extract.cpp:27-294 | the printed index of a key: the decimal index for a length table, the pair and nucleotide names joined by '_' otherwise (stack names run together); it decodes back by `RoundTrip.IndexTextLetters` and `RoundTrip.CellBack` |
| Dump.EntryKey | LinearAlifold_MFE/src/Utils/energy_model_extract.cpp:27-294 | the key printed for a cell: its rule's prefix, the size tag, then the index; `RoundTrip.EntryKeyDecodes` proves it decodes back to the (aliased) cell |
| Dump.EntryLine | LinearAlifold_MFE/src/Utils/energy_model_extract.cpp:27-294 | the line printed for a cell, key then value; `RoundTrip.EntryEffect` proves loading it sets that cell to the value |
| Dump.PrintedCells | LinearAlifold_MFE/src/Utils/energy_model_extract.cpp:27-294 | `Printed` and `FilterTable` are the skip tests: the hairpin and hairpin-mismatch sections print every cell; the external-mismatch section as written skips the cells whose multi-loop mismatch value is `VIE_INF`; every other section skips its own `VIE_INF` cells |
| Dump.DumpOrderOnce | LinearAlifold_MFE/src/Utils/energy_model_extract.cpp:27-296 | `DumpOrder` is the order of the eighteen sections in the source, no table twice |
| Dump.Block | LinearAlifold_MFE/src/Utils/energy_model_extract.cpp:81-296 | the lines printed by the loops nested under an index prefix, cells in lexicographic order, `VIE_INF` cells of the filter table skipped; computed by `Dump.ExtractBlock` |
| Dump.Row | LinearAlifold_MFE/src/Utils/energy_model_extract.cpp:81-296 | the lines printed by the first n rounds of one loop; computed by `Dump.ExtractLoop` |
| Dump.Section | LinearAlifold_MFE/src/Utils/energy_model_extract.cpp:27-296 | the lines printed for one table; loading them is described by `Reload.SectionLastWrite` |
| Dump.Sections | LinearAlifold_MFE/src/Utils/energy_model_extract.cpp:27-296 | the sections of several tables one after another; loading them is described by `Reload.SectionsLastWrite` |
| Dump.DumpLines | LinearAlifold_MFE/src/Utils/energy_model_extract.cpp:8-299 | every line of the dump, scalars first; loading them is described by `Reload.DumpRoundTrip` |
| Dump.DumpText | LinearAlifold_MFE/src/Utils/energy_model_extract.cpp:8-299 | the text on standard output, each line ended by `std::endl`; `Text.LinesOfJoin` gives newline-free lines back |
| Dump.ExtractBlock | LinearAlifold_MFE/src/Utils/energy_model_extract.cpp:81-296 | the loops nested under a fixed index prefix print `Block` |
| Dump.ExtractLoop | LinearAlifold_MFE/src/Utils/energy_model_extract.cpp:81-296 | one `for` loop over a dimension prints its blocks in ascending order |
| Dump.RowNext | LinearAlifold_MFE/src/Utils/energy_model_extract.cpp:81-296 | one more round of a loop appends the block of its index |
| Dump.ExtractSection | LinearAlifold_MFE/src/Utils/energy_model_extract.cpp:27-296 | a section prints its table in lexicographic index order, skipping unprinted cells |
| Dump.ExtractScalars | LinearAlifold_MFE/src/Utils/energy_model_extract.cpp:14-25 | the scalar lines, in order |
| Dump.ExtractSections | LinearAlifold_MFE/src/Utils/energy_model_extract.cpp:27-296 | the sections one after another |
| Dump.Extract | LinearAlifold_MFE/src/Utils/energy_model_extract.cpp:8-299 | the whole dump: scalars, then the eighteen sections in source order |
| RoundTrip.Alias | LinearAlifold_MFE/src/Utils/energy_model_extract.cpp:10 | the cell a printed index reads back into: pair index 0 becomes 7, all else kept; in range, and unchanged for indices without pair 0 |
| RoundTrip.TagRemoved | LinearAlifold_MFE/src/Utils/energy_model_extract.cpp:161-270 | the size tags "1n_", "23_", "1_1_", "2_1_", "2_2_" lose their '_' in the loader |
| RoundTrip.JoinRemoved | LinearAlifold_MFE/src/Utils/energy_model_extract.cpp:104 | removing '_' from names joined by '_' gives the names run together |
| RoundTrip.NamesWidth | LinearAlifold_MFE/src/Utils/energy_model.cpp:167-221 | the spelled names put each index at the buffer slot the loader reads it from |
| RoundTrip.SpellingAt | LinearAlifold_MFE/src/Utils/energy_model.cpp:74-78 | each letter of a printed name becomes the code its slot holds |
| RoundTrip.SpellingLength | LinearAlifold_MFE/src/Utils/energy_model.cpp:123 | every spelled index fits the ten-slot buffer |
| RoundTrip.PairBack | LinearAlifold_MFE/src/Utils/energy_model_extract.cpp:10-91 | a printed pair name reads back as its index, "NP" as 7 |
| RoundTrip.NucleotideBack | LinearAlifold_MFE/src/Utils/energy_model_extract.cpp:11-108 | a printed nucleotide letter reads back as its index |
| RoundTrip.IndicesBack | LinearAlifold_MFE/src/Utils/energy_model_extract.cpp:82-294 | every dimension of a printed index reads back as its aliased value |
| RoundTrip.CellBack | LinearAlifold_MFE/src/Utils/energy_model_extract.cpp:82-294 | the letters of a printed index fit the buffer and read back as the aliased cell |
| RoundTrip.IndexTextLetters | LinearAlifold_MFE/src/Utils/energy_model_extract.cpp:27-108 | a printed index is digits or name letters, and loses only its separators in the loader |
| RoundTrip.Routed | LinearAlifold_MFE/src/Utils/energy_model.cpp:128-223 | every printed key of a table reaches that table's own rule of the if-chain |
| RoundTrip.OwnRuleMatches | LinearAlifold_MFE/src/Utils/energy_model.cpp:63-71 | a key starting with its rule's prefix matches that rule, with the rest of the key, without '_', as remainder |
| RoundTrip.KeyReachesRule | LinearAlifold_MFE/src/Utils/energy_model_extract.cpp:27-296 | every printed key chooses its table's rule, with the printed index as remainder |
| RoundTrip.ActionOf | LinearAlifold_MFE/src/Utils/energy_model.cpp:146-223 | each table's rule stores into that table (or the internal routing that picks it) |
| RoundTrip.TableChosen | LinearAlifold_MFE/src/Utils/energy_model.cpp:200-223 | the "1n"/"23" and "1_1"/"2_1"/"2_2" tags route to the table they were printed from |
| RoundTrip.DecodeVia | LinearAlifold_MFE/src/Utils/energy_model.cpp:128-223 | decoding performs the chosen rule on its remainder |
| RoundTrip.LengthBack | LinearAlifold_MFE/src/Utils/energy_model.cpp:146-162 | a printed length index is read back by `std::stoi` as itself |
| RoundTrip.LettersBack | LinearAlifold_MFE/src/Utils/energy_model.cpp:164-223 | a spelled index is stored into the aliased cell of its table |
| RoundTrip.EntryKeyDecodes | LinearAlifold_MFE/src/Utils/energy_model_extract.cpp:27-296 | every printed key decodes to the cell it was printed from, with pair 0 read as 7 |
| RoundTrip.KeyIsToken | LinearAlifold_MFE/src/Utils/energy_model.cpp:126 | a printed key is one non-empty token without spaces |
| RoundTrip.EntryEffect | LinearAlifold_MFE/src/Utils/energy_model_extract.cpp:27-296 | every printed table line, once loaded, sets the aliased cell to the printed value |
| RoundTrip.ScalarRule | LinearAlifold_MFE/src/Utils/energy_model.cpp:128-144 | each scalar has a rule that stores it |
| RoundTrip.ScalarKeyReachesRule | LinearAlifold_MFE/src/Utils/energy_model_extract.cpp:14-25 | each printed scalar key reaches the rule of its scalar (e.g. "ML_intern37" is matched by "ML_intern") |
| RoundTrip.ScalarEffect | LinearAlifold_MFE/src/Utils/energy_model_extract.cpp:14-25 | every printed scalar line, once loaded, sets its scalar to the printed value |
| Reload.CellEffects | LinearAlifold_MFE/src/Utils/energy_model_extract.cpp:27-296 | the line of a printed cell sets the aliased cell; an unprinted cell has no line |
| Reload.BlockEffects | LinearAlifold_MFE/src/Utils/energy_model_extract.cpp:81-296 | the lines of a loop nest set, in order, the aliased cells that the nest prints |
| Reload.RowEffects | LinearAlifold_MFE/src/Utils/energy_model_extract.cpp:81-296 | the same for one loop over a dimension |
| Reload.BlockLastWrite | LinearAlifold_MFE/src/Utils/energy_model_extract.cpp:81-296 | the last value a loop nest writes to a cell, computed per cell |
| Reload.BlockMisses | LinearAlifold_MFE/src/Utils/energy_model_extract.cpp:81-296 | a loop nest that prints nothing reading back into a cell leaves it alone |
| Reload.BlockHits | LinearAlifold_MFE/src/Utils/energy_model_extract.cpp:81-296 | a loop nest that prints a cell without pair 0 leaves it with its dumped value, even if an "NP" cell read back into it |
| Reload.RowHits | LinearAlifold_MFE/src/Utils/energy_model_extract.cpp:81-296 | the same for one loop over a dimension: later rounds print only cells with larger indices |
| Reload.SectionLastWrite | LinearAlifold_MFE/src/Utils/energy_model_extract.cpp:27-296 | when every printed "NP" cell's "NN" cell is also printed (`AliasClosed`): after one section, a printed cell of its table has its dumped value and any other cell keeps its value |
| Reload.SectionsLastWrite | LinearAlifold_MFE/src/Utils/energy_model_extract.cpp:27-296 | when every printed "NP" cell's "NN" cell is also printed (`AliasClosed`): after all sections, every printed cell has its dumped value and any other cell keeps its value |
| Reload.DumpOrderComplete | LinearAlifold_MFE/src/Utils/energy_model_extract.cpp:27-296 | every table has a section |
| Reload.ScalarsLastWrite | LinearAlifold_MFE/src/Utils/energy_model_extract.cpp:14-25 | loading the scalar lines sets each scalar to its dumped value and nothing else |
| Reload.DumpEffects | LinearAlifold_MFE/src/Utils/energy_model_extract.cpp:8-299 | no dumped line makes the loader throw |
| Reload.DumpRoundTrip | LinearAlifold_MFE/src/Utils/energy_model_extract.cpp:8-299 | loading the dump onto any table succeeds; each scalar and each printed cell without pair 0 gets its dumped value; every other cell keeps its value |
| Reload.CreatedTablesExact | LinearAlifold_MFE/src/Utils/energy_model_extract.cpp:144-159 | with the external-mismatch section filtered by its own table, loading the dump reproduces every scalar and every 2-D to 6-D cell without pair index 0 |
| Reload.ExtLostAsWritten | LinearAlifold_MFE/src/Utils/energy_model_extract.cpp:152 | as written, an external-mismatch value whose multiloop cell is `VIE_INF` is not reproduced |
| Scoring.LoopLength | LinearAlifold_MFE/src/Utils/energy_model.h:55-58 | the length term: the table entry up to 30 bases, `table[30]` plus the extrapolation beyond; `Scoring.HairpinTabulated` states it ignores the extrapolation up to 30 |
| Scoring.TerminalPenalty | LinearAlifold_MFE/src/Utils/energy_model.h:184-187 | the AU penalty is either 0 or `TerminalAU37`, and 0 for pair codes up to 2 |
| Scoring.ScoreHairpin | LinearAlifold_MFE/src/Utils/energy_model.h:47-77 | `score_hairpin` without `SPECIAL_HP`; its cases are `Scoring.HairpinCases` |
| Scoring.ScoreSingle | LinearAlifold_MFE/src/Utils/energy_model.h:79-164 | `score_single_alifold`; its cases are `Scoring.InteriorStack`, `Scoring.InteriorOneByOne`, `Scoring.InteriorTwoByOne`, `Scoring.InteriorOneByN`, `Scoring.InteriorTwoByTwo`, `Scoring.InteriorTwoByThree`, `Scoring.BulgeCases`, `Scoring.SingleFallThrough`, `Scoring.SingleCountsOnly` and `Scoring.SingleMirror` |
| Scoring.MLStem | LinearAlifold_MFE/src/Utils/energy_model.h:167-192 | `E_MLstem`; its neighbour precedence is `Scoring.MLStemNeighbours` |
| Scoring.ScoreMulti | LinearAlifold_MFE/src/Utils/energy_model.h:194-201 | `score_multi`; related to `score_M1` by `Scoring.MultiIsReversedBranch` |
| Scoring.ScoreM1 | LinearAlifold_MFE/src/Utils/energy_model.h:203-212 | `score_M1`: one multiloop branch, a stem with no closing term |
| Scoring.ScoreExternalPaired | LinearAlifold_MFE/src/Utils/energy_model.h:215-238 | `score_external_paired`; related to `E_MLstem` by `Scoring.ExteriorIsStemWithoutIntern` |
| Scoring.Asymmetry | LinearAlifold_MFE/src/Utils/energy_model.h:134-161 | the Ninio term never exceeds `MAX_NINIO` nor `(nl-ns)*ninio37`, and equals one of them |
| Scoring.HairpinCases | LinearAlifold_MFE/src/Utils/energy_model.h:47-77 | below three unpaired bases a hairpin is `hairpin37[L]`; otherwise the length term plus `mismatchH37[type][NUM_TO_NUC(i+1)][NUM_TO_NUC(j-1)]` |
| Scoring.HairpinTabulated | LinearAlifold_MFE/src/Utils/energy_model.h:55-58 | up to 30 unpaired bases the energy does not depend on the extrapolation |
| Scoring.BulgeCases | LinearAlifold_MFE/src/Utils/energy_model.h:105-118 | a 1-base bulge is `bulge37[1]` plus the stack; a longer one is the length term plus `TerminalAU37` for each pair type above 2 |
| Scoring.InteriorStack | LinearAlifold_MFE/src/Utils/energy_model.h:102-103 | with no unpaired base the energy is `stack37[type][type_2]` |
| Scoring.InteriorOneByOne | LinearAlifold_MFE/src/Utils/energy_model.h:122-123 | a 1x1 loop reads `int11_37` at the pair types and the two inner flanking bases |
| Scoring.InteriorTwoByOne | LinearAlifold_MFE/src/Utils/energy_model.h:124-131 | a 2x1 loop reads `int21_37`, with pair types and flanks swapped when the single base is on the 3' side |
| Scoring.InteriorOneByN | LinearAlifold_MFE/src/Utils/energy_model.h:132-138 | a 1xn loop (n >= 3) pays `internal_loop37` for n + 1 bases, the asymmetry term `min(MAX_NINIO, (nl - ns) * ninio37)` (never above `MAX_NINIO`), and `mismatch1nI37` on both pairs |
| Scoring.InteriorTwoByTwo | LinearAlifold_MFE/src/Utils/energy_model.h:142-145 | a 2x2 loop reads `int22_37` at the pair types and the flanks in the order si1, sp1, sq1, sj1 |
| Scoring.InteriorTwoByThree | LinearAlifold_MFE/src/Utils/energy_model.h:145-150 | a 2x3 loop pays `internal_loop37[5]`, one `ninio37` and both 2x3 mismatches |
| Scoring.SingleCountsOnly | LinearAlifold_MFE/src/Utils/energy_model.h:91-100 | except for the 2x1 loop, the energy depends on (n1, n2) only through their maximum and minimum |
| Scoring.SingleFallThrough | LinearAlifold_MFE/src/Utils/energy_model.h:141-161 | every loop with both sides of at least two bases, other than 2x2 and 2x3, uses the generic formula (ns == 2 falls through) |
| Scoring.SingleMirror | LinearAlifold_MFE/src/Utils/energy_model.h:79-164 | read from the inner pair, a loop other than stack, 1-base bulge, 1x1 and 2x2 has the same energy; the two 2x1 branches mirror each other |
| Scoring.KindSymmetric | LinearAlifold_MFE/src/Utils/energy_model.h:91-100 | the shape of a loop does not depend on which side is which |
| Scoring.MLStemNeighbours | LinearAlifold_MFE/src/Utils/energy_model.h:167-192 | mismatch when both neighbours exist, else dangle5, else dangle3, else 0; always plus the AU penalty and `ML_intern37` |
| Scoring.MultiIsReversedBranch | LinearAlifold_MFE/src/Utils/energy_model.h:194-212 | `score_multi` is `score_M1` of the reversed pair plus `ML_closing37` |
| Scoring.ExteriorIsStemWithoutIntern | LinearAlifold_MFE/src/Utils/energy_model.h:215-238 | an exterior stem is a multiloop stem read from `mismatchExt37`, without `ML_intern37` |
| Scoring.TerminalPenaltyPairs | LinearAlifold_MFE/src/Utils/energy_model.h:112-115 | the AU penalty is zero only for CG and GC pairs (or when `TerminalAU37` is 0) |
| Scoring.ScoreMultiUnpaired | LinearAlifold_MFE/src/Utils/energy_model.h:240-243 | unpaired bases in a multiloop score 0 |
| Scoring.ScoreExternalUnpaired | LinearAlifold_MFE/src/Utils/energy_model.h:245-248 | unpaired bases in the exterior loop score 0 |

## Left out

- The `SPECIAL_HP` branch of `score_hairpin` (energy_model.h:62-73) is compiled only under that flag. It is not modelled.
- The log extrapolation `(int)(lxc37 * log(n/30.))` is floating point. It is a parameter `lx` of the scorers, and results beyond 30 bases are stated relative to it.
- `parseEnergyData` runs its line loop as an OpenMP `parallel for`. The model runs it sequentially, so a later line for the same cell wins. With threads, two lines writing the same cell race.
- File I/O, timing and the verbose warnings are left out. The loader takes the file's text, and the dump produces its lines, with `DumpText` as the printed text.
- `freeMemory` and the `delete2DArray` .. `delete6DArray` functions only free memory, so nothing observable is left to model.
- The copies of the array helpers in energy_model.cpp:261-357 are identical to array_utils.cpp, which is modelled once.
- The compiled-in values of `energy_parameter.h` and `intl11.h`/`intl21.h`/`intl22.h` are not part of this model. The dump takes any table as input.
- Tables are flat row-major buffers, not arrays of separately allocated rows. Separate rows become the injectivity and slice lemmas of `NdArrays`.
- Behaviour the source leaves undefined is modelled as `Rejected`, and the line changes nothing. This covers an index outside a table, a remainder longer than the ten-slot buffer, an unwritten slot, and the -1 code of a non-nucleotide letter used as an index.
- Score sums are unbounded integers. The model does not capture int32 overflow in a sum.
- Loader.EnergyModel.constructor: the six 1-D length tables are allocated but never initialised, so the contract states nothing about their contents.
- Reload.DumpRoundTrip: requires every printed "NP" cell's "NN" cell to be printed too. Otherwise the "NN" cell would keep the "NP" value, which the contract does not describe.
- Reload.CreatedTablesExact: rests on the same hypothesis that every printed "NP" cell's "NN" cell is printed.
- Reload.ExtLostAsWritten: rests on the same hypothesis that every printed "NP" cell's "NN" cell is printed.
- Reload.SectionLastWrite: rests on the same hypothesis that every printed "NP" cell's "NN" cell is printed; without it a section that skips an "NN" cell leaves there the value its "NP" line wrote.
- Reload.SectionsLastWrite: rests on the same hypothesis, for the same reason.
- Loader.ParseEnergyData: describes the first call in a process. The six scalars are zero only because the globals are zero-initialised (energy_model.cpp:37-42), and parseEnergyData never resets them. A second call on a file without, say, `ML_BASE37` keeps the earlier value, where the model gives 0.
- The eighteen hand-written loop nests of the dump are modelled as one loop over the sections. Each section is a loop nest over its table's shape, and the shapes equal the source's loop bounds.

## Findings

| source | as written | input that shows it | evidently intended | confidence | as-written member | corrected member |
|---|---|---|---|---|---|---|
| LinearAlifold_MFE/src/Utils/energy_model_extract.cpp:152 | the external-mismatch section skips a cell when `mismatchM37[pair][i][j]` is `VIE_INF`, but prints `mismatchExt37[pair][i][j]` | any cell where `mismatchM37` is `VIE_INF` and `mismatchExt37` is not: that cell is not printed, so reloading the dump loses its value | skip when `mismatchExt37[pair][i][j]` is `VIE_INF`, as every other section tests its own table | not executed | Reload.ExtLostAsWritten | Reload.CreatedTablesExact |
