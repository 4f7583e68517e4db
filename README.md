# Molecule highlighting and drawing rules of the fragment API

This project models the request-side logic of `api/utils.py` in Dafny and proves properties of it. That logic
turns a query string into a drawing of a molecule:

- `mol_view` strips the SMILES. `rstrip(".svg")` removes any trailing run of the characters `.`, `s`, `v` and
  `g`, not the suffix `.svg`; the model follows the code (`Request.MolViewStripsCharacters` shows the
  difference).
- `get_params` canonicalises it and reads the size, the image type and the highlight parameters.
- `parse_atom_ids` picks bonds and colours from `id,id,isotope,flag` groups.
- `parse_xenons` picks bonds from xenon attachment-point markers.
- `draw_mol` renders an SVG. Its PNG branch, as written, raises NameError (see "## Findings"); corrected, it
  returns a PNG whose white background is made transparent.

The helpers behind these are modelled as well: `parse_bool`, `parse_vectors`, Python's `int()` on a token,
`str.split`, `str.rstrip`, `in` on strings, `str.replace`, and the isotope colour table `ISO_COLOUR_MAP`.

The cheminformatics library is not modelled. A molecule is a sequence of atoms (atomic number and isotope label)
and a sequence of bonds (two atom indices). Every library call the code makes is a field of a `Toolkit` value
handed in by the caller:

- parsing a SMILES;
- canonicalising it;
- writing a SMILES;
- adding hydrogens;
- SVG drawing;
- PNG rasterising.

Every result therefore holds whatever the library does. `GetBondBetweenAtoms` and `atom.GetBonds()[0]` are
modelled directly on the bond sequence, as the lowest-index joining or touching bond.

The loops of the source are methods proved equal to specification functions:

- `AtomIds.ParseAtomIds` walks the tokens with the source's `i % 4` dispatch and its `atom_ids` buffer.
- `Xenons.ParseXenons` walks the marker atoms.
- `Image.ClearWhite` builds the pixel list.

The properties the source promises are proved as lemmas about those functions.

Files, one module each:

- `outcome.dfy`: `Option`, `Result`, and the exceptions the code can raise.
- `text.dfy`: split, join, rstrip, substring test, replace.
- `tokens.dfy`: `int()`, `parse_vectors`, `parse_bool`.
- `chem.dfy`: the molecule, the colour table, bond lookups, and the highlight built up entry by entry.
- `image.dfy`: the pixel loop.
- `external.dfy`: the toolkit.
- `atom_ids.dfy`: `parse_atom_ids`.
- `xenons.dfy`: `parse_xenons`.
- `render.dfy`: `draw_mol`.
- `request.dfy`: `get_params` and `mol_view`.

## Model

| member | source | states |
|---|---|---|
| Chem.IsoColourMapKeys | api/utils.py:14-23 | the colour table is defined exactly on the isotope labels 100 to 107 |
| Chem.IsoColourMapInjective | api/utils.py:14-23 | two different labels never share a colour |
| Chem.IsoColourMapInUnitCube | api/utils.py:14-23 | every colour component lies in [0, 1] |
| Text.Split | api/utils.py:123 | `str.split(sep)` yields at least one piece, and no piece contains the separator |
| Text.JoinSplit | api/utils.py:123 | joining the pieces of a split with the separator gives back the string |
| Text.SplitJoin | api/utils.py:123 | splitting a join of separator-free parts gives back the parts |
| Text.SplitPrefix | api/utils.py:143 | a separator-free prefix is glued onto the first piece of the rest's split |
| Text.RStrip | api/utils.py:240 | `rstrip(chars)` gives a prefix of the input; only characters of the set were removed, and the result does not end in one |
| Text.RStripUnique | api/utils.py:240 | any prefix with those three properties is the rstrip result |
| Text.RStripIdempotent | api/utils.py:240 | stripping twice equals stripping once |
| Text.Contains | api/utils.py:221 | `p in s` holds exactly when `p` occurs in `s` at some index |
| Text.RemoveAll | api/utils.py:119 | `replace(p, "")` never lengthens the text, leaves a text without `p` unchanged, and shortens a text holding `p` by at least `p`'s length |
| Text.RemoveAllOnePass | api/utils.py:119 | a single replace pass can leave an occurrence: `svsvg:g:` becomes `svg:` |
| Tokens.NatToString | api/utils.py:123 | the decimal form of a natural is a non-empty run of digits |
| Tokens.NatToStringValue | api/utils.py:123 | reading back the decimal digits of `n` gives `n` |
| Tokens.IntToStringRoundTrip | api/utils.py:123 | `int(str(n)) == n` for every integer |
| Tokens.ParseIntIgnoresSpace | api/utils.py:123 | `int()` ignores any white space before and after the token |
| Tokens.ParseInt | api/utils.py:123 | `int()` succeeds exactly when the token, without surrounding white space, is a digit run with an optional sign; a negative value has a leading `-` |
| Tokens.EmptyTokenIsNotAnInteger | api/utils.py:123 | `int("")` fails |
| Tokens.ParseInts | api/utils.py:123 | the list comprehension succeeds exactly when every token is an integer; element `k` is token `k`'s value; failure is a ValueError |
| Tokens.ParseVectors | api/utils.py:122-123 | the list succeeds exactly when every comma-separated piece is an integer, and then holds one value per piece in order; otherwise a ValueError |
| Tokens.ParseVectorsRoundTrip | api/utils.py:122-123 | parsing the comma-joined decimal forms of a non-empty integer list gives back the list |
| Tokens.ParseVectorsEmpty | api/utils.py:122-123 | the empty string is not a vector list: `"".split(",")` is `[""]` |
| Tokens.Lower | api/utils.py:127 | `lower()` keeps the length, leaves no upper-case ASCII letter, lowers each upper-case ASCII letter and keeps every other character |
| Tokens.ParseBool | api/utils.py:126-132 | true exactly for the lower-cased token in yes/true/t/y/1, false exactly for no/false/f/n/0, a ValueError exactly otherwise |
| Tokens.WordListsDisjoint | api/utils.py:127-130 | no token is in both word lists |
| Tokens.ParseBoolPythonSpellings | api/utils.py:126-132 | `True`, `False` and `YES` are read case-insensitively; `2` is rejected |
| Chem.JoiningFromFirst | api/utils.py:178 | the bond search returns the first joining bond, and nothing only when no bond joins the pair |
| Chem.BondBetween | api/utils.py:178 | a found bond joins the two atoms, both of which exist |
| Chem.BondBetweenComplete | api/utils.py:178 | whenever some bond joins two existing atoms, the lookup finds one at or before it |
| Chem.FirstBond | api/utils.py:192 | an atom's first bond touches it |
| Chem.FirstBondLowest | api/utils.py:192 | the first bond is the lowest-index bond touching the atom; there is none only when no bond touches it |
| Chem.AtomsNumbered | api/utils.py:188 | the atoms of a given atomic number: indices in range, of that number, increasing, and none missed |
| Chem.AtomsNumberedNone | api/utils.py:188 | with no atom of that number the list is empty |
| Chem.LastWins | api/utils.py:180 | the dict's keys are exactly the recorded bond ids |
| Chem.RecordOneMore | api/utils.py:179-180 | recording an entry appends its bond id and overwrites that bond's colour |
| Chem.LastWinsValue | api/utils.py:180 | a repeated bond keeps the colour of its last entry |
| Image.Cleared | api/utils.py:97-101 | a white pixel gets alpha 0 and keeps its colour; any other pixel is unchanged |
| Image.Transparented | api/utils.py:96-102 | the pixel list keeps its length and each pixel's colour; white pixels have alpha 0, and only white pixels' alpha changes |
| Image.ClearWhite | api/utils.py:94-102 | the loop's output has the input's length; white pixels become (255, 255, 255, 0) and others are copied, in place |
| Image.TransparentedKeepsColours | api/utils.py:97-101 | every pixel keeps its colour, and only a white pixel's alpha changes |
| Image.TransparentedIdempotent | api/utils.py:96-102 | running the loop twice equals running it once |
| AtomIds.HydrogenAt | api/utils.py:160-163 | the chosen atom is one of the pair and a hydrogen, the lower index when both are; none only when neither is |
| AtomIds.WildcardPairs | api/utils.py:171-175 | the list is no longer than the atoms scanned, and each pair is the two ends of a bond with a wildcard end |
| AtomIds.PlaceholderPair | api/utils.py:171-177 | a pair exists only when the molecule has a wildcard atom, and it is the two ends of a bond with a wildcard end |
| AtomIds.WildcardPairsFrom | api/utils.py:171-175 | the comprehension raises exactly when some wildcard atom has no bond, is empty exactly when there is no wildcard atom, and otherwise starts with the first wildcard's first bond |
| AtomIds.PlaceholderPairSpec | api/utils.py:171-177 | the new pair is the ends of the first bond of the first wildcard atom; there is none when there is no wildcard or one has no bond |
| AtomIds.Relabel | api/utils.py:157-177 | no hydrogen in the pair is an error; with one, an edited SMILES that does not parse is an error, and one that parses succeeds exactly when the rebuilt molecule has a placeholder pair; on success a hydrogen of the pair was made a wildcard, the rebuilt molecule is the parse of that molecule's SMILES, and the new pair is its placeholder pair |
| AtomIds.RelabelledPairIsBonded | api/utils.py:157-178 | after the add-hydrogens branch the pair is a bond of the rebuilt molecule with a wildcard end, so the bond lookup succeeds on a well-formed molecule |
| AtomIds.Record | api/utils.py:154-180 | a recorded group had a boolean flag and a label in the table and takes that label's colour; its bond exists; with a false flag it joins the pair in the unchanged molecule; with a true flag it joins the relabelled pair in the rebuilt molecule, which the next group uses |
| AtomIds.Group | api/utils.py:149-180 | a group succeeds only with three integer tokens, and then as its record does for their values |
| AtomIds.RecordSucceeds | api/utils.py:154-180 | a false flag, a label in the table and a bond joining two existing atoms: the group is recorded with a bond at or before that one, the label's colour and the same molecule |
| AtomIds.RecordSucceedsRelabelled | api/utils.py:157-180 | a true flag, a label in the table and a relabelling that gives a well-formed molecule: the group is recorded with a bond joining the relabelled pair, the label's colour and the rebuilt molecule |
| AtomIds.Groups | api/utils.py:147-181 | a successful parse records exactly one entry per complete group of four tokens |
| AtomIds.AllIntegersEach | api/utils.py:149-152 | the trailing tokens read without error exactly when each is an integer |
| AtomIds.AtomIds | api/utils.py:135-182 | a successful parse returns one bond per complete group, and the colour dict's keys are exactly the returned bonds |
| AtomIds.GroupsStopsAtFailure | api/utils.py:147-181 | the first failing group is the error of the whole list |
| AtomIds.GroupsStep | api/utils.py:147-181 | a successful group comes first, and the rest is parsed against the molecule it leaves |
| AtomIds.ParseAtomIds | api/utils.py:135-182 | the token loop returns exactly what the group-by-group definition gives, errors included |
| AtomIds.CloseGroup | api/utils.py:153-181 | closing a group records what the group-by-group definition records for it, or fails as it does |
| AtomIds.UnparsedIntegerFails | api/utils.py:149-152 | a non-integer among a group's first three tokens fails the parse |
| AtomIds.GroupsOk | api/utils.py:147-181 | on success the first group's entry is followed by the entries of the rest |
| AtomIds.GroupsColours | api/utils.py:180 | on success entry `k` has the colour of group `k`'s isotope label |
| AtomIds.AtomIdsColours | api/utils.py:179-180 | a bond whose last group is group `k` has the colour of group `k`'s label |
| AtomIds.CompleteLength | api/utils.py:147-153 | the tokens of the complete groups are a multiple of four, all but the last fewer-than-four |
| AtomIds.CompleteGroupsThenTrailing | api/utils.py:147-181 | the parse is the parse of the complete groups, then a check that the trailing tokens are integers |
| AtomIds.TrailingTokensIgnored | api/utils.py:147-181 | trailing integer tokens of an incomplete group are ignored |
| AtomIds.TrailingNonIntegerFails | api/utils.py:149-152 | a non-integer among the trailing tokens still fails the parse |
| AtomIds.PlainGroupsKeepMolecule | api/utils.py:178-181 | without hydrogens the molecule is never replaced, and bond `k` joins group `k`'s two atoms |
| AtomIds.FlagCheckedFirst | api/utils.py:154 | a non-boolean flag fails before any bond lookup |
| AtomIds.MissingBondFails | api/utils.py:178-179 | a pair joined by no bond fails |
| AtomIds.UnknownIsotopeFails | api/utils.py:180 | a label outside 100 to 107 fails once the bond is found |
| AtomIds.SingleGroup | api/utils.py:135-182 | one plain group gives one bond, coloured by its label, on the unchanged molecule |
| AtomIds.GroupsLastBondValid | api/utils.py:147-182 | on success the last recorded bond is a bond of the molecule returned |
| AtomIds.StaleBondIds | api/utils.py:147-182 | on ethane, `0,1,100,false,0,2,101,true` returns bonds [0, 0], bond 0 coloured by label 101, on the rebuilt `*CC`: the first id was taken in the molecule the second group replaced |
| Xenons.MarkerEntry | api/utils.py:192-197 | a marker succeeds exactly when it has a bond and its colour label is in the table; its bond touches it |
| Xenons.MarkerEntries | api/utils.py:191-198 | a successful pass gives one entry per marker |
| Xenons.Replaced | api/utils.py:198 | replacing markers keeps the number of atoms |
| Xenons.XenonsOf | api/utils.py:185-199 | one bond per marker atom, and the colour dict's keys are exactly those bonds |
| Xenons.Xenons | api/utils.py:185-199 | a SMILES that does not parse fails; otherwise the marker parse of its molecule; on success every highlighted bond is a bond of the returned molecule, which keeps the parsed bonds |
| Xenons.XenonsBondsValid | api/utils.py:191-199 | on success every highlighted bond is a bond of the returned molecule, whose bonds are the parsed molecule's |
| Xenons.ParseXenons | api/utils.py:185-199 | the marker loop returns exactly what the specification gives, errors included |
| Xenons.MarkerEntriesStop | api/utils.py:191-198 | the first failing marker is the error of the whole loop |
| Xenons.MarkerEntriesEach | api/utils.py:191-198 | the loop succeeds exactly when every marker does, and entry `k` is marker `k`'s |
| Xenons.XenonsOfOk | api/utils.py:185-199 | success exactly when every marker has a bond and, with several markers, every label is 100 to 107 |
| Xenons.XenonsOfEntries | api/utils.py:191-198 | bond `k` is the first bond of the `k`-th marker in atom order, coloured by its own label with several markers and by label 101 with one |
| Xenons.XenonsColours | api/utils.py:191-198 | in the returned dict, marker `k`'s bond has marker `k`'s label colour, label 101's with a lone marker, unless a later marker shares the bond |
| Xenons.SingleMarker | api/utils.py:194-197 | a lone marker's bond is coloured (0, 1, 0) whatever its label |
| Xenons.SeveralMarkersDistinctColours | api/utils.py:194-195 | with several markers, two markers with different labels whose bonds no later marker shares get different colours in the returned dict |
| Xenons.ReplacedAt | api/utils.py:198 | after the replacements an atom is a wildcard exactly when it is a marker, and otherwise unchanged |
| Xenons.XenonsEditsMarkers | api/utils.py:198-199 | the returned molecule has the same atoms, with each xenon replaced by a wildcard, and the same bonds |
| Xenons.NoMarkers | api/utils.py:185-199 | a molecule without xenon gives no bonds, no colours and the molecule itself |
| Render.Dimension | api/utils.py:83-86 | a missing or zero size becomes 200, any other is kept, and the size is never 0 |
| Render.DimensionIdempotent | api/utils.py:83-86 | defaulting twice equals defaulting once |
| Render.DimensionDefault | api/utils.py:83-86 | the size is 200 exactly for a missing size, a zero size or a requested 200 |
| Render.DrawnMolecule | api/utils.py:77-78 | a molecule handed in is used, otherwise the parsed SMILES |
| Render.SvgCanvas | api/utils.py:107 | the corrected canvas is `width` wide and `height` tall |
| Render.SvgCanvasAsWritten | api/utils.py:107 | the canvas built by `MolDraw2DSVG(height, width)` takes the defaulted height as its width and the defaulted width as its height |
| Render.DrawMol | api/utils.py:59-119 | with no molecule the answer is "None Mol"; a PNG exactly for a molecule and `img_type` png, one pixel per rasterised pixel, with no opaque white pixel |
| Render.DrawMolAsWritten | api/utils.py:59-119 | as written, the function fails with NameError exactly for a PNG request with a molecule; otherwise it returns text, "None Mol" when there is no molecule |
| Render.PngAsWrittenFails | api/utils.py:87-93 | as written, every PNG request with a molecule raises NameError |
| Render.SvgCanvasAsWrittenSwapped | api/utils.py:107 | as written, the canvas is `height` wide and `width` tall |
| Render.SvgCanvasAsWrittenCounterexample | api/utils.py:107 | as written, height 100 and width 300 give a canvas 100 wide |
| Render.DrawMolAgreesWhenSquare | api/utils.py:106-119 | the file's SVG and the corrected SVG agree whenever the two sizes are equal |
| Render.CanvasesAgreeWhenSquare | api/utils.py:107 | the canvas as written is the one asked for exactly when the two defaulted sizes are equal |
| Render.DrawMolSvgSize | api/utils.py:106-119 | the corrected SVG is drawn on a `width` by `height` canvas, with `svg:` removed |
| Render.DrawMolDefaultSize | api/utils.py:83-86 | without sizes, or with zero sizes, the SVG canvas is 200 by 200 |
| Render.PngIgnoresSize | api/utils.py:87-102 | the PNG does not depend on the requested height and width |
| Render.DrawMolIgnoresSmiles | api/utils.py:77-78 | with a molecule handed in, the SMILES plays no part |
| Render.PngKeepsColours | api/utils.py:94-102 | each PNG pixel keeps its rasterised colour; only a white pixel's alpha changes |
| Request.Canonical | api/utils.py:203-206 | a failed canonicalisation gives the empty SMILES, otherwise the canonical one |
| Request.OptionalInt | api/utils.py:211-215 | an absent parameter gives None; a present one gives its `int()` value, or a ValueError exactly when it is not an integer |
| Request.ImageType | api/utils.py:223 | the image type is present exactly when `img_type` is in the query, and is then its value |
| Request.Highlights | api/utils.py:216-222 | whatever the source, the colour dict's keys are exactly the highlighted bonds |
| Request.GetParams | api/utils.py:202-235 | a response only when both sizes and the highlights parse, and then it is the drawing of the canonical SMILES with those sizes, that image type and those highlights; a bad height is a ValueError |
| Request.MolView | api/utils.py:238-243 | without `smiles` the answer is "Please insert SMILES"; otherwise the stripped SMILES goes to `get_params` |
| Request.NoHighlightByDefault | api/utils.py:207-222 | without `atom_indices` and `Xe`, no bonds, no colours, and no molecule |
| Request.XenonsOverrideAtomIds | api/utils.py:216-222 | a SMILES containing `Xe` takes the marker highlights and molecule, even when `atom_indices` parsed |
| Request.AtomIdsErrorWins | api/utils.py:216-222 | a failing `atom_indices` is the error even when the SMILES contains `Xe` |
| Request.XenonsMoleculeIsDrawn | api/utils.py:221-232 | with `Xe` the marker-edited molecule is drawn with the marker highlights |
| Request.AtomIdsMoleculeIsDrawn | api/utils.py:216-232 | without `Xe`, the bonds, colours and molecule of `atom_indices` are drawn |
| Request.XenonsHighlightsAreBonds | api/utils.py:216-222 | with `Xe`, every highlighted bond is a bond of the drawn molecule, which has the parsed SMILES's bonds |
| Request.PlainGroupsHighlightsAreBonds | api/utils.py:216-222 | without `Xe` and with no true flag, the parsed SMILES is drawn and every highlighted bond is one of its bonds |
| Request.LastHighlightIsBond | api/utils.py:216-222 | without `Xe`, whatever the flags, the last highlighted bond is a bond of the drawn molecule |
| Request.BadWidthFails | api/utils.py:211-215 | a non-integer width fails once the height parses |
| Request.HighlightErrorFails | api/utils.py:211-222 | a failed highlight parse is the request's error once both sizes parse |
| Request.PlainRequestDefaults | api/utils.py:202-235 | a bare request draws the canonical SMILES as an SVG on a 200 by 200 canvas without highlights, or answers "None Mol" |
| Request.MolViewStrips | api/utils.py:240 | the SMILES passed on is a prefix of the parameter and does not end in `.`, `s`, `v` or `g` |
| Request.MolViewStripsCharacters | api/utils.py:240 | the strip removes characters, not a suffix: `Cs.svg` becomes `C`, and `C.svg.svg` becomes `C` |

## Left out

- The cheminformatics library's internals. Parsing, canonicalisation, SMILES output, adding hydrogens, SVG
  drawing and rasterising are toolkit functions supplied by the caller; `Compute2DCoords` and `Kekulize`, which
  only prepare the molecule for drawing, are not modelled.
- The molecule's other atom properties (charges, coordinates, aromaticity). The model keeps only the atomic
  number, the isotope label and the bonds.
- Record: an atom id outside the molecule, which makes the library raise, is merged with a missing bond into
  one error, `NoBond`.
- Relabel: the IndexError of an empty wildcard list and the IndexError of a wildcard atom without bonds are
  merged into one error, `NoPlaceholder`.
- `_transparentsvg` and `get_token`: XML serialisation and the user database, neither used by the request
  path modelled here.
- `HttpResponse` and PNG encoding. A PNG response is modelled by its pixel list, and text responses by their
  body.
- The atom-highlight parameters of `draw_mol` (`highlightAtoms`, `atomcolors`): the request code never passes
  them, so they are always empty.
- The second, plain `DrawMolecule` call of the SVG branch is part of the toolkit's SVG drawing, not a separate
  step.
- ParseInt: `int()` is modelled as Python 3.6 and later define it, on ASCII digits, ASCII white space, a sign
  and digit-separating underscores. Other Unicode digits and spaces that Python also accepts are not. The
  str-plus-`tostring` concatenation at api/utils.py:56 works only under Python 2, whose `int()` rejects
  underscores: under Python 2 a token such as `1_0` raises ValueError instead of reading as 10.
- Lower: `str.lower()` is modelled on ASCII letters, and every other character is kept. Python also lowers
  non-ASCII letters. Only two of them lower to a string holding an ASCII letter: U+0130 becomes `i` followed by
  U+0307, and U+212A KELVIN SIGN becomes `k`. Neither result is a word of either list, and every other
  non-ASCII character stays non-ASCII, so `Tokens.ParseBool` classifies every token as Python does.
- Colours are triples of reals; the table's integer and 0.5 entries are exact in them, and no arithmetic is
  done on colours.
- AtomIds.AtomIds: bond ids recorded before a group with a true flag are not renumbered when that group
  rebuilds the molecule, so they can name the wrong bond of the molecule that is drawn, or none
  (`AtomIds.StaleBondIds`). The model keeps this behaviour. The lemmas that every highlighted bond is a bond
  of the drawn molecule therefore cover `Xe` requests, groups without a true flag, and the last recorded bond.
- The request code uses the corrected `Render.DrawMol` from the findings below. With the function as written,
  every PNG request with a molecule fails with NameError, and every SVG is drawn with its sizes swapped.

## Findings

| source | as written | input that shows it | evidently intended | confidence | as-written member | corrected member |
|---|---|---|---|---|---|---|
| api/utils.py:90 | the PNG branch passes `options=options`, but the module never defines `options`, so the branch raises NameError before drawing | any request with `img_type=png` and a SMILES that parses | draw with default drawing options and return the PNG with its white background made transparent | high; not executed | Render.PngAsWrittenFails | Render.DrawMol |
| api/utils.py:107 | `MolDraw2DSVG(height, width)` passes the height as the canvas width and the width as its height | `height=100&width=300` gives a canvas 100 wide and 300 tall | a canvas `width` wide and `height` tall | medium (depends on the library's `(width, height)` argument order); not executed | Render.SvgCanvasAsWrittenCounterexample | Render.DrawMolSvgSize |
