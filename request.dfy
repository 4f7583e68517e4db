/**
 * `get_params` and `mol_view` (api/utils.py:202-243): the request's query string chooses the size, the image
 * type and the highlights, and the SMILES is canonicalised, highlighted and drawn.
 *
 * The highlights come from `atom_indices` when it is given; a canonical SMILES containing `Xe` then has its
 * highlights, and the molecule to draw, replaced by those of its marker atoms.
 */
module Request {
  import opened Outcome
  import opened Text
  import opened Tokens
  import opened Chem
  import opened External
  import opened AtomIds
  import opened Xenons
  import opened Render

  /** `request.GET`: the query parameters by name. */
  type Query = map<string, string>

  /** The text returned when the request names no SMILES. */
  const MissingSmilesText: string := "Please insert SMILES"

  /** The characters `rstrip(".svg")` removes from the end of the SMILES. */
  const SvgSuffixChars: set<char> := {'.', 's', 'v', 'g'}

  /** `canon_input(smiles)`, with any exception turned into the empty SMILES. */
  function Canonical(smiles: string, tk: Toolkit): (r: string)
    ensures tk.canon(smiles).None? ==> r == ""
    ensures tk.canon(smiles).Some? ==> r == tk.canon(smiles).value
  {
    match tk.canon(smiles)
    case None => ""
    case Some(c) => c
  }

  /** `int(request.GET[key])` when the key is present, and None otherwise. */
  function OptionalInt(query: Query, key: string): (r: Result<Option<int>>)
    ensures key !in query ==> r == Ok(None)
    ensures key in query ==> (r.Ok? <==> ParseInt(query[key]).Some?)
    ensures key in query && r.Ok? ==> r.value == ParseInt(query[key])
    ensures r.Err? ==> r.error == NotAnInteger
  {
    if key !in query then Ok(None)
    else
      match ParseInt(query[key])
      case None => Err(NotAnInteger)
      case Some(n) => Ok(Some(n))
  }

  /** No highlight: no bonds, no colours, and no molecule, so that the SMILES is parsed for drawing. */
  const NoHighlight: Highlight := Highlight([], map[], None)

  /** The highlights of `get_params` for the canonical SMILES `smiles`: `atom_indices` first, then `Xe`. */
  function Highlights(query: Query, smiles: string, tk: Toolkit): (r: Result<Highlight>)
    ensures r.Ok? ==> forall b :: b in r.value.colours <==> b in r.value.bonds
  {
    var fromIds :=
      if "atom_indices" in query then AtomIds.AtomIds(query["atom_indices"], tk.parse(smiles), tk) else Ok(NoHighlight);
    if fromIds.Err? then fromIds
    else if Contains(smiles, "Xe") then Xenons.Xenons(smiles, tk)
    else fromIds
  }

  /** `request.GET.get("img_type", None)`. */
  function ImageType(query: Query): (r: Option<string>)
    ensures r.Some? <==> "img_type" in query
    ensures r.Some? ==> r.value == query["img_type"]
  {
    if "img_type" in query then Some(query["img_type"]) else None
  }

  /** `get_params(smiles, request)`: a failed `int()` or a failed highlight parse propagates as an error. */
  function GetParams(smiles: string, query: Query, tk: Toolkit): (r: Result<Response>)
    ensures r.Ok? ==> OptionalInt(query, "height").Ok? && OptionalInt(query, "width").Ok?
    ensures r.Ok? ==> Highlights(query, Canonical(smiles, tk), tk).Ok?
    ensures OptionalInt(query, "height").Err? ==> r == Err(NotAnInteger)
    ensures OptionalInt(query, "height").Ok? && OptionalInt(query, "width").Ok? &&
            Highlights(query, Canonical(smiles, tk), tk).Ok? ==>
              var h := Highlights(query, Canonical(smiles, tk), tk).value;
              r == Ok(DrawMol(Canonical(smiles, tk), OptionalInt(query, "height").value,
                              OptionalInt(query, "width").value, ImageType(query), h.bonds, h.colours, h.mol, tk))
  {
    var canonical := Canonical(smiles, tk);
    var height :- OptionalInt(query, "height");
    var width :- OptionalInt(query, "width");
    var h :- Highlights(query, canonical, tk);
    Ok(DrawMol(canonical, height, width, ImageType(query), h.bonds, h.colours, h.mol, tk))
  }

  /** `mol_view(request)`: the `smiles` parameter with its trailing `.`, `s`, `v` and `g` characters removed. */
  function MolView(query: Query, tk: Toolkit): (r: Result<Response>)
    ensures "smiles" !in query ==> r == Ok(Plain(MissingSmilesText))
    ensures "smiles" in query ==> r == GetParams(RStrip(query["smiles"], SvgSuffixChars), query, tk)
  {
    if "smiles" in query then GetParams(RStrip(query["smiles"], SvgSuffixChars), query, tk)
    else Ok(Plain(MissingSmilesText))
  }

  // ---------------------------------------------------------------------------
  // Properties of the dispatch
  // ---------------------------------------------------------------------------

  /** Without `atom_indices` and without `Xe` nothing is highlighted and the SMILES itself is drawn. */
  lemma NoHighlightByDefault(query: Query, smiles: string, tk: Toolkit)
    requires "atom_indices" !in query && !Contains(smiles, "Xe")
    ensures Highlights(query, smiles, tk) == Ok(NoHighlight)
  {
  }

  /** A SMILES containing `Xe` takes its highlights and molecule from its markers, whatever `atom_indices` gave. */
  lemma XenonsOverrideAtomIds(query: Query, smiles: string, tk: Toolkit)
    requires Contains(smiles, "Xe")
    requires "atom_indices" in query ==> AtomIds.AtomIds(query["atom_indices"], tk.parse(smiles), tk).Ok?
    ensures Highlights(query, smiles, tk) == Xenons.Xenons(smiles, tk)
  {
  }

  /** A failing `atom_indices` fails the request before the markers are looked at. */
  lemma AtomIdsErrorWins(query: Query, smiles: string, tk: Toolkit)
    requires "atom_indices" in query && AtomIds.AtomIds(query["atom_indices"], tk.parse(smiles), tk).Err?
    ensures Highlights(query, smiles, tk) == AtomIds.AtomIds(query["atom_indices"], tk.parse(smiles), tk)
  {
  }

  /** A SMILES that contains `Xe` in its canonical form is drawn from the marker-edited molecule. */
  lemma XenonsMoleculeIsDrawn(smiles: string, query: Query, tk: Toolkit)
    requires OptionalInt(query, "height").Ok? && OptionalInt(query, "width").Ok?
    requires Contains(Canonical(smiles, tk), "Xe")
    requires "atom_indices" !in query
    requires Xenons.Xenons(Canonical(smiles, tk), tk).Ok?
    ensures var h := Xenons.Xenons(Canonical(smiles, tk), tk).value;
            GetParams(smiles, query, tk) ==
              Ok(DrawMol(Canonical(smiles, tk), OptionalInt(query, "height").value,
                         OptionalInt(query, "width").value, ImageType(query), h.bonds, h.colours, h.mol, tk))
  {
    XenonsOverrideAtomIds(query, Canonical(smiles, tk), tk);
  }

  /**
   * Without `Xe` in the canonical SMILES, `atom_indices` decides the drawing: its bonds, its colours, and the
   * molecule its last add-hydrogens group left, or the parsed SMILES when it has none.
   */
  lemma AtomIdsMoleculeIsDrawn(smiles: string, query: Query, tk: Toolkit)
    requires OptionalInt(query, "height").Ok? && OptionalInt(query, "width").Ok?
    requires !Contains(Canonical(smiles, tk), "Xe")
    requires "atom_indices" in query
    requires AtomIds.AtomIds(query["atom_indices"], tk.parse(Canonical(smiles, tk)), tk).Ok?
    ensures var h := AtomIds.AtomIds(query["atom_indices"], tk.parse(Canonical(smiles, tk)), tk).value;
            GetParams(smiles, query, tk) ==
              Ok(DrawMol(Canonical(smiles, tk), OptionalInt(query, "height").value,
                         OptionalInt(query, "width").value, ImageType(query), h.bonds, h.colours, h.mol, tk))
  {
  }

  /**
   * With `Xe` in the canonical SMILES every highlighted bond is a bond of the molecule that is drawn, which has
   * the bonds of the parsed SMILES.
   */
  lemma XenonsHighlightsAreBonds(query: Query, smiles: string, tk: Toolkit)
    requires Contains(smiles, "Xe")
    requires "atom_indices" in query ==> AtomIds.AtomIds(query["atom_indices"], tk.parse(smiles), tk).Ok?
    requires Highlights(query, smiles, tk).Ok?
    ensures var h := Highlights(query, smiles, tk).value;
            h.mol.Some? && tk.parse(smiles).Some? && h.mol.value.bonds == tk.parse(smiles).value.bonds &&
            forall k :: 0 <= k < |h.bonds| ==> h.bonds[k] < |h.mol.value.bonds|
  {
    XenonsOverrideAtomIds(query, smiles, tk);
  }

  /**
   * Without `Xe` and without a true flag in `atom_indices`, the parsed SMILES is drawn and every highlighted
   * bond is one of its bonds.
   */
  lemma PlainGroupsHighlightsAreBonds(query: Query, smiles: string, m: Molecule, tk: Toolkit)
    requires !Contains(smiles, "Xe") && tk.parse(smiles) == Some(m)
    requires "atom_indices" in query && NoHydrogenGroups(Split(query["atom_indices"], ','))
    requires Highlights(query, smiles, tk).Ok?
    ensures var h := Highlights(query, smiles, tk).value;
            h.mol == Some(m) && forall k :: 0 <= k < |h.bonds| ==> h.bonds[k] < |m.bonds|
  {
    var tokens := Split(query["atom_indices"], ',');
    PlainGroupsKeepMolecule(tokens, m, tk);
  }

  /**
   * Without `Xe`, whatever the flags, the last highlighted bond is a bond of the molecule that is drawn;
   * earlier ones may not be when a later group rebuilt the molecule.
   */
  lemma LastHighlightIsBond(query: Query, smiles: string, tk: Toolkit)
    requires !Contains(smiles, "Xe") && "atom_indices" in query
    requires Highlights(query, smiles, tk).Ok? && Highlights(query, smiles, tk).value.bonds != []
    ensures var h := Highlights(query, smiles, tk).value;
            h.mol.Some? && h.bonds[|h.bonds| - 1] < |h.mol.value.bonds|
  {
    GroupsLastBondValid(Split(query["atom_indices"], ','), tk.parse(smiles), tk);
  }

  /** The width is parsed after the height: a bad width fails the request only when the height parses. */
  lemma BadWidthFails(smiles: string, query: Query, tk: Toolkit)
    requires OptionalInt(query, "height").Ok?
    requires "width" in query && ParseInt(query["width"]).None?
    ensures GetParams(smiles, query, tk) == Err(NotAnInteger)
  {
  }

  /** A failed highlight parse is the request's error once both sizes parse. */
  lemma HighlightErrorFails(smiles: string, query: Query, tk: Toolkit)
    requires OptionalInt(query, "height").Ok? && OptionalInt(query, "width").Ok?
    requires Highlights(query, Canonical(smiles, tk), tk).Err?
    ensures GetParams(smiles, query, tk) == Err(Highlights(query, Canonical(smiles, tk), tk).error)
  {
  }

  /**
   * A plain request (no size, no image type, no highlight) draws the canonical SMILES as an SVG on a 200 by
   * 200 canvas, or answers "None Mol" when it does not parse.
   */
  lemma PlainRequestDefaults(smiles: string, query: Query, tk: Toolkit)
    requires "height" !in query && "width" !in query && "img_type" !in query && "atom_indices" !in query
    requires !Contains(Canonical(smiles, tk), "Xe")
    ensures var c := Canonical(smiles, tk);
            GetParams(smiles, query, tk) ==
              Ok(match tk.parse(c)
                 case None => Plain(NoMolText)
                 case Some(m) => Plain(RemoveAll(tk.drawSvg(Canvas(200, 200), m, [], map[]), SvgPrefix)))
  {
    NoHighlightByDefault(query, Canonical(smiles, tk), tk);
  }

  /** The SMILES handed on ends in none of `.`, `s`, `v`, `g`, and only such characters were removed. */
  lemma MolViewStrips(query: Query, tk: Toolkit)
    requires "smiles" in query
    ensures var s := RStrip(query["smiles"], SvgSuffixChars);
            s <= query["smiles"] && (s == [] || s[|s| - 1] !in SvgSuffixChars) &&
            MolView(query, tk) == GetParams(s, query, tk)
  {
  }

  /** The strip removes characters, not the suffix `.svg`: `Cs.svg` loses its sulfur as well. */
  lemma MolViewStripsCharacters()
    ensures RStrip("Cs.svg", SvgSuffixChars) == "C"
    ensures RStrip("C.svg.svg", SvgSuffixChars) == "C"
  {
    RStripUnique("Cs.svg", SvgSuffixChars, "C");
    RStripUnique("C.svg.svg", SvgSuffixChars, "C");
  }
}
