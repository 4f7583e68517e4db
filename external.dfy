/**
 * The cheminformatics and drawing calls the request code makes. Their behaviour is not visible to this
 * model, so each is a function handed in by the caller: every result of the model holds for any choice.
 */
module External {
  import opened Outcome
  import opened Chem
  import opened Image

  /** The drawing area of `MolDraw2DSVG(width, height)`: the first argument is the width. */
  datatype Canvas = Canvas(width: int, height: int)

  datatype Toolkit = Toolkit(
    /** `Chem.MolFromSmiles`: None when the SMILES does not parse. */
    parse: string -> Option<Molecule>,
    /** `canon_input`: None when it raises. */
    canon: string -> Option<string>,
    /** `Chem.MolToSmiles`. */
    toSmiles: Molecule -> string,
    /** `AllChem.AddHs`: the molecule with explicit hydrogens appended. */
    addHs: Molecule -> Molecule,
    /**
     * On a `MolDraw2DSVG` canvas without background clearing: `DrawMolecule` with the bond highlights, then
     * `DrawMolecule` once more without them, `FinishDrawing()`, and `GetDrawingText()`.
     */
    drawSvg: (Canvas, Molecule, seq<nat>, map<nat, Colour>) -> string,
    /** `Draw.MolToImage` with the highlights, converted to RGBA, then `getdata()`. */
    rasterise: (Molecule, seq<nat>, map<nat, Colour>) -> seq<Pixel>
  )
}
