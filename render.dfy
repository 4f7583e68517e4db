/**
 * `draw_mol` (api/utils.py:59-116): the molecule to draw is the one handed in or else the parsed SMILES; a
 * missing or zero size becomes 200; a PNG has its white pixels made transparent, and an SVG has every `svg:`
 * removed from its text.
 *
 * `DrawMolAsWritten` is the function as the file has it, with two defects: the PNG branch reads a name the
 * module never defines, and the SVG canvas is built with height and width swapped. `DrawMol` is the function
 * with both corrected, and is what the request code uses.
 */
module Render {
  import opened Outcome
  import opened Text
  import opened Chem
  import opened Image
  import opened External

  /** The size used when a height or width is missing or zero. */
  const DefaultDimension: int := 200

  /** The text returned when there is no molecule to draw. */
  const NoMolText: string := "None Mol"

  /** The namespace prefix removed from the SVG text. */
  const SvgPrefix: string := "svg:"

  /** What `draw_mol` returns: a text body, or a PNG response given by its pixels. */
  datatype Response = Plain(text: string) | Png(pixels: seq<Pixel>)

  /** `if not height: height = 200`: a missing size and a zero size are both falsy. */
  function Dimension(requested: Option<int>): (d: int)
    ensures d != 0
    ensures requested.Some? && requested.value != 0 ==> d == requested.value
    ensures requested.None? || requested == Some(0) ==> d == DefaultDimension
  {
    if requested.None? || requested.value == 0 then DefaultDimension else requested.value
  }

  /** A size that was already defaulted is kept as it is. */
  lemma DimensionIdempotent(requested: Option<int>)
    ensures Dimension(Some(Dimension(requested))) == Dimension(requested)
  {
  }

  /** The default is taken exactly for a missing size, a zero size and a requested 200. */
  lemma DimensionDefault(requested: Option<int>)
    ensures Dimension(requested) == DefaultDimension <==>
            requested.None? || requested.value == 0 || requested.value == DefaultDimension
  {
  }

  /** `if mol is None: mol = Chem.MolFromSmiles(smiles)`. */
  function DrawnMolecule(smiles: string, mol: Option<Molecule>, tk: Toolkit): (r: Option<Molecule>)
    ensures mol.Some? ==> r == mol
    ensures mol.None? ==> r == tk.parse(smiles)
  {
    if mol.Some? then mol else tk.parse(smiles)
  }

  /** The canvas as the file builds it: `MolDraw2DSVG(height, width)`, which makes the height the width. */
  function SvgCanvasAsWritten(height: Option<int>, width: Option<int>): (c: Canvas)
    ensures c.width == Dimension(height) && c.height == Dimension(width)
  {
    Canvas(Dimension(height), Dimension(width))
  }

  /** The canvas the caller asks for: `width` wide and `height` tall, 200 for a missing or zero size. */
  function SvgCanvas(height: Option<int>, width: Option<int>): (c: Canvas)
    ensures c.width == Dimension(width) && c.height == Dimension(height)
  {
    Canvas(Dimension(width), Dimension(height))
  }

  /** `draw_mol` as written: the PNG branch fails on the undefined `options`, and the SVG canvas is swapped. */
  function DrawMolAsWritten(smiles: string, height: Option<int>, width: Option<int>, imgType: Option<string>,
                            bonds: seq<nat>, colours: map<nat, Colour>, mol: Option<Molecule>, tk: Toolkit)
    : (r: Result<Response>)
    ensures r.Err? <==> DrawnMolecule(smiles, mol, tk).Some? && imgType == Some("png")
    ensures r.Err? ==> r.error == UndefinedName
    ensures r.Ok? ==> r.value.Plain?
    ensures DrawnMolecule(smiles, mol, tk).None? ==> r == Ok(Plain(NoMolText))
  {
    match DrawnMolecule(smiles, mol, tk)
    case None => Ok(Plain(NoMolText))
    case Some(m) =>
      if imgType == Some("png") then Err(UndefinedName)
      else Ok(Plain(RemoveAll(tk.drawSvg(SvgCanvasAsWritten(height, width), m, bonds, colours), SvgPrefix)))
  }

  /** `draw_mol` with the drawing options defined and the canvas built as `MolDraw2DSVG(width, height)`. */
  function DrawMol(smiles: string, height: Option<int>, width: Option<int>, imgType: Option<string>,
                   bonds: seq<nat>, colours: map<nat, Colour>, mol: Option<Molecule>, tk: Toolkit): (r: Response)
    ensures DrawnMolecule(smiles, mol, tk).None? ==> r == Plain(NoMolText)
    ensures r.Png? <==> DrawnMolecule(smiles, mol, tk).Some? && imgType == Some("png")
    ensures r.Png? ==> |r.pixels| == |tk.rasterise(DrawnMolecule(smiles, mol, tk).value, bonds, colours)|
    ensures r.Png? ==> forall i :: 0 <= i < |r.pixels| && IsWhite(r.pixels[i]) ==> r.pixels[i].alpha == 0
  {
    match DrawnMolecule(smiles, mol, tk)
    case None => Plain(NoMolText)
    case Some(m) =>
      if imgType == Some("png") then Png(Transparented(tk.rasterise(m, bonds, colours)))
      else Plain(RemoveAll(tk.drawSvg(SvgCanvas(height, width), m, bonds, colours), SvgPrefix))
  }

  // ---------------------------------------------------------------------------
  // The defects of the file, and the corrected function
  // ---------------------------------------------------------------------------

  /** Every PNG request with a molecule fails: `options` is never defined in the module. */
  lemma PngAsWrittenFails(smiles: string, height: Option<int>, width: Option<int>, bonds: seq<nat>,
                          colours: map<nat, Colour>, mol: Option<Molecule>, tk: Toolkit)
    requires DrawnMolecule(smiles, mol, tk).Some?
    ensures DrawMolAsWritten(smiles, height, width, Some("png"), bonds, colours, mol, tk) == Err(UndefinedName)
  {
  }

  /** The canvas as written is `height` wide and `width` tall. */
  lemma SvgCanvasAsWrittenSwapped(height: Option<int>, width: Option<int>)
    ensures SvgCanvasAsWritten(height, width).width == Dimension(height)
    ensures SvgCanvasAsWritten(height, width).height == Dimension(width)
    ensures SvgCanvasAsWritten(height, width) == SvgCanvas(width, height)
  {
  }

  /** A request for a 300 wide, 100 tall image gets a canvas 100 wide and 300 tall. */
  lemma SvgCanvasAsWrittenCounterexample()
    ensures SvgCanvasAsWritten(Some(100), Some(300)) == Canvas(100, 300)
    ensures SvgCanvas(Some(100), Some(300)) == Canvas(300, 100)
  {
  }

  /** The two versions draw the same SVG when the swap cannot be seen: for a square canvas. */
  lemma DrawMolAgreesWhenSquare(smiles: string, height: Option<int>, width: Option<int>, imgType: Option<string>,
                                bonds: seq<nat>, colours: map<nat, Colour>, mol: Option<Molecule>, tk: Toolkit)
    requires imgType != Some("png") && Dimension(height) == Dimension(width)
    ensures DrawMolAsWritten(smiles, height, width, imgType, bonds, colours, mol, tk) ==
            Ok(DrawMol(smiles, height, width, imgType, bonds, colours, mol, tk))
  {
  }

  /** The canvas as written is the one asked for exactly when it is square. */
  lemma CanvasesAgreeWhenSquare(height: Option<int>, width: Option<int>)
    ensures SvgCanvasAsWritten(height, width) == SvgCanvas(height, width) <==> Dimension(height) == Dimension(width)
  {
  }

  /** The corrected SVG is drawn `width` wide and `height` tall, each 200 when missing or zero. */
  lemma DrawMolSvgSize(smiles: string, height: Option<int>, width: Option<int>, imgType: Option<string>,
                       bonds: seq<nat>, colours: map<nat, Colour>, m: Molecule, tk: Toolkit)
    requires imgType != Some("png")
    ensures DrawMol(smiles, height, width, imgType, bonds, colours, Some(m), tk) ==
            Plain(RemoveAll(tk.drawSvg(Canvas(Dimension(width), Dimension(height)), m, bonds, colours), SvgPrefix))
  {
  }

  /** With no size asked for, the SVG is drawn on a 200 by 200 canvas. */
  lemma DrawMolDefaultSize(smiles: string, imgType: Option<string>, bonds: seq<nat>, colours: map<nat, Colour>,
                           m: Molecule, tk: Toolkit)
    requires imgType != Some("png")
    ensures DrawMol(smiles, None, None, imgType, bonds, colours, Some(m), tk) ==
            Plain(RemoveAll(tk.drawSvg(Canvas(200, 200), m, bonds, colours), SvgPrefix))
    ensures DrawMol(smiles, Some(0), Some(0), imgType, bonds, colours, Some(m), tk) ==
            DrawMol(smiles, None, None, imgType, bonds, colours, Some(m), tk)
  {
  }

  /** The PNG is rendered at the toolkit's own size: the requested height and width play no part. */
  lemma PngIgnoresSize(smiles: string, h1: Option<int>, w1: Option<int>, h2: Option<int>, w2: Option<int>,
                       bonds: seq<nat>, colours: map<nat, Colour>, mol: Option<Molecule>, tk: Toolkit)
    ensures DrawMol(smiles, h1, w1, Some("png"), bonds, colours, mol, tk) ==
            DrawMol(smiles, h2, w2, Some("png"), bonds, colours, mol, tk)
  {
  }

  /** A molecule handed in is drawn whatever the SMILES says. */
  lemma DrawMolIgnoresSmiles(s1: string, s2: string, height: Option<int>, width: Option<int>,
                             imgType: Option<string>, bonds: seq<nat>, colours: map<nat, Colour>, m: Molecule,
                             tk: Toolkit)
    ensures DrawMol(s1, height, width, imgType, bonds, colours, Some(m), tk) ==
            DrawMol(s2, height, width, imgType, bonds, colours, Some(m), tk)
  {
  }

  /** Drawing a PNG keeps every pixel's colour and only clears the alpha of white pixels. */
  lemma PngKeepsColours(smiles: string, height: Option<int>, width: Option<int>, bonds: seq<nat>,
                        colours: map<nat, Colour>, m: Molecule, tk: Toolkit, i: nat)
    requires i < |tk.rasterise(m, bonds, colours)|
    ensures var r := DrawMol(smiles, height, width, Some("png"), bonds, colours, Some(m), tk);
            var p := tk.rasterise(m, bonds, colours)[i];
            r.Png? && r.pixels[i].red == p.red && r.pixels[i].green == p.green && r.pixels[i].blue == p.blue &&
            (r.pixels[i].alpha != p.alpha ==> IsWhite(p))
  {
    TransparentedKeepsColours(tk.rasterise(m, bonds, colours), i);
  }
}
