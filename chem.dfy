/**
 * The molecule as the highlight code sees it, the isotope colour table ISO_COLOUR_MAP (api/utils.py:14-23),
 * and the highlight a parser hands to the renderer.
 */
module Chem {
  import opened Outcome

  /** An atom: its atomic number and its isotope label. */
  datatype Atom = Atom(atomicNum: nat, isotope: nat)

  /** A bond between the atoms at indices `begin` and `end`. */
  datatype Bond = Bond(begin: nat, end: nat)

  /** Atoms and bonds are numbered by their position; atom and bond ids are these indices. */
  datatype Molecule = Molecule(atoms: seq<Atom>, bonds: seq<Bond>)

  const Hydrogen: nat := 1
  /** The element used as an attachment-point marker. */
  const Xenon: nat := 54
  /** `Atom(0)`: the wildcard atom `*`, with no isotope label. */
  const Wildcard: Atom := Atom(0, 0)

  /** Every bond joins two atoms of the molecule. */
  predicate WellFormed(m: Molecule)
  {
    forall k :: 0 <= k < |m.bonds| ==> m.bonds[k].begin < |m.atoms| && m.bonds[k].end < |m.atoms|
  }

  // ---------------------------------------------------------------------------
  // Colours
  // ---------------------------------------------------------------------------

  /** An RGB triple with components in [0, 1]. */
  datatype Colour = Colour(red: real, green: real, blue: real)

  /** ISO_COLOUR_MAP: isotope label to highlight colour. */
  const IsoColourMap: map<int, Colour> := map[
    100 := Colour(1.0, 0.0, 0.0),
    101 := Colour(0.0, 1.0, 0.0),
    102 := Colour(0.0, 0.0, 1.0),
    103 := Colour(1.0, 0.0, 1.0),
    104 := Colour(1.0, 1.0, 0.0),
    105 := Colour(0.0, 1.0, 1.0),
    106 := Colour(0.5, 0.5, 0.5),
    107 := Colour(1.0, 0.5, 1.0)
  ]

  /** The label whose colour a lone marker atom gets, whatever its own label. */
  const SingleMarkerIsotope: int := 101

  /** The table is defined exactly on the labels 100 to 107. */
  lemma IsoColourMapKeys(iso: int)
    ensures iso in IsoColourMap <==> 100 <= iso <= 107
  {
  }

  /** Different labels give different colours. */
  lemma IsoColourMapInjective(a: int, b: int)
    requires a in IsoColourMap && b in IsoColourMap && a != b
    ensures IsoColourMap[a] != IsoColourMap[b]
  {
  }

  /** Every component of every colour of the table lies in [0, 1]. */
  lemma IsoColourMapInUnitCube(iso: int)
    requires iso in IsoColourMap
    ensures 0.0 <= IsoColourMap[iso].red <= 1.0
    ensures 0.0 <= IsoColourMap[iso].green <= 1.0
    ensures 0.0 <= IsoColourMap[iso].blue <= 1.0
  {
  }

  // ---------------------------------------------------------------------------
  // Bond lookups
  // ---------------------------------------------------------------------------

  predicate Joins(b: Bond, i: int, j: int)
  {
    (b.begin == i && b.end == j) || (b.begin == j && b.end == i)
  }

  predicate Touches(b: Bond, i: int)
  {
    b.begin == i || b.end == i
  }

  /** The lowest index at or after `from` of a bond joining atoms `i` and `j`. */
  function JoiningFrom(bonds: seq<Bond>, i: int, j: int, from: nat): (r: Option<nat>)
    requires from <= |bonds|
    ensures r.Some? ==> from <= r.value < |bonds| && Joins(bonds[r.value], i, j)
    decreases |bonds| - from
  {
    if from == |bonds| then None
    else if Joins(bonds[from], i, j) then Some(from)
    else JoiningFrom(bonds, i, j, from + 1)
  }

  /** The search misses no bond: it finds the first joining bond, and finds none only when there is none. */
  lemma {:induction false} JoiningFromFirst(bonds: seq<Bond>, i: int, j: int, from: nat)
    requires from <= |bonds|
    ensures var r := JoiningFrom(bonds, i, j, from);
            (r.Some? ==> forall k :: from <= k < r.value ==> !Joins(bonds[k], i, j)) &&
            (r.None? ==> forall k :: from <= k < |bonds| ==> !Joins(bonds[k], i, j))
    decreases |bonds| - from
  {
    if from < |bonds| && !Joins(bonds[from], i, j) {
      JoiningFromFirst(bonds, i, j, from + 1);
    }
  }

  /** `mol.GetBondBetweenAtoms(i, j).GetIdx()`: the bond joining atoms `i` and `j`, if both exist and are bonded. */
  function BondBetween(m: Molecule, i: int, j: int): (r: Option<nat>)
    ensures r.Some? ==> r.value < |m.bonds| && Joins(m.bonds[r.value], i, j) && 0 <= i < |m.atoms| && 0 <= j < |m.atoms|
  {
    if 0 <= i < |m.atoms| && 0 <= j < |m.atoms| then JoiningFrom(m.bonds, i, j, 0) else None
  }

  /** The lookup finds a bond whenever the two atoms exist and some bond joins them. */
  lemma BondBetweenComplete(m: Molecule, i: int, j: int, k: nat)
    requires 0 <= i < |m.atoms| && 0 <= j < |m.atoms| && k < |m.bonds| && Joins(m.bonds[k], i, j)
    ensures BondBetween(m, i, j).Some? && BondBetween(m, i, j).value <= k
  {
    JoiningFromFirst(m.bonds, i, j, 0);
  }

  /** The lowest index at or after `from` of a bond touching atom `i`. */
  function TouchingFrom(bonds: seq<Bond>, i: int, from: nat): (r: Option<nat>)
    requires from <= |bonds|
    ensures r.Some? ==> from <= r.value < |bonds| && Touches(bonds[r.value], i)
    decreases |bonds| - from
  {
    if from == |bonds| then None
    else if Touches(bonds[from], i) then Some(from)
    else TouchingFrom(bonds, i, from + 1)
  }

  /** `atom.GetBonds()[0].GetIdx()`: the first bond of atom `i`, the one of lowest index. */
  function FirstBond(m: Molecule, i: nat): (r: Option<nat>)
    ensures r.Some? ==> r.value < |m.bonds| && Touches(m.bonds[r.value], i)
  {
    TouchingFrom(m.bonds, i, 0)
  }

  lemma {:induction false} TouchingFromFirst(bonds: seq<Bond>, i: int, from: nat)
    requires from <= |bonds|
    ensures var r := TouchingFrom(bonds, i, from);
            (r.Some? ==> forall k :: from <= k < r.value ==> !Touches(bonds[k], i)) &&
            (r.None? ==> forall k :: from <= k < |bonds| ==> !Touches(bonds[k], i))
    decreases |bonds| - from
  {
    if from < |bonds| && !Touches(bonds[from], i) {
      TouchingFromFirst(bonds, i, from + 1);
    }
  }

  /** The first bond of an atom is the bond of lowest index touching it; an atom has none only when no bond touches it. */
  lemma FirstBondLowest(m: Molecule, i: nat)
    ensures FirstBond(m, i).Some? ==> forall k :: 0 <= k < FirstBond(m, i).value ==> !Touches(m.bonds[k], i)
    ensures FirstBond(m, i).None? <==> forall k :: 0 <= k < |m.bonds| ==> !Touches(m.bonds[k], i)
  {
    TouchingFromFirst(m.bonds, i, 0);
  }

  /** `[a.GetIdx() for a in mol.GetAtoms() if a.GetAtomicNum() == num]`. */
  function AtomsNumbered(atoms: seq<Atom>, num: nat): (r: seq<nat>)
    ensures forall k :: 0 <= k < |r| ==> r[k] < |atoms| && atoms[r[k]].atomicNum == num
    ensures forall k, l :: 0 <= k < l < |r| ==> r[k] < r[l]
    ensures forall i :: 0 <= i < |atoms| && atoms[i].atomicNum == num ==> i in r
    decreases |atoms|
  {
    if atoms == [] then []
    else
      var before := AtomsNumbered(atoms[..|atoms| - 1], num);
      if atoms[|atoms| - 1].atomicNum == num then before + [|atoms| - 1] else before
  }

  /** No atom has the number: the list is empty. */
  lemma {:induction false} AtomsNumberedNone(atoms: seq<Atom>, num: nat)
    requires forall i :: 0 <= i < |atoms| ==> atoms[i].atomicNum != num
    ensures AtomsNumbered(atoms, num) == []
    decreases |atoms|
  {
    if atoms != [] {
      AtomsNumberedNone(atoms[..|atoms| - 1], num);
    }
  }

  // ---------------------------------------------------------------------------
  // Highlights
  // ---------------------------------------------------------------------------

  /** What a parser returns: bond ids in order, a colour per bond id, and the molecule to draw. */
  datatype Highlight = Highlight(bonds: seq<nat>, colours: map<nat, Colour>, mol: Option<Molecule>)

  /** One recorded highlight: a bond id and its colour. */
  type Entry = (nat, Colour)

  /** The bond ids of the entries, in order (`bond_ids.append(...)`). */
  function BondsOf(entries: seq<Entry>): seq<nat>
  {
    seq(|entries|, k requires 0 <= k < |entries| => entries[k].0)
  }

  /** The dict built by `bond_colours[bond] = colour` for each entry in order: its keys are the entries' bond ids. */
  function LastWins(entries: seq<Entry>): (m: map<nat, Colour>)
    ensures forall b :: b in m <==> b in BondsOf(entries)
    decreases |entries|
  {
    if entries == [] then map[]
    else
      var before := entries[..|entries| - 1];
      var last := entries[|entries| - 1];
      assert BondsOf(entries) == BondsOf(before) + [last.0];
      LastWins(before)[last.0 := last.1]
  }

  /** Recording one more entry appends its bond id and overwrites that bond's colour. */
  lemma RecordOneMore(entries: seq<Entry>, e: Entry)
    ensures BondsOf(entries + [e]) == BondsOf(entries) + [e.0]
    ensures LastWins(entries + [e]) == LastWins(entries)[e.0 := e.1]
  {
    assert (entries + [e])[..|entries|] == entries;
  }

  /** A bond keeps the colour of the last entry recorded for it. */
  lemma {:induction false} LastWinsValue(entries: seq<Entry>, k: nat)
    requires k < |entries| && LastFor(entries, k)
    ensures entries[k].0 in LastWins(entries) && LastWins(entries)[entries[k].0] == entries[k].1
    decreases |entries|
  {
    var before := entries[..|entries| - 1];
    if k < |before| {
      assert before[k] == entries[k];
      assert LastFor(before, k);
      LastWinsValue(before, k);
    }
  }

  /** No entry after the `k`-th is for the same bond. */
  predicate LastFor(entries: seq<Entry>, k: nat)
    requires k < |entries|
  {
    forall l :: k < l < |entries| ==> entries[l].0 != entries[k].0
  }
}
