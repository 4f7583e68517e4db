/**
 * `parse_xenons` (api/utils.py:185-199): every xenon atom of a SMILES marks an attachment point. The first bond
 * of each marker is highlighted, coloured by the marker's isotope label when there are several markers and by
 * the colour of label 101 when there is one, and every marker is replaced by a wildcard atom.
 */
module Xenons {
  import opened Outcome
  import opened Chem
  import opened External

  /** Every index of `xs` is an atom of `m`. */
  predicate AtomsOf(m: Molecule, xs: seq<nat>)
  {
    forall k :: 0 <= k < |xs| ==> xs[k] < |m.atoms|
  }

  /** The isotope label whose colour marker `x` gets (api/utils.py:194-197). */
  function MarkerIsotope(m: Molecule, x: nat, several: bool): int
    requires x < |m.atoms|
  {
    if several then m.atoms[x].isotope else SingleMarkerIsotope
  }

  /** One pass of the loop for marker `x`: the index of its first bond and that bond's colour. */
  function MarkerEntry(m: Molecule, x: nat, several: bool): (r: Result<Entry>)
    requires x < |m.atoms|
    ensures r.Ok? <==> FirstBond(m, x).Some? && MarkerIsotope(m, x, several) in IsoColourMap
    ensures r.Ok? ==> r.value.0 < |m.bonds| && Touches(m.bonds[r.value.0], x)
  {
    match FirstBond(m, x)
    case None => Err(MarkerWithoutBond)
    case Some(b) =>
      var iso := MarkerIsotope(m, x, several);
      if iso in IsoColourMap then Ok((b, IsoColourMap[iso])) else Err(UnknownIsotope)
  }

  /** The entries of the markers `xs`, in order; the first marker that fails stops the loop with its error. */
  function MarkerEntries(m: Molecule, xs: seq<nat>, several: bool): (r: Result<seq<Entry>>)
    requires AtomsOf(m, xs)
    ensures r.Ok? ==> |r.value| == |xs|
    decreases |xs|
  {
    if xs == [] then Ok([])
    else
      match MarkerEntries(m, xs[..|xs| - 1], several)
      case Err(e) => Err(e)
      case Ok(before) =>
        match MarkerEntry(m, xs[|xs| - 1], several)
        case Err(e) => Err(e)
        case Ok(e) => Ok(before + [e])
  }

  /** The atoms after `e_mol.ReplaceAtom(x, Atom(0))` for each marker `x` of `xs` in turn. */
  function Replaced(atoms: seq<Atom>, xs: seq<nat>): (r: seq<Atom>)
    requires forall k :: 0 <= k < |xs| ==> xs[k] < |atoms|
    ensures |r| == |atoms|
    decreases |xs|
  {
    if xs == [] then atoms
    else Replaced(atoms, xs[..|xs| - 1])[xs[|xs| - 1] := Wildcard]
  }

  /** `parse_xenons` on a parsed molecule: bond ids, colours, and the molecule with its markers replaced. */
  function XenonsOf(m: Molecule): (r: Result<Highlight>)
    ensures r.Ok? ==> |r.value.bonds| == |AtomsNumbered(m.atoms, Xenon)|
    ensures r.Ok? ==> forall b :: b in r.value.colours <==> b in r.value.bonds
  {
    var xs := AtomsNumbered(m.atoms, Xenon);
    match MarkerEntries(m, xs, |xs| > 1)
    case Err(e) => Err(e)
    case Ok(es) => Ok(Highlight(BondsOf(es), LastWins(es), Some(Molecule(Replaced(m.atoms, xs), m.bonds))))
  }

  /** `parse_xenons(input_smi)`: a SMILES that does not parse fails in `EditableMol`. */
  function Xenons(smiles: string, tk: Toolkit): (r: Result<Highlight>)
    ensures tk.parse(smiles).None? ==> r == Err(NoMolecule)
    ensures tk.parse(smiles).Some? ==> r == XenonsOf(tk.parse(smiles).value)
    ensures r.Ok? ==> r.value.mol.Some? && r.value.mol.value.bonds == tk.parse(smiles).value.bonds &&
                      forall k :: 0 <= k < |r.value.bonds| ==> r.value.bonds[k] < |r.value.mol.value.bonds|
  {
    match tk.parse(smiles)
    case None => Err(NoMolecule)
    case Some(m) =>
      if XenonsOf(m).Err? then XenonsOf(m)
      else
        XenonsBondsValid(m);
        XenonsOf(m)
  }

  // ---------------------------------------------------------------------------
  // The loop of the source
  // ---------------------------------------------------------------------------

  /** api/utils.py:185-199, marker by marker: appends the bond id, sets its colour, then edits the atom. */
  method ParseXenons(smiles: string, tk: Toolkit) returns (r: Result<Highlight>)
    ensures r == Xenons(smiles, tk)
  {
    var parsed := tk.parse(smiles);
    if parsed.None? {
      return Err(NoMolecule);
    }
    var mol := parsed.value;
    var atoms := mol.atoms;
    var xenons := AtomsNumbered(mol.atoms, Xenon);
    var several := |xenons| > 1;
    var bondIds: seq<nat> := [];
    var colours: map<nat, Colour> := map[];
    ghost var entries: seq<Entry> := [];
    for k := 0 to |xenons|
      invariant MarkerEntries(mol, xenons[..k], several) == Ok(entries)
      invariant bondIds == BondsOf(entries) && colours == LastWins(entries)
      invariant atoms == Replaced(mol.atoms, xenons[..k])
    {
      var x := xenons[k];
      var bond := FirstBond(mol, x);
      if bond.None? {
        MarkerFails(mol, xenons, k, entries);
        return Err(MarkerWithoutBond);
      }
      bondIds := bondIds + [bond.value];
      var iso := if several then mol.atoms[x].isotope else SingleMarkerIsotope;
      if iso !in IsoColourMap {
        MarkerFails(mol, xenons, k, entries);
        return Err(UnknownIsotope);
      }
      colours := colours[bond.value := IsoColourMap[iso]];
      atoms := atoms[x := Wildcard];
      MarkerDone(mol, xenons, k, entries);
      RecordOneMore(entries, (bond.value, IsoColourMap[iso]));
      entries := entries + [(bond.value, IsoColourMap[iso])];
    }
    MarkersDone(mol, xenons, entries);
    r := Ok(Highlight(bondIds, colours, Some(Molecule(atoms, mol.bonds))));
  }

  /** A marker whose entry fails makes the whole call fail with that error. */
  lemma MarkerFails(m: Molecule, xs: seq<nat>, k: nat, entries: seq<Entry>)
    requires xs == AtomsNumbered(m.atoms, Xenon) && k < |xs|
    requires MarkerEntries(m, xs[..k], |xs| > 1) == Ok(entries) && MarkerEntry(m, xs[k], |xs| > 1).Err?
    ensures XenonsOf(m) == Err(MarkerEntry(m, xs[k], |xs| > 1).error)
  {
    PrefixStep(m, xs, k, |xs| > 1);
    MarkerEntriesStop(m, xs, k + 1, |xs| > 1);
  }

  /** A marker whose entry succeeds extends the entries and edits its atom. */
  lemma MarkerDone(m: Molecule, xs: seq<nat>, k: nat, entries: seq<Entry>)
    requires xs == AtomsNumbered(m.atoms, Xenon) && k < |xs|
    requires MarkerEntries(m, xs[..k], |xs| > 1) == Ok(entries) && MarkerEntry(m, xs[k], |xs| > 1).Ok?
    ensures MarkerEntries(m, xs[..k + 1], |xs| > 1) == Ok(entries + [MarkerEntry(m, xs[k], |xs| > 1).value])
    ensures Replaced(m.atoms, xs[..k + 1]) == Replaced(m.atoms, xs[..k])[xs[k] := Wildcard]
  {
    PrefixStep(m, xs, k, |xs| > 1);
  }

  /** After the last marker the call returns what the loop built. */
  lemma MarkersDone(m: Molecule, xs: seq<nat>, entries: seq<Entry>)
    requires xs == AtomsNumbered(m.atoms, Xenon) && MarkerEntries(m, xs[..|xs|], |xs| > 1) == Ok(entries)
    ensures XenonsOf(m) == Ok(Highlight(BondsOf(entries), LastWins(entries),
                                        Some(Molecule(Replaced(m.atoms, xs[..|xs|]), m.bonds))))
  {
    assert xs[..|xs|] == xs;
  }

  /** The first `k + 1` markers are the first `k` followed by marker `k`. */
  lemma PrefixStep(m: Molecule, xs: seq<nat>, k: nat, several: bool)
    requires AtomsOf(m, xs) && k < |xs|
    ensures AtomsOf(m, xs[..k + 1]) && xs[..k + 1][..k] == xs[..k] && xs[..k + 1][k] == xs[k]
    ensures MarkerEntries(m, xs[..k + 1], several) ==
            match MarkerEntries(m, xs[..k], several)
            case Err(e) => Err(e)
            case Ok(before) =>
              match MarkerEntry(m, xs[k], several)
              case Err(e) => Err(e)
              case Ok(e) => Ok(before + [e])
    ensures Replaced(m.atoms, xs[..k + 1]) == Replaced(m.atoms, xs[..k])[xs[k] := Wildcard]
  {
    assert xs[..k + 1][..k] == xs[..k];
  }

  /** A marker that fails stops the whole loop with its error. */
  lemma {:induction false} MarkerEntriesStop(m: Molecule, xs: seq<nat>, k: nat, several: bool)
    requires AtomsOf(m, xs) && k <= |xs| && MarkerEntries(m, xs[..k], several).Err?
    ensures MarkerEntries(m, xs, several) == MarkerEntries(m, xs[..k], several)
    decreases |xs| - k
  {
    if k < |xs| {
      PrefixStep(m, xs, k, several);
      MarkerEntriesStop(m, xs, k + 1, several);
    } else {
      assert xs[..k] == xs;
    }
  }

  // ---------------------------------------------------------------------------
  // Properties
  // ---------------------------------------------------------------------------

  /** The loop succeeds exactly when every marker does, and then entry `k` is marker `k`'s. */
  lemma {:induction false} MarkerEntriesEach(m: Molecule, xs: seq<nat>, several: bool)
    requires AtomsOf(m, xs)
    ensures MarkerEntries(m, xs, several).Ok? <==> forall k :: 0 <= k < |xs| ==> MarkerEntry(m, xs[k], several).Ok?
    ensures MarkerEntries(m, xs, several).Ok? ==>
              forall k :: 0 <= k < |xs| ==> MarkerEntries(m, xs, several).value[k] == MarkerEntry(m, xs[k], several).value
    decreases |xs|
  {
    if xs != [] {
      var before := xs[..|xs| - 1];
      MarkerEntriesEach(m, before, several);
      assert forall k :: 0 <= k < |before| ==> before[k] == xs[k];
    }
  }

  /** The markers `xs` all pass exactly when each has a bond and, with `several`, each label is in the table. */
  lemma MarkersOk(m: Molecule, xs: seq<nat>, several: bool)
    requires AtomsOf(m, xs)
    ensures MarkerEntries(m, xs, several).Ok? <==>
              (forall k :: 0 <= k < |xs| ==> FirstBond(m, xs[k]).Some?) &&
              (several ==> forall k :: 0 <= k < |xs| ==> 100 <= m.atoms[xs[k]].isotope <= 107)
  {
    MarkerEntriesEach(m, xs, several);
    if MarkerEntries(m, xs, several).Ok? {
      forall k | 0 <= k < |xs|
        ensures FirstBond(m, xs[k]).Some? && (several ==> 100 <= m.atoms[xs[k]].isotope <= 107)
      {
        IsoColourMapKeys(MarkerIsotope(m, xs[k], several));
      }
    } else {
      var k :| 0 <= k < |xs| && MarkerEntry(m, xs[k], several).Err?;
      IsoColourMapKeys(MarkerIsotope(m, xs[k], several));
    }
  }

  /**
   * The call succeeds exactly when every marker has a bond and, when there are several markers, every marker's
   * isotope label is in the colour table; a lone marker is coloured whatever its label.
   */
  lemma XenonsOfOk(m: Molecule)
    ensures var xs := AtomsNumbered(m.atoms, Xenon);
            XenonsOf(m).Ok? <==>
              (forall k :: 0 <= k < |xs| ==> FirstBond(m, xs[k]).Some?) &&
              (|xs| > 1 ==> forall k :: 0 <= k < |xs| ==> 100 <= m.atoms[xs[k]].isotope <= 107)
  {
    var xs := AtomsNumbered(m.atoms, Xenon);
    MarkersOk(m, xs, |xs| > 1);
  }

  /**
   * On success, bond `k` is the first bond of the `k`-th marker in atom order, coloured by that marker's label
   * when there are several markers and by the colour of label 101 otherwise.
   */
  lemma XenonsOfEntries(m: Molecule, k: nat)
    requires XenonsOf(m).Ok?
    ensures var xs := AtomsNumbered(m.atoms, Xenon);
            var es := MarkerEntries(m, xs, |xs| > 1).value;
            k < |xs| ==>
              XenonsOf(m).value.bonds[k] == es[k].0 && FirstBond(m, xs[k]) == Some(es[k].0) &&
              var iso := if |xs| > 1 then m.atoms[xs[k]].isotope else 101;
              iso in IsoColourMap && es[k].1 == IsoColourMap[iso]
  {
    var xs := AtomsNumbered(m.atoms, Xenon);
    var es := MarkerEntries(m, xs, |xs| > 1).value;
    MarkerEntriesEach(m, xs, |xs| > 1);
    assert XenonsOf(m).value.bonds == BondsOf(es);
  }

  /**
   * On success every highlighted bond is a bond of the returned molecule, which has the bonds of the parsed
   * molecule: the markers are edited in place, never removed.
   */
  lemma XenonsBondsValid(m: Molecule)
    requires XenonsOf(m).Ok?
    ensures var h := XenonsOf(m).value;
            h.mol.Some? && h.mol.value.bonds == m.bonds && forall k :: 0 <= k < |h.bonds| ==> h.bonds[k] < |m.bonds|
  {
    var xs := AtomsNumbered(m.atoms, Xenon);
    var es := MarkerEntries(m, xs, |xs| > 1).value;
    MarkerEntriesEach(m, xs, |xs| > 1);
    assert XenonsOf(m).value.bonds == BondsOf(es);
  }

  /**
   * In the returned dict, the bond of marker `k` has marker `k`'s colour, unless a later marker has the same
   * first bond and overwrites it.
   */
  lemma XenonsColours(m: Molecule, k: nat)
    requires XenonsOf(m).Ok?
    requires var xs := AtomsNumbered(m.atoms, Xenon);
             k < |xs| && forall l :: k < l < |xs| ==> FirstBond(m, xs[l]) != FirstBond(m, xs[k])
    ensures var xs := AtomsNumbered(m.atoms, Xenon);
            var h := XenonsOf(m).value;
            var iso := if |xs| > 1 then m.atoms[xs[k]].isotope else SingleMarkerIsotope;
            k < |h.bonds| && h.bonds[k] in h.colours && iso in IsoColourMap && h.colours[h.bonds[k]] == IsoColourMap[iso]
  {
    var xs := AtomsNumbered(m.atoms, Xenon);
    var es := MarkerEntries(m, xs, |xs| > 1).value;
    MarkerEntriesEach(m, xs, |xs| > 1);
    assert XenonsOf(m).value.bonds == BondsOf(es) && XenonsOf(m).value.colours == LastWins(es);
    assert LastFor(es, k);
    LastWinsValue(es, k);
  }

  /** A single marker: one bond, its first bond, coloured green whatever the marker's label. */
  lemma SingleMarker(m: Molecule)
    requires |AtomsNumbered(m.atoms, Xenon)| == 1
    requires FirstBond(m, AtomsNumbered(m.atoms, Xenon)[0]).Some?
    ensures var b := FirstBond(m, AtomsNumbered(m.atoms, Xenon)[0]).value;
            XenonsOf(m).Ok? && XenonsOf(m).value.bonds == [b] &&
            XenonsOf(m).value.colours == map[b := Colour(0.0, 1.0, 0.0)]
  {
    var xs := AtomsNumbered(m.atoms, Xenon);
    assert xs[..|xs| - 1] == [];
    var e := MarkerEntry(m, xs[0], false).value;
    assert MarkerEntries(m, xs[..|xs| - 1], false) == Ok([]);
    assert [] + [e] == [e];
    assert MarkerEntries(m, xs, false) == Ok([e]);
    assert LastWins([e]) == LastWins([])[e.0 := e.1];
  }

  /**
   * With several markers, two markers with different labels get different colours in the returned dict, when
   * no later marker shares the first bond of either.
   */
  lemma SeveralMarkersDistinctColours(m: Molecule, k: nat, l: nat)
    requires XenonsOf(m).Ok?
    requires var xs := AtomsNumbered(m.atoms, Xenon);
             |xs| > 1 && k < |xs| && l < |xs| && m.atoms[xs[k]].isotope != m.atoms[xs[l]].isotope &&
             (forall j :: k < j < |xs| ==> FirstBond(m, xs[j]) != FirstBond(m, xs[k])) &&
             (forall j :: l < j < |xs| ==> FirstBond(m, xs[j]) != FirstBond(m, xs[l]))
    ensures var h := XenonsOf(m).value;
            k < |h.bonds| && l < |h.bonds| && h.bonds[k] in h.colours && h.bonds[l] in h.colours &&
            h.colours[h.bonds[k]] != h.colours[h.bonds[l]]
  {
    var xs := AtomsNumbered(m.atoms, Xenon);
    XenonsColours(m, k);
    XenonsColours(m, l);
    IsoColourMapInjective(m.atoms[xs[k]].isotope, m.atoms[xs[l]].isotope);
  }

  /** Replacing the atoms `xs`: atom `i` is a wildcard exactly when it is one of them, and is otherwise unchanged. */
  lemma {:induction false} ReplacedAt(atoms: seq<Atom>, xs: seq<nat>, i: nat)
    requires forall k :: 0 <= k < |xs| ==> xs[k] < |atoms|
    requires i < |atoms|
    ensures Replaced(atoms, xs)[i] == if i in xs then Wildcard else atoms[i]
    decreases |xs|
  {
    if xs != [] {
      var before := xs[..|xs| - 1];
      ReplacedAt(atoms, before, i);
      assert xs == before + [xs[|xs| - 1]];
    }
  }

  /**
   * The returned molecule has the same atoms and bonds, except that every xenon atom is now a wildcard atom;
   * the molecule is unchanged when it has no xenon.
   */
  lemma XenonsEditsMarkers(m: Molecule, i: nat)
    requires XenonsOf(m).Ok? && i < |m.atoms|
    ensures var edited := XenonsOf(m).value.mol.value;
            |edited.atoms| == |m.atoms| && edited.bonds == m.bonds &&
            edited.atoms[i] == if m.atoms[i].atomicNum == Xenon then Wildcard else m.atoms[i]
  {
    var xs := AtomsNumbered(m.atoms, Xenon);
    ReplacedAt(m.atoms, xs, i);
  }

  /** Without xenon atoms nothing is highlighted and the molecule is returned as parsed. */
  lemma NoMarkers(m: Molecule)
    requires forall i :: 0 <= i < |m.atoms| ==> m.atoms[i].atomicNum != Xenon
    ensures XenonsOf(m) == Ok(Highlight([], map[], Some(m)))
  {
    AtomsNumberedNone(m.atoms, Xenon);
  }
}
