/**
 * `parse_atom_ids` (api/utils.py:135-182): reads `id,id,isotope,flag` groups from a comma-separated list and
 * records, per complete group, the bond between the two atoms and the colour of the isotope label. When the
 * flag is true the pair is first moved to the numbering of a rebuilt molecule (api/utils.py:157-177).
 */
module AtomIds {
  import opened Outcome
  import opened Text
  import opened Tokens
  import opened Chem
  import opened External

  // ---------------------------------------------------------------------------
  // The add-hydrogens branch: from request atom ids to rebuilt-molecule atom ids
  // ---------------------------------------------------------------------------

  predicate IsHydrogenAt(m: Molecule, i: int)
  {
    0 <= i < |m.atoms| && m.atoms[i].atomicNum == Hydrogen
  }

  predicate IsWildcardAt(m: Molecule, i: int)
  {
    0 <= i < |m.atoms| && m.atoms[i].atomicNum == Wildcard.atomicNum
  }

  /** api/utils.py:160-163: the first hydrogen, in atom order, whose index is `id1` or `id2`. */
  function HydrogenAt(m: Molecule, id1: int, id2: int): (r: Option<nat>)
    ensures r.Some? ==> (r.value == id1 || r.value == id2) && IsHydrogenAt(m, r.value)
    ensures r.Some? && IsHydrogenAt(m, id1) ==> r.value <= id1
    ensures r.Some? && IsHydrogenAt(m, id2) ==> r.value <= id2
    ensures r.None? <==> !IsHydrogenAt(m, id1) && !IsHydrogenAt(m, id2)
  {
    if IsHydrogenAt(m, id1) && IsHydrogenAt(m, id2) then Some(if id1 <= id2 then id1 as nat else id2 as nat)
    else if IsHydrogenAt(m, id1) then Some(id1 as nat)
    else if IsHydrogenAt(m, id2) then Some(id2 as nat)
    else None
  }

  /** The two end atoms of a bond, `[b.GetBeginAtomIdx(), b.GetEndAtomIdx()]`. */
  function Ends(b: Bond): (nat, nat)
  {
    (b.begin, b.end)
  }

  /**
   * api/utils.py:171-175, the list comprehension from atom `from` on: the ends of the first bond of each wildcard
   * atom, or None for the IndexError of a wildcard atom without bonds.
   */
  function WildcardPairs(m: Molecule, from: nat): (r: Option<seq<(nat, nat)>>)
    requires from <= |m.atoms|
    ensures r.Some? ==> |r.value| <= |m.atoms| - from
    ensures r.Some? ==> forall p :: p in r.value ==> exists j :: WildcardBond(m, j) && Ends(m.bonds[j]) == p
    decreases |m.atoms| - from
  {
    if from == |m.atoms| then Some([])
    else if !IsWildcardAt(m, from) then
      WildcardPairs(m, from + 1)
    else
      match FirstBond(m, from)
      case None => None
      case Some(b) =>
        match WildcardPairs(m, from + 1)
        case None => None
        case Some(pairs) =>
          assert WildcardBond(m, b);
          Some([Ends(m.bonds[b])] + pairs)
  }

  /** Bond `j` of `m` has a wildcard atom at one of its ends. */
  predicate WildcardBond(m: Molecule, j: int)
  {
    0 <= j < |m.bonds| && (IsWildcardAt(m, m.bonds[j].begin) || IsWildcardAt(m, m.bonds[j].end))
  }

  /** api/utils.py:171-177: the first element of that list, or None when the list raises or is empty. */
  function PlaceholderPair(m: Molecule): (r: Option<(nat, nat)>)
    ensures r.Some? ==> exists j :: WildcardBond(m, j) && Ends(m.bonds[j]) == r.value
    ensures r.Some? ==> exists i :: 0 <= i < |m.atoms| && IsWildcardAt(m, i)
  {
    match WildcardPairs(m, 0)
    case None => None
    case Some(pairs) =>
      if pairs == [] then None
      else
        assert pairs[0] in pairs;
        var j :| WildcardBond(m, j) && Ends(m.bonds[j]) == pairs[0];
        assert IsWildcardAt(m, m.bonds[j].begin) || IsWildcardAt(m, m.bonds[j].end);
        Some(pairs[0])
  }

  /** Atom `z` is the first wildcard atom at or after `from`. */
  predicate FirstWildcardFrom(m: Molecule, from: nat, z: nat)
  {
    from <= z < |m.atoms| && IsWildcardAt(m, z) && forall i :: from <= i < z ==> !IsWildcardAt(m, i)
  }

  lemma {:induction false} WildcardPairsFrom(m: Molecule, from: nat)
    requires from <= |m.atoms|
    ensures WildcardPairs(m, from).None? <==>
              exists i :: from <= i < |m.atoms| && IsWildcardAt(m, i) && FirstBond(m, i).None?
    ensures WildcardPairs(m, from) == Some([]) <==> forall i :: from <= i < |m.atoms| ==> !IsWildcardAt(m, i)
    ensures var r := WildcardPairs(m, from);
            r.Some? && r.value != [] ==>
              exists z :: FirstWildcardFrom(m, from, z) && FirstBond(m, z).Some? && r.value[0] == Ends(m.bonds[FirstBond(m, z).value])
    decreases |m.atoms| - from
  {
    if from < |m.atoms| {
      WildcardPairsFrom(m, from + 1);
      var r := WildcardPairs(m, from);
      if IsWildcardAt(m, from) {
        assert FirstWildcardFrom(m, from, from);
      } else if r.Some? && r.value != [] {
        var z :| FirstWildcardFrom(m, from + 1, z) && FirstBond(m, z).Some? && r.value[0] == Ends(m.bonds[FirstBond(m, z).value]);
        assert FirstWildcardFrom(m, from, z);
      }
    }
  }

  /**
   * The pair is the ends of the first bond of the first wildcard atom; there is none exactly when the molecule
   * has no wildcard atom or one of its wildcard atoms has no bond.
   */
  lemma PlaceholderPairSpec(m: Molecule)
    ensures PlaceholderPair(m).None? <==>
              (forall i :: 0 <= i < |m.atoms| ==> !IsWildcardAt(m, i)) ||
              (exists i :: IsWildcardAt(m, i) && FirstBond(m, i).None?)
    ensures PlaceholderPair(m).Some? ==>
              exists z :: FirstWildcardFrom(m, 0, z) && FirstBond(m, z).Some? &&
                          PlaceholderPair(m).value == Ends(m.bonds[FirstBond(m, z).value])
  {
    WildcardPairsFrom(m, 0);
  }

  /**
   * api/utils.py:157-177: add hydrogens, turn the first hydrogen of the pair into a wildcard atom, rebuild the
   * molecule from its SMILES (which renumbers its atoms), and take the pair from the rebuilt molecule.
   */
  function Relabel(m: Molecule, id1: int, id2: int, tk: Toolkit): (r: Result<(Molecule, nat, nat)>)
    ensures HydrogenAt(tk.addHs(m), id1, id2).None? ==> r == Err(NoHydrogenAtPair)
    ensures r.Err? ==> r.error == NoHydrogenAtPair || r.error == NoMolecule || r.error == NoPlaceholder
    ensures var withHs := tk.addHs(m);
            var h := HydrogenAt(withHs, id1, id2);
            h.Some? && tk.parse(tk.toSmiles(withHs.(atoms := withHs.atoms[h.value := Wildcard]))).None? ==>
              r == Err(NoMolecule)
    ensures var withHs := tk.addHs(m);
            var h := HydrogenAt(withHs, id1, id2);
            var rebuilt := if h.Some? then tk.parse(tk.toSmiles(withHs.(atoms := withHs.atoms[h.value := Wildcard])))
                           else None;
            rebuilt.Some? ==> (r.Ok? <==> PlaceholderPair(rebuilt.value).Some?)
    ensures r.Ok? ==> HydrogenAt(tk.addHs(m), id1, id2).Some? && PlaceholderPair(r.value.0) == Some((r.value.1, r.value.2))
    ensures r.Ok? ==> var withHs := tk.addHs(m);
                      var h := HydrogenAt(withHs, id1, id2).value;
                      tk.parse(tk.toSmiles(withHs.(atoms := withHs.atoms[h := Wildcard]))) == Some(r.value.0)
  {
    var withHs := tk.addHs(m);
    match HydrogenAt(withHs, id1, id2)
    case None => Err(NoHydrogenAtPair)
    case Some(h) =>
      var edited := withHs.(atoms := withHs.atoms[h := Wildcard]);
      match tk.parse(tk.toSmiles(edited))
      case None => Err(NoMolecule)
      case Some(rebuilt) =>
        match PlaceholderPair(rebuilt)
        case None => Err(NoPlaceholder)
        case Some(pair) => Ok((rebuilt, pair.0, pair.1))
  }

  /** The relabelled pair is the two ends of a bond of the rebuilt molecule, one of them a wildcard atom. */
  lemma RelabelledPairIsBonded(m: Molecule, id1: int, id2: int, tk: Toolkit)
    requires Relabel(m, id1, id2, tk).Ok?
    ensures var (rebuilt, a, b) := Relabel(m, id1, id2, tk).value;
            (IsWildcardAt(rebuilt, a) || IsWildcardAt(rebuilt, b)) &&
            exists k :: 0 <= k < |rebuilt.bonds| && rebuilt.bonds[k] == Bond(a, b)
    ensures var (rebuilt, a, b) := Relabel(m, id1, id2, tk).value;
            WellFormed(rebuilt) ==> BondBetween(rebuilt, a, b).Some?
  {
    var (rebuilt, a, b) := Relabel(m, id1, id2, tk).value;
    PlaceholderPairSpec(rebuilt);
    var z :| FirstWildcardFrom(rebuilt, 0, z) && FirstBond(rebuilt, z).Some? &&
             (a, b) == Ends(rebuilt.bonds[FirstBond(rebuilt, z).value]);
    var k := FirstBond(rebuilt, z).value;
    assert rebuilt.bonds[k] == Bond(a, b);
    if WellFormed(rebuilt) {
      BondBetweenComplete(rebuilt, a, b, k);
    }
  }

  // ---------------------------------------------------------------------------
  // One group and the whole list
  // ---------------------------------------------------------------------------

  /**
   * api/utils.py:154-180, once the three integers of a group are read: the flag, the bond between the pair (after
   * the add-hydrogens branch when the flag is true), its colour, and the molecule the next group works on. Errors
   * come in the order the source meets them: flag, molecule, relabelling, bond, isotope.
   */
  function Record(id1: int, id2: int, iso: int, flag: string, mol: Option<Molecule>, tk: Toolkit)
    : (r: Result<(nat, Colour, Molecule)>)
    ensures r.Ok? ==> ParseBool(flag).Ok? && iso in IsoColourMap && r.value.1 == IsoColourMap[iso]
    ensures r.Ok? ==> r.value.0 < |r.value.2.bonds|
    ensures r.Ok? && ParseBool(flag) == Ok(false) ==>
              mol == Some(r.value.2) && Joins(r.value.2.bonds[r.value.0], id1, id2)
    ensures r.Ok? && ParseBool(flag) == Ok(true) ==>
              mol.Some? && Relabel(mol.value, id1, id2, tk).Ok? &&
              var (rebuilt, a, b) := Relabel(mol.value, id1, id2, tk).value;
              r.value.2 == rebuilt && Joins(rebuilt.bonds[r.value.0], a, b)
  {
    match ParseBool(flag)
    case Err(e) => Err(e)
    case Ok(addHs) =>
      match mol
      case None => Err(NoMolecule)
      case Some(m) =>
        match (if addHs then Relabel(m, id1, id2, tk) else Ok((m, id1, id2)))
        case Err(e) => Err(e)
        case Ok((current, a, b)) =>
          match BondBetween(current, a, b)
          case None => Err(NoBond)
          case Some(bond) =>
            if iso in IsoColourMap then Ok((bond, IsoColourMap[iso], current)) else Err(UnknownIsotope)
  }

  /** One complete group `t0,t1,t2,t3` against the current molecule: three integers, then the record. */
  function Group(t0: string, t1: string, t2: string, t3: string, mol: Option<Molecule>, tk: Toolkit)
    : (r: Result<(nat, Colour, Molecule)>)
    ensures r.Ok? ==> ParseInt(t0).Some? && ParseInt(t1).Some? && ParseInt(t2).Some?
    ensures r.Ok? ==> ParseInt(t2).value in IsoColourMap && r.value.1 == IsoColourMap[ParseInt(t2).value]
    ensures r.Ok? ==> r.value.0 < |r.value.2.bonds|
    ensures r.Ok? && ParseBool(t3) == Ok(false) ==>
              mol == Some(r.value.2) && Joins(r.value.2.bonds[r.value.0], ParseInt(t0).value, ParseInt(t1).value)
    ensures r.Ok? && ParseBool(t3) == Ok(true) ==>
              mol.Some? && Relabel(mol.value, ParseInt(t0).value, ParseInt(t1).value, tk).Ok? &&
              var (rebuilt, a, b) := Relabel(mol.value, ParseInt(t0).value, ParseInt(t1).value, tk).value;
              r.value.2 == rebuilt && Joins(rebuilt.bonds[r.value.0], a, b)
  {
    match (ParseInt(t0), ParseInt(t1), ParseInt(t2))
    case (Some(id1), Some(id2), Some(iso)) => Record(id1, id2, iso, t3, mol, tk)
    case _ => Err(NotAnInteger)
  }

  /**
   * A group with a false flag, a molecule in which a bond joins the pair, and a label of the colour table is
   * recorded: the lowest bond joining the pair, the label's colour, and the same molecule for the next group.
   */
  lemma RecordSucceeds(id1: int, id2: int, iso: int, flag: string, m: Molecule, tk: Toolkit, k: nat)
    requires ParseBool(flag) == Ok(false) && iso in IsoColourMap
    requires 0 <= id1 < |m.atoms| && 0 <= id2 < |m.atoms| && k < |m.bonds| && Joins(m.bonds[k], id1, id2)
    ensures Record(id1, id2, iso, flag, Some(m), tk).Ok?
    ensures var r := Record(id1, id2, iso, flag, Some(m), tk).value;
            r.0 <= k && r.1 == IsoColourMap[iso] && r.2 == m
  {
    BondBetweenComplete(m, id1, id2, k);
  }

  /**
   * A group with a true flag whose relabelling yields a well-formed rebuilt molecule, and whose label is in the
   * colour table, is recorded: a bond of the rebuilt molecule joining the relabelled pair, the label's colour,
   * and the rebuilt molecule for the next group.
   */
  lemma RecordSucceedsRelabelled(id1: int, id2: int, iso: int, flag: string, m: Molecule, tk: Toolkit)
    requires ParseBool(flag) == Ok(true) && iso in IsoColourMap
    requires Relabel(m, id1, id2, tk).Ok? && WellFormed(Relabel(m, id1, id2, tk).value.0)
    ensures Record(id1, id2, iso, flag, Some(m), tk).Ok?
    ensures var (rebuilt, a, b) := Relabel(m, id1, id2, tk).value;
            var r := Record(id1, id2, iso, flag, Some(m), tk).value;
            r.1 == IsoColourMap[iso] && r.2 == rebuilt && Joins(rebuilt.bonds[r.0], a, b)
  {
    RelabelledPairIsBonded(m, id1, id2, tk);
  }

  /** The entries recorded so far and the molecule they end with. */
  datatype Parsed = Parsed(entries: seq<Entry>, mol: Option<Molecule>)

  /** Entries recorded before a run come before the entries it records. */
  function Extend(done: seq<Entry>, r: Result<Parsed>): Result<Parsed>
  {
    match r
    case Err(e) => Err(e)
    case Ok(p) => Ok(Parsed(done + p.entries, p.mol))
  }

  /**
   * The groups of `tokens` in order, each against the molecule the previous one left. Tokens after the last
   * complete group are still read as integers (api/utils.py:150, 152) and then dropped.
   */
  function Groups(tokens: seq<string>, mol: Option<Molecule>, tk: Toolkit): (r: Result<Parsed>)
    ensures r.Ok? ==> |r.value.entries| == |tokens| / 4
    decreases |tokens|, 1
  {
    if |tokens| < 4 then
      if AllIntegers(tokens) then Ok(Parsed([], mol))
      else Err(NotAnInteger)
    else GroupThenRest(tokens, mol, tk)
  }

  /** The first group of `tokens`, then the groups after it against the molecule it leaves. */
  function GroupThenRest(tokens: seq<string>, mol: Option<Molecule>, tk: Toolkit): (r: Result<Parsed>)
    requires |tokens| >= 4
    ensures r.Ok? ==> |r.value.entries| == |tokens| / 4
    decreases |tokens|, 0
  {
    match Group(tokens[0], tokens[1], tokens[2], tokens[3], mol, tk)
    case Err(e) => Err(e)
    case Ok((bond, colour, current)) => Extend([(bond, colour)], Groups(tokens[4..], Some(current), tk))
  }

  /** Every token reads as an integer: the tokens after the last complete group still go through `int()`. */
  predicate AllIntegers(tokens: seq<string>)
    decreases |tokens|
  {
    tokens == [] || (ParseInt(tokens[0]).Some? && AllIntegers(tokens[1..]))
  }

  lemma {:induction false} AllIntegersEach(tokens: seq<string>)
    ensures AllIntegers(tokens) <==> forall k :: 0 <= k < |tokens| ==> ParseInt(tokens[k]).Some?
    decreases |tokens|
  {
    if tokens != [] {
      AllIntegersEach(tokens[1..]);
      assert forall k :: 1 <= k < |tokens| ==> tokens[k] == tokens[1..][k - 1];
    }
  }

  /** `parse_atom_ids(input_list, mol)` as a value: bond ids, their colours, and the molecule to draw. */
  function AtomIds(input: string, mol: Option<Molecule>, tk: Toolkit): (r: Result<Highlight>)
    ensures r.Ok? ==> |r.value.bonds| == |Split(input, ',')| / 4
    ensures r.Ok? ==> forall b :: b in r.value.colours <==> b in r.value.bonds
  {
    match Groups(Split(input, ','), mol, tk)
    case Err(e) => Err(e)
    case Ok(p) => Ok(Highlight(BondsOf(p.entries), LastWins(p.entries), p.mol))
  }

  /** A run whose first group fails stops with that group's error. */
  lemma GroupsStopsAtFailure(tokens: seq<string>, mol: Option<Molecule>, tk: Toolkit)
    requires |tokens| >= 4 && Group(tokens[0], tokens[1], tokens[2], tokens[3], mol, tk).Err?
    ensures Groups(tokens, mol, tk) == Err(Group(tokens[0], tokens[1], tokens[2], tokens[3], mol, tk).error)
  {
  }

  /** A run whose first group succeeds records it, then goes on with the molecule it leaves. */
  lemma GroupsStep(tokens: seq<string>, mol: Option<Molecule>, tk: Toolkit)
    requires |tokens| >= 4 && Group(tokens[0], tokens[1], tokens[2], tokens[3], mol, tk).Ok?
    ensures var g := Group(tokens[0], tokens[1], tokens[2], tokens[3], mol, tk).value;
            Groups(tokens, mol, tk) == Extend([(g.0, g.1)], Groups(tokens[4..], Some(g.2), tk))
  {
  }

  // ---------------------------------------------------------------------------
  // The loop of the source
  // ---------------------------------------------------------------------------

  /** api/utils.py:143-182, token by token: the atom-id buffer fills at positions 0 and 1 of a group and empties at 3. */
  method ParseAtomIds(input: string, mol: Option<Molecule>, tk: Toolkit) returns (r: Result<Highlight>)
    ensures r == AtomIds(input, mol, tk)
  {
    var tokens := Split(input, ',');
    var bondIds: seq<nat> := [];
    var atomIds: seq<int> := [];
    var colours: map<nat, Colour> := map[];
    var iso := 0;
    var current := mol;
    ghost var entries: seq<Entry> := [];
    ghost var goal := Groups(tokens, mol, tk);
    ghost var start := 0;
    ScanStart(tokens, mol, tk);
    for i := 0 to |tokens|
      invariant Scanning(tokens, goal, tk, i, start, atomIds, iso, entries, current)
      invariant bondIds == BondsOf(entries) && colours == LastWins(entries)
    {
      if i % 4 == 0 || i % 4 == 1 {
        var id := ParseInt(tokens[i]);
        if id.None? {
          ScanFails(tokens, goal, tk, i, start, atomIds, iso, entries, current);
          AtomIdsStops(input, mol, tk, NotAnInteger);
          return Err(NotAnInteger);
        }
        ScanId(tokens, goal, tk, i, start, atomIds, iso, entries, current, id.value);
        atomIds := atomIds + [id.value];
      } else if i % 4 == 2 {
        var isoValue := ParseInt(tokens[i]);
        if isoValue.None? {
          ScanFails(tokens, goal, tk, i, start, atomIds, iso, entries, current);
          AtomIdsStops(input, mol, tk, NotAnInteger);
          return Err(NotAnInteger);
        }
        ScanIso(tokens, goal, tk, i, start, atomIds, iso, entries, current, isoValue.value);
        iso := isoValue.value;
      } else {
        var recorded := CloseGroup(tokens, i - 3, atomIds[0], atomIds[1], iso, current, tk);
        if recorded.Err? {
          ScanStops(tokens, goal, tk, i, start, atomIds, iso, entries, current);
          AtomIdsStops(input, mol, tk, recorded.error);
          return Err(recorded.error);
        }
        var (bond, colour, m) := recorded.value;
        ScanClose(tokens, goal, tk, i, start, atomIds, iso, entries, current, (bond, colour), m);
        RecordOneMore(entries, (bond, colour));
        bondIds := bondIds + [bond];
        colours := colours[bond := colour];
        entries := entries + [(bond, colour)];
        current := Some(m);
        atomIds := [];
        start := i + 1;
      }
    }
    ScanEnd(tokens, goal, tk, start, atomIds, iso, entries, current);
    AtomIdsFinishes(input, mol, tk, Parsed(entries, current));
    r := Ok(Highlight(bondIds, colours, current));
  }

  /**
   * The invariant of the loop before token `i`: the group being read starts at `start`, the integers read so far
   * in it are in `atomIds` and `iso`, and the whole run is the entries recorded so far followed by the groups from
   * `start` on against the current molecule.
   */
  ghost predicate Scanning(tokens: seq<string>, goal: Result<Parsed>, tk: Toolkit, i: nat, start: nat,
                           atomIds: seq<int>, iso: int, entries: seq<Entry>, current: Option<Molecule>)
  {
    start <= i <= |tokens| && i < start + 4 && i % 4 == i - start &&
    |atomIds| == (if i - start <= 2 then i - start else 2) &&
    (|atomIds| >= 1 ==> ParseInt(tokens[start]) == Some(atomIds[0])) &&
    (|atomIds| == 2 ==> ParseInt(tokens[start + 1]) == Some(atomIds[1])) &&
    (i - start == 3 ==> ParseInt(tokens[start + 2]) == Some(iso)) &&
    goal == Extend(entries, Groups(tokens[start..], current, tk))
  }

  lemma ScanStart(tokens: seq<string>, mol: Option<Molecule>, tk: Toolkit)
    ensures Scanning(tokens, Groups(tokens, mol, tk), tk, 0, 0, [], 0, [], mol)
  {
    assert tokens[0..] == tokens;
    ExtendNothing(Groups(tokens, mol, tk));
  }

  /** Positions 0 and 1: the integer joins the buffer. */
  lemma ScanId(tokens: seq<string>, goal: Result<Parsed>, tk: Toolkit, i: nat, start: nat,
               atomIds: seq<int>, iso: int, entries: seq<Entry>, current: Option<Molecule>, id: int)
    requires Scanning(tokens, goal, tk, i, start, atomIds, iso, entries, current)
    requires i < |tokens| && i - start <= 1 && ParseInt(tokens[i]) == Some(id)
    ensures Scanning(tokens, goal, tk, i + 1, start, atomIds + [id], iso, entries, current)
  {
  }

  /** Position 2: the integer is the isotope label. */
  lemma ScanIso(tokens: seq<string>, goal: Result<Parsed>, tk: Toolkit, i: nat, start: nat,
                atomIds: seq<int>, iso: int, entries: seq<Entry>, current: Option<Molecule>, isoLabel: int)
    requires Scanning(tokens, goal, tk, i, start, atomIds, iso, entries, current)
    requires i < |tokens| && i - start == 2 && ParseInt(tokens[i]) == Some(isoLabel)
    ensures Scanning(tokens, goal, tk, i + 1, start, atomIds, isoLabel, entries, current)
  {
  }

  /** A token at position 0, 1 or 2 that is not an integer fails the whole run. */
  lemma ScanFails(tokens: seq<string>, goal: Result<Parsed>, tk: Toolkit, i: nat, start: nat,
                  atomIds: seq<int>, iso: int, entries: seq<Entry>, current: Option<Molecule>)
    requires Scanning(tokens, goal, tk, i, start, atomIds, iso, entries, current)
    requires i < |tokens| && i - start <= 2 && ParseInt(tokens[i]).None?
    ensures goal == Err(NotAnInteger)
  {
    assert tokens[start..][i - start] == tokens[i];
    UnparsedIntegerFails(tokens[start..], i - start, current, tk);
  }

  /** A group that fails fails the whole run with its error. */
  lemma ScanStops(tokens: seq<string>, goal: Result<Parsed>, tk: Toolkit, i: nat, start: nat,
                  atomIds: seq<int>, iso: int, entries: seq<Entry>, current: Option<Molecule>)
    requires Scanning(tokens, goal, tk, i, start, atomIds, iso, entries, current)
    requires Groups(tokens[start..], current, tk).Err?
    ensures goal == Err(Groups(tokens[start..], current, tk).error)
  {
  }

  /** Position 3: the group's entry is recorded and the next group starts after it. */
  lemma ScanClose(tokens: seq<string>, goal: Result<Parsed>, tk: Toolkit, i: nat, start: nat,
                  atomIds: seq<int>, iso: int, entries: seq<Entry>, current: Option<Molecule>, e: Entry, m: Molecule)
    requires Scanning(tokens, goal, tk, i, start, atomIds, iso, entries, current)
    requires i < |tokens| && i - start == 3
    requires Groups(tokens[start..], current, tk) == Extend([e], Groups(tokens[i + 1..], Some(m), tk))
    ensures Scanning(tokens, goal, tk, i + 1, i + 1, [], iso, entries + [e], Some(m))
  {
    ExtendAppend(entries, e, Groups(tokens[i + 1..], Some(m), tk));
    NextGroupStart(i);
  }

  lemma NextGroupStart(i: nat)
    requires i % 4 == 3
    ensures (i + 1) % 4 == 0
  {
  }

  /** After the last token: the tokens after the last complete group were integers, so the run is what was recorded. */
  lemma ScanEnd(tokens: seq<string>, goal: Result<Parsed>, tk: Toolkit, start: nat,
                atomIds: seq<int>, iso: int, entries: seq<Entry>, current: Option<Molecule>)
    requires Scanning(tokens, goal, tk, |tokens|, start, atomIds, iso, entries, current)
    ensures goal == Ok(Parsed(entries, current))
  {
    var tail := tokens[start..];
    forall k | 0 <= k < |tail| ensures ParseInt(tail[k]).Some? {
      assert tail[k] == tokens[start + k];
    }
    AllIntegersEach(tail);
    assert entries + [] == entries;
  }

  /**
   * api/utils.py:153-180, the fourth token of the group starting at `start`: reads the flag, then the
   * add-hydrogens branch, the bond lookup and the colour lookup. This is the first step of `Groups` from there.
   */
  method CloseGroup(tokens: seq<string>, start: nat, id1: int, id2: int, iso: int, mol: Option<Molecule>, tk: Toolkit)
    returns (r: Result<(nat, Colour, Molecule)>)
    requires start + 4 <= |tokens|
    requires ParseInt(tokens[start]) == Some(id1) && ParseInt(tokens[start + 1]) == Some(id2)
    requires ParseInt(tokens[start + 2]) == Some(iso)
    ensures r == Record(id1, id2, iso, tokens[start + 3], mol, tk)
    ensures r.Err? ==> Groups(tokens[start..], mol, tk) == Err(r.error)
    ensures r.Ok? ==> Groups(tokens[start..], mol, tk) ==
                      Extend([(r.value.0, r.value.1)], Groups(tokens[start + 4..], Some(r.value.2), tk))
  {
    var addHs := ParseBool(tokens[start + 3]);
    if addHs.Err? {
      r := Err(addHs.error);
    } else if mol.None? {
      r := Err(NoMolecule);
    } else {
      var m, a, b := mol.value, id1, id2;
      var moved: Result<(Molecule, int, int)> := Ok((m, a, b));
      if addHs.value {
        moved := Relabel(m, a, b, tk);
      }
      if moved.Err? {
        r := Err(moved.error);
      } else {
        m, a, b := moved.value.0, moved.value.1, moved.value.2;
        var bond := BondBetween(m, a, b);
        if bond.None? {
          r := Err(NoBond);
        } else if iso !in IsoColourMap {
          r := Err(UnknownIsotope);
        } else {
          r := Ok((bond.value, IsoColourMap[iso], m));
        }
      }
    }
    GroupAt(tokens, start, id1, id2, iso, mol, tk, r);
  }

  /** A run that stops makes the whole parse fail with its error. */
  lemma AtomIdsStops(input: string, mol: Option<Molecule>, tk: Toolkit, e: Error)
    requires Groups(Split(input, ','), mol, tk) == Err(e)
    ensures AtomIds(input, mol, tk) == Err(e)
  {
  }

  /** A run that records `p` makes the whole parse return its bond ids, their colours and its molecule. */
  lemma AtomIdsFinishes(input: string, mol: Option<Molecule>, tk: Toolkit, p: Parsed)
    requires Groups(Split(input, ','), mol, tk) == Ok(p)
    ensures AtomIds(input, mol, tk) == Ok(Highlight(BondsOf(p.entries), LastWins(p.entries), p.mol))
  {
  }

  lemma ExtendNothing(r: Result<Parsed>)
    ensures Extend([], r) == r
  {
    if r.Ok? {
      assert [] + r.value.entries == r.value.entries;
    }
  }

  lemma ExtendAppend(done: seq<Entry>, e: Entry, r: Result<Parsed>)
    ensures Extend(done, Extend([e], r)) == Extend(done + [e], r)
  {
    if r.Ok? {
      assert done + ([e] + r.value.entries) == (done + [e]) + r.value.entries;
    }
  }

  /** The run from a group whose three integers are read: it stops with the record's error, or records and goes on. */
  lemma GroupAt(tokens: seq<string>, start: nat, id1: int, id2: int, iso: int, mol: Option<Molecule>, tk: Toolkit,
                r: Result<(nat, Colour, Molecule)>)
    requires start + 4 <= |tokens|
    requires ParseInt(tokens[start]) == Some(id1) && ParseInt(tokens[start + 1]) == Some(id2)
    requires ParseInt(tokens[start + 2]) == Some(iso)
    requires r == Record(id1, id2, iso, tokens[start + 3], mol, tk)
    ensures r.Err? ==> Groups(tokens[start..], mol, tk) == Err(r.error)
    ensures r.Ok? ==> Groups(tokens[start..], mol, tk) ==
                      Extend([(r.value.0, r.value.1)], Groups(tokens[start + 4..], Some(r.value.2), tk))
  {
    var rest := tokens[start..];
    assert rest[0] == tokens[start] && rest[1] == tokens[start + 1] && rest[2] == tokens[start + 2];
    assert rest[3] == tokens[start + 3] && rest[4..] == tokens[start + 4..];
    assert Group(rest[0], rest[1], rest[2], rest[3], mol, tk) == Record(id1, id2, iso, tokens[start + 3], mol, tk);
  }

  /** A token at position 0, 1 or 2 of a group that is not an integer fails the run, complete group or not. */
  lemma UnparsedIntegerFails(tokens: seq<string>, k: nat, mol: Option<Molecule>, tk: Toolkit)
    requires k <= 2 && k < |tokens| && ParseInt(tokens[k]).None?
    ensures Groups(tokens, mol, tk) == Err(NotAnInteger)
  {
    AllIntegersEach(tokens);
  }

  // ---------------------------------------------------------------------------
  // Properties of the parse
  // ---------------------------------------------------------------------------

  /** The colour group `k` records: that of the isotope label in its third token. */
  predicate ColouredByGroup(tokens: seq<string>, k: nat, c: Colour)
  {
    4 * k + 2 < |tokens| && ParseInt(tokens[4 * k + 2]).Some? &&
    ParseInt(tokens[4 * k + 2]).value in IsoColourMap && c == IsoColourMap[ParseInt(tokens[4 * k + 2]).value]
  }

  /** A successful run: its first group succeeded, and its entries are that group's followed by the rest's. */
  lemma GroupsOk(tokens: seq<string>, mol: Option<Molecule>, tk: Toolkit)
    requires |tokens| >= 4 && Groups(tokens, mol, tk).Ok?
    ensures var g := Group(tokens[0], tokens[1], tokens[2], tokens[3], mol, tk);
            g.Ok? && Groups(tokens[4..], Some(g.value.2), tk).Ok? &&
            Groups(tokens, mol, tk).value.entries == [(g.value.0, g.value.1)] + Groups(tokens[4..], Some(g.value.2), tk).value.entries &&
            Groups(tokens, mol, tk).value.mol == Groups(tokens[4..], Some(g.value.2), tk).value.mol
  {
  }

  /** Every recorded entry is coloured by the isotope label of its own group, which is in the table. */
  lemma {:induction false} GroupsColours(tokens: seq<string>, mol: Option<Molecule>, tk: Toolkit)
    requires Groups(tokens, mol, tk).Ok?
    ensures var es := Groups(tokens, mol, tk).value.entries;
            forall k :: 0 <= k < |es| ==> ColouredByGroup(tokens, k, es[k].1)
    decreases |tokens|
  {
    if |tokens| >= 4 {
      GroupsOk(tokens, mol, tk);
      var g := Group(tokens[0], tokens[1], tokens[2], tokens[3], mol, tk).value;
      GroupsColours(tokens[4..], Some(g.2), tk);
      PrependColoured(tokens, (g.0, g.1), Groups(tokens[4..], Some(g.2), tk).value.entries);
    }
  }

  /** The first group's colour and the colours of the groups after it give the colours of all groups. */
  lemma PrependColoured(tokens: seq<string>, e: Entry, restEs: seq<Entry>)
    requires |tokens| >= 4 && ColouredByGroup(tokens, 0, e.1)
    requires forall k :: 0 <= k < |restEs| ==> ColouredByGroup(tokens[4..], k, restEs[k].1)
    ensures forall k :: 0 <= k < |[e] + restEs| ==> ColouredByGroup(tokens, k, ([e] + restEs)[k].1)
  {
    forall k | 1 <= k < |[e] + restEs| ensures ColouredByGroup(tokens, k, ([e] + restEs)[k].1) {
      ColouredShift(tokens, k - 1, restEs[k - 1].1);
    }
  }

  lemma ColouredShift(tokens: seq<string>, k: nat, c: Colour)
    requires |tokens| >= 4 && ColouredByGroup(tokens[4..], k, c)
    ensures ColouredByGroup(tokens, k + 1, c)
  {
    assert tokens[4..][4 * k + 2] == tokens[4 * (k + 1) + 2];
  }

  /** A bond keeps the colour of the last group that names it; every colour comes from the table. */
  lemma AtomIdsColours(input: string, mol: Option<Molecule>, tk: Toolkit, k: nat)
    requires AtomIds(input, mol, tk).Ok?
    requires var h := AtomIds(input, mol, tk).value;
             k < |h.bonds| && forall l :: k < l < |h.bonds| ==> h.bonds[l] != h.bonds[k]
    ensures var h := AtomIds(input, mol, tk).value;
            h.bonds[k] in h.colours && ColouredByGroup(Split(input, ','), k, h.colours[h.bonds[k]])
  {
    var tokens := Split(input, ',');
    var es := Groups(tokens, mol, tk).value.entries;
    var h := AtomIds(input, mol, tk).value;
    assert h.bonds == BondsOf(es) && h.colours == LastWins(es);
    GroupsColours(tokens, mol, tk);
    assert LastFor(es, k) by {
      forall l | k < l < |es| ensures es[l].0 != es[k].0 {
        assert h.bonds[l] == es[l].0 && h.bonds[k] == es[k].0;
      }
    }
    LastWinsValue(es, k);
  }

  /** `len(tokens) - len(tokens) % 4`: how many tokens make up complete groups. */
  function CompleteLength(n: nat): (r: nat)
    ensures r % 4 == 0
    ensures r <= n < r + 4
    ensures n < 4 ==> r == 0
  {
    n - n % 4
  }

  lemma CompleteLengthStep(n: nat)
    requires n >= 4
    ensures CompleteLength(n - 4) == CompleteLength(n) - 4
  {
    assert (n - 4) % 4 == n % 4;
  }

  /** A run over the complete groups followed by the tokens after them, which are read as integers and dropped. */
  function ThenTrailing(r: Result<Parsed>, tail: seq<string>): Result<Parsed>
  {
    match r
    case Err(e) => Err(e)
    case Ok(p) => if AllIntegers(tail) then Ok(p) else Err(NotAnInteger)
  }

  /** A list is read as its complete groups, then the tokens after the last of them. */
  lemma {:induction false} CompleteGroupsThenTrailing(tokens: seq<string>, mol: Option<Molecule>, tk: Toolkit)
    ensures Groups(tokens, mol, tk) ==
            ThenTrailing(Groups(tokens[..CompleteLength(|tokens|)], mol, tk), tokens[CompleteLength(|tokens|)..])
    decreases |tokens|
  {
    if |tokens| < 4 {
      assert tokens[..0] == [] && tokens[0..] == tokens;
    } else {
      var whole := tokens[..CompleteLength(|tokens|)];
      var rest := tokens[4..];
      CompleteGroupsPrefix(tokens);
      var g := Group(tokens[0], tokens[1], tokens[2], tokens[3], mol, tk);
      if g.Ok? {
        CompleteGroupsThenTrailing(rest, Some(g.value.2), tk);
        GroupsStep(tokens, mol, tk);
        GroupsStep(whole, mol, tk);
        ExtendThenTrailing([(g.value.0, g.value.1)], Groups(rest[..CompleteLength(|rest|)], Some(g.value.2), tk),
                           rest[CompleteLength(|rest|)..]);
      } else {
        GroupsStopsAtFailure(tokens, mol, tk);
        GroupsStopsAtFailure(whole, mol, tk);
      }
    }
  }

  lemma ExtendThenTrailing(done: seq<Entry>, r: Result<Parsed>, tail: seq<string>)
    ensures Extend(done, ThenTrailing(r, tail)) == ThenTrailing(Extend(done, r), tail)
  {
  }

  /** The complete groups of `tokens` are its first group followed by the complete groups of the tokens after it. */
  lemma CompleteGroupsPrefix(tokens: seq<string>)
    requires |tokens| >= 4
    ensures var whole := tokens[..CompleteLength(|tokens|)];
            var rest := tokens[4..];
            |whole| >= 4 && whole[0] == tokens[0] && whole[1] == tokens[1] && whole[2] == tokens[2] &&
            whole[3] == tokens[3] && whole[4..] == rest[..CompleteLength(|rest|)] &&
            tokens[CompleteLength(|tokens|)..] == rest[CompleteLength(|rest|)..]
  {
    CompleteLengthStep(|tokens|);
  }

  /** Tokens after the last complete group are dropped when they are integers. */
  lemma TrailingTokensIgnored(tokens: seq<string>, mol: Option<Molecule>, tk: Toolkit)
    requires forall k :: CompleteLength(|tokens|) <= k < |tokens| ==> ParseInt(tokens[k]).Some?
    ensures Groups(tokens, mol, tk) == Groups(tokens[..CompleteLength(|tokens|)], mol, tk)
  {
    CompleteGroupsThenTrailing(tokens, mol, tk);
    var tail := tokens[CompleteLength(|tokens|)..];
    forall k | 0 <= k < |tail| ensures ParseInt(tail[k]).Some? {
      assert tail[k] == tokens[CompleteLength(|tokens|) + k];
    }
    AllIntegersEach(tail);
  }

  /** ... and fail the run with a ValueError when one of them is not, unless an earlier group failed first. */
  lemma TrailingNonIntegerFails(tokens: seq<string>, mol: Option<Molecule>, tk: Toolkit, j: nat)
    requires CompleteLength(|tokens|) <= j < |tokens| && ParseInt(tokens[j]).None?
    requires Groups(tokens[..CompleteLength(|tokens|)], mol, tk).Ok?
    ensures Groups(tokens, mol, tk) == Err(NotAnInteger)
  {
    CompleteGroupsThenTrailing(tokens, mol, tk);
    var tail := tokens[CompleteLength(|tokens|)..];
    assert tail[j - CompleteLength(|tokens|)] == tokens[j];
    AllIntegersEach(tail);
  }

  /** Bond `bond` of `m` joins the two atoms group `k` names. */
  predicate JoinsPairOf(tokens: seq<string>, k: nat, m: Molecule, bond: nat)
  {
    4 * k + 1 < |tokens| && ParseInt(tokens[4 * k]).Some? && ParseInt(tokens[4 * k + 1]).Some? &&
    bond < |m.bonds| && Joins(m.bonds[bond], ParseInt(tokens[4 * k]).value, ParseInt(tokens[4 * k + 1]).value)
  }

  /** Every complete group's flag reads as false. */
  predicate NoHydrogenGroups(tokens: seq<string>)
  {
    forall k :: 0 <= k < |tokens| / 4 ==> ParseBool(tokens[4 * k + 3]) == Ok(false)
  }

  /**
   * Without the add-hydrogens branch the molecule is never replaced, so every returned bond id is a bond of
   * the molecule handed to the renderer, and it joins the pair its group names.
   */
  lemma {:induction false} PlainGroupsKeepMolecule(tokens: seq<string>, m: Molecule, tk: Toolkit)
    requires NoHydrogenGroups(tokens)
    requires Groups(tokens, Some(m), tk).Ok?
    ensures var p := Groups(tokens, Some(m), tk).value;
            p.mol == Some(m) && forall k :: 0 <= k < |p.entries| ==> JoinsPairOf(tokens, k, m, p.entries[k].0)
    decreases |tokens|
  {
    if |tokens| >= 4 {
      NoHydrogenGroupsRest(tokens);
      GroupsOk(tokens, Some(m), tk);
      var g := Group(tokens[0], tokens[1], tokens[2], tokens[3], Some(m), tk).value;
      PlainGroupsKeepMolecule(tokens[4..], m, tk);
      PrependJoins(tokens, m, (g.0, g.1), Groups(tokens[4..], Some(m), tk).value.entries);
    }
  }

  /** The first group's bond and the bonds of the groups after it give the bonds of all groups. */
  lemma PrependJoins(tokens: seq<string>, m: Molecule, e: Entry, restEs: seq<Entry>)
    requires |tokens| >= 4 && JoinsPairOf(tokens, 0, m, e.0)
    requires forall k :: 0 <= k < |restEs| ==> JoinsPairOf(tokens[4..], k, m, restEs[k].0)
    ensures forall k :: 0 <= k < |[e] + restEs| ==> JoinsPairOf(tokens, k, m, ([e] + restEs)[k].0)
  {
    forall k | 1 <= k < |[e] + restEs| ensures JoinsPairOf(tokens, k, m, ([e] + restEs)[k].0) {
      JoinsShift(tokens, k - 1, m, restEs[k - 1].0);
    }
  }

  lemma JoinsShift(tokens: seq<string>, k: nat, m: Molecule, bond: nat)
    requires |tokens| >= 4 && JoinsPairOf(tokens[4..], k, m, bond)
    ensures JoinsPairOf(tokens, k + 1, m, bond)
  {
    assert tokens[4..][4 * k] == tokens[4 * (k + 1)] && tokens[4..][4 * k + 1] == tokens[4 * (k + 1) + 1];
  }

  lemma NoHydrogenGroupsRest(tokens: seq<string>)
    requires |tokens| >= 4 && NoHydrogenGroups(tokens)
    ensures ParseBool(tokens[3]) == Ok(false) && NoHydrogenGroups(tokens[4..])
  {
    assert 4 * 0 + 3 == 3;
    var rest := tokens[4..];
    forall k | 0 <= k < |rest| / 4 ensures ParseBool(rest[4 * k + 3]) == Ok(false) {
      assert rest[4 * k + 3] == tokens[4 * (k + 1) + 3];
    }
  }

  /** A flag that is not a boolean fails the group with a ValueError before any molecule or bond is looked at. */
  lemma FlagCheckedFirst(t0: string, t1: string, t2: string, t3: string, mol: Option<Molecule>, tk: Toolkit)
    requires ParseInt(t0).Some? && ParseInt(t1).Some? && ParseInt(t2).Some?
    requires Lower(t3) !in TrueWords + FalseWords
    ensures Group(t0, t1, t2, t3, mol, tk) == Err(NotABoolean)
  {
  }

  /** Without the flag, a pair that is not bonded fails the group, whatever its isotope label. */
  lemma MissingBondFails(t0: string, t1: string, t2: string, t3: string, m: Molecule, tk: Toolkit)
    requires ParseInt(t0).Some? && ParseInt(t1).Some? && ParseInt(t2).Some?
    requires ParseBool(t3) == Ok(false)
    requires forall k :: 0 <= k < |m.bonds| ==> !Joins(m.bonds[k], ParseInt(t0).value, ParseInt(t1).value)
    ensures Group(t0, t1, t2, t3, Some(m), tk) == Err(NoBond)
  {
  }

  /** A bonded pair with an isotope label outside 100 to 107 fails the group with a KeyError. */
  lemma UnknownIsotopeFails(t0: string, t1: string, t2: string, t3: string, m: Molecule, tk: Toolkit)
    requires ParseInt(t0).Some? && ParseInt(t1).Some? && ParseInt(t2).Some?
    requires ParseBool(t3) == Ok(false)
    requires BondBetween(m, ParseInt(t0).value, ParseInt(t1).value).Some?
    requires !(100 <= ParseInt(t2).value <= 107)
    ensures Group(t0, t1, t2, t3, Some(m), tk) == Err(UnknownIsotope)
  {
  }

  /**
   * A list of one group without the flag, whose atoms are bonded and whose label is in the table: one bond id,
   * coloured by the label, and the molecule unchanged.
   */
  lemma SingleGroup(t0: string, t1: string, t2: string, t3: string, m: Molecule, tk: Toolkit)
    requires ',' !in t0 && ',' !in t1 && ',' !in t2 && ',' !in t3
    requires ParseInt(t0).Some? && ParseInt(t1).Some? && ParseInt(t2).Some? && ParseBool(t3) == Ok(false)
    requires BondBetween(m, ParseInt(t0).value, ParseInt(t1).value).Some? && ParseInt(t2).value in IsoColourMap
    ensures var bond := BondBetween(m, ParseInt(t0).value, ParseInt(t1).value).value;
            AtomIds(Join([t0, t1, t2, t3], ','), Some(m), tk) ==
            Ok(Highlight([bond], map[bond := IsoColourMap[ParseInt(t2).value]], Some(m)))
  {
    var tokens := [t0, t1, t2, t3];
    SplitJoin(tokens, ',');
    var bond := BondBetween(m, ParseInt(t0).value, ParseInt(t1).value).value;
    var entry := (bond, IsoColourMap[ParseInt(t2).value]);
    var r := Record(ParseInt(t0).value, ParseInt(t1).value, ParseInt(t2).value, t3, Some(m), tk);
    assert r == Ok((bond, entry.1, m));
    GroupAt(tokens, 0, ParseInt(t0).value, ParseInt(t1).value, ParseInt(t2).value, Some(m), tk, r);
    assert tokens[0..] == tokens && tokens[4..] == [];
    assert Groups([], Some(m), tk) == Ok(Parsed([], Some(m)));
    assert [entry] + [] == [entry];
    assert BondsOf([entry]) == [bond];
  }

  /**
   * The bond of the last group is always a bond of the molecule handed on, whether or not its flag rebuilt the
   * molecule.
   */
  lemma {:induction false} GroupsLastBondValid(tokens: seq<string>, mol: Option<Molecule>, tk: Toolkit)
    requires Groups(tokens, mol, tk).Ok? && Groups(tokens, mol, tk).value.entries != []
    ensures var p := Groups(tokens, mol, tk).value;
            p.mol.Some? && p.entries[|p.entries| - 1].0 < |p.mol.value.bonds|
    decreases |tokens|
  {
    GroupsOk(tokens, mol, tk);
    var g := Group(tokens[0], tokens[1], tokens[2], tokens[3], mol, tk).value;
    var rest := Groups(tokens[4..], Some(g.2), tk).value;
    if rest.entries != [] {
      GroupsLastBondValid(tokens[4..], Some(g.2), tk);
    }
  }

  // ---------------------------------------------------------------------------
  // Bond ids recorded before a rebuild
  // ---------------------------------------------------------------------------

  const Carbon: Atom := Atom(6, 0)
  const HydrogenAtom: Atom := Atom(Hydrogen, 0)

  /** Ethane, `CC`: two carbons and the bond between them. */
  const Ethane: Molecule := Molecule([Carbon, Carbon], [Bond(0, 1)])

  /** Ethane with its six hydrogens appended, three on each carbon. */
  const EthaneWithHs: Molecule :=
    Molecule([Carbon, Carbon, HydrogenAtom, HydrogenAtom, HydrogenAtom, HydrogenAtom, HydrogenAtom, HydrogenAtom],
             [Bond(0, 1), Bond(0, 2), Bond(0, 3), Bond(0, 4), Bond(1, 5), Bond(1, 6), Bond(1, 7)])

  /** `*CC` as it parses: the wildcard comes first, so the carbons are atoms 1 and 2 and their bond is bond 1. */
  const WildcardEthane: Molecule := Molecule([Wildcard, Carbon, Carbon], [Bond(0, 1), Bond(1, 2)])

  /** The integers of the counterexample list read as written. */
  lemma CounterexampleIntegers()
    ensures ParseInt("0") == Some(0) && ParseInt("1") == Some(1) && ParseInt("2") == Some(2)
    ensures ParseInt("100") == Some(100) && ParseInt("101") == Some(101)
  {
    assert NatToString(10) == "10" && NatToString(0) == "0";
    assert IntToString(0) == "0" && IntToString(1) == "1" && IntToString(2) == "2";
    assert IntToString(100) == "100" && IntToString(101) == "101";
    IntToStringRoundTrip(0);
    IntToStringRoundTrip(1);
    IntToStringRoundTrip(2);
    IntToStringRoundTrip(100);
    IntToStringRoundTrip(101);
  }

  /** The flags of the counterexample list. */
  lemma CounterexampleFlags()
    ensures ParseBool("false") == Ok(false) && ParseBool("true") == Ok(true)
  {
    assert Lower("false") == "false" && Lower("true") == "true";
  }

  /** Adding hydrogens to ethane and replacing hydrogen 2 gives `*CC`, whose wildcard is bonded to atom 1. */
  lemma EthaneRelabel(tk: Toolkit)
    requires tk.addHs(Ethane) == EthaneWithHs
    requires tk.toSmiles(EthaneWithHs.(atoms := EthaneWithHs.atoms[2 := Wildcard])) == "*CC"
    requires tk.parse("*CC") == Some(WildcardEthane)
    ensures Relabel(Ethane, 0, 2, tk) == Ok((WildcardEthane, 0, 1))
  {
    assert HydrogenAt(EthaneWithHs, 0, 2) == Some(2);
    assert FirstBond(WildcardEthane, 0) == Some(0);
    assert WildcardPairs(WildcardEthane, 3) == Some([]);
    assert !IsWildcardAt(WildcardEthane, 2) && !IsWildcardAt(WildcardEthane, 1);
    assert WildcardPairs(WildcardEthane, 2) == Some([]);
    assert WildcardPairs(WildcardEthane, 1) == Some([]);
    assert IsWildcardAt(WildcardEthane, 0);
    assert [Ends(WildcardEthane.bonds[0])] + [] == [(0, 1)];
    assert WildcardPairs(WildcardEthane, 0) == Some([(0, 1)]);
  }

  /** The records of the two groups of the counterexample, each against the molecule the one before leaves. */
  lemma CounterexampleRecords(tk: Toolkit)
    requires tk.addHs(Ethane) == EthaneWithHs
    requires tk.toSmiles(EthaneWithHs.(atoms := EthaneWithHs.atoms[2 := Wildcard])) == "*CC"
    requires tk.parse("*CC") == Some(WildcardEthane)
    ensures Record(0, 1, 100, "false", Some(Ethane), tk) == Ok((0, IsoColourMap[100], Ethane))
    ensures Record(0, 2, 101, "true", Some(Ethane), tk) == Ok((0, IsoColourMap[101], WildcardEthane))
  {
    CounterexampleFlags();
    EthaneRelabel(tk);
    assert BondBetween(Ethane, 0, 1) == Some(0);
    assert BondBetween(WildcardEthane, 0, 1) == Some(0);
  }

  /** The two groups of the counterexample, read from their tokens. */
  lemma CounterexampleGroups(tk: Toolkit)
    requires tk.addHs(Ethane) == EthaneWithHs
    requires tk.toSmiles(EthaneWithHs.(atoms := EthaneWithHs.atoms[2 := Wildcard])) == "*CC"
    requires tk.parse("*CC") == Some(WildcardEthane)
    ensures Group("0", "1", "100", "false", Some(Ethane), tk) == Ok((0, IsoColourMap[100], Ethane))
    ensures Group("0", "2", "101", "true", Some(Ethane), tk) == Ok((0, IsoColourMap[101], WildcardEthane))
  {
    CounterexampleIntegers();
    CounterexampleRecords(tk);
  }

  /** A run of one complete group that succeeds: its entry, and the molecule it leaves. */
  lemma OneGroup(tokens: seq<string>, mol: Option<Molecule>, tk: Toolkit, g: (nat, Colour, Molecule))
    requires |tokens| == 4 && Group(tokens[0], tokens[1], tokens[2], tokens[3], mol, tk) == Ok(g)
    ensures Groups(tokens, mol, tk) == Ok(Parsed([(g.0, g.1)], Some(g.2)))
  {
    GroupsStep(tokens, mol, tk);
    assert tokens[4..] == [];
    assert Groups(tokens[4..], Some(g.2), tk) == Ok(Parsed([], Some(g.2)));
    assert [(g.0, g.1)] + [] == [(g.0, g.1)];
  }

  /** A run of two complete groups that both succeed: their two entries, and the molecule the second leaves. */
  lemma TwoGroups(t0: string, t1: string, t2: string, t3: string, t4: string, t5: string, t6: string, t7: string,
                  mol: Option<Molecule>, tk: Toolkit, first: (nat, Colour, Molecule), second: (nat, Colour, Molecule))
    requires Group(t0, t1, t2, t3, mol, tk) == Ok(first)
    requires Group(t4, t5, t6, t7, Some(first.2), tk) == Ok(second)
    ensures Groups([t0, t1, t2, t3, t4, t5, t6, t7], mol, tk) ==
            Ok(Parsed([(first.0, first.1), (second.0, second.1)], Some(second.2)))
  {
    var tokens := [t0, t1, t2, t3, t4, t5, t6, t7];
    assert Groups(tokens[4..], Some(first.2), tk) == Ok(Parsed([(second.0, second.1)], Some(second.2))) by {
      assert tokens[4..] == [t4, t5, t6, t7];
      OneGroup(tokens[4..], Some(first.2), tk, second);
    }
    assert Groups(tokens, mol, tk) == Extend([(first.0, first.1)], Groups(tokens[4..], Some(first.2), tk)) by {
      GroupsStep(tokens, mol, tk);
    }
    assert [(first.0, first.1)] + [(second.0, second.1)] == [(first.0, first.1), (second.0, second.1)];
  }

  /**
   * Bond ids recorded before a group with a true flag keep the numbering of the molecule that group replaces.
   * On ethane, `0,1,100,false,0,2,101,true` records the carbon-carbon bond 0, then rebuilds the molecule as
   * `*CC`, where bond 0 is the wildcard's bond; both ids are 0, the second colour overwrites the first, and the
   * carbon-carbon bond 1 of the molecule that is drawn is not highlighted.
   */
  lemma StaleBondIds(tk: Toolkit)
    requires tk.addHs(Ethane) == EthaneWithHs
    requires tk.toSmiles(EthaneWithHs.(atoms := EthaneWithHs.atoms[2 := Wildcard])) == "*CC"
    requires tk.parse("*CC") == Some(WildcardEthane)
    ensures AtomIds(Join(["0", "1", "100", "false", "0", "2", "101", "true"], ','), Some(Ethane), tk) ==
            Ok(Highlight([0, 0], map[0 := IsoColourMap[101]], Some(WildcardEthane)))
  {
    var tokens := ["0", "1", "100", "false", "0", "2", "101", "true"];
    SplitJoin(tokens, ',');
    CounterexampleGroups(tk);
    TwoGroups("0", "1", "100", "false", "0", "2", "101", "true", Some(Ethane), tk,
              (0, IsoColourMap[100], Ethane), (0, IsoColourMap[101], WildcardEthane));
    var es := [(0, IsoColourMap[100]), (0, IsoColourMap[101])];
    assert Groups(Split(Join(tokens, ','), ','), Some(Ethane), tk) == Ok(Parsed(es, Some(WildcardEthane)));
    SameBondTwice(IsoColourMap[100], IsoColourMap[101]);
  }

  /** Two entries for the same bond: the bond is listed twice and keeps the second colour. */
  lemma SameBondTwice(c1: Colour, c2: Colour)
    ensures BondsOf([(0, c1), (0, c2)]) == [0, 0]
    ensures LastWins([(0, c1), (0, c2)]) == map[0 := c2]
  {
    RecordOneMore([(0, c1)], (0, c2));
    RecordOneMore([], (0, c1));
    assert [(0, c1)] + [(0, c2)] == [(0, c1), (0, c2)];
    assert [] + [(0, c1)] == [(0, c1)];
  }
}
