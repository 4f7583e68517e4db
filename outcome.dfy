/** Optional values, the exceptions of api/utils.py, and results that carry either a value or one of them. */
module Outcome {

  datatype Option<+T> = None | Some(value: T)

  /** The exceptions the modelled code can raise, named by their cause. */
  datatype Error =
    | NotAnInteger       // int() on a token that is not a decimal literal (ValueError)
    | NotABoolean        // parse_bool on a token outside both word lists (ValueError)
    | UnknownIsotope     // ISO_COLOUR_MAP[iso] for an isotope outside the table (KeyError)
    | NoMolecule         // a toolkit call on a molecule that failed to parse (None)
    | NoBond             // the bond lookup between two atoms found no bond (None.GetIdx())
    | NoHydrogenAtPair   // neither atom of the pair is a hydrogen after adding hydrogens (IndexError)
    | NoPlaceholder      // no wildcard atom with a bond after the canonical round trip (IndexError)
    | MarkerWithoutBond  // a marker atom that has no bond (IndexError)
    | UndefinedName      // a name that the module never defines (NameError)

  datatype Result<+T> = Ok(value: T) | Err(error: Error) {
    predicate IsFailure() { Err? }

    function PropagateFailure<U>(): Result<U>
      requires Err?
    {
      Err(error)
    }

    function Extract(): T
      requires Ok?
    {
      value
    }
  }
}
