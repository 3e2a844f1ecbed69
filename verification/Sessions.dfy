/** Argument sessions (angr/calling_conventions.py): how far the iterators over argument locations have come. */
module Sessions {
  /** Floating-point registers, integer registers, and the offset of the next stack slot. */
  datatype Session = Session(fp: nat, ints: nat, both: nat)
}
