/** Identifiers. The scheduler only compares names with each other and with two constants, so a name is
    a number here: EMPTY stands for the empty string and DEFAULT for the string "default". */
module Names {
  type Name = nat

  const EMPTY: Name := 0
  const DEFAULT: Name := 1
}
