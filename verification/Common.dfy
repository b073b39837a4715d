/** What several components share. */
module Common {

  datatype Option<+T> = None | Some(value: T)

  /** One whole dollar, or one whole AZM, in the eight-decimal base units every amount is kept in. */
  const UNIT: int := 100_000_000
}
