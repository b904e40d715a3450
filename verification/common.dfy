/** Shared vocabulary of the music-catalog model: optional values, the
    slice of JavaScript numbers the dashboard relies on, and the fixed
    year window of the catalog. */
module Common {

  datatype Option<+T> = None | Some(value: T)

  /** A JavaScript number as far as the pipeline can observe it: either
      NaN or a finite value (infinities are not modelled). */
  datatype Number = NaN | Finite(value: real)

  /** The closed window of release years the catalog covers. */
  const YearMin: int := 2009
  const YearMax: int := 2025

  predicate InCatalogYears(y: int) {
    YearMin <= y <= YearMax
  }
}
