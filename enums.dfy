/** The enumerations the entities store by name */
module Enums {

  import opened Wrappers

  /** YesNo */
  datatype YesNo = Y | N

  /** Gender; its constants are not part of this model, so a value is known only by its name */
  datatype Gender = Gender(name: string)

  /** The status a pre-persist hook leaves: a null status becomes N, any other is kept */
  function DefaultN(status: Option<YesNo>): (r: Option<YesNo>)
    ensures r.Some?
    ensures status.Some? ==> r == status
    ensures status.None? ==> r == Some(N)
  {
    if status.None? then Some(N) else status
  }

  /** Running the hook twice is the same as running it once */
  lemma DefaultNIdempotent(status: Option<YesNo>)
    ensures DefaultN(DefaultN(status)) == DefaultN(status)
  {
  }
}
