/**
 * Term and type identifiers shared by the API, the context and the MCSAT
 * variable database.
 */
module YicesTypes {

  type Term = int   // term_t: index << 1 | polarity bit
  type Type = int   // type_t

  /** The absent term and the absent type. */
  const NULL_TERM: Term := -1
  const NULL_TYPE: Type := -1
}
