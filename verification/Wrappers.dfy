/** The two result shapes shared by every component of the model. */
module Wrappers {

  /** A nullable value: an SQL NULL, a JSON field that is absent, an unset reference. */
  datatype Option<+T> = None | Some(value: T)

  /** What a migration or a parser answers: the new value, or a refusal that changes nothing. */
  datatype Result<+T> = Ok(value: T) | Refused
}
