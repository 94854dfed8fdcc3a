/** Small shared datatypes: an optional value, and what an opaque collaborator did. */
module Common {

  /** The conventional Some/None datatype, used where Ruby would hand back `nil`. */
  datatype Option<+T> = None | Some(value: T)

  /** The outcome of calling code this model cannot see: it returned, or it raised an
      error carrying a message. */
  datatype Outcome = Pass | Raise(message: string)
}
