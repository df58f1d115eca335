/** The optional-value wrapper used for the form's optional constraint fields
    and for lookups that may find nothing. */
module Options {

  datatype Option<+T> = None | Some(value: T)

}
