/** Small shared datatypes: optional values, results, and the cell values a
    decoded ticket record can hold. */
module Base {

  datatype Option<+T> = None | Some(value: T)

  datatype Result<+T, +E> = Ok(value: T) | Err(error: E)

  /** A field value of a decoded ticket record, or of a table cell before
      cleaning. Only text matters to the pipeline: every other kind (a
      number, a boolean, JSON null, nested JSON, or the NaN a table holds
      where a record lacks a field) is collapsed into NonText. */
  datatype Value = Text(text: string) | NonText
}
