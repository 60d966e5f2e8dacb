/** The engine's documents. */
module Documents {
  import opened Json

  datatype Document = Document(id: string, data: Value, meta: map<string, Value>)
}
