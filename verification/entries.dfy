/** The record the schema builder produces for each model, read again by the junction-table
    builder and the through-table flagger. */
module Entries {
  import opened Assoc
  import opened Values

  datatype SchemaEntry = SchemaEntry(
    primaryKey: string,
    hasSchema: Value,      // `undefined` unless the model has a `schema` option, or a flagger set it
    identity: string,
    tableName: Value,
    datastore: Value,
    attributes: Props,     // the validated copy: `required` filled in, `columnName` removed
    schema: Props,         // the physical copy: `columnName` filled in
    meta: Value,
    throughTable: Value)   // `undefined` until a through-table flagger writes to it

  /** The schema map, keyed by lower-cased identity, in insertion order. */
  type Schema = AList<SchemaEntry>
}
