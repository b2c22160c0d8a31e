/** `contracts/schema.py`: column definitions and the rules every schema satisfies. */
module Schema {
  import opened Options

  datatype Mode = REQUIRED | NULLABLE | REPEATED

  datatype BqType =
    | STRING | BYTES | INTEGER | INT64 | FLOAT | FLOAT64 | NUMERIC | BIGNUMERIC | BOOLEAN | BOOL
    | DATE | DATETIME | TIME | TIMESTAMP | JSON | RECORD | STRUCT | GEOGRAPHY

  datatype FieldSchema = FieldSchema(
    name: string,
    bqType: BqType,
    mode: Mode,
    fields: seq<FieldSchema>,
    maxLength: Option<nat>,
    precision: Option<nat>,
    scale: Option<nat>)
  {
    predicate IsRepeated() { mode == REPEATED }

    predicate IsNullable() { mode == NULLABLE }

    predicate IsStruct() { bqType == RECORD || bqType == STRUCT }

    predicate IsDecimal() { bqType == NUMERIC || bqType == BIGNUMERIC }

    predicate IsInteger() { bqType == INTEGER || bqType == INT64 }

    predicate IsNumeric() { IsInteger() || IsDecimal() || bqType == FLOAT || bqType == FLOAT64 }
  }

  datatype TableSchema = TableSchema(columns: seq<FieldSchema>, primaryKeys: seq<string>)

  /** Nested fields on structs, and only there. */
  predicate FieldOk(f: FieldSchema)
    decreases f, 1
  {
    (f.fields != [] <==> f.IsStruct()) && FieldsOk(f.fields)
  }

  predicate FieldsOk(fs: seq<FieldSchema>)
    decreases fs, 0
  {
    fs == [] || (FieldOk(fs[0]) && FieldsOk(fs[1..]))
  }

  predicate HasColumn(columns: seq<FieldSchema>, name: string) {
    exists i :: 0 <= i < |columns| && columns[i].name == name
  }

  predicate TableOk(t: TableSchema) {
    FieldsOk(t.columns) && forall i :: 0 <= i < |t.primaryKeys| ==> HasColumn(t.columns, t.primaryKeys[i])
  }
}
