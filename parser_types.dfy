/**
 * The records produced by the extractor (src/types/parser.ts). The lists
 * `functions`, `classes`, `variables` and `errors` of a parse result are
 * always empty in the source and are not carried here.
 */
module ParserTypes {
  import opened Wrappers

  datatype ImportType = ES6 | CommonJS | Dynamic | TypeOnly

  /** The string value of each `ImportType` member. */
  function ImportTag(t: ImportType): string {
    match t
    case ES6 => "es6"
    case CommonJS => "commonjs"
    case Dynamic => "dynamic"
    case TypeOnly => "type-only"
  }

  datatype ExportType = Named | Default | Namespace | ReExport

  datatype ImportSpecifier = ImportSpecifier(name: string, alias: Option<string>, isDefault: bool, isNamespace: bool)

  /** One import statement: `source` is the module specifier as written. */
  datatype ImportRecord = ImportRecord(source: string, specifiers: seq<ImportSpecifier>, kind: ImportType, line: int, column: int)

  datatype ExportRecord = ExportRecord(name: string, kind: ExportType, source: Option<string>, line: int, column: int)

  datatype FileMetrics = FileMetrics(linesOfCode: nat, linesOfComments: nat, complexity: nat, imports: nat, exports: nat)

  datatype ParseResult = ParseResult(filePath: string, imports: seq<ImportRecord>, exports: seq<ExportRecord>, metrics: FileMetrics)
}
