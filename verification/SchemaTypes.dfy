/** The module schema declarations of internal/generator/schema.go. */
module SchemaTypes {
  import opened Options

  datatype Index = Index(name: string, fields: seq<string>, unique: bool)

  /** `refTable` and `refField` are the derived halves of `references`. */
  datatype ForeignKey = ForeignKey(field: string, references: string, onDelete: string,
                                   refTable: string, refField: string)

  datatype Field = Field(name: string, renameFrom: string, kind: string, required: bool,
                         size: int, unique: bool, index: bool,
                         goName: string, goType: string, sqlType: string,
                         jsonName: string, gormTag: string)

  datatype Entity = Entity(name: string, table: string, primary: bool,
                           fields: seq<Field>, indexes: seq<Index>, foreignKeys: seq<ForeignKey>)

  datatype APIParameter = APIParameter(name: string, kind: string, required: bool, format: string,
                                       enum: seq<string>, minimum: Option<int>, maximum: Option<int>,
                                       maxLength: Option<int>)

  datatype APIField = APIField(name: string, kind: string, required: bool, format: string,
                               items: string, enum: seq<string>, minimum: Option<int>,
                               maximum: Option<int>, maxLength: Option<int>)

  datatype APIObject = APIObject(ref: string, fields: seq<APIField>)

  datatype APIResponse = APIResponse(status: int, kind: string, ref: string)

  datatype APIOperation = APIOperation(operationId: string, method_: string, path: string,
                                       permission: string, defaultRoles: seq<string>,
                                       idempotency: string, academicVerification: string,
                                       requestContent: string, summary: string,
                                       headers: seq<APIParameter>, query: seq<APIParameter>,
                                       body: Option<APIObject>, responses: seq<APIResponse>)

  datatype Permission = Permission(name: string, path: string, methods: seq<string>, roles: seq<string>)
}
