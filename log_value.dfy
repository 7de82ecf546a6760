/** The value a log writer receives for one column (`LogVal` in the ASCII writer,
    `threading::Value` in the ElasticSearch writer): a presence flag and a payload
    selected by the column's type. */
module LogValue {
  import opened Ints

  /** The type tags the writers dispatch on (`TYPE_*`). */
  datatype TypeTag =
    | TypeVoid | TypeBool | TypeInt | TypeCount | TypeCounter | TypeDouble | TypeTime
    | TypeInterval | TypeString | TypePattern | TypeEnum | TypeTimer | TypePort | TypeAddr
    | TypeSubnet | TypeAny | TypeTable | TypeUnion | TypeRecord | TypeList | TypeFunc
    | TypeFile | TypeVector | TypeError

  /** The four tags whose payload is a byte string. */
  datatype StringKind = EnumString | PlainString | FileString | FuncString

  /** The tags whose text comes from a formatter outside this model (floating point,
      time and address rendering). */
  datatype ExternalKind = DoubleValue | TimeValue | IntervalValue | AddrValue | SubnetValue

  /** One column value; when `present` is false the payload is not looked at. */
  datatype Val = Val(present: bool, datum: Datum)

  datatype Datum =
    | BoolD(intVal: Int64)                    // TYPE_BOOL, held in int_val
    | IntD(intVal: Int64)                     // TYPE_INT
    | CountD(counter: bool, uintVal: UInt64)  // TYPE_COUNT, TYPE_COUNTER
    | PortD(port: UInt64)                     // TYPE_PORT
    | StringD(stringKind: StringKind, bytes: string)
    | TableD(vals: seq<Val>)                  // a set's elements
    | VectorD(vals: seq<Val>)
    | ExternalD(externalKind: ExternalKind, text: string)  // the formatter's output
    | OtherD(typeCode: nat)                   // any type neither writer renders

  /** A column's name and type, with the element type of a table or vector. */
  datatype LogField = LogField(name: string, ty: TypeTag, subtype: TypeTag)

  /** What a renderer appended and whether it reported success. On failure the text
      is what had been appended when it gave up. */
  datatype Emit = Emit(ok: bool, text: string)
}
