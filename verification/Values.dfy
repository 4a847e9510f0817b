/** Column values as the record codec knows them. A real is its 64-bit pattern. */
module Values {
  import opened Basics

  datatype Value =
    | Null
    | Int(i: int)
    | Real(bits: nat)
    | Text(bytes: seq<Byte>)
    | Blob(bytes: seq<Byte>)
    | Composite(bytes: seq<Byte>)
}
