/** The values a Python dictionary built by the cleaners and analysers can hold. */
module PyDict {

  datatype DictValue =
    | Str(s: string)
    | Int(i: int)
    | Real(r: real)
    | StrList(items: seq<string>)
}
