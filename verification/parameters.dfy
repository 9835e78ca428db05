/** `Parameter` and `ParameterType`: a named, possibly-null value tagged with
    where it goes. A datatype value cannot change after construction, which
    is what the class's private setters promise. */
module Parameters {
  import opened Wrappers

  /** The enum as the request builder uses it, `RequestBody` included. */
  datatype ParameterType = QueryString | Matrix | RequestBody

  datatype Parameter = Parameter(name: Option<string>, value: Option<string>, kind: ParameterType)
}
