/** Result types shared by every part of the model. */
module Prelude {

  datatype Option<+T> = None | Some(value: T)

  datatype Result<+T, +E> = Ok(value: T) | Err(error: E)
}

/** The edge payload that both the weighted and the unweighted searches read. */
module GraphData {
  /** A property value as the weight lookup sees it: NaN and the infinities are one case. */
  datatype Value =
    | Float(number: real)
    | FloatNotFinite
    | Int(i: int)
    | Other

  datatype EdgeData = EdgeData(
    src: int,
    dst: int,
    edgeType: string,
    ranking: int,
    properties: map<string, Value>)
}
