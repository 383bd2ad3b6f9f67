/** The part of `serde_json::Value` that the decoder produces. */
module Json {

  datatype Value =
    | Null                      // decoding the empty input
    | Number(n: int)            // an integer `i...e`
    | String(chars: string)     // a byte string `<len>:<bytes>`
    | Array(items: seq<Value>)  // a list `l...e`
}
