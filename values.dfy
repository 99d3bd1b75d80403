/**
 * The generic value tree that the JSON, YAML and TOML decoders produce
 * (Go's `interface{}`), and the byte strings they read and write.
 */
module Values {

  import opened Wrappers

  type Bytes = seq<bv8>

  /**
   * One decoded value. The two map kinds are the two Go map types that the
   * decoders produce: `map[interface{}]interface{}` (go-yaml), whose keys may be
   * any value and which is kept as a sequence of key/value entries, and
   * `map[string]interface{}` (encoding/json, BurntSushi/toml).
   * Numbers stay abstract: they are carried as their literal text.
   */
  datatype Value =
    | Null
    | Bool(b: bool)
    | Number(literal: string)
    | Str(s: string)
    | Seq(items: seq<Value>)
    | AnyMap(entries: seq<(Value, Value)>)
    | StrMap(fields: map<string, Value>)

  /** A decoder: bytes in, a value out, or None when the decoder reports an error. */
  type Decoder<-L> = (L, Bytes) -> Option<Value>

  /** The file system as the program sees it: reading a path gives bytes or an error text. */
  type FileSystem = string -> Result<Bytes, string>
}
