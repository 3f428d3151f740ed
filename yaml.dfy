/** YAML decoding and encoding, which the switcher leaves to a library: an abstract codec
    that either yields a document or fails. */
module Yaml {
  import opened Wrappers
  import FileSystem

  /** The keys of an application's definition file that the model reads. */
  datatype AppDocument = AppDocument(
    envType: Option<string>,
    target: Option<string>,
    variables: Option<seq<string>>)

  /** The keys of a configuration file under `~/.ssw/config`.  A key that is present
      overwrites the field of the same name. */
  datatype EnvDocument = EnvDocument(
    name: Option<string>,
    envType: Option<string>,
    path: Option<string>,
    variables: Option<seq<string>>)

  /** The document with no keys, which is what decoding no data yields. */
  const NoKeys := EnvDocument(None, None, None, None)

  /** A decoder yields None for data that is not a document of its kind. */
  datatype Codec = Codec(
    decodeVars: FileSystem.Bytes -> Option<map<string, string>>,
    encodeVars: map<string, string> -> FileSystem.Bytes,
    decodeApp: FileSystem.Bytes -> Option<AppDocument>,
    decodeEnv: FileSystem.Bytes -> Option<EnvDocument>)

  /** yaml.Unmarshal of the file at `p` into a map. */
  function VarsOf(codec: Codec, data: FileSystem.Bytes, p: string): (r: Result<map<string, string>>)
    ensures r.Failure? ==> r.error == Decode(p)
  {
    match codec.decodeVars(data)
    case Some(m) => Success(m)
    case None => Failure(Decode(p))
  }

  /** yaml.Unmarshal of the file at `p` into an application. */
  function AppOf(codec: Codec, data: FileSystem.Bytes, p: string): (r: Result<AppDocument>)
    ensures r.Failure? ==> r.error == Decode(p)
  {
    match codec.decodeApp(data)
    case Some(d) => Success(d)
    case None => Failure(Decode(p))
  }

  /** A field after decoding: the document's value when the key is present. */
  function Overwrite<T>(field: T, key: Option<T>): T
  {
    if key.Some? then key.value else field
  }
}
