/**
 * What `yaml.safe_load` hands to the scanner: a tree of mappings (in the
 * mapping's iteration order), lists and scalars. Only strings are told apart
 * among the scalars; any other value (a number, a boolean, null, a timestamp)
 * is `Other` and carries only its Python truthiness.
 */
module Yaml {

  datatype Node =
    | Mapping(entries: seq<KeyValue>)
    | Sequence(items: seq<Node>)
    | Str(text: string)
    | Other(truthy: bool)

  datatype KeyValue = KeyValue(key: Node, value: Node)

  /** Outcome of `yaml.safe_load(content)`: a `yaml.YAMLError` or a document. */
  datatype ParseOutcome = ParseError | Parsed(doc: Node)

  /** Python's `bool(x)` for a loaded document: empty containers and the empty string are false. */
  predicate Truthy(n: Node): (r: bool)
    ensures !r <==> n in {Mapping([]), Sequence([]), Str(""), Other(false)}
  {
    match n
    case Mapping(es) => es != []
    case Sequence(xs) => xs != []
    case Str(s) => s != ""
    case Other(b) => b
  }
}
