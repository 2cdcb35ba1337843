/**
 * The value tree of the JSON engine: type tags, error codes, nodes.
 *
 * An element node carries a type byte, a payload and a `next` link; a member
 * node adds a name and its hash index. The linked `next` chains are
 * sequences here, in list order.
 */
module JsonValue {

  /* type tags */
  const VAL_NULL := 0
  const VAL_FALSE := 1
  const VAL_TRUE := 2
  const VAL_OBJECT := 3
  const VAL_ARRAY := 4
  const VAL_REALNUM := 5
  const VAL_INTEGER := 6
  const VAL_STRING := 7

  /* error codes */
  const OK := 0
  const PHRASE_ERROR := 1
  const SYNTAX_ERROR := 2
  const LEVEL_EXCEED := 3
  const UNEXP_SUFFIX := 4
  const UNEXP_NUL := 5
  const OUT_OF_BUF := 6
  const EXPORT_TYPE := 7

  /** Depth of the parser's node stack. */
  const MAX_LEVEL := 32

  /** An unsigned int. */
  type uint32 = x: int | 0 <= x < 0x1_0000_0000

  /** A type byte outside the eight defined tags. */
  type BadTag = t: int | 8 <= t < 256 witness 8

  /**
   * A node's type and payload. A real number keeps the two texts the parser
   * hands to atof and atoi (mantissa and exponent); its double value is not
   * modelled.
   */
  datatype Value =
    | Null
    | False
    | True
    | Object(members: seq<Member>)
    | Array(elems: seq<Value>)
    | RealNum(mantissa: string, exponent: string)
    | Integer(n: int)
    | Str(s: string)
    | Unknown(tag: BadTag)

  /** A member node: its name, its hash index and its own type and payload. */
  datatype Member = Member(name: string, hidx: uint32, val: Value)

  /** The type byte of a node. */
  function TypeTag(v: Value): (t: int)
    ensures 0 <= t < 256
    ensures t < 8 <==> !v.Unknown?
  {
    match v
    case Null => VAL_NULL
    case False => VAL_FALSE
    case True => VAL_TRUE
    case Object(_) => VAL_OBJECT
    case Array(_) => VAL_ARRAY
    case RealNum(_, _) => VAL_REALNUM
    case Integer(_) => VAL_INTEGER
    case Str(_) => VAL_STRING
    case Unknown(t) => t
  }
}
