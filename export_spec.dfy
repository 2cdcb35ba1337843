/**
 * The exporter as functions: the text each export routine writes from its
 * start position, and the error it reports.
 *
 * A container writes its opening bracket, then for every child the child's
 * text followed by a comma. A child that fails stops the container at once,
 * after that comma. When every child succeeds, a final comma is taken back
 * and the closing bracket and a NUL follow. Each routine receives the room
 * left in the caller's buffer (`size`) and refuses with OUT_OF_BUF when that
 * room is below the routine's own threshold.
 */
module ExportSpec {
  import opened CType
  import opened JsonValue

  /** sprintf("%lf") applied to a real node, given the node's mantissa and exponent texts. */
  type RealFormat = (string, string) -> string

  /** What an export routine wrote from its start position, and the error it set (OK if none). */
  datatype Out = Out(text: string, err: int)

  /* Thresholds on the room left, one per node type. */
  const NEED_NULL := 5
  const NEED_FALSE := 6
  const NEED_TRUE := 5
  const NEED_CONTAINER := 3
  const NEED_REAL := 16
  const NEED_INTEGER := 33
  const STRING_OVERHEAD := 20

  /** The bytes written for an Out: its text, and a terminating NUL when it succeeded. */
  function Image(r: Out): (t: string)
    ensures |t| == |r.text| + (if r.err == OK then 1 else 0)
  {
    if r.err == OK then r.text + "\0" else r.text
  }

  /** Characters the quoting routine writes with a backslash. */
  predicate Escaped(c: char)
  {
    c == '\n' || c == '\r' || c == '\t' || c == '"' || c == '\\'
  }

  /** The bytes written for one character of a quoted string. */
  function EscapeChar(c: char): (r: string)
    ensures |r| == if Escaped(c) then 2 else 1
    ensures Escaped(c) <==> r[0] == '\\'
  {
    if c == '\n' then "\\n"
    else if c == '\r' then "\\r"
    else if c == '\t' then "\\t"
    else if c == '"' || c == '\\' then ['\\', c]
    else [c]
  }

  /** The body of a quoted string. */
  function Escape(s: string): string
  {
    if s == [] then [] else EscapeChar(s[0]) + Escape(s[1..])
  }

  /** How many characters of s are written with a backslash. */
  function EscapeCount(s: string): nat
  {
    if s == [] then 0 else (if Escaped(s[0]) then 1 else 0) + EscapeCount(s[1..])
  }

  /** A quoted string: a double quote, the escaped body, a double quote. */
  function Cap(s: string): string
  {
    "\"" + Escape(s) + "\""
  }

  /** The decimal text sprintf("%ld") writes for an integer. */
  function IntText(n: int): (t: string)
    ensures |t| > 0
  {
    if n < 0 then "-" + NatText(-n) else NatText(n)
  }

  /** The strings and names the exporter reads are C strings, and so is what sprintf writes for a real. */
  predicate Exportable(v: Value, fmt: RealFormat)
  {
    match v
    case Object(ms) => forall k :: 0 <= k < |ms| ==> NulFree(ms[k].name) && Exportable(ms[k].val, fmt)
    case Array(es) => forall k :: 0 <= k < |es| ==> Exportable(es[k], fmt)
    case RealNum(m, e) => NulFree(fmt(m, e))
    case Str(s) => NulFree(s)
    case _ => true
  }

  /** Nodes written by strcpy or sprintf. */
  predicate IsScalar(v: Value)
  {
    v.Null? || v.False? || v.True? || v.RealNum? || v.Integer?
  }

  /** The text strcpy or sprintf writes for a scalar node. */
  function ScalarText(v: Value, fmt: RealFormat): string
    requires IsScalar(v)
  {
    match v
    case Null => "null"
    case False => "false"
    case True => "true"
    case RealNum(m, e) => fmt(m, e)
    case Integer(n) => IntText(n)
  }

  /** The room a scalar node demands before it is written. */
  function ScalarNeed(v: Value): int
    requires IsScalar(v)
  {
    match v
    case Null => NEED_NULL
    case False => NEED_FALSE
    case True => NEED_TRUE
    case RealNum(_, _) => NEED_REAL
    case Integer(_) => NEED_INTEGER
  }

  /** A scalar after its threshold test. */
  function Scalar(text: string, size: int, need: int): (r: Out)
  {
    if size < need then Out("", OUT_OF_BUF) else Out(text, OK)
  }

  /** What the export of node v writes, given the room left. */
  function Emit(v: Value, size: int, fmt: RealFormat): (r: Out)
    decreases v, 2
  {
    match v
    case Object(ms) => ObjectOut(ms, size, fmt)
    case Array(es) => ArrayOut(es, size, fmt)
    // the room is compared as an unsigned size: a negative room passes
    case Str(s) => if 0 <= size < |s| + STRING_OVERHEAD then Out("", OUT_OF_BUF) else Out(Cap(s), OK)
    case Unknown(_) => Out("", EXPORT_TYPE)
    case _ => Scalar(ScalarText(v, fmt), size, ScalarNeed(v))
  }

  /** An object: its threshold test, an opening brace, the members, and the end. */
  function ObjectOut(ms: seq<Member>, size: int, fmt: RealFormat): (r: Out)
    decreases ms, 2
  {
    if size < NEED_CONTAINER then Out("", OUT_OF_BUF)
    else var r := Members(ms, 0, size, 1, fmt); Closed("{" + r.text, r.err, '}')
  }

  /** An array: its threshold test, an opening bracket, the elements, and the end. */
  function ArrayOut(es: seq<Value>, size: int, fmt: RealFormat): (r: Out)
    decreases es, 2
  {
    if size < NEED_CONTAINER then Out("", OUT_OF_BUF)
    else var r := Elements(es, 0, size, 1, fmt); Closed("[" + r.text, r.err, ']')
  }

  /** The end of a container: on success a final comma is taken back and the closer added. */
  function Closed(t: string, err: int, closer: char): (r: Out)
  {
    if err != OK then Out(t, err)
    else if |t| > 0 && t[|t| - 1] == ',' then Out(t[..|t| - 1] + [closer], OK)
    else Out(t + [closer], OK)
  }

  /**
   * The members of an object from member k on, each as name, colon, value and
   * comma; `used` is how much the object has written before member k. The
   * first member that fails ends the text.
   */
  function Members(ms: seq<Member>, k: nat, size: int, used: int, fmt: RealFormat): (r: Out)
    requires k <= |ms|
    decreases ms, 1, |ms| - k
  {
    if k == |ms| then Out("", OK)
    else
      var p := MemberOut(ms[k], size, used, fmt);
      if p.err != OK then p
      else var rest := Members(ms, k + 1, size, used + |p.text|, fmt); Out(p.text + rest.text, rest.err)
  }

  /** One member: its quoted name, a colon, its value and a comma, whether the value succeeded or not. */
  function MemberOut(m: Member, size: int, used: int, fmt: RealFormat): (r: Out)
    decreases m, 0
  {
    var name := Cap(m.name);
    var vo := Emit(m.val, size - (used + |name| + 1), fmt);
    Out(name + ":" + vo.text + ",", vo.err)
  }

  /** The elements of an array from element k on, each as value and comma. */
  function Elements(es: seq<Value>, k: nat, size: int, used: int, fmt: RealFormat): (r: Out)
    requires k <= |es|
    decreases es, 1, |es| - k
  {
    if k == |es| then Out("", OK)
    else
      var p := ElementOut(es[k], size, used, fmt);
      if p.err != OK then p
      else var rest := Elements(es, k + 1, size, used + |p.text|, fmt); Out(p.text + rest.text, rest.err)
  }

  /** One element: its value and a comma. */
  function ElementOut(v: Value, size: int, used: int, fmt: RealFormat): (r: Out)
    decreases v, 3
  {
    var vo := Emit(v, size - used, fmt);
    Out(vo.text + ",", vo.err)
  }
}
