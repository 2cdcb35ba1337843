/**
 * The path query as functions.
 *
 * The query reads the path one character at a time. Name characters are
 * collected in the 128-byte buffer `nbf`; a `.`, `[` or the end of the path
 * looks the collected name up in the current object, and a `]` reads the
 * buffer with atoi and follows the current array that many elements on.
 * After a `]` the next `.`, `[` or end only closes the index. In mode 1 a
 * missing member or element is created on the way, and a null node becomes
 * an object.
 *
 * A walk is written so that every descent into a child is a recursive call
 * whose result is put back into its parent: the tree returned is the tree
 * after the walk, and the answer is the node the query returns. Behaviour C
 * leaves undefined (a write past the name buffer, a NULL node dereferenced,
 * atoi running off the buffer or overflowing, a path ending in a backslash)
 * is the answer Undefined.
 */
module QuerySpec {
  import opened Wrappers
  import opened CType
  import opened JsonValue
  import opened JsonHash

  /** The size of the name buffer. */
  const NBF_SIZE := 128

  /** The range of a C int. */
  const INT_MIN := -0x8000_0000
  const INT_MAX := 0x7fff_ffff

  /** What the query returns: a node, NULL, or behaviour C does not define. */
  datatype Answer = Found(v: Value) | NotFound | Undefined

  /** The tree after a walk (None for a NULL node) and the answer. */
  datatype QOut = QOut(node: Option<Value>, ans: Answer)

  /** The walk's position in the path, its name buffer, the fill count and the index-closure flag. */
  datatype QCursor = QCursor(p: nat, nbf: seq<char>, i: nat, closure: bool)

  /** The first member, in list order, whose hash index is h; |ms| when there is none. */
  function FirstMatch(ms: seq<Member>, h: uint32): (j: nat)
    ensures j <= |ms| && (j < |ms| ==> ms[j].hidx == h)
    ensures forall k :: 0 <= k < j ==> ms[k].hidx != h
  {
    if ms == [] then 0
    else if ms[0].hidx == h then 0
    else 1 + FirstMatch(ms[1..], h)
  }

  /** The end of a run of white space from index j. */
  function SpaceEnd(b: seq<char>, j: nat): (e: nat)
    requires j <= |b|
    ensures j <= e <= |b| && (e < |b| ==> !IsSpace(b[e]))
    decreases |b| - j
  {
    if j < |b| && IsSpace(b[j]) then SpaceEnd(b, j + 1) else j
  }

  /** The end of a run of digits from index j. */
  function DigitEnd(b: seq<char>, j: nat): (e: nat)
    requires j <= |b|
    ensures j <= e <= |b| && (e < |b| ==> !IsDigit(b[e]))
    ensures forall k :: j <= k < e ==> IsDigit(b[k])
    decreases |b| - j
  {
    if j < |b| && IsDigit(b[j]) then DigitEnd(b, j + 1) else j
  }

  /**
   * atoi over a buffer: white space, an optional sign, digits. None when the
   * scan reaches the end of the buffer (there is no NUL or other stop
   * inside it) or the value does not fit an int.
   */
  function AtoI(b: seq<char>): (r: Option<int>)
    ensures r.Some? ==> INT_MIN <= r.value <= INT_MAX
  {
    var j := SpaceEnd(b, 0);
    var d := if j < |b| && (b[j] == '-' || b[j] == '+') then j + 1 else j;
    var e := DigitEnd(b, d);
    var n := if j < |b| && b[j] == '-' then -(Decimal(b[d..e]) as int) else Decimal(b[d..e]);
    if e == |b| || n < INT_MIN || n > INT_MAX then None else Some(n)
  }

  /** The element count the array step follows: atoi's value stored in an unsigned int. */
  function Unsigned(n: int): (u: uint32)
    ensures 0 <= n ==> n < 0x1_0000_0000 ==> u == n
  {
    n % 0x1_0000_0000
  }

  /** Null elements appended by mode 1. */
  function Nulls(n: nat): (r: seq<Value>)
    ensures |r| == n && forall k :: 0 <= k < n ==> r[k] == Null
  {
    seq(n, _ => Null)
  }

  /** The end of the walk: the current node, or NULL. */
  function Finish(node: Option<Value>): (r: QOut)
    ensures r.node == node && r.ans != Undefined
    ensures r.ans.Found? <==> node.Some?
  {
    QOut(node, if node.Some? then Found(node.value) else NotFound)
  }

  /** The walk from cursor c over the node `node`. */
  function Walk(path: string, node: Option<Value>, c: QCursor, mode: int): (r: QOut)
    requires NulFree(path) && c.p <= |path| && |c.nbf| == NBF_SIZE
    ensures r.node.Some? <==> node.Some?
    decreases |path| - c.p, 3
  {
    var ch := CharAt(path, c.p);
    if ch == '.' || ch == '\0' || ch == '[' then
      if c.closure then
        if ch == '\0' then Finish(node)
        else Walk(path, node, c.(p := c.p + 1, i := 0, closure := false), mode)
      else if c.i >= NBF_SIZE then QOut(node, Undefined)
      else NameStep(path, node, c, mode)
    else if ch == ']' then IndexStep(path, node, c, mode)
    else
      // a backslash makes the next character part of the name
      var lit := if ch == '\\' then CharAt(path, c.p + 1) else ch;
      var next := if ch == '\\' then c.p + 2 else c.p + 1;
      if c.i >= NBF_SIZE || lit == '\0' then QOut(node, Undefined)
      else Walk(path, node, c.(p := next, nbf := c.nbf[c.i := lit], i := c.i + 1), mode)
  }

  /**
   * A name step: the collected name is terminated in the buffer and looked
   * up by its hash among the members of the current object; mode 1 appends
   * a missing member, or turns a null node into an object of one member.
   */
  function NameStep(path: string, node: Option<Value>, c: QCursor, mode: int): (r: QOut)
    requires NulFree(path) && c.p <= |path| && |c.nbf| == NBF_SIZE && c.i < NBF_SIZE
    ensures r.node.Some? <==> node.Some?
    decreases |path| - c.p, 2
  {
    var name := c.nbf[..c.i];
    var h := HashOf(name);
    var c' := c.(nbf := c.nbf[c.i := '\0']);
    match node
    case None => QOut(node, Undefined)
    case Some(Object(ms)) =>
      var j := FirstMatch(ms, h);
      if j < |ms| then Enter(path, ms, j, c', mode)
      else if mode == 0 then QOut(node, NotFound)
      // the new member is linked after the last one: an empty list has none
      else if ms == [] then QOut(node, Undefined)
      else Enter(path, ms + [Member(name, h, Null)], |ms|, c', mode)
    case Some(Null) =>
      if mode == 0 then QOut(node, NotFound)
      else Enter(path, [Member(name, h, Null)], 0, c', mode)
    case Some(_) => QOut(node, NotFound)
  }

  /** Into member j of an object with members ms: the walk goes on in its value, which is put back. */
  function Enter(path: string, ms: seq<Member>, j: nat, c: QCursor, mode: int): (r: QOut)
    requires NulFree(path) && c.p <= |path| && |c.nbf| == NBF_SIZE && j < |ms|
    ensures r.node.Some?
    decreases |path| - c.p, 1
  {
    var sub := Descend(path, ms[j].val, c, mode);
    QOut(Some(Object(ms[j := ms[j].(val := sub.node.value)])), sub.ans)
  }

  /** After a name step: the end of the path returns the child; a `.` or `[` is passed over. */
  function Descend(path: string, child: Value, c: QCursor, mode: int): (r: QOut)
    requires NulFree(path) && c.p <= |path| && |c.nbf| == NBF_SIZE
    ensures r.node.Some?
    decreases |path| - c.p, 0
  {
    if CharAt(path, c.p) == '\0' then Finish(Some(child))
    else Walk(path, Some(child), c.(p := c.p + 1, i := 0), mode)
  }

  /**
   * An index step at a `]`: the buffer, not terminated, is read by atoi and
   * the current array is followed that many elements on; mode 1 appends
   * null elements up to the index. The index is closed, and the `]` itself
   * is then stored at the start of the buffer.
   */
  function IndexStep(path: string, node: Option<Value>, c: QCursor, mode: int): (r: QOut)
    requires NulFree(path) && c.p < |path| && |c.nbf| == NBF_SIZE
    ensures r.node.Some? <==> node.Some?
    decreases |path| - c.p, 2
  {
    match node
    case None => QOut(node, Undefined)
    case Some(Array(es)) =>
      var n := AtoI(c.nbf);
      if n.None? then QOut(node, Undefined)
      else
        var count := Unsigned(n.value);
        if es == [] then
          // the first element is NULL: following it is undefined, stopping there gives NULL
          if count == 0 then QOut(node, Walk(path, None, AfterIndex(c), mode).ans) else QOut(node, Undefined)
        else if count < |es| then EnterElement(path, es, count, c, mode)
        else if mode == 0 then QOut(node, NotFound)
        else EnterElement(path, es + Nulls(count + 1 - |es|), count, c, mode)
    case Some(_) => QOut(node, NotFound)
  }

  /** The cursor after a `]`: the index is closed and the `]` is stored at the start of the buffer. */
  function AfterIndex(c: QCursor): (c': QCursor)
    requires |c.nbf| == NBF_SIZE
    ensures c'.p == c.p + 1 && |c'.nbf| == NBF_SIZE && c'.i == 1 && c'.closure
  {
    QCursor(c.p + 1, c.nbf[0 := ']'], 1, true)
  }

  /** Into element k of an array, from the `]` at c: the walk goes on in it, and it is put back. */
  function EnterElement(path: string, es: seq<Value>, k: nat, c: QCursor, mode: int): (r: QOut)
    requires NulFree(path) && c.p < |path| && |c.nbf| == NBF_SIZE && k < |es|
    ensures r.node.Some?
    decreases |path| - c.p, 1
  {
    var sub := Walk(path, Some(es[k]), AfterIndex(c), mode);
    QOut(Some(Array(es[k := sub.node.value])), sub.ans)
  }

  /**
   * SJSNQuery: a NULL node or path gives NULL; otherwise the walk starts at
   * the root with an empty name and a buffer holding whatever the stack held.
   */
  function Query(root: Option<Value>, path: Option<string>, mode: int, junk: seq<char>): (r: QOut)
    requires path.Some? ==> NulFree(path.value)
    requires |junk| == NBF_SIZE
    ensures r.node.Some? <==> root.Some?
  {
    if root.None? || path.None? then QOut(root, NotFound)
    else Walk(path.value, root, QCursor(0, junk, 0, false), mode)
  }

  /**
   * SJSNObjMultiQuery: the first member of an object whose hash index is the
   * hash of id. A NULL node continues from the last match, which is never
   * recorded, so it gives NULL.
   */
  function MultiQuery(v: Option<Value>, id: string): (r: Option<Member>)
    ensures v.None? ==> r.None?
    ensures r.Some? ==> v.value.Object? && r.value in v.value.members && r.value.hidx == HashOf(id)
    ensures v.Some? && v.value.Object? && (exists m :: m in v.value.members && m.hidx == HashOf(id)) ==> r.Some?
    ensures r.Some? ==> exists j :: 0 <= j < |v.value.members| && r.value == v.value.members[j]
                                    && forall k :: 0 <= k < j ==> v.value.members[k].hidx != HashOf(id)
  {
    match v
    case Some(Object(ms)) =>
      var j := FirstMatch(ms, HashOf(id));
      if j < |ms| then Some(ms[j]) else None
    case _ => None
  }
}
