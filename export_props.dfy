/**
 * Properties of the exporter: the quoting of strings, the compact JSON text
 * a successful export writes, the room that guarantees success, and what the
 * error paths leave behind.
 */
module ExportProps {
  import opened CType
  import opened JsonValue
  import opened ExportSpec

  /** Each quoted character costs one byte, and one more when it carries a backslash. */
  lemma {:induction false} EscapeLength(s: string)
    ensures |Escape(s)| == |s| + EscapeCount(s)
  {
    if s != [] {
      EscapeLength(s[1..]);
    }
  }

  /** The length of a quoted string: the text, two quotes and one byte per escaped character. */
  lemma CapLength(s: string)
    ensures |Cap(s)| == |s| + 2 + EscapeCount(s)
  {
    EscapeLength(s);
  }

  /** A string with nothing to escape is quoted as it is. */
  lemma {:induction false} EscapePlain(s: string)
    requires forall k :: 0 <= k < |s| ==> !Escaped(s[k])
    ensures Escape(s) == s && EscapeCount(s) == 0
  {
    if s != [] {
      EscapePlain(s[1..]);
      assert s == [s[0]] + s[1..];
    }
  }

  /** Quoting works character by character. */
  lemma {:induction false} EscapeConcat(a: string, b: string)
    ensures Escape(a + b) == Escape(a) + Escape(b)
  {
    if a != [] {
      assert (a + b)[0] == a[0] && (a + b)[1..] == a[1..] + b;
      EscapeConcat(a[1..], b);
      var e := EscapeChar(a[0]);
      assert Escape(a + b) == e + (Escape(a[1..]) + Escape(b));
      assert e + (Escape(a[1..]) + Escape(b)) == (e + Escape(a[1..])) + Escape(b);
    } else {
      assert a + b == b;
    }
  }

  /** Reading an escaped body back: a backslash and the next byte stand for one character. */
  function Unescape(t: string): string
  {
    if t == [] then []
    else if t[0] == '\\' && |t| >= 2 then
      (if t[1] == 'n' then "\n" else if t[1] == 'r' then "\r" else if t[1] == 't' then "\t" else [t[1]])
      + Unescape(t[2..])
    else [t[0]] + Unescape(t[1..])
  }

  /** Quoting loses nothing: the escaped body reads back as the original string. */
  lemma {:induction false} EscapeRoundTrip(s: string)
    ensures Unescape(Escape(s)) == s
  {
    if s != [] {
      var e := EscapeChar(s[0]);
      assert Escape(s) == e + Escape(s[1..]);
      assert (e + Escape(s[1..]))[|e|..] == Escape(s[1..]);
      EscapeRoundTrip(s[1..]);
      assert s == [s[0]] + s[1..];
    }
  }

  /** A node tree whose type bytes are all defined. */
  predicate Known(v: Value)
  {
    match v
    case Object(ms) => forall k :: 0 <= k < |ms| ==> Known(ms[k].val)
    case Array(es) => forall k :: 0 <= k < |es| ==> Known(es[k])
    case Unknown(_) => false
    case _ => true
  }

  /** Compact JSON text of a node tree: no blanks, children separated by commas. */
  function Compact(v: Value, fmt: RealFormat): string
    decreases v, 1
  {
    match v
    case Null => "null"
    case False => "false"
    case True => "true"
    case Object(ms) => "{" + JoinMembers(ms, 0, fmt) + "}"
    case Array(es) => "[" + JoinElements(es, 0, fmt) + "]"
    case RealNum(m, e) => fmt(m, e)
    case Integer(n) => IntText(n)
    case Str(s) => Cap(s)
    case Unknown(_) => ""
  }

  /** The members from member k on, separated by commas. */
  function JoinMembers(ms: seq<Member>, k: nat, fmt: RealFormat): string
    requires k <= |ms|
    decreases ms, 0, |ms| - k
  {
    if k == |ms| then ""
    else
      var t := Cap(ms[k].name) + ":" + Compact(ms[k].val, fmt);
      if k + 1 == |ms| then t else t + "," + JoinMembers(ms, k + 1, fmt)
  }

  /** The elements from element k on, separated by commas. */
  function JoinElements(es: seq<Value>, k: nat, fmt: RealFormat): string
    requires k <= |es|
    decreases es, 0, |es| - k
  {
    if k == |es| then ""
    else if k + 1 == |es| then Compact(es[k], fmt)
    else Compact(es[k], fmt) + "," + JoinElements(es, k + 1, fmt)
  }

  /** The members as the object loop writes them: each one followed by a comma. */
  function MemberPieces(ms: seq<Member>, k: nat, fmt: RealFormat): string
    requires k <= |ms|
    decreases |ms| - k
  {
    if k == |ms| then "" else Cap(ms[k].name) + ":" + Compact(ms[k].val, fmt) + "," + MemberPieces(ms, k + 1, fmt)
  }

  /** The elements as the array loop writes them: each one followed by a comma. */
  function ElementPieces(es: seq<Value>, k: nat, fmt: RealFormat): string
    requires k <= |es|
    decreases |es| - k
  {
    if k == |es| then "" else Compact(es[k], fmt) + "," + ElementPieces(es, k + 1, fmt)
  }

  lemma {:induction false} MemberPiecesJoin(ms: seq<Member>, k: nat, fmt: RealFormat)
    requires k < |ms|
    ensures MemberPieces(ms, k, fmt) == JoinMembers(ms, k, fmt) + ","
    decreases |ms| - k
  {
    if k + 1 < |ms| {
      MemberPiecesJoin(ms, k + 1, fmt);
    }
  }

  lemma {:induction false} ElementPiecesJoin(es: seq<Value>, k: nat, fmt: RealFormat)
    requires k < |es|
    ensures ElementPieces(es, k, fmt) == JoinElements(es, k, fmt) + ","
    decreases |es| - k
  {
    if k + 1 < |es| {
      ElementPiecesJoin(es, k + 1, fmt);
    }
  }

  /** A successful export writes the compact text of the tree, whatever the room was. */
  lemma {:induction false} EmitSound(v: Value, size: int, fmt: RealFormat)
    ensures var r := Emit(v, size, fmt); r.err == OK ==> r.text == Compact(v, fmt)
    decreases v, 3
  {
    match v
    case Object(ms) => ObjectSound(ms, size, fmt);
    case Array(es) => ArraySound(es, size, fmt);
    case _ =>
  }

  lemma {:induction false} ObjectSound(ms: seq<Member>, size: int, fmt: RealFormat)
    ensures var r := Emit(Object(ms), size, fmt); r.err == OK ==> r.text == "{" + JoinMembers(ms, 0, fmt) + "}"
    decreases ms, 2
  {
    if size >= NEED_CONTAINER {
      MembersSound(ms, 0, size, 1, fmt);
      if ms != [] { MemberPiecesJoin(ms, 0, fmt); }
    }
  }

  lemma {:induction false} ArraySound(es: seq<Value>, size: int, fmt: RealFormat)
    ensures var r := Emit(Array(es), size, fmt); r.err == OK ==> r.text == "[" + JoinElements(es, 0, fmt) + "]"
    decreases es, 2
  {
    if size >= NEED_CONTAINER {
      ElementsSound(es, 0, size, 1, fmt);
      if es != [] { ElementPiecesJoin(es, 0, fmt); }
    }
  }

  lemma {:induction false} MembersSound(ms: seq<Member>, k: nat, size: int, used: int, fmt: RealFormat)
    requires k <= |ms|
    ensures var r := Members(ms, k, size, used, fmt); r.err == OK ==> r.text == MemberPieces(ms, k, fmt)
    decreases ms, 1, |ms| - k
  {
    if k < |ms| {
      var name := Cap(ms[k].name);
      EmitSound(ms[k].val, size - (used + |name| + 1), fmt);
      MembersSound(ms, k + 1, size, used + |MemberOut(ms[k], size, used, fmt).text|, fmt);
    }
  }

  lemma {:induction false} ElementsSound(es: seq<Value>, k: nat, size: int, used: int, fmt: RealFormat)
    requires k <= |es|
    ensures var r := Elements(es, k, size, used, fmt); r.err == OK ==> r.text == ElementPieces(es, k, fmt)
    decreases es, 1, |es| - k
  {
    if k < |es| {
      EmitSound(es[k], size - used, fmt);
      ElementsSound(es, k + 1, size, used + |ElementOut(es[k], size, used, fmt).text|, fmt);
    }
  }

  /**
   * Room for the compact text plus the largest scalar threshold is enough:
   * every node of a tree with defined types is then exported.
   */
  lemma {:induction false} EmitCompact(v: Value, size: int, fmt: RealFormat)
    requires Known(v) && size >= |Compact(v, fmt)| + NEED_INTEGER
    ensures Emit(v, size, fmt) == Out(Compact(v, fmt), OK)
    decreases v, 3
  {
    match v
    case Object(ms) => ObjectCompact(ms, size, fmt);
    case Array(es) => ArrayCompact(es, size, fmt);
    case Str(s) => CapLength(s);
    case _ =>
  }

  lemma {:induction false} ObjectCompact(ms: seq<Member>, size: int, fmt: RealFormat)
    requires forall j :: 0 <= j < |ms| ==> Known(ms[j].val)
    requires size >= |JoinMembers(ms, 0, fmt)| + 2 + NEED_INTEGER
    ensures ObjectOut(ms, size, fmt) == Out("{" + JoinMembers(ms, 0, fmt) + "}", OK)
    decreases ms, 2
  {
    if ms != [] { MemberPiecesJoin(ms, 0, fmt); }
    MembersCompact(ms, 0, size, 1, fmt);
  }

  lemma {:induction false} ArrayCompact(es: seq<Value>, size: int, fmt: RealFormat)
    requires forall j :: 0 <= j < |es| ==> Known(es[j])
    requires size >= |JoinElements(es, 0, fmt)| + 2 + NEED_INTEGER
    ensures ArrayOut(es, size, fmt) == Out("[" + JoinElements(es, 0, fmt) + "]", OK)
    decreases es, 2
  {
    if es != [] { ElementPiecesJoin(es, 0, fmt); }
    ElementsCompact(es, 0, size, 1, fmt);
  }

  lemma {:induction false} MembersCompact(ms: seq<Member>, k: nat, size: int, used: int, fmt: RealFormat)
    requires k <= |ms|
    requires forall j :: 0 <= j < |ms| ==> Known(ms[j].val)
    requires size - used >= |MemberPieces(ms, k, fmt)| + NEED_INTEGER
    ensures Members(ms, k, size, used, fmt) == Out(MemberPieces(ms, k, fmt), OK)
    decreases ms, 1, |ms| - k
  {
    if k < |ms| {
      var name := Cap(ms[k].name);
      var t := Compact(ms[k].val, fmt);
      EmitCompact(ms[k].val, size - (used + |name| + 1), fmt);
      MembersCompact(ms, k + 1, size, used + |name + ":" + t + ","|, fmt);
    }
  }

  lemma {:induction false} ElementsCompact(es: seq<Value>, k: nat, size: int, used: int, fmt: RealFormat)
    requires k <= |es|
    requires forall j :: 0 <= j < |es| ==> Known(es[j])
    requires size - used >= |ElementPieces(es, k, fmt)| + NEED_INTEGER
    ensures Elements(es, k, size, used, fmt) == Out(ElementPieces(es, k, fmt), OK)
    decreases es, 1, |es| - k
  {
    if k < |es| {
      var t := Compact(es[k], fmt);
      EmitCompact(es[k], size - used, fmt);
      ElementsCompact(es, k + 1, size, used + |t + ","|, fmt);
    }
  }

  /** The codes an export reports. */
  predicate ExportCode(e: int)
  {
    e == OK || e == OUT_OF_BUF || e == EXPORT_TYPE
  }

  /**
   * The tests each node makes before it is written: a scalar fails exactly
   * when the room is below its threshold, a string exactly when the room,
   * taken as unsigned, is below its length plus the overhead, a container
   * below three bytes, and a node of undefined type always, with nothing
   * written.
   */
  lemma Thresholds(v: Value, size: int, fmt: RealFormat)
    ensures IsScalar(v) ==> (Emit(v, size, fmt).err == OUT_OF_BUF <==> size < ScalarNeed(v))
    ensures IsScalar(v) && size < ScalarNeed(v) ==> Emit(v, size, fmt).text == ""
    ensures v.Str? ==> (Emit(v, size, fmt).err == OUT_OF_BUF <==> 0 <= size < |v.s| + STRING_OVERHEAD)
    ensures (v.Object? || v.Array?) && size < NEED_CONTAINER ==> Emit(v, size, fmt) == Out("", OUT_OF_BUF)
    ensures v.Unknown? ==> Emit(v, size, fmt) == Out("", EXPORT_TYPE)
  {
  }

  /**
   * An export ends with OK, OUT_OF_BUF or EXPORT_TYPE, and EXPORT_TYPE only
   * when the tree holds a node of undefined type.
   */
  lemma {:induction false} EmitErrors(v: Value, size: int, fmt: RealFormat)
    ensures var r := Emit(v, size, fmt); ExportCode(r.err) && (r.err == EXPORT_TYPE ==> !Known(v))
    decreases v, 3
  {
    match v
    case Object(ms) =>
      if size >= NEED_CONTAINER {
        MembersErrors(ms, 0, size, 1, fmt);
      }
    case Array(es) =>
      if size >= NEED_CONTAINER {
        ElementsErrors(es, 0, size, 1, fmt);
      }
    case _ =>
  }

  lemma {:induction false} MembersErrors(ms: seq<Member>, k: nat, size: int, used: int, fmt: RealFormat)
    requires k <= |ms|
    ensures var r := Members(ms, k, size, used, fmt);
            ExportCode(r.err) && (r.err == EXPORT_TYPE ==> exists j :: k <= j < |ms| && !Known(ms[j].val))
    decreases ms, 1, |ms| - k
  {
    if k < |ms| {
      var name := Cap(ms[k].name);
      EmitErrors(ms[k].val, size - (used + |name| + 1), fmt);
      var p := MemberOut(ms[k], size, used, fmt);
      if p.err == OK {
        MembersErrors(ms, k + 1, size, used + |p.text|, fmt);
      }
    }
  }

  lemma {:induction false} ElementsErrors(es: seq<Value>, k: nat, size: int, used: int, fmt: RealFormat)
    requires k <= |es|
    ensures var r := Elements(es, k, size, used, fmt);
            ExportCode(r.err) && (r.err == EXPORT_TYPE ==> exists j :: k <= j < |es| && !Known(es[j]))
    decreases es, 1, |es| - k
  {
    if k < |es| {
      EmitErrors(es[k], size - used, fmt);
      var p := ElementOut(es[k], size, used, fmt);
      if p.err == OK {
        ElementsErrors(es, k + 1, size, used + |p.text|, fmt);
      }
    }
  }
}
