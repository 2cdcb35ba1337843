/**
 * The exporter: writes a node tree as compact JSON into a caller's buffer.
 *
 * Each routine writes from index `at` of the buffer, returns the index just
 * past its text (the position of the NUL it wrote, when it succeeded) and
 * reports its error. Every routine is proved to write exactly the bytes the
 * matching function of ExportSpec describes and to leave the rest of the
 * buffer alone. The caller's buffer must hold what is written; the exporter
 * itself only compares the room it is told about against its thresholds.
 */
module JsonExporter {
  import opened Seqs
  import opened CType
  import opened JsonValue
  import opened ExportSpec
  import opened ExportProps

  /** Quoting one more character appends its escape, and stays within the quoting of the whole string. */
  lemma EscapeStep(s: string, j: nat)
    requires j < |s|
    ensures Escape(s[..j + 1]) == Escape(s[..j]) + EscapeChar(s[j])
    ensures |Escape(s[..j + 1])| <= |Escape(s)|
  {
    assert s[..j + 1] == s[..j] + [s[j]];
    EscapeConcat(s[..j], [s[j]]);
    assert Escape([s[j]]) == EscapeChar(s[j]) + Escape([]);
    assert s == s[..j + 1] + s[j + 1..];
    EscapeConcat(s[..j + 1], s[j + 1..]);
  }

  /** Writing one element right after a run extends the run. */
  lemma Append(s: seq<char>, at: nat, t: seq<char>, x: char)
    requires at + |t| < |s|
    ensures Overwrite(s, at, t)[at + |t| := x] == Overwrite(s, at, t + [x])
  {
    Store(Overwrite(s, at, t), at + |t|, x);
    OverwriteOver(s, at, t, at + |t|, [x]);
  }

  /**
   * One store through the output pointer: x goes right after the run written
   * so far from index at on, over the NUL that may end that run.
   */
  method Put(buf: array<char>, i: nat, x: char, ghost orig: seq<char>, ghost at: nat, ghost written: string,
             ghost nul: string)
    requires i == at + |written| < buf.Length == |orig| && |nul| <= 1
    requires buf[..] == Overwrite(orig, at, written + nul)
    modifies buf
    ensures buf[..] == Overwrite(orig, at, written + [x])
  {
    buf[i] := x;
    Store(Overwrite(orig, at, written + nul), i, x);
    OverwriteOver(orig, at, written + nul, i, [x]);
    assert (written + nul)[..|written|] == written;
  }

  /**
   * _SJSNcapSTRING: writes src between double quotes, with newline, carriage
   * return and tab as backslash sequences and a backslash before a double
   * quote or a backslash, then a NUL; returns the index of the NUL.
   */
  method CapString(dst: array<char>, at: nat, src: string) returns (end: nat)
    requires NulFree(src) && at + |Cap(src)| < dst.Length
    modifies dst
    ensures end == at + |Cap(src)|
    ensures dst[..] == Overwrite(old(dst[..]), at, Cap(src) + "\0")
  {
    ghost var orig := dst[..];
    OverwriteNothing(orig, at);
    Put(dst, at, '"', orig, at, [], []);
    var i := CapBody(dst, at, src, orig);
    ghost var written := "\"" + Escape(src);
    Put(dst, i, '"', orig, at, written, []);
    written := written + ['"'];
    assert written == Cap(src);
    Put(dst, i + 1, '\0', orig, at, written, []);
    end := i + 1;
  }

  /** The quoting loop: the escapes of the characters of src, up to its end. */
  method CapBody(dst: array<char>, at: nat, src: string, ghost orig: seq<char>) returns (i: nat)
    requires NulFree(src) && at + |Cap(src)| < dst.Length == |orig|
    requires dst[..] == Overwrite(orig, at, "\"")
    modifies dst
    ensures i == at + 1 + |Escape(src)|
    ensures dst[..] == Overwrite(orig, at, "\"" + Escape(src))
  {
    i := at + 1;
    var j := 0;
    assert src[..0] == [];
    while CharAt(src, j) != '\0'
      invariant j <= |src| && |Escape(src[..j])| <= |Escape(src)|
      invariant i == at + 1 + |Escape(src[..j])|
      invariant dst[..] == Overwrite(orig, at, "\"" + Escape(src[..j]))
      decreases |src| - j
    {
      i := CapStep(dst, i, src, j, orig, at);
      j := j + 1;
    }
    assert src[..j] == src;
  }

  /** One pass of the quoting loop: the escape of character j follows the escapes of the characters before it. */
  method CapStep(dst: array<char>, i: nat, src: string, j: nat, ghost orig: seq<char>, ghost at: nat) returns (next: nat)
    requires j < |src| && at + |Cap(src)| < dst.Length == |orig|
    requires i == at + 1 + |Escape(src[..j])| && |Escape(src[..j])| <= |Escape(src)|
    requires dst[..] == Overwrite(orig, at, "\"" + Escape(src[..j]))
    modifies dst
    ensures next == at + 1 + |Escape(src[..j + 1])| && |Escape(src[..j + 1])| <= |Escape(src)|
    ensures dst[..] == Overwrite(orig, at, "\"" + Escape(src[..j + 1]))
  {
    EscapeStep(src, j);
    next := CapChar(dst, i, src[j], orig, at, "\"" + Escape(src[..j]));
    Concat3("\"", Escape(src[..j]), EscapeChar(src[j]));
  }

  /** One pass of the quoting loop: the bytes written for character c. */
  method CapChar(dst: array<char>, i: nat, c: char, ghost orig: seq<char>, ghost at: nat, ghost written: string)
    returns (next: nat)
    requires i == at + |written| && at + |written| + |EscapeChar(c)| < dst.Length == |orig|
    requires dst[..] == Overwrite(orig, at, written)
    modifies dst
    ensures next == i + |EscapeChar(c)|
    ensures dst[..] == Overwrite(orig, at, written + EscapeChar(c))
  {
    if c == '\n' || c == '\r' || c == '\t' {
      Put(dst, i, '\\', orig, at, written, []);
      var letter := if c == '\n' then 'n' else if c == '\r' then 'r' else 't';
      Put(dst, i + 1, letter, orig, at, written + ['\\'], []);
      assert written + ['\\'] + [letter] == written + EscapeChar(c);
      next := i + 2;
    } else if c == '"' || c == '\\' {
      Put(dst, i, '\\', orig, at, written, []);
      Put(dst, i + 1, c, orig, at, written + ['\\'], []);
      assert written + ['\\'] + [c] == written + EscapeChar(c);
      next := i + 2;
    } else {
      Put(dst, i, c, orig, at, written, []);
      next := i + 1;
    }
  }

  /** strcpy: text and a NUL from index at on. */
  method StrCopy(dst: array<char>, at: nat, text: string)
    requires at + |text| < dst.Length
    modifies dst
    ensures dst[..] == Overwrite(old(dst[..]), at, text + "\0")
  {
    ghost var orig := dst[..];
    OverwriteNothing(orig, at);
    var k := 0;
    while k < |text|
      invariant k <= |text| && dst[..] == Overwrite(orig, at, text[..k])
    {
      Put(dst, at + k, text[k], orig, at, text[..k], []);
      assert text[..k] + [text[k]] == text[..k + 1];
      k := k + 1;
    }
    assert text[..k] == text;
    Put(dst, at + k, '\0', orig, at, text, []);
  }

  /**
   * The scalar cases of _SJSNexportVAL: the threshold test, the copy of the
   * text with its NUL, and the search for that NUL.
   */
  method ExportScalar(buf: array<char>, at: nat, size: int, need: int, text: string) returns (end: nat, err: int)
    requires NulFree(text)
    requires at + |Image(Scalar(text, size, need))| <= buf.Length
    modifies buf
    ensures var r := Scalar(text, size, need); end == at + |r.text| && err == r.err
    ensures buf[..] == Overwrite(old(buf[..]), at, Image(Scalar(text, size, need)))
  {
    if size < need {
      OverwriteNothing(buf[..], at);
      return at, OUT_OF_BUF;
    }
    StrCopy(buf, at, text);
    ghost var written := buf[..];
    end := at;
    while buf[end] != '\0'
      invariant at <= end <= at + |text|
      invariant buf[..] == written
      decreases at + |text| - end
    {
      assert buf[end] == (text + "\0")[end - at];
      end := end + 1;
    }
    assert buf[at + |text|] == (text + "\0")[|text|];
    err := OK;
  }

  /** _SJSNexportVAL: the export of one node, dispatched on its type byte. */
  method ExportVal(v: Value, buf: array<char>, at: nat, size: int, fmt: RealFormat) returns (end: nat, err: int)
    requires Exportable(v, fmt)
    requires at + |Image(Emit(v, size, fmt))| <= buf.Length
    modifies buf
    ensures var r := Emit(v, size, fmt); end == at + |r.text| && err == r.err
    ensures buf[..] == Overwrite(old(buf[..]), at, Image(Emit(v, size, fmt)))
    decreases v, 2
  {
    match v
    case Object(ms) =>
      if size < NEED_CONTAINER {
        OverwriteNothing(buf[..], at);
        return at, OUT_OF_BUF;
      }
      end, err := ExportObj(ms, buf, at, size, fmt);
    case Array(es) =>
      if size < NEED_CONTAINER {
        OverwriteNothing(buf[..], at);
        return at, OUT_OF_BUF;
      }
      end, err := ExportArr(es, buf, at, size, fmt);
    case Str(s) =>
      if 0 <= size < |s| + STRING_OVERHEAD {
        OverwriteNothing(buf[..], at);
        return at, OUT_OF_BUF;
      }
      end := CapString(buf, at, s);
      err := OK;
    case Unknown(_) =>
      OverwriteNothing(buf[..], at);
      end, err := at, EXPORT_TYPE;
    case _ =>
      ScalarNulFree(v, fmt);
      end, err := ExportScalar(buf, at, size, ScalarNeed(v), ScalarText(v, fmt));
  }

  /** What strcpy and sprintf write holds no NUL. */
  lemma ScalarNulFree(v: Value, fmt: RealFormat)
    requires IsScalar(v) && Exportable(v, fmt)
    ensures NulFree(ScalarText(v, fmt))
  {
    if v.Integer? {
      var n := v.n;
      assert IntText(n) == (if n < 0 then "-" else "") + NatText(if n < 0 then -n else n);
    }
  }

  /** One pass of the object loop, on the text: member k's text comes next, and the rest only when it succeeded. */
  lemma MembersNext(ms: seq<Member>, k: nat, size: int, used: int, fmt: RealFormat, pre: string, full: Out)
    requires k < |ms|
    requires full.text == pre + Members(ms, k, size, used, fmt).text && full.err == Members(ms, k, size, used, fmt).err
    ensures var p := MemberOut(ms[k], size, used, fmt);
            && |pre| + |p.text| <= |full.text|
            && (p.err != OK ==> full.text == pre + p.text && full.err == p.err)
            && (p.err == OK ==> var rest := Members(ms, k + 1, size, used + |p.text|, fmt);
                                full.text == (pre + p.text) + rest.text && full.err == rest.err)
  {
    var p := MemberOut(ms[k], size, used, fmt);
    var rest := Members(ms, k + 1, size, used + |p.text|, fmt);
    var cur := Members(ms, k, size, used, fmt);
    if p.err == OK {
      assert cur == Out(p.text + rest.text, rest.err);
      Concat3(pre, p.text, rest.text);
    } else {
      assert cur == p;
    }
  }

  /** One pass of the array loop, on the text. */
  lemma ElementsNext(es: seq<Value>, k: nat, size: int, used: int, fmt: RealFormat, pre: string, full: Out)
    requires k < |es|
    requires full.text == pre + Elements(es, k, size, used, fmt).text && full.err == Elements(es, k, size, used, fmt).err
    ensures var p := ElementOut(es[k], size, used, fmt);
            && |pre| + |p.text| <= |full.text|
            && (p.err != OK ==> full.text == pre + p.text && full.err == p.err)
            && (p.err == OK ==> var rest := Elements(es, k + 1, size, used + |p.text|, fmt);
                                full.text == (pre + p.text) + rest.text && full.err == rest.err)
  {
    var p := ElementOut(es[k], size, used, fmt);
    var rest := Elements(es, k + 1, size, used + |p.text|, fmt);
    var cur := Elements(es, k, size, used, fmt);
    if p.err == OK {
      assert cur == Out(p.text + rest.text, rest.err);
      Concat3(pre, p.text, rest.text);
    } else {
      assert cur == p;
    }
  }

  /** A container whose child failed keeps what it wrote, with no closer and no NUL. */
  lemma Stopped(full: Out, opener: char, pre: string, p: Out, closer: char)
    requires full.text == pre + p.text && full.err == p.err != OK
    ensures var o := Closed([opener] + full.text, full.err, closer);
            Image(o) == ([opener] + pre) + p.text && o.err == p.err
  {
    Concat3([opener], pre, p.text);
  }

  /** An element's text with its value exported into the room left. */
  lemma ElementRoom(v: Value, size: int, used: int, fmt: RealFormat, room: int)
    requires room == size - used
    ensures var vo := Emit(v, room, fmt); ElementOut(v, size, used, fmt) == Out(vo.text + ",", vo.err)
  {
  }

  /** A member's text with its value exported into the room left after the name and the colon. */
  lemma MemberRoom(m: Member, size: int, used: int, fmt: RealFormat, room: int)
    requires room == size - (used + |Cap(m.name)| + 1)
    ensures var vo := Emit(m.val, room, fmt);
            MemberOut(m, size, used, fmt) == Out(Cap(m.name) + ":" + vo.text + ",", vo.err)
  {
  }

  /**
   * One pass of the object loop: the quoted name, a colon, the value given the
   * room left after them, and a comma. `at` is where the object began.
   */
  method ExportMember(m: Member, buf: array<char>, at: nat, t: nat, size: int, fmt: RealFormat, ghost used: int)
    returns (next: nat, err: int)
    requires NulFree(m.name) && Exportable(m.val, fmt) && t == at + used
    requires t + |MemberOut(m, size, used, fmt).text| <= buf.Length
    modifies buf
    ensures var p := MemberOut(m, size, used, fmt); next == t + |p.text| && err == p.err
    ensures buf[..] == Overwrite(old(buf[..]), t, MemberOut(m, size, used, fmt).text)
    decreases m, 0
  {
    ghost var orig := buf[..];
    ghost var head := Cap(m.name) + ":";
    var q := ExportName(buf, t, m.name);
    ghost var mid := buf[..];
    var room := size - (q + 1 - at);
    MemberRoom(m, size, used, fmt, room);
    ghost var vo := Emit(m.val, room, fmt);
    ghost var tail := vo.text + ",";
    next, err := ExportChild(m.val, buf, q + 1, room, fmt);
    OverwriteThen(orig, t, head, mid, tail, buf[..]);
    Concat3(head, vo.text, ",");
    assert head + tail == MemberOut(m, size, used, fmt).text;
  }

  /** One child of a container: its value given the room left, then a comma over the NUL that may end it. */
  method ExportChild(v: Value, buf: array<char>, t: nat, room: int, fmt: RealFormat) returns (next: nat, err: int)
    requires Exportable(v, fmt) && t + |Emit(v, room, fmt).text| < buf.Length
    modifies buf
    ensures var vo := Emit(v, room, fmt); next == t + |vo.text| + 1 && err == vo.err
    ensures buf[..] == Overwrite(old(buf[..]), t, Emit(v, room, fmt).text + ",")
    decreases v, 3
  {
    ghost var orig := buf[..];
    ghost var vo := Emit(v, room, fmt);
    ghost var nul := if vo.err == OK then "\0" else "";
    assert Image(vo) == vo.text + nul;
    var r;
    r, err := ExportVal(v, buf, t, room, fmt);
    Put(buf, r, ',', orig, t, vo.text, nul);
    next := r + 1;
  }

  /** The head of a member: the quoted name, then a colon written over the NUL that ended it. */
  method ExportName(buf: array<char>, t: nat, name: string) returns (q: nat)
    requires NulFree(name) && t + |Cap(name)| < buf.Length
    modifies buf
    ensures q == t + |Cap(name)|
    ensures buf[..] == Overwrite(old(buf[..]), t, Cap(name) + ":")
  {
    ghost var orig := buf[..];
    q := CapString(buf, t, name);
    Put(buf, q, ':', orig, t, Cap(name), "\0");
  }

  /** _SJSNexportOBJ: an opening brace, the members, and on success the closing brace and a NUL. */
  method ExportObj(ms: seq<Member>, buf: array<char>, at: nat, size: int, fmt: RealFormat) returns (end: nat, err: int)
    requires Exportable(Object(ms), fmt)
    requires var r := Members(ms, 0, size, 1, fmt); at + |Image(Closed("{" + r.text, r.err, '}'))| <= buf.Length
    modifies buf
    ensures var r := Members(ms, 0, size, 1, fmt); var o := Closed("{" + r.text, r.err, '}');
            end == at + |o.text| && err == o.err && buf[..] == Overwrite(old(buf[..]), at, Image(o))
    decreases ms, 1
  {
    ghost var orig := buf[..];
    ghost var full := Members(ms, 0, size, 1, fmt);
    OverwriteNothing(orig, at);
    Put(buf, at, '{', orig, at, [], []);
    var t := at + 1;
    ghost var pre := "";
    ghost var used := 1;
    var k := 0;
    while k < |ms|
      invariant k <= |ms| && used == 1 + |pre| && t == at + used
      invariant full.text == pre + Members(ms, k, size, used, fmt).text && full.err == Members(ms, k, size, used, fmt).err
      invariant buf[..] == Overwrite(orig, at, "{" + pre)
      decreases |ms| - k
    {
      var e;
      t, e, pre, used := ObjectStep(ms, k, buf, at, t, size, fmt, orig, pre, used, full);
      if e != OK {
        return t, e;
      }
      k := k + 1;
    }
    assert pre + "" == pre;
    end := CloseContainer(buf, t, '}', orig, at, "{" + pre);
    err := OK;
  }

  /**
   * One pass of the object loop, from the loop's point of view: either the
   * object stops with the error of child k, or the text so far grows by
   * child k's text and the rest of the object is what remains to be written.
   */
  method ObjectStep(ms: seq<Member>, k: nat, buf: array<char>, at: nat, t: nat, size: int, fmt: RealFormat,
                    ghost orig: seq<char>, ghost pre: string, ghost used: int, ghost full: Out)
    returns (next: nat, e: int, ghost pre': string, ghost used': int)
    requires k < |ms| && Exportable(Object(ms), fmt)
    requires used == 1 + |pre| && t == at + used
    requires full.text == pre + Members(ms, k, size, used, fmt).text && full.err == Members(ms, k, size, used, fmt).err
    requires at + 1 + |full.text| <= buf.Length == |orig|
    requires buf[..] == Overwrite(orig, at, "{" + pre)
    modifies buf
    ensures e == OK ==> used' == 1 + |pre'| && next == at + used'
    ensures e == OK ==> full.text == pre' + Members(ms, k + 1, size, used', fmt).text && full.err == Members(ms, k + 1, size, used', fmt).err
    ensures e == OK ==> buf[..] == Overwrite(orig, at, "{" + pre')
    ensures e != OK ==> var o := Closed("{" + full.text, full.err, '}');
            next == at + |o.text| && e == o.err && buf[..] == Overwrite(orig, at, Image(o))
    decreases ms, 0
  {
    ghost var p := MemberOut(ms[k], size, used, fmt);
    MembersNext(ms, k, size, used, fmt, pre, full);
    ghost var before := buf[..];
    next, e := ExportMember(ms[k], buf, at, t, size, fmt, used);
    assert buf[..] == Overwrite(before, t, p.text);
    OverwriteAppend(orig, at, "{" + pre, t, p.text);
    Concat3("{", pre, p.text);
    if e != OK {
      Stopped(full, '{', pre, p, '}');
    }
    pre' := pre + p.text;
    used' := used + |p.text|;
  }

  /**
   * The common end of the two container writers: a trailing comma is taken
   * back, then the closer and a NUL are written.
   */
  method CloseContainer(buf: array<char>, t: nat, closer: char, ghost orig: seq<char>, ghost at: nat, ghost written: string)
    returns (end: nat)
    requires |written| > 0 && t == at + |written| && buf.Length == |orig|
    requires at + |Image(Closed(written, OK, closer))| <= buf.Length
    requires buf[..] == Overwrite(orig, at, written)
    modifies buf
    ensures var o := Closed(written, OK, closer); end == at + |o.text| && buf[..] == Overwrite(orig, at, Image(o))
  {
    var tail := t;
    assert buf[tail - 1] == written[|written| - 1];
    ghost var kept := written;
    if buf[tail - 1] == ',' {
      tail := tail - 1;
      kept := written[..|written| - 1];
      assert written == kept + [','];
      Put(buf, tail, closer, orig, at, kept, [',']);
    } else {
      Put(buf, tail, closer, orig, at, kept, []);
    }
    Put(buf, tail + 1, '\0', orig, at, kept + [closer], []);
    end := tail + 1;
  }


  /** _SJSNexportARR: an opening bracket, the elements, and on success the closing bracket and a NUL. */
  method ExportArr(es: seq<Value>, buf: array<char>, at: nat, size: int, fmt: RealFormat) returns (end: nat, err: int)
    requires Exportable(Array(es), fmt)
    requires var r := Elements(es, 0, size, 1, fmt); at + |Image(Closed("[" + r.text, r.err, ']'))| <= buf.Length
    modifies buf
    ensures var r := Elements(es, 0, size, 1, fmt); var o := Closed("[" + r.text, r.err, ']');
            end == at + |o.text| && err == o.err && buf[..] == Overwrite(old(buf[..]), at, Image(o))
    decreases es, 1
  {
    ghost var orig := buf[..];
    ghost var full := Elements(es, 0, size, 1, fmt);
    OverwriteNothing(orig, at);
    Put(buf, at, '[', orig, at, [], []);
    var t := at + 1;
    ghost var pre := "";
    ghost var used := 1;
    var k := 0;
    while k < |es|
      invariant k <= |es| && used == 1 + |pre| && t == at + used
      invariant full.text == pre + Elements(es, k, size, used, fmt).text && full.err == Elements(es, k, size, used, fmt).err
      invariant buf[..] == Overwrite(orig, at, "[" + pre)
      decreases |es| - k
    {
      var e;
      t, e, pre, used := ArrayStep(es, k, buf, at, t, size, fmt, orig, pre, used, full);
      if e != OK {
        return t, e;
      }
      k := k + 1;
    }
    assert pre + "" == pre;
    end := CloseContainer(buf, t, ']', orig, at, "[" + pre);
    err := OK;
  }

  /**
   * One pass of the array loop, from the loop's point of view: either the
   * array stops with the error of child k, or the text so far grows by
   * child k's text and the rest of the array is what remains to be written.
   */
  method ArrayStep(es: seq<Value>, k: nat, buf: array<char>, at: nat, t: nat, size: int, fmt: RealFormat,
                    ghost orig: seq<char>, ghost pre: string, ghost used: int, ghost full: Out)
    returns (next: nat, e: int, ghost pre': string, ghost used': int)
    requires k < |es| && Exportable(Array(es), fmt)
    requires used == 1 + |pre| && t == at + used
    requires full.text == pre + Elements(es, k, size, used, fmt).text && full.err == Elements(es, k, size, used, fmt).err
    requires at + 1 + |full.text| <= buf.Length == |orig|
    requires buf[..] == Overwrite(orig, at, "[" + pre)
    modifies buf
    ensures e == OK ==> used' == 1 + |pre'| && next == at + used'
    ensures e == OK ==> full.text == pre' + Elements(es, k + 1, size, used', fmt).text && full.err == Elements(es, k + 1, size, used', fmt).err
    ensures e == OK ==> buf[..] == Overwrite(orig, at, "[" + pre')
    ensures e != OK ==> var o := Closed("[" + full.text, full.err, ']');
            next == at + |o.text| && e == o.err && buf[..] == Overwrite(orig, at, Image(o))
    decreases es, 0
  {
    ghost var p := ElementOut(es[k], size, used, fmt);
    ElementsNext(es, k, size, used, fmt, pre, full);
    ghost var before := buf[..];
    var room := size - (t - at);
    ElementRoom(es[k], size, used, fmt, room);
    next, e := ExportChild(es[k], buf, t, room, fmt);
    assert buf[..] == Overwrite(before, t, p.text);
    OverwriteAppend(orig, at, "[" + pre, t, p.text);
    Concat3("[", pre, p.text);
    if e != OK {
      Stopped(full, '[', pre, p, ']');
    }
    pre' := pre + p.text;
    used' := used + |p.text|;
  }

  /** SJSNExport: exports a tree into buf with the given room and returns the error code. */
  method Export(v: Value, buf: array<char>, size: int, fmt: RealFormat) returns (err: int)
    requires Exportable(v, fmt)
    requires |Image(Emit(v, size, fmt))| <= buf.Length
    modifies buf
    ensures err == Emit(v, size, fmt).err
    ensures buf[..] == Overwrite(old(buf[..]), 0, Image(Emit(v, size, fmt)))
    ensures err == OK ==> Emit(v, size, fmt).text == Compact(v, fmt)
    ensures err == OK ==> buf[..|Compact(v, fmt)| + 1] == Compact(v, fmt) + "\0"
  {
    var end;
    end, err := ExportVal(v, buf, 0, size, fmt);
    EmitSound(v, size, fmt);
  }
}
