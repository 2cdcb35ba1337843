/**
 * The path query as the source runs it: one loop over the path, a 128-byte
 * name buffer, an inner loop over a member list and an inner loop along an
 * array. Every method is proved to return what QuerySpec says.
 *
 * The source changes the tree in place as mode 1 walks down it. Here the
 * tree is a value, so the loop keeps the parents it has walked through as
 * frames with a hole, and the tree after the query is the current node put
 * back through them.
 */
module JsonQuery {
  import opened Wrappers
  import opened CType
  import opened JsonValue
  import opened JsonHash
  import opened QuerySpec

  /** A parent the walk went through, with the hole its child came from. */
  datatype Frame =
    | MemberHole(ms: seq<Member>, j: nat)
    | ElementHole(es: seq<Value>, k: nat)
    | Keep(v: Value) // an empty array whose first element, NULL, was entered

  /** A parent with its child put back. */
  function Plug(f: Frame, child: Option<Value>): Value
  {
    match f
    case MemberHole(ms, j) =>
      if j < |ms| && child.Some? then Object(ms[j := ms[j].(val := child.value)]) else Object(ms)
    case ElementHole(es, k) =>
      if k < |es| && child.Some? then Array(es[k := child.value]) else Array(es)
    case Keep(v) => v
  }

  /** The parents the walk went through, the nearest first. */
  datatype Context = Top | Within(f: Frame, up: Context)

  /** The outcome of a walk from the current node, put back through the parents above it. */
  function Rebuild(ctx: Context, o: QOut): (r: QOut)
    ensures r.ans == o.ans
    ensures ctx == Top ==> r == o
    ensures ctx != Top ==> r.node.Some?
  {
    match ctx
    case Top => o
    case Within(f, up) => Rebuild(up, QOut(Some(Plug(f, o.node)), o.ans))
  }

  /** At a `.` or `[` after an index, the walk only passes over it. */
  lemma WalkSkip(s: string, node: Option<Value>, c: QCursor, mode: int)
    requires NulFree(s) && c.p <= |s| && |c.nbf| == NBF_SIZE && c.closure
    requires CharAt(s, c.p) == '.' || CharAt(s, c.p) == '['
    ensures Walk(s, node, c, mode) == Walk(s, node, c.(p := c.p + 1, i := 0, closure := false), mode)
  {
  }

  /** At a `.`, `[` or the end of the path otherwise, the walk looks a name up. */
  lemma WalkName(s: string, node: Option<Value>, c: QCursor, mode: int)
    requires NulFree(s) && c.p <= |s| && |c.nbf| == NBF_SIZE && !c.closure
    requires CharAt(s, c.p) == '.' || CharAt(s, c.p) == '\0' || CharAt(s, c.p) == '['
    requires Walk(s, node, c, mode).ans != Undefined
    ensures c.i < NBF_SIZE && Walk(s, node, c, mode) == NameStep(s, node, c, mode)
  {
  }

  /** At a `]` the walk takes an index step. */
  lemma WalkIndex(s: string, node: Option<Value>, c: QCursor, mode: int)
    requires NulFree(s) && c.p <= |s| && |c.nbf| == NBF_SIZE && CharAt(s, c.p) == ']'
    ensures c.p < |s| && Walk(s, node, c, mode) == IndexStep(s, node, c, mode)
  {
  }

  /** Any other character, or the one after a backslash, is stored in the buffer. */
  lemma WalkChar(s: string, node: Option<Value>, c: QCursor, mode: int) returns (next: QCursor)
    requires NulFree(s) && c.p <= |s| && |c.nbf| == NBF_SIZE
    requires var ch := CharAt(s, c.p); ch != '.' && ch != '\0' && ch != '[' && ch != ']'
    requires Walk(s, node, c, mode).ans != Undefined
    ensures var skip := if CharAt(s, c.p) == '\\' then 1 else 0;
            c.i < NBF_SIZE && c.p + skip < |s| && CharAt(s, c.p + skip) != '\0'
            && next == QCursor(c.p + skip + 1, c.nbf[c.i := CharAt(s, c.p + skip)], c.i + 1, c.closure)
            && Walk(s, node, c, mode) == Walk(s, node, next, mode)
  {
    var skip := if CharAt(s, c.p) == '\\' then 1 else 0;
    next := QCursor(c.p + skip + 1, c.nbf[c.i := CharAt(s, c.p + skip)], c.i + 1, c.closure);
  }

  /** The member lookup loop: the first member whose hash index is h, or |ms|. */
  method FindMember(ms: seq<Member>, h: uint32) returns (j: nat)
    ensures j == FirstMatch(ms, h)
  {
    j := 0;
    while j < |ms| && ms[j].hidx != h
      invariant j <= |ms| && forall k :: 0 <= k < j ==> ms[k].hidx != h
    {
      j := j + 1;
    }
  }

  /**
   * The index loop: from the first element, `count` steps along the list;
   * in mode 1 a missing next element is appended as null, in mode 0 it
   * ends the query with NULL.
   */
  method FollowNext(es: seq<Value>, count: uint32, mode: int) returns (found: bool, es': seq<Value>, k: nat)
    requires es != []
    ensures found <==> count < |es| || mode != 0
    ensures found ==> k == count && k < |es'|
    ensures found ==> es' == if count < |es| then es else es + Nulls(count + 1 - |es|)
  {
    es', k := es, 0;
    var n := count;
    while n > 0
      invariant k + n == count && k < |es'|
      invariant |es'| == if k < |es| then |es| else k + 1
      invariant es' == es + Nulls(|es'| - |es|)
      invariant mode == 0 ==> |es'| == |es|
    {
      if k + 1 < |es'| {
        k := k + 1;
      } else if mode != 0 {
        es', k := es' + [Null], k + 1;
      } else {
        return false, es, 0;
      }
      n := n - 1;
    }
    found := true;
  }

  /**
   * The lookup at a `.`, `[` or the end of the path: the member of the
   * current object whose hash index is the hash of the collected name, the
   * member mode 1 appends, or the object mode 1 makes of a null node. On
   * success the parent with its hole and the child the walk enters.
   */
  method VisitName(s: string, node: Option<Value>, name: string, h: uint32, mode: int, ghost c: QCursor)
    returns (found: bool, f: Frame, child: Value)
    requires NulFree(s) && c.p <= |s| && |c.nbf| == NBF_SIZE && c.i < NBF_SIZE
    requires name == c.nbf[..c.i] && h == HashOf(name)
    requires NameStep(s, node, c, mode).ans != Undefined
    ensures var d := Descend(s, child, c.(nbf := c.nbf[c.i := '\0']), mode);
            NameStep(s, node, c, mode) == if found then QOut(Some(Plug(f, d.node)), d.ans) else QOut(node, NotFound)
  {
    var v := node.value;
    if v.Object? {
      var ms := v.members;
      var j := FindMember(ms, h);
      if j == |ms| {
        if mode == 0 {
          return false, Keep(v), Null;
        }
        ms := ms + [Member(name, h, Null)];
      }
      return true, MemberHole(ms, j), ms[j].val;
    } else if v.Null? && mode != 0 {
      return true, MemberHole([Member(name, h, Null)], 0), Null;
    }
    return false, Keep(v), Null;
  }

  /**
   * The index step at a `]`: the current array followed as many elements on
   * as atoi reads from the unterminated buffer. On success the parent with
   * its hole and the element the walk enters (NULL past an empty array).
   */
  method VisitIndex(s: string, node: Option<Value>, buf: seq<char>, mode: int, ghost c: QCursor)
    returns (found: bool, f: Frame, child: Option<Value>)
    requires NulFree(s) && c.p < |s| && c.nbf == buf && |buf| == NBF_SIZE
    requires IndexStep(s, node, c, mode).ans != Undefined
    ensures var w := Walk(s, child, AfterIndex(c), mode);
            IndexStep(s, node, c, mode) == if found then QOut(Some(Plug(f, w.node)), w.ans) else QOut(node, NotFound)
  {
    var v := node.value;
    if !v.Array? {
      return false, Keep(v), None;
    }
    var es := v.elems;
    var count := Unsigned(AtoI(buf).value);
    if es == [] {
      return true, Keep(v), None;
    }
    var ok, es', k := FollowNext(es, count, mode);
    if !ok {
      return false, Keep(v), None;
    }
    return true, ElementHole(es', k), Some(es'[k]);
  }

  /**
   * A `.`, `[` or the end of the path that does not close an index: the
   * collected name is terminated in the buffer, hashed and looked up.
   */
  method NamePass(s: string, nbf: array<char>, i: nat, node: Option<Value>, ctx: Context, mode: int, ghost c: QCursor)
    returns (found: bool, ctx': Context, child: Value)
    requires NulFree(s) && c.p <= |s| && nbf.Length == NBF_SIZE && c == QCursor(c.p, nbf[..], i, false)
    requires i <= NBF_SIZE && NulFree(nbf[..i])
    requires CharAt(s, c.p) == '.' || CharAt(s, c.p) == '\0' || CharAt(s, c.p) == '['
    requires Walk(s, node, c, mode).ans != Undefined
    modifies nbf
    ensures i < NBF_SIZE && nbf[..] == c.nbf[i := '\0']
    ensures found ==> Rebuild(ctx, Walk(s, node, c, mode)) == Rebuild(ctx', Descend(s, child, c.(nbf := nbf[..]), mode))
    ensures !found ==> Walk(s, node, c, mode) == QOut(node, NotFound)
  {
    WalkName(s, node, c, mode);
    var name := nbf[..i];
    nbf[i] := '\0';
    var h := HashIdx(name);
    var f;
    found, f, child := VisitName(s, node, name, h, mode, c);
    ctx' := Within(f, ctx);
  }

  /**
   * A `]`: the index step, then the `]` itself stored at the start of the
   * buffer, since the index loop leaves the fill count at zero.
   */
  method IndexPass(s: string, nbf: array<char>, node: Option<Value>, ctx: Context, mode: int, ghost c: QCursor)
    returns (found: bool, ctx': Context, node': Option<Value>)
    requires NulFree(s) && c.p <= |s| && nbf.Length == NBF_SIZE && c.nbf == nbf[..] && CharAt(s, c.p) == ']'
    requires Walk(s, node, c, mode).ans != Undefined
    modifies nbf
    ensures found ==> nbf[..] == AfterIndex(c).nbf
    ensures found ==> Rebuild(ctx, Walk(s, node, c, mode)) == Rebuild(ctx', Walk(s, node', AfterIndex(c), mode))
    ensures !found ==> Walk(s, node, c, mode) == QOut(node, NotFound)
  {
    WalkIndex(s, node, c, mode);
    var f;
    found, f, node' := VisitIndex(s, node, nbf[..], mode, c);
    ctx' := Within(f, ctx);
    if found {
      nbf[0] := ']';
    }
  }

  /** Any other character: stored in the buffer, after passing a backslash. */
  method CharPass(s: string, nbf: array<char>, p: nat, i: nat, node: Option<Value>, mode: int, ghost c: QCursor)
    returns (p': nat, i': nat)
    requires NulFree(s) && p <= |s| && nbf.Length == NBF_SIZE && c == QCursor(p, nbf[..], i, c.closure)
    requires i <= NBF_SIZE && NulFree(nbf[..i])
    requires var ch := CharAt(s, p); ch != '.' && ch != '\0' && ch != '[' && ch != ']'
    requires Walk(s, node, c, mode).ans != Undefined
    modifies nbf
    ensures p' <= |s| && p' > p && i' <= NBF_SIZE && NulFree(nbf[..i'])
    ensures Walk(s, node, c, mode) == Walk(s, node, QCursor(p', nbf[..], i', c.closure), mode)
  {
    ghost var next := WalkChar(s, node, c, mode);
    p' := p;
    if CharAt(s, p) == '\\' {
      p' := p + 1;
    }
    nbf[i] := CharAt(s, p');
    i', p' := i + 1, p' + 1;
    assert nbf[..] == next.nbf;
  }

  /**
   * SJSNQuery. The name buffer starts with whatever the stack held (`junk`);
   * behaviour C leaves undefined is excluded by the precondition.
   */
  method Query(root: Option<Value>, path: Option<string>, mode: int, junk: seq<char>) returns (tree: Option<Value>, r: Answer)
    requires path.Some? ==> NulFree(path.value)
    requires |junk| == NBF_SIZE
    requires QuerySpec.Query(root, path, mode, junk).ans != Undefined
    ensures QOut(tree, r) == QuerySpec.Query(root, path, mode, junk)
  {
    if root.None? || path.None? {
      return root, NotFound;
    }
    var s := path.value;
    var nbf := new char[NBF_SIZE](k requires 0 <= k < NBF_SIZE => junk[k]);
    var node := root;
    var ctx := Top;
    var p: nat, i: nat, closure := 0, 0, false;
    ghost var goal := Walk(s, root, QCursor(0, junk, 0, false), mode);
    assert nbf[..] == junk;
    while true
      invariant p <= |s| && i <= NBF_SIZE && NulFree(nbf[..i])
      invariant Rebuild(ctx, Walk(s, node, QCursor(p, nbf[..], i, closure), mode)) == goal
      decreases |s| - p
    {
      ghost var c := QCursor(p, nbf[..], i, closure);
      var ch := CharAt(s, p);
      if ch == '.' || ch == '\0' || ch == '[' {
        if closure {
          closure := false;
          if ch == '\0' {
            break;
          }
          WalkSkip(s, node, c, mode);
          i, p := 0, p + 1;
          continue;
        }
        var found, ctx', child := NamePass(s, nbf, i, node, ctx, mode, c);
        if !found {
          return Rebuild(ctx, QOut(node, NotFound)).node, NotFound;
        }
        ctx, node := ctx', Some(child);
        if ch == '\0' {
          break;
        }
        i, p := 0, p + 1;
      } else if ch == ']' {
        var found, ctx', node' := IndexPass(s, nbf, node, ctx, mode, c);
        if !found {
          return Rebuild(ctx, QOut(node, NotFound)).node, NotFound;
        }
        ctx, node := ctx', node';
        closure, i, p := true, 1, p + 1;
      } else {
        p, i := CharPass(s, nbf, p, i, node, mode, c);
      }
    }
    tree, r := Rebuild(ctx, Finish(node)).node, Finish(node).ans;
  }

  /** SJSNObjMultiQuery. */
  method MultiQuery(v: Option<Value>, id: string) returns (r: Option<Member>)
    requires NulFree(id)
    ensures r == QuerySpec.MultiQuery(v, id)
  {
    if v.None? {
      // the continuation pointer is never recorded
      return None;
    }
    if !v.value.Object? {
      return None;
    }
    var ms := v.value.members;
    var h := HashIdx(id);
    var j := 0;
    while j < |ms|
      invariant j <= |ms| && forall k :: 0 <= k < j ==> ms[k].hidx != h
    {
      if ms[j].hidx == h {
        return Some(ms[j]);
      }
      j := j + 1;
    }
    return None;
  }
}
