/**
 * Properties of the path query: mode 0 leaves the tree alone, a name
 * segment selects the first member whose hash index matches, an index
 * segment reads the whole unterminated name buffer, a root array cannot be
 * entered with `[`, and mode 1 grows the tree by one member, one object or
 * a run of null elements.
 */
module QueryProps {
  import opened Wrappers
  import opened CType
  import opened JsonValue
  import opened JsonHash
  import opened QuerySpec
  import opened Seqs

  /** A character the walk stores in the name buffer as it is. */
  predicate Plain(c: char)
  {
    c != '.' && c != '[' && c != ']' && c != '\\' && c != '\0'
  }

  /** A run of plain characters, short enough for the name buffer. */
  predicate Segment(path: string, p: nat, q: nat)
  {
    p <= q <= |path| && q - p < NBF_SIZE && forall k :: p <= k < q ==> Plain(path[k])
  }

  /** A walk in mode 0 gives back the node it started from. */
  lemma {:induction false} WalkReadOnly(path: string, node: Option<Value>, c: QCursor)
    requires NulFree(path) && c.p <= |path| && |c.nbf| == NBF_SIZE
    ensures Walk(path, node, c, 0).node == node
    decreases |path| - c.p
  {
    var ch := CharAt(path, c.p);
    if ch == '.' || ch == '\0' || ch == '[' {
      if c.closure {
        if ch != '\0' {
          WalkReadOnly(path, node, c.(p := c.p + 1, i := 0, closure := false));
        }
      } else if c.i < NBF_SIZE && node.Some? && node.value.Object? {
        var ms := node.value.members;
        var c' := c.(nbf := c.nbf[c.i := '\0']);
        var j := FirstMatch(ms, HashOf(c.nbf[..c.i]));
        if j < |ms| {
          if ch != '\0' {
            WalkReadOnly(path, Some(ms[j].val), c'.(p := c.p + 1, i := 0));
          }
          assert Descend(path, ms[j].val, c', 0).node == Some(ms[j].val);
          assert ms[j := ms[j].(val := ms[j].val)] == ms;
          assert Walk(path, node, c, 0) == NameStep(path, node, c, 0) == Enter(path, ms, j, c', 0);
        }
      }
    } else if ch == ']' {
      if node.Some? && node.value.Array? && AtoI(c.nbf).Some? {
        var es := node.value.elems;
        var count := Unsigned(AtoI(c.nbf).value);
        if count < |es| {
          WalkReadOnly(path, Some(es[count]), AfterIndex(c));
          assert es[count := es[count]] == es;
          assert Walk(path, node, c, 0) == IndexStep(path, node, c, 0) == EnterElement(path, es, count, c, 0);
        }
      }
    } else {
      var lit := if ch == '\\' then CharAt(path, c.p + 1) else ch;
      var next := if ch == '\\' then c.p + 2 else c.p + 1;
      if c.i < NBF_SIZE && lit != '\0' {
        WalkReadOnly(path, node, c.(p := next, nbf := c.nbf[c.i := lit], i := c.i + 1));
      }
    }
  }

  /** A query in mode 0 never changes the tree. */
  lemma QueryReadOnly(root: Option<Value>, path: Option<string>, junk: seq<char>)
    requires path.Some? ==> NulFree(path.value)
    requires |junk| == NBF_SIZE
    ensures Query(root, path, 0, junk).node == root
  {
    if root.Some? && path.Some? {
      WalkReadOnly(path.value, root, QCursor(0, junk, 0, false));
    }
  }

  /** Plain characters are copied into the name buffer one after another. */
  lemma {:induction false} Collect(path: string, node: Option<Value>, c: QCursor, q: nat, mode: int)
    requires NulFree(path) && c.p <= q <= |path| && |c.nbf| == NBF_SIZE
    requires forall k :: c.p <= k < q ==> Plain(path[k])
    requires c.i + (q - c.p) <= NBF_SIZE
    ensures Walk(path, node, c, mode)
            == Walk(path, node, c.(p := q, nbf := Overwrite(c.nbf, c.i, path[c.p..q]), i := c.i + (q - c.p)), mode)
    decreases q - c.p
  {
    if c.p == q {
      OverwriteNothing(c.nbf, c.i);
    } else {
      var x := path[c.p];
      var c1 := c.(p := c.p + 1, nbf := c.nbf[c.i := x], i := c.i + 1);
      assert Walk(path, node, c, mode) == Walk(path, node, c1, mode);
      Collect(path, node, c1, q, mode);
      Store(c.nbf, c.i, x);
      OverwriteAppend(c.nbf, c.i, [x], c.i + 1, path[c.p + 1..q]);
      assert [x] + path[c.p + 1..q] == path[c.p..q];
    }
  }

  /** The name buffer after a segment has been copied to its start and terminated. */
  function NameBuffer(nbf: seq<char>, seg: string): (b: seq<char>)
    requires |nbf| == NBF_SIZE && |seg| < NBF_SIZE
    ensures |b| == NBF_SIZE && b[..|seg|] == seg && b[|seg|] == '\0'
    ensures forall k :: |seg| < k < NBF_SIZE ==> b[k] == nbf[k]
  {
    Overwrite(nbf, 0, seg + "\0")
  }

  /**
   * A segment of plain characters ended by `.`, `[` or the end of the path
   * is a name step with the segment at the start of the buffer; the step
   * terminates it there.
   */
  lemma NameAtEnd(path: string, node: Option<Value>, p: nat, q: nat, nbf: seq<char>, mode: int)
    requires NulFree(path) && Segment(path, p, q) && |nbf| == NBF_SIZE
    requires CharAt(path, q) == '.' || CharAt(path, q) == '\0' || CharAt(path, q) == '['
    ensures var c := QCursor(q, Overwrite(nbf, 0, path[p..q]), q - p, false);
            c.nbf[..c.i] == path[p..q] && c.nbf[c.i := '\0'] == NameBuffer(nbf, path[p..q])
            && Walk(path, node, QCursor(p, nbf, 0, false), mode) == NameStep(path, node, c, mode)
  {
    var seg := path[p..q];
    Collect(path, node, QCursor(p, nbf, 0, false), q, mode);
    var b := Overwrite(nbf, 0, seg);
    assert b[..q - p] == seg;
    Store(b, q - p, '\0');
    OverwriteAppend(nbf, 0, seg, q - p, "\0");
  }

  /**
   * A name segment ended by `.`, `[` or the end of the path, in mode 0: the
   * first member of the current object whose hash index is the segment's
   * hash; NULL when there is none or the node is not an object.
   */
  lemma LookupName(path: string, v: Value, p: nat, q: nat, nbf: seq<char>)
    requires NulFree(path) && Segment(path, p, q) && |nbf| == NBF_SIZE
    requires CharAt(path, q) == '.' || CharAt(path, q) == '\0' || CharAt(path, q) == '['
    ensures var seg := path[p..q];
            Walk(path, Some(v), QCursor(p, nbf, 0, false), 0).ans ==
              if !v.Object? then NotFound
              else
                var ms := v.members;
                var j := FirstMatch(ms, HashOf(seg));
                if j == |ms| then NotFound
                else if CharAt(path, q) == '\0' then Found(ms[j].val)
                else Walk(path, Some(ms[j].val), QCursor(q + 1, NameBuffer(nbf, seg), 0, false), 0).ans
  {
    var seg := path[p..q];
    NameAtEnd(path, Some(v), p, q, nbf, 0);
    var c := QCursor(q, Overwrite(nbf, 0, seg), q - p, false);
    if v.Object? {
      var ms := v.members;
      var j := FirstMatch(ms, HashOf(seg));
      var c' := c.(nbf := NameBuffer(nbf, seg));
      if j < |ms| {
        assert NameStep(path, Some(v), c, 0) == Enter(path, ms, j, c', 0);
        assert Enter(path, ms, j, c', 0).ans == Descend(path, ms[j].val, c', 0).ans;
        if CharAt(path, q) == '\0' {
          assert Descend(path, ms[j].val, c', 0) == Finish(Some(ms[j].val));
        } else {
          assert Descend(path, ms[j].val, c', 0)
              == Walk(path, Some(ms[j].val), QCursor(q + 1, NameBuffer(nbf, seg), 0, false), 0);
        }
      }
    }
  }

  /** A path of one plain name reads the first member whose hash index is the name's hash. */
  lemma QueryFirstMatch(ms: seq<Member>, name: string, junk: seq<char>)
    requires Segment(name, 0, |name|) && |junk| == NBF_SIZE
    ensures var j := FirstMatch(ms, HashOf(name));
            Query(Some(Object(ms)), Some(name), 0, junk)
              == QOut(Some(Object(ms)), if j < |ms| then Found(ms[j].val) else NotFound)
  {
    LookupName(name, Object(ms), 0, |name|, junk);
    assert name[0..|name|] == name;
    QueryReadOnly(Some(Object(ms)), Some(name), junk);
  }

  /** The lookup compares hash indexes only: a name with four characters swapped finds the member. */
  lemma QueryCollision(v: Value, junk: seq<char>)
    requires |junk| == NBF_SIZE
    ensures Query(Some(Object([Member("abcde", HashOf("abcde"), v)])), Some("ebcda"), 0, junk).ans == Found(v)
  {
    HashSwap4("abcde", 0);
    assert "abcde"[0 := "abcde"[4]][4 := "abcde"[0]] == "ebcda";
    QueryFirstMatch([Member("abcde", HashOf("abcde"), v)], "ebcda", junk);
  }

  /** A path that starts with `[` gives NULL on an array: the root cannot be indexed that way. */
  lemma RootArray(es: seq<Value>, rest: string, mode: int, junk: seq<char>)
    requires NulFree("[" + rest) && |junk| == NBF_SIZE
    ensures Query(Some(Array(es)), Some("[" + rest), mode, junk) == QOut(Some(Array(es)), NotFound)
  {
    var c := QCursor(0, junk, 0, false);
    assert CharAt("[" + rest, 0) == '[';
    assert Walk("[" + rest, Some(Array(es)), c, mode) == NameStep("[" + rest, Some(Array(es)), c, mode);
  }

  /** atoi over a buffer that starts with a run of digits ended by a non-digit reads that run. */
  lemma AtoIDigits(b: seq<char>, d: nat)
    requires 0 < d < |b| && !IsDigit(b[d])
    requires forall k :: 0 <= k < d ==> IsDigit(b[k])
    ensures AtoI(b) == if Decimal(b[..d]) <= INT_MAX then Some(Decimal(b[..d]) as int) else None
  {
    assert SpaceEnd(b, 0) == 0;
    assert DigitEnd(b, 0) == d;
  }

  /**
   * An index that ends the path: the element the count reaches, or NULL past
   * the end in mode 0; in mode 1 the array first grows by null elements up
   * to the index.
   */
  lemma IndexEnd(path: string, es: seq<Value>, c: QCursor, mode: int)
    requires NulFree(path) && c.p < |path| && path[c.p] == ']' && CharAt(path, c.p + 1) == '\0'
    requires |c.nbf| == NBF_SIZE && es != [] && AtoI(c.nbf).Some?
    ensures var count := Unsigned(AtoI(c.nbf).value);
            var grown := if count < |es| || mode == 0 then es else es + Nulls(count + 1 - |es|);
            Walk(path, Some(Array(es)), c, mode)
              == if count < |grown| then QOut(Some(Array(grown)), Found(grown[count]))
                 else QOut(Some(Array(es)), NotFound)
  {
    var count := Unsigned(AtoI(c.nbf).value);
    var grown := if count < |es| || mode == 0 then es else es + Nulls(count + 1 - |es|);
    assert Walk(path, Some(Array(es)), c, mode) == IndexStep(path, Some(Array(es)), c, mode);
    if count < |grown| {
      assert Walk(path, Some(grown[count]), AfterIndex(c), mode) == Finish(Some(grown[count]));
      assert grown[count := grown[count]] == grown;
      assert IndexStep(path, Some(Array(es)), c, mode) == EnterElement(path, grown, count, c, mode);
    }
  }

  /** An index step on a node that is not an array gives NULL and leaves the node alone. */
  lemma IndexNonArray(path: string, v: Value, c: QCursor, mode: int)
    requires NulFree(path) && c.p < |path| && path[c.p] == ']' && |c.nbf| == NBF_SIZE && !v.Array?
    ensures Walk(path, Some(v), c, mode) == QOut(Some(v), NotFound)
  {
    assert Walk(path, Some(v), c, mode) == IndexStep(path, Some(v), c, mode);
  }

  /**
   * Index 0 that ends the path on an empty array: the element pointer is
   * the empty list's NULL, and the query gives NULL in either mode.
   */
  lemma IndexEmptyArray(path: string, c: QCursor, mode: int)
    requires NulFree(path) && c.p < |path| && path[c.p] == ']' && CharAt(path, c.p + 1) == '\0'
    requires |c.nbf| == NBF_SIZE && AtoI(c.nbf) == Some(0)
    ensures Walk(path, Some(Array([])), c, mode) == QOut(Some(Array([])), NotFound)
  {
    assert Walk(path, Some(Array([])), c, mode) == IndexStep(path, Some(Array([])), c, mode);
    assert Walk(path, None, AfterIndex(c), mode) == Finish(None);
  }

  /** After the name `x12`, the buffer holding the index digit 3 reads as 312. */
  lemma LeakedDigits(junk: seq<char>)
    requires |junk| == NBF_SIZE
    ensures AtoI(Overwrite(NameBuffer(junk, "x12"), 0, "3")) == Some(312)
  {
    var b := Overwrite(NameBuffer(junk, "x12"), 0, "3");
    assert b[0] == '3' && b[1] == '1' && b[2] == '2' && b[3] == '\0';
    assert b[..3] == "312";
    assert Decimal("312") == 312 by {
      assert "312"[..2] == "31" && "31"[..1] == "3" && "3"[..0] == "";
    }
    AtoIDigits(b, 3);
  }

  /** The index `[3]` after the name `x12`, with the buffer that name left behind, reads element 312. */
  lemma LeakedIndex(es: seq<Value>, junk: seq<char>)
    requires |junk| == NBF_SIZE && es != []
    ensures Walk("x12[3]", Some(Array(es)), QCursor(4, NameBuffer(junk, "x12"), 0, false), 0)
            == QOut(Some(Array(es)), if 312 < |es| then Found(es[312]) else NotFound)
  {
    var path := "x12[3]";
    var nb := NameBuffer(junk, "x12");
    assert path[4..5] == "3";
    Collect(path, Some(Array(es)), QCursor(4, nb, 0, false), 5, 0);
    LeakedDigits(junk);
    IndexEnd(path, es, QCursor(5, Overwrite(nb, 0, "3"), 1, false), 0);
  }

  /**
   * The index is read from the whole name buffer, which the digits only
   * overwrite from its start: after the name `x12`, the index `[3]` reads
   * the buffer as 312.
   */
  lemma IndexLeak(es: seq<Value>, junk: seq<char>)
    requires |junk| == NBF_SIZE && es != []
    ensures Query(Some(Object([Member("x12", HashOf("x12"), Array(es))])), Some("x12[3]"), 0, junk).ans
            == if 312 < |es| then Found(es[312]) else NotFound
  {
    var path := "x12[3]";
    assert path[0..3] == "x12" && CharAt(path, 3) == '[';
    LookupName(path, Object([Member("x12", HashOf("x12"), Array(es))]), 0, 3, junk);
    LeakedIndex(es, junk);
  }

  /** Mode 1 on an object without the member: it is appended with a null value and returned. */
  lemma AutoMember(ms: seq<Member>, name: string, junk: seq<char>)
    requires Segment(name, 0, |name|) && |junk| == NBF_SIZE
    requires ms != [] && FirstMatch(ms, HashOf(name)) == |ms|
    ensures Query(Some(Object(ms)), Some(name), 1, junk)
            == QOut(Some(Object(ms + [Member(name, HashOf(name), Null)])), Found(Null))
  {
    assert name[0..|name|] == name;
    NameAtEnd(name, Some(Object(ms)), 0, |name|, junk, 1);
    var c := QCursor(|name|, Overwrite(junk, 0, name), |name|, false);
    var c' := c.(nbf := NameBuffer(junk, name));
    var grown := ms + [Member(name, HashOf(name), Null)];
    assert NameStep(name, Some(Object(ms)), c, 1) == Enter(name, grown, |ms|, c', 1);
    assert Descend(name, Null, c', 1) == Finish(Some(Null));
    assert grown[|ms| := grown[|ms|].(val := Null)] == grown;
  }

  /** Mode 1 on a null node: it becomes an object holding the one member, with a null value. */
  lemma AutoObject(name: string, junk: seq<char>)
    requires Segment(name, 0, |name|) && |junk| == NBF_SIZE
    ensures Query(Some(Null), Some(name), 1, junk)
            == QOut(Some(Object([Member(name, HashOf(name), Null)])), Found(Null))
  {
    assert name[0..|name|] == name;
    NameAtEnd(name, Some(Null), 0, |name|, junk, 1);
    var c := QCursor(|name|, Overwrite(junk, 0, name), |name|, false);
    var c' := c.(nbf := NameBuffer(junk, name));
    var m := Member(name, HashOf(name), Null);
    assert NameStep(name, Some(Null), c, 1) == Enter(name, [m], 0, c', 1);
    assert Descend(name, Null, c', 1) == Finish(Some(Null));
    assert [m][0 := m.(val := Null)] == [m];
  }

  /** Mode 1 on an empty object: the member would be linked after a last member that does not exist. */
  lemma AutoMemberEmpty(name: string, junk: seq<char>)
    requires Segment(name, 0, |name|) && |junk| == NBF_SIZE
    ensures Query(Some(Object([])), Some(name), 1, junk).ans == Undefined
  {
    assert name[0..|name|] == name;
    NameAtEnd(name, Some(Object([])), 0, |name|, junk, 1);
  }
}
