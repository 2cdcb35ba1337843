/**
 * Properties of the parser: the error codes a parse can end with, the hash
 * index of every member it builds, literals, number tags and the empty
 * containers it refuses.
 */
module ParseProps {
  import opened Wrappers
  import opened CType
  import opened JsonValue
  import opened JsonHash
  import opened ParseSpec

  /** The codes a matcher leaves: the one it found, or one it raises itself. */
  predicate Raised(before: int, after: int)
  {
    after == before || after == SYNTAX_ERROR || after == PHRASE_ERROR || after == UNEXP_NUL
  }

  /** Every member, at every depth, carries the hash index of its name. */
  predicate Hashed(v: Value)
  {
    match v
    case Object(ms) => forall k :: 0 <= k < |ms| ==> ms[k].hidx == HashOf(ms[k].name) && Hashed(ms[k].val)
    case Array(es) => forall k :: 0 <= k < |es| ==> Hashed(es[k])
    case _ => true
  }

  /**
   * One value: the error code only changes to a code the matchers raise,
   * and every member built carries the hash index of its name.
   */
  lemma {:induction false} BuildValKeeps(s: string, c: Cursor)
    requires c.pos <= |s|
    ensures var r := BuildVal(s, c); Raised(c.err, r.at.err) && Hashed(r.val)
    decreases |s| - c.pos, 2
  {
    ValueAtKeeps(s, c.(pos := SkipBlank(s, c.pos)));
  }

  lemma {:induction false} ValueAtKeeps(s: string, c: Cursor)
    requires c.pos <= |s|
    ensures var r := ValueAt(s, c); Raised(c.err, r.at.err) && Hashed(r.val)
    decreases |s| - c.pos, 1
  {
    var ch := CharAt(s, c.pos);
    if ch == '{' {
      ObjectKeeps(s, c);
    } else if ch == '[' {
      ArrayKeeps(s, c);
    }
  }

  lemma {:induction false} ObjectKeeps(s: string, c: Cursor)
    requires c.pos <= |s|
    ensures var r := MatchObject(s, c); Raised(c.err, r.at.err) && Hashed(r.val)
    decreases |s| - c.pos, 0
  {
    if CharAt(s, c.pos) == '{' {
      var inner := ObjectItems(s, c.(pos := c.pos + 1, level := c.level + 1));
      ObjectItemsKeep(s, c.(pos := c.pos + 1, level := c.level + 1));
      ObjectOpen(s, c, inner, MatchObject(s, c));
    }
  }

  lemma {:induction false} ObjectItemsKeep(s: string, c: Cursor)
    requires c.pos <= |s|
    ensures var r := ObjectItems(s, c); Raised(c.err, r.at.err) && Hashed(Object(r.items))
    decreases |s| - c.pos, 6
  {
    var m := MemberPass(s, c);
    MemberPassKeeps(s, c);
    if m.end == More {
      ObjectItemsKeep(s, m.at);
      var rest := ObjectItems(s, m.at);
      assert ObjectItems(s, c).items == Kept(m.item) + rest.items;
    }
  }

  lemma {:induction false} MemberPassKeeps(s: string, c: Cursor)
    requires c.pos <= |s|
    ensures var r := MemberPass(s, c);
            Raised(c.err, r.at.err)
            && (r.item.Some? ==> r.item.value.hidx == HashOf(r.item.value.name) && Hashed(r.item.value.val))
    decreases |s| - c.pos, 5
  {
    var h := MemberHead(s, c.pos);
    if h.name.Some? {
      BuildValKeeps(s, c.(pos := h.pos));
    }
  }

  lemma {:induction false} ArrayKeeps(s: string, c: Cursor)
    requires c.pos <= |s|
    ensures var r := MatchArray(s, c); Raised(c.err, r.at.err) && Hashed(r.val)
    decreases |s| - c.pos, 0
  {
    if CharAt(s, c.pos) == '[' {
      var inner := ArrayItems(s, c.(pos := c.pos + 1, level := c.level + 1));
      ArrayItemsKeep(s, c.(pos := c.pos + 1, level := c.level + 1));
      ArrayOpen(s, c, inner, MatchArray(s, c));
    }
  }

  lemma {:induction false} ArrayItemsKeep(s: string, c: Cursor)
    requires c.pos <= |s|
    ensures var r := ArrayItems(s, c); Raised(c.err, r.at.err) && Hashed(Array(r.items))
    decreases |s| - c.pos, 6
  {
    var e := ElementPass(s, c);
    ElementPassKeeps(s, c);
    if e.end == More {
      ArrayItemsKeep(s, e.at);
      var rest := ArrayItems(s, e.at);
      assert ArrayItems(s, c).items == Kept(e.item) + rest.items;
    }
  }

  lemma {:induction false} ElementPassKeeps(s: string, c: Cursor)
    requires c.pos <= |s|
    ensures var r := ElementPass(s, c); Raised(c.err, r.at.err) && (r.item.Some? ==> Hashed(r.item.value))
    decreases |s| - c.pos, 5
  {
    BuildValKeeps(s, c.(pos := SkipBlank(s, c.pos)));
  }

  /** OK is set only at the start: once a value has failed, every later value leaves the failure in place. */
  lemma ErrorPersists(s: string, c: Cursor)
    requires c.pos <= |s| && c.err != OK
    ensures BuildVal(s, c).at.err != OK
  {
    BuildValKeeps(s, c);
  }

  /**
   * What a parse ends with: a complete tree exactly when the code is OK, no
   * tree on trailing text, the partly built tree on any other error, which
   * is a syntax error, a phrase error or an unexpected end. A complete tree
   * has the hash index of every name in place.
   */
  lemma ParseOutcome(s: string)
    ensures var r := ParseText(s);
            (r.returned.PartialTree? <==> r.err != OK && r.err != UNEXP_SUFFIX)
            && (r.returned.PartialTree? ==> r.err == SYNTAX_ERROR || r.err == PHRASE_ERROR || r.err == UNEXP_NUL)
            && (r.returned.Tree? ==> Hashed(r.returned.root))
  {
    BuildValKeeps(s, Cursor(0, OK, 0));
  }

  /** The byte at i is the letter c as it is or in upper case. */
  predicate LetterAt(s: string, i: int, c: char)
  {
    0 <= i < |s| && (s[i] == c || s[i] == Upper(c))
  }

  /** All letters of a word follow at p, each as it is or in upper case. */
  predicate WordAt(s: string, p: nat, word: string)
  {
    forall k :: 0 <= k < |word| ==> LetterAt(s, p + k, word[k])
  }

  lemma {:induction false} MatchedAll(s: string, p: nat, word: string)
    ensures Matched(s, p, word) == |word| <==> WordAt(s, p, word)
    decreases |word|
  {
    if |word| > 0 {
      MatchedAll(s, p + 1, word[1..]);
      if WordAt(s, p, word) {
        assert LetterAt(s, p + 0, word[0]);
        forall k | 0 <= k < |word| - 1
          ensures LetterAt(s, p + 1 + k, word[1..][k])
        {
          assert LetterAt(s, p + (k + 1), word[k + 1]);
        }
        assert WordAt(s, p + 1, word[1..]);
        assert Matched(s, p, word) == 1 + Matched(s, p + 1, word[1..]);
      }
      if Matched(s, p, word) == |word| {
        assert p < |s| && (s[p] == word[0] || s[p] == Upper(word[0]));
        assert Matched(s, p + 1, word[1..]) == |word[1..]|;
        assert LetterAt(s, p + 0, word[0]);
        forall k | 0 < k < |word|
          ensures LetterAt(s, p + k, word[k])
        {
          assert LetterAt(s, p + 1 + (k - 1), word[1..][k - 1]);
        }
      }
    }
  }

  /**
   * A literal succeeds exactly when every letter of the word follows, in
   * either case, and no letter or digit comes after it; it then yields its
   * value with the cursor just past it, and otherwise raises a phrase error.
   */
  lemma Literal(s: string, c: Cursor, word: string, v: Value)
    requires c.pos <= |s| && c.err == OK
    ensures var r := MatchWord(s, c, word, v);
            (r.at.err == OK <==> WordAt(s, c.pos, word) && !IsAlnum(CharAt(s, c.pos + |word|)))
            && (r.at.err == OK ==> r.val == v && r.at.pos == c.pos + |word|)
            && (r.at.err != OK ==> r.at.err == PHRASE_ERROR)
  {
    MatchedAll(s, c.pos, word);
  }

  /**
   * A number token is a real number exactly when it holds a dot or an
   * exponent marker; an integer is its sign and digits read by atoll. The
   * token ends at a byte that is not a digit, which it leaves unread.
   */
  lemma NumberTag(s: string, c: Cursor)
    requires c.pos <= |s| && (CharAt(s, c.pos) == '-' || IsDigit(CharAt(s, c.pos)))
    ensures var r := MatchNumber(s, c);
            var tok := s[c.pos..r.at.pos];
            (r.val.RealNum? <==> '.' in tok || 'e' in tok || 'E' in tok)
            && (!r.val.RealNum? ==> IntegerText(tok) && r.val == Integer(AtoLL(tok)))
            && !IsDigit(CharAt(s, r.at.pos))
  {
    var n := ScanNumber(s, c.pos);
    var r := MatchNumber(s, c);
    var tok := s[c.pos..r.at.pos];
    IntegerToken(s, c.pos);
    if n.p3 > n.p2 {
      assert tok[n.p2 - c.pos] == '.';
    } else if n.hasExp {
      assert tok[n.p4 - c.pos] == 'e' || tok[n.p4 - c.pos] == 'E';
    } else {
      assert r.at.pos == n.p4;
      assert forall k :: 0 <= k < |tok| ==> tok[k] == '-' || IsDigit(tok[k]);
    }
  }

  /** `{` followed by blanks and `}`: no member name, a syntax error at the `}`. */
  lemma EmptyObject(s: string, c: Cursor)
    requires c.pos < |s| && s[c.pos] == '{' && CharAt(s, SkipBlank(s, c.pos + 1)) == '}'
    ensures var r := MatchObject(s, c); r.at.err == SYNTAX_ERROR && r.at.pos == SkipBlank(s, c.pos + 1)
  {
    var c' := c.(pos := c.pos + 1, level := c.level + 1);
    assert MemberPass(s, c').end == Early;
  }

  /** `[` followed by blanks and `]`: no element starts there, a phrase error at the `]`. */
  lemma EmptyArray(s: string, c: Cursor)
    requires c.pos < |s| && s[c.pos] == '[' && CharAt(s, SkipBlank(s, c.pos + 1)) == ']'
    ensures var r := MatchArray(s, c); r.at.err == PHRASE_ERROR && r.at.pos == SkipBlank(s, c.pos + 1)
  {
    var c' := c.(pos := c.pos + 1, level := c.level + 1);
    var p := SkipBlank(s, c.pos + 1);
    assert SkipBlank(s, p) == p;
    assert BuildVal(s, c'.(pos := p)) == ValueAt(s, c'.(pos := p)) == Parsed(Null, c'.(pos := p, err := PHRASE_ERROR), true);
    assert ElementPass(s, c') == Pass(None, c'.(pos := p, err := PHRASE_ERROR), true, Early);
  }
}
