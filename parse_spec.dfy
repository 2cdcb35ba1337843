/**
 * The recursive-descent parser as functions over the text and a cursor.
 *
 * The cursor is the parser shell's mutable state: the read position
 * `p_ptr`, the error code and the stack level `p_level`. Every matcher
 * maps a cursor to the cursor it leaves behind, together with the value it
 * built. The value matters only when the error code is still OK at the end;
 * on an error the shell keeps a partly built tree whose contents are not
 * modelled.
 *
 * `safe` records that the run stayed inside the fixed C buffers: the
 * 32-slot node stack, the 40-byte number text, the 8-byte exponent text,
 * and the range of atoll.
 */
module ParseSpec {
  import opened Wrappers
  import opened CType
  import opened JsonValue
  import opened JsonHash

  datatype Cursor = Cursor(pos: nat, err: int, level: int)

  /** What a matcher built and where it left the cursor. */
  datatype Parsed = Parsed(val: Value, at: Cursor, safe: bool)

  /** What a container's item loop built, and whether it returned before its closer. */
  datatype Items<T> = Items(items: seq<T>, at: Cursor, safe: bool, early: bool)

  /** The result of reading a quoted string: its raw body, if any, and the new position. */
  datatype Scan = Scan(text: Option<string>, pos: nat)

  const NUM_BUF := 40
  const EXP_BUF := 8
  const INT64_MIN := -0x8000_0000_0000_0000
  const INT64_MAX := 0x7fff_ffff_ffff_ffff

  /** Blank skipping: moves over every byte that is neither graphic nor the terminator. */
  function SkipBlank(s: string, pos: nat): (p: nat)
    requires pos <= |s|
    ensures pos <= p <= |s|
    ensures CharAt(s, p) == '\0' || IsGraph(CharAt(s, p))
    decreases |s| - pos
  {
    if CharAt(s, pos) != '\0' && !IsGraph(CharAt(s, pos)) then SkipBlank(s, pos + 1) else pos
  }

  /** Every byte blank skipping passes over is neither the terminator nor graphic. */
  lemma {:induction false} SkipBlankSkips(s: string, pos: nat)
    requires pos <= |s|
    ensures forall k :: pos <= k < SkipBlank(s, pos) ==> s[k] != '\0' && !IsGraph(s[k])
    decreases |s| - pos
  {
    if SkipBlank(s, pos) > pos {
      SkipBlankSkips(s, pos + 1);
    }
  }

  /**
   * The scan for the closing quote from position t: a backslash makes the
   * next byte part of the body, and the terminator anywhere ends the scan
   * with no result.
   */
  function CloseQuote(s: string, t: nat): (r: Option<nat>)
    requires t <= |s|
    ensures r.Some? ==> t <= r.value < |s| && s[r.value] == '"'
    decreases |s| - t
  {
    if CharAt(s, t) == '"' then Some(t)
    else if CharAt(s, t) == '\0' then None
    else if CharAt(s, t) == '\\' then
      if CharAt(s, t + 1) == '\0' then None else CloseQuote(s, t + 2)
    else CloseQuote(s, t + 1)
  }

  /**
   * A string body as the closing-quote scan accepts it: a sequence of units,
   * each either one byte that is not a quote, a backslash or the terminator,
   * or a backslash followed by any byte but the terminator.
   */
  predicate EscapedBody(b: string)
    decreases |b|
  {
    b == []
    || (b[0] != '"' && b[0] != '\\' && b[0] != '\0' && EscapedBody(b[1..]))
    || (|b| >= 2 && b[0] == '\\' && b[1] != '\0' && EscapedBody(b[2..]))
  }

  /**
   * The scan finds q exactly when q holds a quote and the bytes from t up to
   * q form an escaped body: q is the first quote not escaped by a backslash,
   * and there is no result when the text ends, or hits the terminator,
   * before such a quote.
   */
  lemma {:induction false} CloseQuoteExact(s: string, t: nat, q: nat)
    requires t <= q && t <= |s|
    ensures CloseQuote(s, t) == Some(q) <==> q < |s| && s[q] == '"' && EscapedBody(s[t..q])
    decreases q - t
  {
    if |s| <= q {
      // no quote at q, and the scan stops inside the text
    } else if t == q {
      assert s[t..q] == [];
    } else if CharAt(s, t) == '\\' && CharAt(s, t + 1) != '\0' && t + 2 <= q {
      CloseQuoteExact(s, t + 2, q);
      assert s[t..q][2..] == s[t + 2..q];
    } else if CharAt(s, t) != '"' && CharAt(s, t) != '\0' && CharAt(s, t) != '\\' {
      CloseQuoteExact(s, t + 1, q);
      assert s[t..q][1..] == s[t + 1..q];
    }
  }

  /** There is no result exactly when no quote past t closes an escaped body. */
  lemma CloseQuoteNone(s: string, t: nat)
    requires t <= |s|
    ensures CloseQuote(s, t).None? <==> forall q :: t <= q < |s| && s[q] == '"' ==> !EscapedBody(s[t..q])
  {
    if CloseQuote(s, t).Some? {
      CloseQuoteExact(s, t, CloseQuote(s, t).value);
    } else {
      forall q | t <= q < |s| && s[q] == '"'
        ensures !EscapedBody(s[t..q])
      {
        CloseQuoteExact(s, t, q);
      }
    }
  }

  /** No byte before the closing quote is the terminator. */
  lemma {:induction false} CloseQuoteNulFree(s: string, t: nat)
    requires t <= |s| && CloseQuote(s, t).Some?
    ensures forall k :: t <= k < CloseQuote(s, t).value ==> s[k] != '\0'
    decreases |s| - t
  {
    if CharAt(s, t) == '\\' {
      CloseQuoteNulFree(s, t + 2);
    } else if CharAt(s, t) != '"' {
      CloseQuoteNulFree(s, t + 1);
    }
  }

  /**
   * Reading a quoted string. Off a quote nothing moves; otherwise the cursor
   * passes the opening quote, and on success lands one past the closing
   * quote with the raw bytes in between.
   */
  function GetString(s: string, pos: nat): (r: Scan)
    requires pos <= |s|
    ensures r.pos <= |s|
    ensures CharAt(s, pos) != '"' ==> r == Scan(None, pos)
    ensures CharAt(s, pos) == '"' && r.text.None? ==> r.pos == pos + 1
    ensures r.text.Some? ==> r.pos == pos + |r.text.value| + 2
                             && s[pos] == '"' && s[r.pos - 1] == '"'
                             && r.text.value == s[pos + 1..r.pos - 1]
  {
    if CharAt(s, pos) != '"' then Scan(None, pos)
    else
      match CloseQuote(s, pos + 1)
      case None => Scan(None, pos + 1)
      case Some(t) => Scan(Some(s[pos + 1..t]), t + 1)
  }

  /**
   * Reading a string at a quote succeeds with body b exactly when b is an
   * escaped body followed by a quote, and it fails exactly when no quote
   * past the opening one closes an escaped body.
   */
  lemma GetStringExact(s: string, pos: nat)
    requires pos < |s| && s[pos] == '"'
    ensures forall b: string :: GetString(s, pos).text == Some(b) <==>
              pos + |b| + 1 < |s| && s[pos + 1..pos + |b| + 1] == b && s[pos + |b| + 1] == '"' && EscapedBody(b)
    ensures GetString(s, pos).text.None? <==>
              forall q :: pos < q < |s| && s[q] == '"' ==> !EscapedBody(s[pos + 1..q])
  {
    CloseQuoteNone(s, pos + 1);
    forall b: string
      ensures GetString(s, pos).text == Some(b) <==>
              pos + |b| + 1 < |s| && s[pos + 1..pos + |b| + 1] == b && s[pos + |b| + 1] == '"' && EscapedBody(b)
    {
      CloseQuoteExact(s, pos + 1, pos + |b| + 1);
    }
  }

  /** A string read from the text is a C string: it holds no terminator. */
  lemma GetStringNulFree(s: string, pos: nat)
    requires pos <= |s| && GetString(s, pos).text.Some?
    ensures NulFree(GetString(s, pos).text.value)
  {
    CloseQuoteNulFree(s, pos + 1);
  }

  /** A string value: a failed read is a syntax error. */
  function MatchString(s: string, c: Cursor): (r: Parsed)
    requires c.pos <= |s|
    ensures c.pos <= r.at.pos <= |s| && r.at.level == c.level && r.safe
    ensures r.at.err == OK <==> c.err == OK && GetString(s, c.pos).text.Some?
    ensures r.at.err == c.err || r.at.err == SYNTAX_ERROR
  {
    var g := GetString(s, c.pos);
    match g.text
    case None => Parsed(Null, c.(pos := g.pos, err := SYNTAX_ERROR), true)
    case Some(t) => Parsed(Str(t), c.(pos := g.pos), true)
  }

  /** The end of the run of decimal digits starting at p. */
  function Digits(s: string, p: nat): (q: nat)
    requires p <= |s|
    ensures p <= q <= |s| && !IsDigit(CharAt(s, q))
    decreases |s| - p
  {
    if IsDigit(CharAt(s, p)) then Digits(s, p + 1) else p
  }

  /** Every byte of a digit run is a digit. */
  lemma {:induction false} DigitsAll(s: string, p: nat)
    requires p <= |s|
    ensures forall k :: p <= k < Digits(s, p) ==> IsDigit(s[k])
    decreases |s| - p
  {
    if Digits(s, p) > p {
      DigitsAll(s, p + 1);
    }
  }

  /** The text of an integer token: a minus sign or a digit, then digits. */
  predicate IntegerText(num: string)
  {
    |num| > 0 && (num[0] == '-' || IsDigit(num[0])) && forall k :: 1 <= k < |num| ==> IsDigit(num[k])
  }

  /** atoll on an integer token; a lone minus sign reads as 0. */
  function AtoLL(num: string): int
    requires IntegerText(num)
  {
    if num[0] == '-' then -(Decimal(num[1..]) as int) else Decimal(num)
  }

  /**
   * The stages of a number token, each the position after one part:
   * the first byte (taken whatever it is), the integer digits, the dot, the
   * fraction digits, then the exponent marker, its sign and its digits.
   */
  datatype NumberScan = NumberScan(p1: nat, p2: nat, p3: nat, p4: nat, hasExp: bool, neg: bool, p6: nat, p7: nat)

  function ScanNumber(s: string, p0: nat): (n: NumberScan)
    requires p0 <= |s|
    ensures p0 <= n.p1 <= n.p2 <= n.p3 <= n.p4 <= n.p6 <= n.p7 <= |s|
    ensures !n.hasExp ==> n.p6 == n.p7 == n.p4
  {
    var p1 := if CharAt(s, p0) != '\0' then p0 + 1 else p0;
    var p2 := Digits(s, p1);
    var p3 := if CharAt(s, p2) == '.' then p2 + 1 else p2;
    var p4 := Digits(s, p3);
    var hasExp := CharAt(s, p4) == 'e' || CharAt(s, p4) == 'E';
    if !hasExp then NumberScan(p1, p2, p3, p4, false, false, p4, p4)
    else
      var p5 := p4 + 1;
      var neg := CharAt(s, p5) == '-';
      var p6 := if neg || CharAt(s, p5) == '+' then p5 + 1 else p5;
      NumberScan(p1, p2, p3, p4, true, neg, p6, Digits(s, p6))
  }

  /** Without a dot, the text up to the fraction digits is an integer token. */
  lemma IntegerToken(s: string, p0: nat)
    requires p0 <= |s| && (CharAt(s, p0) == '-' || IsDigit(CharAt(s, p0)))
    ensures var n := ScanNumber(s, p0); n.p3 == n.p2 ==> IntegerText(s[p0..n.p4])
  {
    var n := ScanNumber(s, p0);
    DigitsAll(s, n.p1);
    if n.p3 == n.p2 {
      assert n.p4 == n.p2;
      var num := s[p0..n.p4];
      assert forall k :: 1 <= k < |num| ==> num[k] == s[p0 + k] && n.p1 <= p0 + k < n.p2;
    }
  }

  /**
   * A number token. It is a real number when it has a dot or an exponent
   * marker, and an integer valued by atoll of its text otherwise.
   */
  function MatchNumber(s: string, c: Cursor): (r: Parsed)
    requires c.pos <= |s|
    requires CharAt(s, c.pos) == '-' || IsDigit(CharAt(s, c.pos))
    ensures c.pos <= r.at.pos <= |s| && r.at.err == c.err && r.at.level == c.level
  {
    var n := ScanNumber(s, c.pos);
    var num := s[c.pos..n.p4];
    var exp := (if n.neg then "-" else "") + s[n.p6..n.p7];
    var isReal := n.p3 > n.p2 || n.hasExp;
    IntegerToken(s, c.pos);
    var safe := |num| < NUM_BUF && (n.hasExp ==> |exp| < EXP_BUF)
                && (isReal || INT64_MIN <= AtoLL(num) <= INT64_MAX);
    Parsed(if isReal then RealNum(num, exp) else Integer(AtoLL(num)),
           c.(pos := if n.hasExp then n.p7 else n.p4), safe)
  }

  /** How many letters of word follow at p, matched ignoring case. */
  function Matched(s: string, p: nat, word: string): (k: nat)
    ensures k <= |word| && (p <= |s| ==> p + k <= |s|)
    ensures k < |word| ==> !(p + k < |s| && (s[p + k] == word[k] || s[p + k] == Upper(word[k])))
    decreases |word|
  {
    if |word| == 0 then 0
    else if p < |s| && (s[p] == word[0] || s[p] == Upper(word[0])) then 1 + Matched(s, p + 1, word[1..])
    else 0
  }

  /** Past k matched letters, one more matches exactly when letter k follows at p + k. */
  lemma {:induction false} MatchedNext(s: string, p: nat, word: string, k: nat)
    requires k < |word| && k <= Matched(s, p, word)
    ensures Matched(s, p, word) > k <==> p + k < |s| && (s[p + k] == word[k] || s[p + k] == Upper(word[k]))
    decreases k
  {
    if k > 0 {
      MatchedNext(s, p + 1, word[1..], k - 1);
    }
  }

  /**
   * A literal word (true, false, null): letter by letter ignoring case, the
   * cursor passing each letter that matches, and no letter or digit after.
   */
  function MatchWord(s: string, c: Cursor, word: string, v: Value): (r: Parsed)
    requires c.pos <= |s|
    ensures c.pos <= r.at.pos <= |s| && r.at.level == c.level && r.safe
    ensures r.at.err == c.err || r.at.err == PHRASE_ERROR
  {
    var k := Matched(s, c.pos, word);
    if k < |word| then Parsed(Null, c.(pos := c.pos + k, err := PHRASE_ERROR), true)
    else if IsAlnum(CharAt(s, c.pos + k)) then Parsed(Null, c.(pos := c.pos + k, err := PHRASE_ERROR), true)
    else Parsed(v, c.(pos := c.pos + k), true)
  }

  /** One value: blanks are skipped, then the byte under the cursor chooses the matcher. */
  function BuildVal(s: string, c: Cursor): (r: Parsed)
    requires c.pos <= |s|
    ensures c.pos <= r.at.pos <= |s|
    decreases |s| - c.pos, 2
  {
    ValueAt(s, c.(pos := SkipBlank(s, c.pos)))
  }

  /**
   * The matcher dispatch on the byte under the cursor: the terminator is an
   * unexpected end, and a byte that starts no value is a phrase error.
   */
  function ValueAt(s: string, c: Cursor): (r: Parsed)
    requires c.pos <= |s|
    ensures c.pos <= r.at.pos <= |s|
    decreases |s| - c.pos, 1
  {
    var ch := CharAt(s, c.pos);
    if ch == '\0' then Parsed(Null, c.(err := UNEXP_NUL), true)
    else if ch == '"' then MatchString(s, c)
    else if ch == '-' || IsDigit(ch) then MatchNumber(s, c)
    else if ch == '{' then MatchObject(s, c)
    else if ch == '[' then MatchArray(s, c)
    else if ch == 't' || ch == 'T' then MatchWord(s, c, "true", True)
    else if ch == 'f' || ch == 'F' then MatchWord(s, c, "false", False)
    else if ch == 'n' || ch == 'N' then MatchWord(s, c, "null", Null)
    else Parsed(Null, c.(err := PHRASE_ERROR), true)
  }

  /** The closer of a container whose item loop ended at p without returning early. */
  function Close(s: string, c: Cursor, closer: char): (r: Cursor)
    requires c.pos <= |s| && closer != '\0'
    ensures c.pos <= r.pos <= |s|
  {
    if CharAt(s, c.pos) == closer then c.(pos := c.pos + 1, level := c.level - 1)
    else if CharAt(s, c.pos) == '\0' then c.(err := UNEXP_NUL)
    else c.(err := SYNTAX_ERROR)
  }

  /** How a pass of a container's item loop ended. */
  datatype PassEnd = Early | Last | More

  /**
   * One pass of a container's item loop: the item it kept, if any, where it
   * left the cursor, and how it ended: a return from the matcher (`Early`),
   * a byte other than `,` after the item (`Last`), or a `,` (`More`).
   */
  datatype Pass<T> = Pass(item: Option<T>, at: Cursor, safe: bool, end: PassEnd)

  /** The item a pass kept, as a sequence of zero or one items. */
  function Kept<T>(item: Option<T>): (r: seq<T>)
    ensures |r| <= 1
  {
    if item.Some? then [item.value] else []
  }

  /**
   * The member loop from cursor c: passes until one ends without `,`.
   * Members whose value left the error code not OK are not kept.
   */
  function ObjectItems(s: string, c: Cursor): (r: Items<Member>)
    requires c.pos <= |s|
    ensures c.pos <= r.at.pos <= |s|
    decreases |s| - c.pos, 6
  {
    var m := MemberPass(s, c);
    if m.end == More then
      var rest := ObjectItems(s, m.at);
      Items(Kept(m.item) + rest.items, rest.at, m.safe && rest.safe, rest.early)
    else Items(Kept(m.item), m.at, m.safe, m.end == Early)
  }

  /** One pass of the member loop and the loop after it. */
  lemma ObjectItemsStep(s: string, c: Cursor)
    requires c.pos <= |s|
    ensures var m := MemberPass(s, c);
            var r := ObjectItems(s, c);
            if m.end == More then
              var rest := ObjectItems(s, m.at);
              r.items == Kept(m.item) + rest.items && r.at == rest.at && r.early == rest.early && (r.safe ==> rest.safe)
            else
              r.items == Kept(m.item) && r.at == m.at && r.early == (m.end == Early)
  {
  }

  /** The head of a member: the name and, on success, the position after the colon and the blanks. */
  datatype Head = Head(name: Option<string>, pos: nat)

  /**
   * Blanks, the name, blanks and the colon. Without a name or a colon the
   * head fails at the position the cursor reached.
   */
  function MemberHead(s: string, pos: nat): (h: Head)
    requires pos <= |s|
    ensures pos <= h.pos <= |s| && (h.name.Some? ==> pos < h.pos)
  {
    var g := GetString(s, SkipBlank(s, pos));
    match g.text
    case None => Head(None, g.pos)
    case Some(name) =>
      var p2 := SkipBlank(s, g.pos);
      if CharAt(s, p2) != ':' then Head(None, p2) else Head(Some(name), SkipBlank(s, p2 + 1))
  }

  /**
   * One pass of the member loop: the head, the value, then the byte after
   * the blanks that follow it. A failed value does not end the loop.
   */
  function MemberPass(s: string, c: Cursor): (r: Pass<Member>)
    requires c.pos <= |s|
    ensures c.pos <= r.at.pos <= |s| && (r.end == More ==> c.pos < r.at.pos)
    decreases |s| - c.pos, 5
  {
    var h := MemberHead(s, c.pos);
    if h.name.None? then Pass(None, c.(pos := h.pos, err := SYNTAX_ERROR), true, Early)
    else
      var name := h.name.value;
      var v := BuildVal(s, c.(pos := h.pos));
      var item := if v.at.err == OK then Some(Member(name, HashOf(name), v.val)) else None;
      var p4 := SkipBlank(s, v.at.pos);
      if CharAt(s, p4) == ',' then Pass(item, v.at.(pos := p4 + 1), v.safe, More)
      else Pass(item, v.at.(pos := p4), v.safe, Last)
  }

  /** An object: `{`, then the member loop one level up, then `}`. */
  function MatchObject(s: string, c: Cursor): (r: Parsed)
    requires c.pos <= |s|
    ensures c.pos <= r.at.pos <= |s|
    decreases |s| - c.pos, 0
  {
    if CharAt(s, c.pos) != '{' then Parsed(Null, c.(err := SYNTAX_ERROR), true)
    else
      var inner := ObjectItems(s, c.(pos := c.pos + 1, level := c.level + 1));
      var at := if inner.early then inner.at else Close(s, inner.at, '}');
      Parsed(Object(inner.items), at, 0 <= c.level + 1 < MAX_LEVEL && inner.safe)
  }

  /** The element loop from cursor c: passes until one ends without `,`. */
  function ArrayItems(s: string, c: Cursor): (r: Items<Value>)
    requires c.pos <= |s|
    ensures c.pos <= r.at.pos <= |s|
    decreases |s| - c.pos, 6
  {
    var e := ElementPass(s, c);
    if e.end == More then
      var rest := ArrayItems(s, e.at);
      Items(Kept(e.item) + rest.items, rest.at, e.safe && rest.safe, rest.early)
    else Items(Kept(e.item), e.at, e.safe, e.end == Early)
  }

  /** One pass of the element loop and the loop after it. */
  lemma ArrayItemsStep(s: string, c: Cursor)
    requires c.pos <= |s|
    ensures var e := ElementPass(s, c);
            var r := ArrayItems(s, c);
            if e.end == More then
              var rest := ArrayItems(s, e.at);
              r.items == Kept(e.item) + rest.items && r.at == rest.at && r.early == rest.early && (r.safe ==> rest.safe)
            else
              r.items == Kept(e.item) && r.at == e.at && r.early == (e.end == Early)
  {
  }

  /**
   * One pass of the element loop: blanks, the element, then the byte after
   * the blanks that follow it. An element that leaves the error code not OK
   * returns from the matcher.
   */
  function ElementPass(s: string, c: Cursor): (r: Pass<Value>)
    requires c.pos <= |s|
    ensures c.pos <= r.at.pos <= |s| && (r.end == More ==> c.pos < r.at.pos)
    ensures r.item.Some? <==> r.end != Early
    decreases |s| - c.pos, 5
  {
    var v := BuildVal(s, c.(pos := SkipBlank(s, c.pos)));
    if v.at.err != OK then Pass(None, v.at, v.safe, Early)
    else
      var p4 := SkipBlank(s, v.at.pos);
      if CharAt(s, p4) == ',' then Pass(Some(v.val), v.at.(pos := p4 + 1), v.safe, More)
      else Pass(Some(v.val), v.at.(pos := p4), v.safe, Last)
  }

  /** An array: `[`, then the element loop one level up, then `]`. */
  function MatchArray(s: string, c: Cursor): (r: Parsed)
    requires c.pos <= |s|
    ensures c.pos <= r.at.pos <= |s|
    decreases |s| - c.pos, 0
  {
    if CharAt(s, c.pos) != '[' then Parsed(Null, c.(err := SYNTAX_ERROR), true)
    else
      var inner := ArrayItems(s, c.(pos := c.pos + 1, level := c.level + 1));
      var at := if inner.early then inner.at else Close(s, inner.at, ']');
      Parsed(Array(inner.items), at, 0 <= c.level + 1 < MAX_LEVEL && inner.safe)
  }

  /** The matcher at an opening brace: the loop one level up, then the closer. */
  lemma ObjectOpen(s: string, c: Cursor, inner: Items<Member>, r: Parsed)
    requires c.pos < |s| && s[c.pos] == '{' && inner == ObjectItems(s, c.(pos := c.pos + 1, level := c.level + 1))
    requires r == MatchObject(s, c)
    ensures r == Parsed(Object(inner.items), if inner.early then inner.at else Close(s, inner.at, '}'),
                        0 <= c.level + 1 < MAX_LEVEL && inner.safe)
  {
  }

  /** The matcher at an opening bracket: the loop one level up, then the closer. */
  lemma ArrayOpen(s: string, c: Cursor, inner: Items<Value>, r: Parsed)
    requires c.pos < |s| && s[c.pos] == '[' && inner == ArrayItems(s, c.(pos := c.pos + 1, level := c.level + 1))
    requires r == MatchArray(s, c)
    ensures r == Parsed(Array(inner.items), if inner.early then inner.at else Close(s, inner.at, ']'),
                        0 <= c.level + 1 < MAX_LEVEL && inner.safe)
  {
  }
  /**
   * What the parse entry point hands back: no tree (NULL), a partly built
   * tree whose contents are not modelled, or the complete tree.
   */
  datatype Returned = NullTree | PartialTree | Tree(root: Value)

  datatype ParseResult = ParseResult(returned: Returned, err: int, pos: nat, safe: bool)

  /**
   * The parse entry point: cursor, level and error code start at 0, 0 and
   * OK; after a complete value only blanks may follow.
   */
  function ParseText(s: string): (r: ParseResult)
    ensures r.returned.Tree? <==> r.err == OK
    ensures r.returned.NullTree? ==> r.err == UNEXP_SUFFIX
    ensures r.pos <= |s|
    // a complete tree: the value parsed, and only blanks follow it up to the end of the C string
    ensures r.returned.Tree? ==>
              var e := BuildVal(s, Cursor(0, OK, 0)).at.pos;
              e <= r.pos && CharAt(s, r.pos) == '\0'
              && (forall k :: e <= k < r.pos ==> s[k] != '\0' && !IsGraph(s[k]))
              && (NulFree(s) ==> r.pos == |s|)
    // no tree: the value parsed, and a graphic byte follows it after blanks
    ensures r.returned.NullTree? ==>
              BuildVal(s, Cursor(0, OK, 0)).at.err == OK && r.pos < |s| && IsGraph(s[r.pos])
  {
    var v := BuildVal(s, Cursor(0, OK, 0));
    if v.at.err != OK then
      ParseResult(PartialTree, v.at.err, v.at.pos, v.safe)
    else
      var p := SkipBlank(s, v.at.pos);
      SkipBlankSkips(s, v.at.pos);
      if CharAt(s, p) != '\0' then ParseResult(NullTree, UNEXP_SUFFIX, p, v.safe)
      else ParseResult(Tree(v.val), OK, p, v.safe)
  }
}
