/**
 * Export followed by parse. A tree comes back unchanged when it has no
 * empty container, no real number, no string or name holding a character
 * the exporter escapes, integers in the range of a long long and names that
 * carry their hash index, and nests fewer than 32 containers deep. Empty
 * containers and escaped characters are exactly where the round trip breaks.
 */
module RoundTrip {
  import opened Wrappers
  import opened CType
  import opened JsonValue
  import opened JsonHash
  import opened ParseSpec
  import opened ExportSpec
  import opened ExportProps
  import opened ParseProps

  /** Text the exporter copies as it is and the parser reads back as it is. */
  predicate PlainText(s: string)
  {
    forall k :: 0 <= k < |s| ==> s[k] != '\0' && !Escaped(s[k])
  }

  /**
   * The trees an export and a parse bring back unchanged, when `room`
   * levels of nesting are left below the parser's limit: no empty
   * container, no real number, integers in the range of a long long,
   * strings and names that are plain text, names that carry their hash
   * index, and every container with room for one more level than its
   * children.
   */
  predicate Portable(v: Value, room: int)
    decreases v, 1
  {
    match v
    case Object(ms) => room >= 2 && |ms| > 0 && PortableMembers(ms, 0, room - 1)
    case Array(es) => room >= 2 && |es| > 0 && PortableElements(es, 0, room - 1)
    case Integer(n) => room >= 1 && INT64_MIN <= n <= INT64_MAX
    case Str(x) => room >= 1 && PlainText(x)
    case RealNum(_, _) => false
    case Unknown(_) => false
    case _ => room >= 1
  }

  /** The members from k on: plain names carrying their hash index, and portable values. */
  predicate PortableMembers(ms: seq<Member>, k: nat, room: int)
    requires k <= |ms|
    decreases ms, 0, |ms| - k
  {
    k == |ms| || (PortableMember(ms[k], room) && PortableMembers(ms, k + 1, room))
  }

  /** A plain name carrying its hash index, and a portable value. */
  predicate PortableMember(m: Member, room: int)
    decreases m, 2
  {
    PlainText(m.name) && m.hidx == HashOf(m.name) && Portable(m.val, room)
  }

  /** The elements from k on are portable. */
  predicate PortableElements(es: seq<Value>, k: nat, room: int)
    requires k <= |es|
    decreases es, 0, |es| - k
  {
    k == |es| || (Portable(es[k], room) && PortableElements(es, k + 1, room))
  }

  /** t stands in s from index p on, one character after the other. */
  predicate TextAt(s: string, p: nat, t: string)
  {
    p + |t| <= |s| && forall i :: 0 <= i < |t| ==> s[p + i] == t[i]
  }

  lemma TextAtSplit(s: string, p: nat, a: string, b: string)
    requires TextAt(s, p, a + b)
    ensures TextAt(s, p, a) && TextAt(s, p + |a|, b)
  {
    forall i | 0 <= i < |a|
      ensures s[p + i] == a[i]
    {
      assert (a + b)[i] == a[i];
    }
    forall i | 0 <= i < |b|
      ensures s[p + |a| + i] == b[i]
    {
      assert s[p + (|a| + i)] == (a + b)[|a| + i];
    }
  }

  /** Text between an opening and a closing character: each part in its place. */
  lemma TextAtWrapped(s: string, p: nat, body: string, open: char, close: char)
    requires TextAt(s, p, [open] + body + [close])
    ensures p + |body| + 2 <= |s| && s[p] == open && TextAt(s, p + 1, body) && s[p + 1 + |body|] == close
  {
    TextAtSplit(s, p, [open] + body, [close]);
    TextAtSplit(s, p, [open], body);
    assert s[p + 0] == [open][0];
    assert s[p + 1 + |body| + 0] == [close][0];
  }

  /** Text, a comma and more text: each part in its place. */
  lemma TextAtComma(s: string, p: nat, t: string, rest: string)
    requires TextAt(s, p, t + "," + rest)
    ensures TextAt(s, p, t) && CharAt(s, p + |t|) == ',' && TextAt(s, p + |t| + 1, rest)
  {
    TextAtSplit(s, p, t + ",", rest);
    TextAtSplit(s, p, t, ",");
    assert s[p + |t| + 0] == ","[0];
  }

  /** Non-empty text: its first character stands at p. */
  lemma TextAtFirst(s: string, p: nat, t: string)
    requires TextAt(s, p, t) && t != []
    ensures p < |s| && s[p] == t[0]
  {
    assert s[p + 0] == t[0];
  }

  /** Non-empty text: its first character at p, the rest from p + 1. */
  lemma TextAtTail(s: string, p: nat, t: string)
    requires TextAt(s, p, t) && t != []
    ensures s[p] == t[0] && TextAt(s, p + 1, t[1..])
  {
    assert s[p + 0] == t[0];
    forall i | 0 <= i < |t| - 1
      ensures s[p + 1 + i] == t[1..][i]
    {
      assert s[p + (i + 1)] == t[i + 1];
    }
  }

  /** A sequence from k on is its element k followed by the rest. */
  lemma SplitFirst<T>(xs: seq<T>, k: nat)
    requires k < |xs|
    ensures xs[k..] == [xs[k]] + xs[k + 1..]
    ensures k + 1 == |xs| ==> xs[k..] == [xs[k]]
  {
    assert xs[k..] == [xs[k]] + xs[k + 1..];
  }

  /** A byte that may follow a value in exported text. */
  predicate Stop(c: char)
  {
    c == ',' || c == ']' || c == '}' || c == '\0'
  }

  function Pow10(k: nat): (r: nat)
    ensures r >= 1
  {
    if k == 0 then 1 else 10 * Pow10(k - 1)
  }

  lemma {:induction false} NatTextLength(n: nat, k: nat)
    requires 1 <= k && n < Pow10(k)
    ensures |NatText(n)| <= k
  {
    if n >= 10 {
      NatTextLength(n / 10, k - 1);
    }
  }

  /** An integer in the range of a long long has at most twenty characters. */
  lemma IntTextLength(n: int)
    requires INT64_MIN <= n <= INT64_MAX
    ensures |IntText(n)| <= 20
  {
    var p := Pow10(19);
    assert p == 10_000_000_000_000_000_000 by {
      assert Pow10(4) == 10_000;
      assert Pow10(8) == 100_000_000;
      assert Pow10(12) == 1_000_000_000_000;
      assert Pow10(16) == 10_000_000_000_000_000;
    }
    if n < 0 {
      NatTextLength(-n, 19);
    } else {
      NatTextLength(n, 19);
    }
  }

  /** atoll reads the text sprintf writes for an integer back as that integer. */
  lemma AtoLLIntText(n: int)
    ensures IntegerText(IntText(n)) && AtoLL(IntText(n)) == n
  {
    var t := IntText(n);
    if n < 0 {
      assert t[1..] == NatText(-n);
      DecimalOfNatText(-n);
    } else {
      DecimalOfNatText(n);
    }
  }

  /** Exported text of a portable tree starts with a graphic byte, so blank skipping stops on it. */
  lemma CompactStart(v: Value, fmt: RealFormat)
    requires !v.RealNum? && !v.Unknown?
    ensures |Compact(v, fmt)| > 0 && IsGraph(Compact(v, fmt)[0])
    ensures Compact(v, fmt)[0] == '-' || IsDigit(Compact(v, fmt)[0]) <==> v.Integer?
  {
    match v
    case Integer(n) =>
      if n < 0 {
        assert IntText(n)[0] == '-';
      }
    case _ =>
  }

  /** A run of digits from p to a byte that may follow a value. */
  lemma DigitsTo(s: string, p: nat, q: nat)
    requires p <= q <= |s| && Stop(CharAt(s, q))
    requires forall k :: p <= k < q ==> IsDigit(s[k])
    ensures Digits(s, p) == q
  {
    DigitsAll(s, p);
  }

  /** The scan for the closing quote over plain text. */
  lemma {:induction false} CloseQuoteOver(s: string, t: nat, body: string)
    requires TextAt(s, t, body) && CharAt(s, t + |body|) == '"' && PlainText(body)
    ensures CloseQuote(s, t) == Some(t + |body|)
    decreases |body|
  {
    if body != [] {
      TextAtTail(s, t, body);
      CloseQuoteOver(s, t + 1, body[1..]);
    }
  }

  /** Text standing at p is the slice of s from p. */
  lemma TextSlice(s: string, p: nat, t: string)
    requires TextAt(s, p, t)
    ensures p + |t| <= |s| && s[p..p + |t|] == t
  {
    assert s[p..p + |t|] == t;
  }

  /** A quoted plain string reads back as the string, the cursor just past its closing quote. */
  lemma StringBack(s: string, p: nat, x: string)
    requires TextAt(s, p, Cap(x)) && PlainText(x)
    ensures |Cap(x)| == |x| + 2
    ensures GetString(s, p) == Scan(Some(x), p + |Cap(x)|)
  {
    EscapePlain(x);
    assert Cap(x) == "\"" + x + "\"";
    TextAtSplit(s, p, "\"" + x, "\"");
    TextAtSplit(s, p, "\"", x);
    TextAtFirst(s, p + |"\"" + x|, "\"");
    CloseQuoteOver(s, p + 1, x);
    TextSlice(s, p + 1, x);
  }

  /** An exported integer reads back as that integer. */
  lemma IntegerBack(s: string, c: Cursor, n: int)
    requires INT64_MIN <= n <= INT64_MAX
    requires TextAt(s, c.pos, IntText(n)) && Stop(CharAt(s, c.pos + |IntText(n)|))
    requires CharAt(s, c.pos) == '-' || IsDigit(CharAt(s, c.pos))
    ensures MatchNumber(s, c) == Parsed(Integer(n), c.(pos := c.pos + |IntText(n)|), true)
  {
    var t := IntText(n);
    var q := c.pos + |t|;
    AtoLLIntText(n);
    IntTextLength(n);
    TextSlice(s, c.pos, t);
    ScanInteger(s, c.pos, q);
  }

  /** The scan of a number token over an integer's text that a stop byte ends. */
  lemma ScanInteger(s: string, p: nat, q: nat)
    requires p < q <= |s| && IntegerText(s[p..q]) && Stop(CharAt(s, q))
    ensures ScanNumber(s, p) == NumberScan(p + 1, q, q, q, false, false, q, q)
  {
    assert s[p] == s[p..q][0];
    forall k | p + 1 <= k < q
      ensures IsDigit(s[k])
    {
      assert s[k] == s[p..q][k - p];
    }
    DigitsTo(s, p + 1, q);
  }

  /** An exported literal reads back as that literal. */
  lemma WordBack(s: string, c: Cursor, word: string, v: Value)
    requires c.err == OK && TextAt(s, c.pos, word) && Stop(CharAt(s, c.pos + |word|))
    ensures MatchWord(s, c, word, v) == Parsed(v, c.(pos := c.pos + |word|), true)
  {
    assert WordAt(s, c.pos, word) by {
      assert forall k :: 0 <= k < |word| ==> s[c.pos + k] == word[k];
    }
    Literal(s, c, word, v);
  }

  /** The matcher the byte under the cursor selects. */
  lemma Dispatch(s: string, c: Cursor)
    requires c.pos <= |s|
    ensures CharAt(s, c.pos) == '{' ==> ValueAt(s, c) == MatchObject(s, c)
    ensures CharAt(s, c.pos) == '[' ==> ValueAt(s, c) == MatchArray(s, c)
    ensures CharAt(s, c.pos) == '"' ==> ValueAt(s, c) == MatchString(s, c)
    ensures CharAt(s, c.pos) == '-' || IsDigit(CharAt(s, c.pos)) ==> ValueAt(s, c) == MatchNumber(s, c)
    ensures CharAt(s, c.pos) == 'n' ==> ValueAt(s, c) == MatchWord(s, c, "null", Null)
    ensures CharAt(s, c.pos) == 't' ==> ValueAt(s, c) == MatchWord(s, c, "true", True)
    ensures CharAt(s, c.pos) == 'f' ==> ValueAt(s, c) == MatchWord(s, c, "false", False)
  {
  }

  /** An exported null, true or false reads back as itself. */
  lemma LiteralBack(s: string, v: Value, c: Cursor, fmt: RealFormat)
    requires (v.Null? || v.True? || v.False?) && c.err == OK
    requires TextAt(s, c.pos, Compact(v, fmt)) && Stop(CharAt(s, c.pos + |Compact(v, fmt)|))
    ensures ValueAt(s, c) == Parsed(v, c.(pos := c.pos + |Compact(v, fmt)|), true)
  {
    var t := Compact(v, fmt);
    assert CharAt(s, c.pos) == t[0];
    Dispatch(s, c);
    WordBack(s, c, t, v);
  }

  /** An exported integer in the range of a long long reads back as itself. */
  lemma IntBack(s: string, v: Value, c: Cursor, fmt: RealFormat)
    requires v.Integer? && INT64_MIN <= v.n <= INT64_MAX && c.err == OK
    requires TextAt(s, c.pos, Compact(v, fmt)) && Stop(CharAt(s, c.pos + |Compact(v, fmt)|))
    ensures ValueAt(s, c) == Parsed(v, c.(pos := c.pos + |Compact(v, fmt)|), true)
  {
    CompactStart(v, fmt);
    TextAtFirst(s, c.pos, Compact(v, fmt));
    Dispatch(s, c);
    IntegerBack(s, c, v.n);
  }

  /** An exported plain string reads back as itself. */
  lemma StrBack(s: string, v: Value, c: Cursor, fmt: RealFormat)
    requires v.Str? && PlainText(v.s) && c.err == OK
    requires TextAt(s, c.pos, Compact(v, fmt))
    ensures ValueAt(s, c) == Parsed(v, c.(pos := c.pos + |Compact(v, fmt)|), true)
  {
    TextAtFirst(s, c.pos, Compact(v, fmt));
    assert CharAt(s, c.pos) == '"';
    Dispatch(s, c);
    StringBack(s, c.pos, v.s);
  }

  /** An exported scalar reads back as itself. */
  lemma ScalarBack(s: string, v: Value, c: Cursor, fmt: RealFormat)
    requires Portable(v, MAX_LEVEL - c.level) && !v.Object? && !v.Array? && c.err == OK
    requires TextAt(s, c.pos, Compact(v, fmt)) && Stop(CharAt(s, c.pos + |Compact(v, fmt)|))
    ensures ValueAt(s, c) == Parsed(v, c.(pos := c.pos + |Compact(v, fmt)|), true)
  {
    if v.Integer? {
      IntBack(s, v, c, fmt);
    } else if v.Str? {
      StrBack(s, v, c, fmt);
    } else {
      LiteralBack(s, v, c, fmt);
    }
  }

  /** Blank skipping stops at once on a byte that may follow a value. */
  lemma SkipAtStop(s: string, p: nat)
    requires p <= |s| && Stop(CharAt(s, p))
    ensures SkipBlank(s, p) == p
  {
  }

  /** Blanks are skipped up to the first byte of an exported value. */
  lemma SkipToValue(s: string, v: Value, p: nat, fmt: RealFormat)
    requires !v.RealNum? && !v.Unknown? && TextAt(s, p, Compact(v, fmt))
    ensures SkipBlank(s, p) == p && p < |s| && s[p] == Compact(v, fmt)[0] && IsGraph(s[p])
  {
    CompactStart(v, fmt);
    TextAtFirst(s, p, Compact(v, fmt));
  }

  /**
   * The exported text of a portable tree, followed by a byte that may
   * follow a value, parses back to the tree with the error code still OK,
   * the level back where it was and the cursor just past the text.
   */
  lemma {:induction false} BuildValBack(s: string, v: Value, c: Cursor, fmt: RealFormat)
    requires Portable(v, MAX_LEVEL - c.level) && 0 <= c.level && c.err == OK
    requires TextAt(s, c.pos, Compact(v, fmt)) && Stop(CharAt(s, c.pos + |Compact(v, fmt)|))
    ensures BuildVal(s, c) == Parsed(v, c.(pos := c.pos + |Compact(v, fmt)|), true)
    decreases v, 4
  {
    SkipToValue(s, v, c.pos, fmt);
    if v.Object? {
      assert CharAt(s, c.pos) == '{';
      Dispatch(s, c);
      ObjectBack(s, v, c, fmt);
    } else if v.Array? {
      assert CharAt(s, c.pos) == '[';
      Dispatch(s, c);
      ArrayBack(s, v, c, fmt);
    } else {
      ScalarBack(s, v, c, fmt);
    }
  }

  /** A member as the exporter writes it: quoted name, colon, value. */
  function MemberText(m: Member, fmt: RealFormat): string
  {
    Cap(m.name) + ":" + Compact(m.val, fmt)
  }

  lemma {:induction false} ObjectBack(s: string, v: Value, c: Cursor, fmt: RealFormat)
    requires v.Object? && Portable(v, MAX_LEVEL - c.level) && 0 <= c.level && c.err == OK
    requires TextAt(s, c.pos, Compact(v, fmt))
    ensures MatchObject(s, c) == Parsed(v, c.(pos := c.pos + |Compact(v, fmt)|), true)
    decreases v, 2
  {
    var ms := v.members;
    assert ms[0..] == ms;
    var body := JoinMembers(ms, 0, fmt);
    ObjectText(s, c.pos, ms, fmt);
    PortableObject(ms, MAX_LEVEL - c.level);
    var c1 := c.(pos := c.pos + 1, level := c.level + 1);
    var q := c.pos + 1 + |body|;
    MembersBack(s, ms, 0, c1, MAX_LEVEL - c.level - 1, q, fmt);
    ObjectClose(s, c, ms, q);
  }

  /** The text of an exported object: a brace, the members, a brace. */
  lemma ObjectText(s: string, p: nat, ms: seq<Member>, fmt: RealFormat)
    requires TextAt(s, p, Compact(Object(ms), fmt))
    ensures var body := JoinMembers(ms, 0, fmt);
            p + |body| + 2 <= |s| && s[p] == '{' && TextAt(s, p + 1, body) && s[p + 1 + |body|] == '}'
            && |Compact(Object(ms), fmt)| == |body| + 2
  {
    TextAtWrapped(s, p, JoinMembers(ms, 0, fmt), '{', '}');
  }

  /** A portable object: some members, each portable one level down. */
  lemma PortableObject(ms: seq<Member>, room: int)
    requires Portable(Object(ms), room)
    ensures |ms| > 0 && PortableMembers(ms, 0, room - 1)
  {
  }

  /** An object whose member loop reads ms and stops at its closing brace. */
  lemma ObjectClose(s: string, c: Cursor, ms: seq<Member>, q: nat)
    requires c.pos < q < |s| && s[c.pos] == '{' && s[q] == '}' && 0 <= c.level + 1 < MAX_LEVEL
    requires ObjectItems(s, c.(pos := c.pos + 1, level := c.level + 1)) == Items(ms, c.(pos := q, level := c.level + 1), true, false)
    ensures MatchObject(s, c) == Parsed(Object(ms), c.(pos := q + 1), true)
  {
    ObjectOpen(s, c, ObjectItems(s, c.(pos := c.pos + 1, level := c.level + 1)), MatchObject(s, c));
  }

  /** The members from k on: the first member's text, then a comma and the rest when there is a rest. */
  lemma JoinMembersFirst(ms: seq<Member>, k: nat, fmt: RealFormat)
    requires k < |ms|
    ensures k + 1 < |ms| ==> JoinMembers(ms, k, fmt) == MemberText(ms[k], fmt) + "," + JoinMembers(ms, k + 1, fmt)
    ensures k + 1 == |ms| ==> JoinMembers(ms, k, fmt) == MemberText(ms[k], fmt)
  {
  }

  /** The member loop over exported members, up to the closing brace. */
  lemma {:induction false} MembersBack(s: string, ms: seq<Member>, k: nat, c: Cursor, room: int, q: nat, fmt: RealFormat)
    requires k < |ms| && 0 <= c.level && c.err == OK && room == MAX_LEVEL - c.level && PortableMembers(ms, k, room)
    requires TextAt(s, c.pos, JoinMembers(ms, k, fmt)) && q == c.pos + |JoinMembers(ms, k, fmt)| && CharAt(s, q) == '}'
    ensures ObjectItems(s, c) == Items(ms[k..], c.(pos := q), true, false)
    decreases ms, 1, |ms| - k, 1
  {
    if k + 1 < |ms| {
      MembersGoOn(s, ms, k, c, room, q, fmt);
    } else {
      SplitFirst(ms, k);
      MemberFinal(s, ms, k, c, room, q, fmt);
      MembersLast(s, c, ms[k], c.(pos := q));
    }
  }

  /** What the member loop from member k needs: portable members whose text stands at c, up to the brace at q. */
  predicate MembersFrom(s: string, ms: seq<Member>, k: nat, c: Cursor, room: int, q: nat, fmt: RealFormat)
  {
    k < |ms| && 0 <= c.level && c.err == OK && room == MAX_LEVEL - c.level && PortableMembers(ms, k, room)
    && TextAt(s, c.pos, JoinMembers(ms, k, fmt)) && q == c.pos + |JoinMembers(ms, k, fmt)| && CharAt(s, q) == '}'
  }

  /** The member loop from member k, wherever its text stands. */
  lemma {:induction false} MembersBackIf(s: string, ms: seq<Member>, k: nat, c: Cursor, room: int, q: nat, fmt: RealFormat)
    ensures MembersFrom(s, ms, k, c, room, q, fmt) ==> ObjectItems(s, c) == Items(ms[k..], c.(pos := q), true, false)
    decreases ms, 1, |ms| - k, 2
  {
    if MembersFrom(s, ms, k, c, room, q, fmt) {
      MembersBack(s, ms, k, c, room, q, fmt);
    }
  }

  /** The member loop from a member that is not the last: its pass, then the loop over the rest. */
  lemma {:induction false} MembersGoOn(s: string, ms: seq<Member>, k: nat, c: Cursor, room: int, q: nat, fmt: RealFormat)
    requires k + 1 < |ms| && MembersFrom(s, ms, k, c, room, q, fmt)
    ensures ObjectItems(s, c) == Items(ms[k..], c.(pos := q), true, false)
    decreases ms, 1, |ms| - k, 0
  {
    var next := c.(pos := c.pos + |MemberText(ms[k], fmt)| + 1);
    MembersStep(s, ms, k, c, room, q, fmt);
    MemberThenRest(s, ms[k], c, room, next, fmt);
    MembersBackIf(s, ms, k + 1, next, room, q, fmt);
    ItemsCons(ObjectItems(s, c), ObjectItems(s, next), ms, k, next.(pos := q));
  }

  /** Member k of exported members that go on stands at c before a comma, and the loop's needs hold after it. */
  lemma MembersStep(s: string, ms: seq<Member>, k: nat, c: Cursor, room: int, q: nat, fmt: RealFormat)
    requires k + 1 < |ms| && MembersFrom(s, ms, k, c, room, q, fmt)
    ensures var m := ms[k];
            var t := MemberText(m, fmt);
            var next := c.(pos := c.pos + |t| + 1);
            PlainText(m.name) && !m.val.RealNum? && !m.val.Unknown? && m.hidx == HashOf(m.name) && Portable(m.val, room)
            && TextAt(s, c.pos, t) && CharAt(s, c.pos + |t|) == ',' && next.pos <= |s|
            && next.(pos := q) == c.(pos := q) && MembersFrom(s, ms, k + 1, next, room, q, fmt)
  {
    PortableMemberAt(ms, k, room);
    JoinMembersAt(s, c.pos, ms, k, fmt);
    TextAtComma(s, c.pos, MemberText(ms[k], fmt), JoinMembers(ms, k + 1, fmt));
  }

  /**
   * The member loop from a member followed by a comma: its pass, then
   * whatever the loop reads from after the comma.
   */
  lemma MemberThenRest(s: string, m: Member, c: Cursor, room: int, next: Cursor, fmt: RealFormat)
    requires PlainText(m.name) && !m.val.RealNum? && !m.val.Unknown? && m.hidx == HashOf(m.name) && Portable(m.val, room)
    requires room == MAX_LEVEL - c.level && 0 <= c.level && c.err == OK
    requires TextAt(s, c.pos, MemberText(m, fmt)) && CharAt(s, c.pos + |MemberText(m, fmt)|) == ','
    requires next == c.(pos := c.pos + |MemberText(m, fmt)| + 1) && next.pos <= |s|
    ensures var rest := ObjectItems(s, next);
            rest.safe ==> ObjectItems(s, c) == Items([m] + rest.items, rest.at, true, rest.early)
    decreases m, 2
  {
    MemberPassMore(s, m, c, room, fmt);
    if ObjectItems(s, next).safe {
      MembersMore(s, c, m, next, ObjectItems(s, next));
    }
  }

  /** Exported members from k that go on: member k's text, a comma and the rest, in place. */
  lemma JoinMembersAt(s: string, p: nat, ms: seq<Member>, k: nat, fmt: RealFormat)
    requires k + 1 < |ms| && TextAt(s, p, JoinMembers(ms, k, fmt))
    ensures TextAt(s, p, MemberText(ms[k], fmt) + "," + JoinMembers(ms, k + 1, fmt))
    ensures |JoinMembers(ms, k, fmt)| == |MemberText(ms[k], fmt)| + 1 + |JoinMembers(ms, k + 1, fmt)|
  {
    JoinMembersFirst(ms, k, fmt);
  }

  /** The last pass of a member loop: it reads member k and stops at the closing brace. */
  lemma MemberFinal(s: string, ms: seq<Member>, k: nat, c: Cursor, room: int, q: nat, fmt: RealFormat)
    requires k + 1 == |ms| && 0 <= c.level && c.err == OK && room == MAX_LEVEL - c.level && PortableMembers(ms, k, room)
    requires TextAt(s, c.pos, JoinMembers(ms, k, fmt)) && q == c.pos + |JoinMembers(ms, k, fmt)| && CharAt(s, q) == '}'
    ensures MemberPass(s, c) == Pass(Some(ms[k]), c.(pos := q), true, Last)
    decreases ms, 0
  {
    PortableMemberAt(ms, k, room);
    JoinMembersFirst(ms, k, fmt);
    MemberPassLast(s, ms[k], c, room, fmt);
  }

  /** A member pass over an exported member followed by a comma and more text. */
  lemma MemberPassMore(s: string, m: Member, c: Cursor, room: int, fmt: RealFormat)
    requires PlainText(m.name) && !m.val.RealNum? && !m.val.Unknown? && m.hidx == HashOf(m.name) && Portable(m.val, room)
    requires room == MAX_LEVEL - c.level && 0 <= c.level && c.err == OK
    requires TextAt(s, c.pos, MemberText(m, fmt)) && CharAt(s, c.pos + |MemberText(m, fmt)|) == ','
    ensures MemberPass(s, c) == Pass(Some(m), c.(pos := c.pos + |MemberText(m, fmt)| + 1), true, More)
    decreases m, 1
  {
    MemberHeadBack(s, c.pos, m, fmt);
    MemberBack(s, m, c, room, c.pos + |Cap(m.name)| + 1, c.pos + |MemberText(m, fmt)|, fmt);
  }

  /** A member pass over an exported member followed by a closing brace. */
  lemma MemberPassLast(s: string, m: Member, c: Cursor, room: int, fmt: RealFormat)
    requires PlainText(m.name) && !m.val.RealNum? && !m.val.Unknown? && m.hidx == HashOf(m.name) && Portable(m.val, room)
    requires room == MAX_LEVEL - c.level && 0 <= c.level && c.err == OK
    requires TextAt(s, c.pos, MemberText(m, fmt)) && CharAt(s, c.pos + |MemberText(m, fmt)|) == '}'
    ensures MemberPass(s, c) == Pass(Some(m), c.(pos := c.pos + |MemberText(m, fmt)|), true, Last)
    decreases m, 1
  {
    MemberHeadBack(s, c.pos, m, fmt);
    MemberBack(s, m, c, room, c.pos + |Cap(m.name)| + 1, c.pos + |MemberText(m, fmt)|, fmt);
  }

  /** The first of the portable members from k: its name, its hash index and its value, and the rest. */
  lemma PortableMemberAt(ms: seq<Member>, k: nat, room: int)
    requires k < |ms| && PortableMembers(ms, k, room)
    ensures PlainText(ms[k].name) && ms[k].hidx == HashOf(ms[k].name) && Portable(ms[k].val, room)
    ensures !ms[k].val.RealNum? && !ms[k].val.Unknown? && PortableMembers(ms, k + 1, room)
  {
  }

  /** A member loop whose first pass reads m and ends at a comma, and whose rest reads rest. */
  lemma MembersMore(s: string, c: Cursor, m: Member, c2: Cursor, rest: Items<Member>)
    requires c.pos <= |s| && c2.pos <= |s| && rest.safe
    requires MemberPass(s, c) == Pass(Some(m), c2, true, More) && ObjectItems(s, c2) == rest
    ensures ObjectItems(s, c) == Items([m] + rest.items, rest.at, true, rest.early)
  {
  }

  /** A member loop whose first pass reads m and ends without a comma. */
  lemma MembersLast(s: string, c: Cursor, m: Member, c2: Cursor)
    requires c.pos <= |s| && MemberPass(s, c) == Pass(Some(m), c2, true, Last)
    ensures ObjectItems(s, c) == Items([m], c2, true, false)
  {
  }

  /** The head of an exported member: its name, and the position of its value. */
  lemma HeadBack(s: string, p: nat, name: string)
    requires PlainText(name) && TextAt(s, p, Cap(name) + ":")
    requires p + |Cap(name)| + 1 < |s| && IsGraph(s[p + |Cap(name)| + 1])
    ensures MemberHead(s, p) == Head(Some(name), p + |Cap(name)| + 1)
  {
    TextAtSplit(s, p, Cap(name), ":");
    TextAtFirst(s, p + |Cap(name)|, ":");
    StringBack(s, p, name);
    assert SkipBlank(s, p) == p;
    assert SkipBlank(s, p + |Cap(name)|) == p + |Cap(name)|;
  }

  /** One pass of the member loop over an exported member whose head has been read, up to the comma or brace after it. */
  lemma {:induction false} MemberBack(s: string, m: Member, c: Cursor, room: int, p2: nat, end: nat, fmt: RealFormat)
    requires room == MAX_LEVEL - c.level && m.hidx == HashOf(m.name) && Portable(m.val, room) && 0 <= c.level && c.err == OK
    requires c.pos <= p2 <= |s| && MemberHead(s, c.pos) == Head(Some(m.name), p2)
    requires TextAt(s, p2, Compact(m.val, fmt)) && end == p2 + |Compact(m.val, fmt)|
    requires CharAt(s, end) == ',' || CharAt(s, end) == '}'
    ensures MemberPass(s, c) == if CharAt(s, end) == ',' then Pass(Some(m), c.(pos := end + 1), true, More)
                                else Pass(Some(m), c.(pos := end), true, Last)
    decreases m, 0
  {
    BuildValBack(s, m.val, c.(pos := p2), fmt);
    MemberPassOver(s, c, m, p2, end);
  }

  /** The head of an exported member reads its name, and its value's text follows. */
  lemma MemberHeadBack(s: string, p: nat, m: Member, fmt: RealFormat)
    requires PlainText(m.name) && !m.val.RealNum? && !m.val.Unknown? && TextAt(s, p, MemberText(m, fmt))
    ensures var p2 := p + |Cap(m.name)| + 1;
            MemberHead(s, p) == Head(Some(m.name), p2)
            && TextAt(s, p2, Compact(m.val, fmt)) && p2 + |Compact(m.val, fmt)| == p + |MemberText(m, fmt)|
  {
    var p2 := p + |Cap(m.name)| + 1;
    TextAtSplit(s, p, Cap(m.name) + ":", Compact(m.val, fmt));
    SkipToValue(s, m.val, p2, fmt);
    HeadBack(s, p, m.name);
  }

  /** A member pass whose head reads m's name and whose value reads m's value up to a comma or brace. */
  lemma MemberPassOver(s: string, c: Cursor, m: Member, p2: nat, end: nat)
    requires c.pos <= |s| && p2 <= end <= |s| && c.err == OK && m.hidx == HashOf(m.name)
    requires MemberHead(s, c.pos) == Head(Some(m.name), p2)
    requires BuildVal(s, c.(pos := p2)) == Parsed(m.val, c.(pos := end), true) && Stop(CharAt(s, end))
    ensures MemberPass(s, c) == if CharAt(s, end) == ',' then Pass(Some(m), c.(pos := end + 1), true, More)
                                else Pass(Some(m), c.(pos := end), true, Last)
  {
    SkipAtStop(s, end);
    assert Member(m.name, HashOf(m.name), m.val) == m;
  }

  lemma {:induction false} ArrayBack(s: string, v: Value, c: Cursor, fmt: RealFormat)
    requires v.Array? && Portable(v, MAX_LEVEL - c.level) && 0 <= c.level && c.err == OK
    requires TextAt(s, c.pos, Compact(v, fmt))
    ensures MatchArray(s, c) == Parsed(v, c.(pos := c.pos + |Compact(v, fmt)|), true)
    decreases v, 2
  {
    var es := v.elems;
    assert es[0..] == es;
    var body := JoinElements(es, 0, fmt);
    ArrayText(s, c.pos, es, fmt);
    PortableArray(es, MAX_LEVEL - c.level);
    var c1 := c.(pos := c.pos + 1, level := c.level + 1);
    var q := c.pos + 1 + |body|;
    ElementsBack(s, es, 0, c1, MAX_LEVEL - c.level - 1, q, fmt);
    ArrayClose(s, c, es, q);
  }

  /** The text of an exported array: a bracket, the elements, a bracket. */
  lemma ArrayText(s: string, p: nat, es: seq<Value>, fmt: RealFormat)
    requires TextAt(s, p, Compact(Array(es), fmt))
    ensures var body := JoinElements(es, 0, fmt);
            p + |body| + 2 <= |s| && s[p] == '[' && TextAt(s, p + 1, body) && s[p + 1 + |body|] == ']'
            && |Compact(Array(es), fmt)| == |body| + 2
  {
    TextAtWrapped(s, p, JoinElements(es, 0, fmt), '[', ']');
  }

  /** A portable array: some elements, each portable one level down. */
  lemma PortableArray(es: seq<Value>, room: int)
    requires Portable(Array(es), room)
    ensures |es| > 0 && PortableElements(es, 0, room - 1)
  {
  }

  /** An array whose element loop reads es and stops at its closing bracket. */
  lemma ArrayClose(s: string, c: Cursor, es: seq<Value>, q: nat)
    requires c.pos < q < |s| && s[c.pos] == '[' && s[q] == ']' && 0 <= c.level + 1 < MAX_LEVEL
    requires ArrayItems(s, c.(pos := c.pos + 1, level := c.level + 1)) == Items(es, c.(pos := q, level := c.level + 1), true, false)
    ensures MatchArray(s, c) == Parsed(Array(es), c.(pos := q + 1), true)
  {
    ArrayOpen(s, c, ArrayItems(s, c.(pos := c.pos + 1, level := c.level + 1)), MatchArray(s, c));
  }


  /** The elements from k on: the first element's text, then a comma and the rest when there is a rest. */
  lemma JoinElementsFirst(es: seq<Value>, k: nat, fmt: RealFormat)
    requires k < |es|
    ensures k + 1 < |es| ==> JoinElements(es, k, fmt) == Compact(es[k], fmt) + "," + JoinElements(es, k + 1, fmt)
    ensures k + 1 == |es| ==> JoinElements(es, k, fmt) == Compact(es[k], fmt)
  {
  }

  /** Exported elements from k that go on: element k's text, a comma and the rest, in place. */
  lemma JoinElementsAt(s: string, p: nat, es: seq<Value>, k: nat, fmt: RealFormat)
    requires k + 1 < |es| && TextAt(s, p, JoinElements(es, k, fmt))
    ensures var t := Compact(es[k], fmt);
            TextAt(s, p, t) && CharAt(s, p + |t|) == ',' && TextAt(s, p + |t| + 1, JoinElements(es, k + 1, fmt))
            && |JoinElements(es, k, fmt)| == |t| + 1 + |JoinElements(es, k + 1, fmt)|
  {
    JoinElementsFirst(es, k, fmt);
    TextAtComma(s, p, Compact(es[k], fmt), JoinElements(es, k + 1, fmt));
  }

  /** The element loop over exported elements, up to the closing bracket. */
  lemma {:induction false} ElementsBack(s: string, es: seq<Value>, k: nat, c: Cursor, room: int, q: nat, fmt: RealFormat)
    requires k < |es| && 0 <= c.level && c.err == OK && room == MAX_LEVEL - c.level && PortableElements(es, k, room)
    requires TextAt(s, c.pos, JoinElements(es, k, fmt)) && q == c.pos + |JoinElements(es, k, fmt)| && CharAt(s, q) == ']'
    ensures ArrayItems(s, c) == Items(es[k..], c.(pos := q), true, false)
    decreases es, 1, |es| - k, 1
  {
    if k + 1 < |es| {
      ElementsGoOn(s, es, k, c, room, q, fmt);
    } else {
      SplitFirst(es, k);
      PortableElementAt(es, k, room);
      JoinElementsFirst(es, k, fmt);
      ElementBack(s, es[k], c, fmt);
      ElementsLast(s, c, es[k], c.(pos := q));
    }
  }

  /** What the element loop from element k needs: portable elements whose text stands at c, up to the bracket at q. */
  predicate ElementsFrom(s: string, es: seq<Value>, k: nat, c: Cursor, room: int, q: nat, fmt: RealFormat)
  {
    k < |es| && 0 <= c.level && c.err == OK && room == MAX_LEVEL - c.level && PortableElements(es, k, room)
    && TextAt(s, c.pos, JoinElements(es, k, fmt)) && q == c.pos + |JoinElements(es, k, fmt)| && CharAt(s, q) == ']'
  }

  /** The element loop from element k, wherever its text stands. */
  lemma {:induction false} ElementsBackIf(s: string, es: seq<Value>, k: nat, c: Cursor, room: int, q: nat, fmt: RealFormat)
    ensures ElementsFrom(s, es, k, c, room, q, fmt) ==> ArrayItems(s, c) == Items(es[k..], c.(pos := q), true, false)
    decreases es, 1, |es| - k, 2
  {
    if ElementsFrom(s, es, k, c, room, q, fmt) {
      ElementsBack(s, es, k, c, room, q, fmt);
    }
  }

  /** The element loop from an element that is not the last: its pass, then the loop over the rest. */
  lemma {:induction false} ElementsGoOn(s: string, es: seq<Value>, k: nat, c: Cursor, room: int, q: nat, fmt: RealFormat)
    requires k + 1 < |es| && ElementsFrom(s, es, k, c, room, q, fmt)
    ensures ArrayItems(s, c) == Items(es[k..], c.(pos := q), true, false)
    decreases es, 1, |es| - k, 0
  {
    var next := c.(pos := c.pos + |Compact(es[k], fmt)| + 1);
    ElementsStep(s, es, k, c, room, q, fmt);
    ElementThenRest(s, es[k], c, room, next, fmt);
    ElementsBackIf(s, es, k + 1, next, room, q, fmt);
    ItemsCons(ArrayItems(s, c), ArrayItems(s, next), es, k, next.(pos := q));
  }

  /** Element k of exported elements that go on stands at c before a comma, and the loop's needs hold after it. */
  lemma ElementsStep(s: string, es: seq<Value>, k: nat, c: Cursor, room: int, q: nat, fmt: RealFormat)
    requires k + 1 < |es| && ElementsFrom(s, es, k, c, room, q, fmt)
    ensures var t := Compact(es[k], fmt);
            var next := c.(pos := c.pos + |t| + 1);
            Portable(es[k], room) && TextAt(s, c.pos, t) && CharAt(s, c.pos + |t|) == ',' && next.pos <= |s|
            && next.(pos := q) == c.(pos := q) && ElementsFrom(s, es, k + 1, next, room, q, fmt)
  {
    PortableElementAt(es, k, room);
    JoinElementsAt(s, c.pos, es, k, fmt);
  }

  /** A first item, then the rest of the items from k + 1 on, are the items from k on. */
  lemma ItemsCons<T>(whole: Items<T>, rest: Items<T>, xs: seq<T>, k: nat, at: Cursor)
    requires k < |xs| && rest == Items(xs[k + 1..], at, true, false)
    requires rest.safe ==> whole == Items([xs[k]] + rest.items, rest.at, true, rest.early)
    ensures whole == Items(xs[k..], at, true, false)
  {
    assert xs[k..] == [xs[k]] + xs[k + 1..];
  }

  /**
   * The element loop from an element followed by a comma: its pass, then
   * whatever the loop reads from after the comma.
   */
  lemma ElementThenRest(s: string, v: Value, c: Cursor, room: int, next: Cursor, fmt: RealFormat)
    requires room == MAX_LEVEL - c.level && Portable(v, room) && 0 <= c.level && c.err == OK
    requires TextAt(s, c.pos, Compact(v, fmt)) && CharAt(s, c.pos + |Compact(v, fmt)|) == ','
    requires next == c.(pos := c.pos + |Compact(v, fmt)| + 1) && next.pos <= |s|
    ensures var rest := ArrayItems(s, next);
            rest.safe ==> ArrayItems(s, c) == Items([v] + rest.items, rest.at, true, rest.early)
    decreases v, 6
  {
    ElementBack(s, v, c, fmt);
    if ArrayItems(s, next).safe {
      ElementsMore(s, c, v, next, ArrayItems(s, next));
    }
  }

  /** The first of the portable elements from k, and the rest. */
  lemma PortableElementAt(es: seq<Value>, k: nat, room: int)
    requires k < |es| && PortableElements(es, k, room)
    ensures Portable(es[k], room) && PortableElements(es, k + 1, room)
  {
  }

  /** An element loop whose first pass reads v and ends at a comma, and whose rest reads rest. */
  lemma ElementsMore(s: string, c: Cursor, v: Value, c2: Cursor, rest: Items<Value>)
    requires c.pos <= |s| && c2.pos <= |s| && rest.safe
    requires ElementPass(s, c) == Pass(Some(v), c2, true, More) && ArrayItems(s, c2) == rest
    ensures ArrayItems(s, c) == Items([v] + rest.items, rest.at, true, rest.early)
  {
  }

  /** An element loop whose first pass reads v and ends without a comma. */
  lemma ElementsLast(s: string, c: Cursor, v: Value, c2: Cursor)
    requires c.pos <= |s| && ElementPass(s, c) == Pass(Some(v), c2, true, Last)
    ensures ArrayItems(s, c) == Items([v], c2, true, false)
  {
  }

  /** One pass of the element loop over an exported element, up to the comma or bracket after it. */
  lemma {:induction false} ElementBack(s: string, v: Value, c: Cursor, fmt: RealFormat)
    requires Portable(v, MAX_LEVEL - c.level) && 0 <= c.level && c.err == OK
    requires TextAt(s, c.pos, Compact(v, fmt))
    requires var end := c.pos + |Compact(v, fmt)|; CharAt(s, end) == ',' || CharAt(s, end) == ']'
    ensures var end := c.pos + |Compact(v, fmt)|;
            ElementPass(s, c) == if CharAt(s, end) == ',' then Pass(Some(v), c.(pos := end + 1), true, More)
                                 else Pass(Some(v), c.(pos := end), true, Last)
    decreases v, 5
  {
    var end := c.pos + |Compact(v, fmt)|;
    SkipToValue(s, v, c.pos, fmt);
    BuildValBack(s, v, c, fmt);
    ElementPassOver(s, c, v, end);
  }

  /** An element pass whose value reads v up to a comma or bracket. */
  lemma ElementPassOver(s: string, c: Cursor, v: Value, end: nat)
    requires c.pos <= end <= |s| && c.err == OK && SkipBlank(s, c.pos) == c.pos
    requires BuildVal(s, c) == Parsed(v, c.(pos := end), true) && Stop(CharAt(s, end))
    ensures ElementPass(s, c) == if CharAt(s, end) == ',' then Pass(Some(v), c.(pos := end + 1), true, More)
                                 else Pass(Some(v), c.(pos := end), true, Last)
  {
    SkipAtStop(s, end);
  }

  /** A portable tree has no node of undefined type. */
  lemma {:induction false} PortableKnown(v: Value, room: int)
    requires Portable(v, room)
    ensures Known(v)
    decreases v, 1
  {
    match v
    case Object(ms) => MembersKnown(ms, 0, room - 1);
    case Array(es) => ElementsKnown(es, 0, room - 1);
    case _ =>
  }

  lemma {:induction false} MembersKnown(ms: seq<Member>, k: nat, room: int)
    requires k <= |ms| && PortableMembers(ms, k, room)
    ensures forall j :: k <= j < |ms| ==> Known(ms[j].val)
    decreases ms, 0, |ms| - k
  {
    if k < |ms| {
      PortableKnown(ms[k].val, room);
      MembersKnown(ms, k + 1, room);
    }
  }

  lemma {:induction false} ElementsKnown(es: seq<Value>, k: nat, room: int)
    requires k <= |es| && PortableElements(es, k, room)
    ensures forall j :: k <= j < |es| ==> Known(es[j])
    decreases es, 0, |es| - k
  {
    if k < |es| {
      PortableKnown(es[k], room);
      ElementsKnown(es, k + 1, room);
    }
  }

  /** A text stands in itself. */
  lemma TextAtWhole(s: string)
    ensures TextAt(s, 0, s)
  {
  }

  /**
   * Export, then parse: with room for the compact text and the largest
   * scalar threshold, a portable tree is exported whole, and parsing the
   * text brings back the same tree with the error code OK, the cursor at
   * the end of the text and no read past the end of the buffer.
   */
  lemma ExportParse(v: Value, size: int, fmt: RealFormat)
    requires Portable(v, MAX_LEVEL) && size >= |Compact(v, fmt)| + NEED_INTEGER
    ensures Emit(v, size, fmt) == Out(Compact(v, fmt), OK)
    ensures ParseText(Emit(v, size, fmt).text) == ParseResult(Tree(v), OK, |Compact(v, fmt)|, true)
  {
    var s := Compact(v, fmt);
    PortableKnown(v, MAX_LEVEL);
    EmitCompact(v, size, fmt);
    TextAtWhole(s);
    BuildValBack(s, v, Cursor(0, OK, 0), fmt);
    assert SkipBlank(s, |s|) == |s|;
  }

  /** An empty object is exported as `{}`, which the parser refuses with a syntax error. */
  lemma EmptyObjectBreaks(fmt: RealFormat)
    ensures Compact(Object([]), fmt) == "{}"
    ensures ParseText("{}").returned == PartialTree && ParseText("{}").err == SYNTAX_ERROR
  {
    assert SkipBlank("{}", 1) == 1;
    EmptyObject("{}", Cursor(0, OK, 0));
    assert BuildVal("{}", Cursor(0, OK, 0)) == MatchObject("{}", Cursor(0, OK, 0));
  }

  /** An empty array is exported as `[]`, which the parser refuses with a phrase error. */
  lemma EmptyArrayBreaks(fmt: RealFormat)
    ensures Compact(Array([]), fmt) == "[]"
    ensures ParseText("[]").returned == PartialTree && ParseText("[]").err == PHRASE_ERROR
  {
    assert SkipBlank("[]", 1) == 1;
    EmptyArray("[]", Cursor(0, OK, 0));
    assert BuildVal("[]", Cursor(0, OK, 0)) == MatchArray("[]", Cursor(0, OK, 0));
  }

  /**
   * The parser keeps escape sequences as they are written: a string holding
   * a line feed is exported with a backslash and an `n`, and comes back as
   * those two characters.
   */
  lemma EscapedStringChanges(size: int, fmt: RealFormat)
    requires size >= 25
    ensures Emit(Str("\n"), size, fmt) == Out("\"\\n\"", OK)
    ensures ParseText("\"\\n\"").returned == Tree(Str("\\n"))
  {
    var s := "\"\\n\"";
    assert Cap("\n") == s;
    assert CloseQuote(s, 3) == Some(3);
    assert CloseQuote(s, 1) == Some(3);
    assert s[1..3] == "\\n";
    assert GetString(s, 0) == Scan(Some("\\n"), 4);
    assert BuildVal(s, Cursor(0, OK, 0)) == Parsed(Str("\\n"), Cursor(4, OK, 0), true);
  }
}
