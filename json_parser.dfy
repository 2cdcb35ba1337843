/**
 * The parser shell: the text, the read position, the error code and the
 * stack level, updated in place by one method per matcher. Every method is
 * proved to leave the shell where the matching function of ParseSpec says
 * and to build the value it says.
 *
 * A matcher in the source writes its result into the node on top of the
 * shell's node stack; here it returns that node's type and payload.
 * Methods that can overrun a fixed C buffer require the run to be safe in
 * the sense of ParseSpec.
 */
module JsonParser {
  import opened Wrappers
  import opened CType
  import opened JsonValue
  import opened JsonHash
  import opened ParseSpec
  import opened Seqs

  class Shell {
    const str: string
    var errorCode: int
    var ptr: nat
    var level: int

    /** The cursor part of the shell. */
    function Cur(): Cursor
      reads this
    {
      Cursor(ptr, errorCode, level)
    }

    /** A shell over a text, with the cursor at its start. */
    constructor (text: string)
      ensures str == text && Cur() == Cursor(0, OK, 0)
    {
      str := text;
      errorCode := OK;
      ptr := 0;
      level := 0;
    }

    method SkipBlank()
      requires ptr <= |str|
      modifies this`ptr
      ensures ptr == ParseSpec.SkipBlank(str, old(ptr))
    {
      while CharAt(str, ptr) != '\0' && !IsGraph(CharAt(str, ptr))
        invariant ptr <= |str|
        invariant ParseSpec.SkipBlank(str, ptr) == ParseSpec.SkipBlank(str, old(ptr))
        decreases |str| - ptr
      {
        ptr := ptr + 1;
      }
    }

    method GetString() returns (text: Option<string>)
      requires ptr <= |str|
      modifies this`ptr
      ensures Scan(text, ptr) == ParseSpec.GetString(str, old(ptr))
    {
      if CharAt(str, ptr) != '"' {
        return None;
      }
      ptr := ptr + 1;
      var t := ptr;
      while CharAt(str, t) != '"' && CharAt(str, t) != '\0'
        invariant ptr <= t <= |str|
        invariant CloseQuote(str, t) == CloseQuote(str, ptr)
        decreases |str| - t
      {
        if CharAt(str, t) == '\\' {
          t := t + 1;
          if CharAt(str, t) == '\0' {
            return None;
          }
        }
        t := t + 1;
      }
      if CharAt(str, t) == '\0' {
        return None;
      }
      text := Some(str[ptr..t]);
      ptr := t + 1;
    }

    method MatchString() returns (v: Value)
      requires ptr <= |str|
      modifies this`ptr, this`errorCode
      ensures Parsed(v, Cur(), true) == ParseSpec.MatchString(str, old(Cur()))
    {
      var text := GetString();
      if text.None? {
        errorCode := SYNTAX_ERROR;
        return Null;
      }
      v := Str(text.value);
    }

    /**
     * A run of digits copied from the text into a buffer from index i on:
     * the digit loops of the number matcher.
     */
    method CopyDigits(buf: array<char>, i: nat) returns (i': nat)
      requires ptr <= |str| && i <= buf.Length
      requires i + (Digits(str, ptr) - ptr) < buf.Length
      modifies this`ptr, buf
      ensures ptr == Digits(str, old(ptr)) && i' == i + (ptr - old(ptr)) && i' < buf.Length
      ensures buf[..i'] == old(buf[..i]) + str[old(ptr)..ptr]
    {
      i' := i;
      while IsDigit(CharAt(str, ptr))
        invariant old(ptr) <= ptr <= Digits(str, old(ptr)) && i' == i + (ptr - old(ptr))
        invariant Digits(str, ptr) == Digits(str, old(ptr))
        invariant buf[..i'] == old(buf[..i]) + str[old(ptr)..ptr]
        decreases |str| - ptr
      {
        buf[i'] := str[ptr];
        i', ptr := i' + 1, ptr + 1;
      }
    }

    /**
     * The mantissa of a number: the integer part, then the fraction, copied
     * into the number buffer and terminated.
     */
    method Mantissa(num: array<char>) returns (i: nat, isReal: bool)
      requires ptr <= |str| && (CharAt(str, ptr) == '-' || IsDigit(CharAt(str, ptr)))
      requires num.Length == NUM_BUF && ScanNumber(str, ptr).p4 - ptr < NUM_BUF
      modifies this`ptr, num
      ensures var n := ScanNumber(str, old(ptr));
              ptr == n.p4 && i == n.p4 - old(ptr) && i < num.Length && num[..i] == str[old(ptr)..n.p4] && isReal == (n.p3 > n.p2)
    {
      ghost var p0 := ptr;
      ghost var n := ScanNumber(str, p0);
      i := IntegerPart(num);
      i, isReal := Fraction(num, i);
      SliceJoin(str, p0, n.p2, n.p4);
      ghost var text := num[..i];
      num[i] := '\0';
      assert num[..i] == text;
    }

    /** The integer part of a mantissa: its first byte and the digits after it, from the buffer's start. */
    method IntegerPart(num: array<char>) returns (i: nat)
      requires ptr < |str| && num.Length == NUM_BUF && Digits(str, ptr + 1) - ptr < NUM_BUF
      modifies this`ptr, num
      ensures ptr == Digits(str, old(ptr) + 1) && i == ptr - old(ptr) && num[..i] == str[old(ptr)..ptr]
    {
      ghost var p0 := ptr;
      num[0] := str[ptr];
      i, ptr := 1, ptr + 1;
      assert num[..i] == str[p0..ptr];
      i := CopyDigits(num, i);
      SliceJoin(str, p0, p0 + 1, ptr);
    }

    /** The fraction of a mantissa: a dot, then digits, appended to the number buffer from index i on. */
    method Fraction(num: array<char>, i: nat) returns (i': nat, isReal: bool)
      requires ptr <= |str| && i <= num.Length
      requires var p3 := if CharAt(str, ptr) == '.' then ptr + 1 else ptr; i + (Digits(str, p3) - ptr) < num.Length
      modifies this`ptr, num
      ensures var p3 := if CharAt(str, old(ptr)) == '.' then old(ptr) + 1 else old(ptr);
              ptr == Digits(str, p3) && i' == i + (ptr - old(ptr)) && i' < num.Length
              && num[..i'] == old(num[..i]) + str[old(ptr)..ptr] && isReal == (p3 > old(ptr))
    {
      i', isReal := i, false;
      if CharAt(str, ptr) == '.' {
        num[i'] := str[ptr];
        i', ptr := i' + 1, ptr + 1;
        isReal := true;
      }
      assert num[..i'] == old(num[..i]) + str[old(ptr)..ptr];
      i' := CopyDigits(num, i');
      SliceJoin(str, old(ptr), if isReal then old(ptr) + 1 else old(ptr), ptr);
    }

    /**
     * The exponent of a number after its mantissa: the marker, a sign of
     * which only `-` is kept, and the digits, copied into the exponent
     * buffer and terminated.
     */
    method Exponent(exp: array<char>, ghost p0: nat) returns (j: nat)
      requires p0 <= |str| && ScanNumber(str, p0).hasExp && ptr == ScanNumber(str, p0).p4
      requires var n := ScanNumber(str, p0); exp.Length == EXP_BUF && (if n.neg then 1 else 0) + (n.p7 - n.p6) < EXP_BUF
      modifies this`ptr, exp
      ensures var n := ScanNumber(str, p0);
              ptr == n.p7 && j < exp.Length && exp[..j] == (if n.neg then "-" else "") + str[n.p6..n.p7]
    {
      ghost var n := ScanNumber(str, p0);
      j := 0;
      ptr := ptr + 1;
      if CharAt(str, ptr) == '-' {
        exp[j] := str[ptr];
        j, ptr := j + 1, ptr + 1;
      } else if CharAt(str, ptr) == '+' {
        ptr := ptr + 1;
      }
      assert ptr == n.p6 && exp[..j] == if n.neg then "-" else "";
      j := CopyDigits(exp, j);
      exp[j] := '\0';
    }

    /**
     * The number matcher: the token's bytes are copied into the 40-byte
     * number buffer and the exponent's into the 8-byte exponent buffer.
     */
    method MatchNumber() returns (v: Value)
      requires ptr <= |str| && (CharAt(str, ptr) == '-' || IsDigit(CharAt(str, ptr)))
      requires ParseSpec.MatchNumber(str, Cur()).safe
      modifies this`ptr
      ensures Parsed(v, Cur(), true) == ParseSpec.MatchNumber(str, old(Cur()))
    {
      ghost var p0 := ptr;
      ghost var n := ScanNumber(str, p0);
      IntegerToken(str, p0);
      var num := new char[NUM_BUF];
      var exp := new char[EXP_BUF];
      var i, isReal := Mantissa(num);
      var j := 0;
      if CharAt(str, ptr) == 'e' || CharAt(str, ptr) == 'E' {
        isReal := true;
        j := Exponent(exp, p0);
      }
      assert isReal == (n.p3 > n.p2 || n.hasExp);
      assert ptr == if n.hasExp then n.p7 else n.p4;
      assert exp[..j] == (if n.neg then "-" else "") + str[n.p6..n.p7];
      assert num[..i] == str[p0..n.p4];
      if isReal {
        v := RealNum(num[..i], exp[..j]);
      } else {
        v := Integer(AtoLL(num[..i]));
      }
    }

    /**
     * The literal matchers: letter by letter ignoring case, the cursor
     * passing each letter that matches, then no letter or digit may follow.
     */
    method MatchWord(word: string, val: Value) returns (v: Value)
      requires ptr <= |str| && NulFree(word)
      modifies this`ptr, this`errorCode
      ensures Parsed(v, Cur(), true) == ParseSpec.MatchWord(str, old(Cur()), word, val)
    {
      var k := 0;
      while k < |word|
        invariant k <= Matched(str, old(ptr), word) && ptr == old(ptr) + k && ptr <= |str|
        invariant errorCode == old(errorCode)
        decreases |word| - k
      {
        MatchedNext(str, old(ptr), word, k);
        if CharAt(str, ptr) != word[k] && CharAt(str, ptr) != Upper(word[k]) {
          assert Matched(str, old(ptr), word) == k;
          errorCode := PHRASE_ERROR;
          return Null;
        }
        ptr, k := ptr + 1, k + 1;
      }
      assert Matched(str, old(ptr), word) == |word|;
      if IsAlnum(CharAt(str, ptr)) {
        errorCode := PHRASE_ERROR;
        return Null;
      }
      v := val;
    }

    method MatchTrue() returns (v: Value)
      requires ptr <= |str|
      modifies this`ptr, this`errorCode
      ensures Parsed(v, Cur(), true) == ParseSpec.MatchWord(str, old(Cur()), "true", True)
    {
      v := MatchWord("true", True);
    }

    method MatchFalse() returns (v: Value)
      requires ptr <= |str|
      modifies this`ptr, this`errorCode
      ensures Parsed(v, Cur(), true) == ParseSpec.MatchWord(str, old(Cur()), "false", False)
    {
      v := MatchWord("false", False);
    }

    method MatchNull() returns (v: Value)
      requires ptr <= |str|
      modifies this`ptr, this`errorCode
      ensures Parsed(v, Cur(), true) == ParseSpec.MatchWord(str, old(Cur()), "null", Null)
    {
      v := MatchWord("null", Null);
    }

    /** One value: blanks, then the matcher the byte under the cursor selects. */
    method BuildVal() returns (v: Value)
      requires ptr <= |str| && ParseSpec.BuildVal(str, Cur()).safe
      modifies this`ptr, this`errorCode, this`level
      ensures ptr <= |str|
      ensures v == ParseSpec.BuildVal(str, old(Cur())).val && Cur() == ParseSpec.BuildVal(str, old(Cur())).at
      decreases |str| - ptr, 2
    {
      SkipBlank();
      assert ParseSpec.BuildVal(str, old(Cur())) == ValueAt(str, Cur());
      var ch := CharAt(str, ptr);
      if ch == '\0' {
        errorCode := UNEXP_NUL;
        return Null;
      }
      if ch == '"' {
        v := MatchString();
      } else if ch == '-' || IsDigit(ch) {
        v := MatchNumber();
      } else if ch == '{' {
        v := MatchObject();
      } else if ch == '[' {
        v := MatchArray();
      } else if ch == 't' || ch == 'T' {
        v := MatchTrue();
      } else if ch == 'f' || ch == 'F' {
        v := MatchFalse();
      } else if ch == 'n' || ch == 'N' {
        v := MatchNull();
      } else {
        errorCode := PHRASE_ERROR;
        v := Null;
      }
    }

    /** The closer of a container, after its item loop ended without returning. */
    method Close(closer: char)
      requires ptr <= |str| && closer != '\0'
      modifies this`ptr, this`errorCode, this`level
      ensures Cur() == ParseSpec.Close(str, old(Cur()), closer)
    {
      if CharAt(str, ptr) == closer {
        level := level - 1;
        ptr := ptr + 1;
      } else if CharAt(str, ptr) == '\0' {
        errorCode := UNEXP_NUL;
      } else {
        errorCode := SYNTAX_ERROR;
      }
    }

    /**
     * The head of a member: blanks, the name and its hash index, blanks, the
     * colon and the blanks after it. A missing name or colon is a syntax
     * error.
     */
    method MemberHead() returns (name: Option<string>, hidx: uint32)
      requires ptr <= |str|
      modifies this`ptr, this`errorCode
      ensures ParseSpec.MemberHead(str, old(ptr)) == Head(name, ptr)
      ensures errorCode == if name.None? then SYNTAX_ERROR else old(errorCode)
      ensures name.Some? ==> hidx == HashOf(name.value)
    {
      hidx := 0;
      SkipBlank();
      name := GetString();
      if name.None? {
        errorCode := SYNTAX_ERROR;
        return;
      }
      GetStringNulFree(str, ParseSpec.SkipBlank(str, old(ptr)));
      hidx := HashIdx(name.value);
      SkipBlank();
      if CharAt(str, ptr) != ':' {
        errorCode := SYNTAX_ERROR;
        name := None;
        return;
      }
      ptr := ptr + 1;
      SkipBlank();
    }

    /**
     * One pass of the member loop: the head, the value and the byte after
     * the blanks that follow it. The member is built only while the error
     * code is OK.
     */
    method MemberPass() returns (member: Option<Member>, end: PassEnd)
      requires ptr <= |str| && ParseSpec.MemberPass(str, Cur()).safe
      modifies this`ptr, this`errorCode, this`level
      ensures var m := ParseSpec.MemberPass(str, old(Cur())); member == m.item && end == m.end && Cur() == m.at
      decreases |str| - ptr, 4
    {
      member := None;
      var name, hidx := MemberHead();
      if name.None? {
        return None, Early;
      }
      var val := BuildVal();
      if errorCode == OK {
        member := Some(Member(name.value, hidx, val));
      }
      SkipBlank();
      if CharAt(str, ptr) == ',' {
        ptr := ptr + 1;
        end := More;
      } else {
        end := Last;
      }
    }

    /** A pass of the member loop, and the member it keeps appended to those before. */
    method MemberStep(members: seq<Member>) returns (members': seq<Member>, end: PassEnd)
      requires ptr <= |str| && ObjectItems(str, Cur()).safe
      modifies this`ptr, this`errorCode, this`level
      ensures ptr <= |str|
      ensures var r := ObjectItems(str, old(Cur()));
              if end == More then
                var rest := ObjectItems(str, Cur());
                old(ptr) < ptr && rest.safe && members + r.items == members' + rest.items && r.at == rest.at && r.early == rest.early
              else
                members + r.items == members' && r.at == Cur() && r.early == (end == Early)
      decreases |str| - ptr, 5
    {
      ghost var here := Cur();
      ObjectItemsStep(str, here);
      var member;
      member, end := MemberPass();
      members' := members;
      if member.Some? {
        members' := members + [member.value];
      }
      assert members' == members + Kept(member);
      if end == More {
        Concat3(members, Kept(member), ObjectItems(str, Cur()).items);
      }
    }

    /**
     * The object matcher: `{`, the member loop one pass at a time, then the
     * closer. A missing name or colon returns from the matcher at once.
     */
    method MatchObject() returns (v: Value)
      requires ptr <= |str| && ParseSpec.MatchObject(str, Cur()).safe
      modifies this`ptr, this`errorCode, this`level
      ensures ptr <= |str|
      ensures v == ParseSpec.MatchObject(str, old(Cur())).val && Cur() == ParseSpec.MatchObject(str, old(Cur())).at
      decreases |str| - ptr, 0
    {
      if CharAt(str, ptr) != '{' {
        errorCode := SYNTAX_ERROR;
        return Null;
      }
      ptr, level := ptr + 1, level + 1;
      ghost var total := ObjectItems(str, Cur());
      assert ParseSpec.MatchObject(str, old(Cur())).val == Object(total.items);
      assert ParseSpec.MatchObject(str, old(Cur())).at == if total.early then total.at else ParseSpec.Close(str, total.at, '}');
      var members: seq<Member> := [];
      while true
        invariant old(ptr) < ptr <= |str|
        invariant ObjectItems(str, Cur()).safe
        invariant total.items == members + ObjectItems(str, Cur()).items
        invariant total.at == ObjectItems(str, Cur()).at && total.early == ObjectItems(str, Cur()).early
        decreases |str| - ptr
      {
        var end;
        members, end := MemberStep(members);
        if end == Early {
          return Object(members);
        }
        if end == Last {
          break;
        }
      }
      Close('}');
      v := Object(members);
    }

    /**
     * One pass of the element loop: blanks, the element and the byte after
     * the blanks that follow it; the pass ends early when the element leaves
     * the error code not OK.
     */
    method ElementPass() returns (elem: Option<Value>, end: PassEnd)
      requires ptr <= |str| && ParseSpec.ElementPass(str, Cur()).safe
      modifies this`ptr, this`errorCode, this`level
      ensures var e := ParseSpec.ElementPass(str, old(Cur())); elem == e.item && end == e.end && Cur() == e.at
      decreases |str| - ptr, 4
    {
      SkipBlank();
      var val := BuildVal();
      if errorCode != OK {
        return None, Early;
      }
      elem := Some(val);
      SkipBlank();
      if CharAt(str, ptr) == ',' {
        ptr := ptr + 1;
        end := More;
      } else {
        end := Last;
      }
    }

    /** A pass of the element loop, and the element it keeps appended to those before. */
    method ElementStep(elems: seq<Value>) returns (elems': seq<Value>, end: PassEnd)
      requires ptr <= |str| && ArrayItems(str, Cur()).safe
      modifies this`ptr, this`errorCode, this`level
      ensures ptr <= |str|
      ensures var r := ArrayItems(str, old(Cur()));
              if end == More then
                var rest := ArrayItems(str, Cur());
                old(ptr) < ptr && rest.safe && elems + r.items == elems' + rest.items && r.at == rest.at && r.early == rest.early
              else
                elems + r.items == elems' && r.at == Cur() && r.early == (end == Early)
      decreases |str| - ptr, 5
    {
      ghost var here := Cur();
      ArrayItemsStep(str, here);
      var elem;
      elem, end := ElementPass();
      elems' := elems;
      if elem.Some? {
        elems' := elems + [elem.value];
      }
      assert elems' == elems + Kept(elem);
      if end == More {
        Concat3(elems, Kept(elem), ArrayItems(str, Cur()).items);
      }
    }

    /**
     * The array matcher: `[`, the element loop one pass at a time, then the
     * closer. An element that leaves the error code not OK returns from the
     * matcher at once.
     */
    method MatchArray() returns (v: Value)
      requires ptr <= |str| && ParseSpec.MatchArray(str, Cur()).safe
      modifies this`ptr, this`errorCode, this`level
      ensures ptr <= |str|
      ensures v == ParseSpec.MatchArray(str, old(Cur())).val && Cur() == ParseSpec.MatchArray(str, old(Cur())).at
      decreases |str| - ptr, 0
    {
      if CharAt(str, ptr) != '[' {
        errorCode := SYNTAX_ERROR;
        return Null;
      }
      ptr, level := ptr + 1, level + 1;
      ghost var total := ArrayItems(str, Cur());
      assert ParseSpec.MatchArray(str, old(Cur())).val == Array(total.items);
      assert ParseSpec.MatchArray(str, old(Cur())).at == if total.early then total.at else ParseSpec.Close(str, total.at, ']');
      var elems: seq<Value> := [];
      while true
        invariant old(ptr) < ptr <= |str|
        invariant ArrayItems(str, Cur()).safe
        invariant total.items == elems + ArrayItems(str, Cur()).items
        invariant total.at == ArrayItems(str, Cur()).at && total.early == ArrayItems(str, Cur()).early
        decreases |str| - ptr
      {
        var end;
        elems, end := ElementStep(elems);
        if end == Early {
          return Array(elems);
        }
        if end == Last {
          break;
        }
      }
      Close(']');
      v := Array(elems);
    }

    /**
     * The parse entry point: resets the cursor, level and error code, builds
     * one value and then rejects any non-blank suffix.
     */
    method Parse() returns (ret: Returned)
      requires ParseText(str).safe
      modifies this`ptr, this`errorCode, this`level
      ensures ret == ParseText(str).returned && errorCode == ParseText(str).err && ptr == ParseText(str).pos
    {
      errorCode, ptr, level := OK, 0, 0;
      var root := BuildVal();
      if errorCode != OK {
        return PartialTree;
      }
      SkipBlank();
      if CharAt(str, ptr) != '\0' {
        errorCode := UNEXP_SUFFIX;
        return NullTree;
      }
      ret := Tree(root);
    }
  }

  /** The quick parse entry point: a fresh shell over the text, then a parse. */
  method QuickParse(src: string) returns (ret: Returned)
    requires ParseText(src).safe
    ensures ret == ParseText(src).returned
    ensures ret.Tree? <==> ParseText(src).err == OK
  {
    var shell := new Shell(src);
    ret := shell.Parse();
  }
}
