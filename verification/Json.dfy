/** A reader for JSON texts, written clause by clause after sections 2 to 7 of RFC 8259 (that the
    clauses are those is by inspection), and a printer in the layout the program uses. The reader
    takes objects, arrays, integers and strings with all escapes. It refuses fractions, exponents
    and the three literal names, which no report contains, and escaped surrogates without their
    partner, whose meaning section 8.2 leaves open. Reading undoes printing exactly when no
    printed string needed an escape. */
module Json {

  import opened Options
  import opened Decimal

  datatype Json =
    | Num(n: int)
    | Str(s: string)
    | Arr(items: seq<Json>)
    | Obj(members: seq<Member>)

  datatype Member = Member(key: string, value: Json)

  // ----- Tokens -----

  datatype Token =
    | OpenBrace | CloseBrace | OpenBracket | CloseBracket | Comma | Colon
    | Text(s: string)
    | Number(n: int)

  predicate IsSpace(c: char) {
    c == ' ' || c == '\n' || c == '\r' || c == '\t'
  }

  /** May stand in a string without an escape. */
  predicate IsPlain(c: char) {
    c >= ' ' && c != '"' && c != '\\'
  }

  predicate Plain(s: string) {
    forall i :: 0 <= i < |s| ==> IsPlain(s[i])
  }

  // ----- Escapes -----

  function HexValue(c: char): (v: Option<nat>)
    ensures v.Some? ==> v.value < 16 && c != '"'
  {
    if '0' <= c <= '9' then Some((c as int) - ('0' as int))
    else if 'a' <= c <= 'f' then Some((c as int) - ('a' as int) + 10)
    else if 'A' <= c <= 'F' then Some((c as int) - ('A' as int) + 10)
    else None
  }

  /** Four hexadecimal digits. */
  function HexFour(s: string): (v: Option<nat>)
    ensures v.Some? ==> |s| >= 4 && v.value < 0x10000 && forall i :: 0 <= i < 4 ==> s[i] != '"'
  {
    if |s| < 4 then None
    else
      var a, b, c, d := HexValue(s[0]), HexValue(s[1]), HexValue(s[2]), HexValue(s[3]);
      if a.None? || b.None? || c.None? || d.None? then None
      else Some(0x1000 * a.value + 0x100 * b.value + 0x10 * c.value + d.value)
  }

  /** A character given by its code, or by the two halves of its code in UTF-16. */
  function UnicodeEscape(s: string): (e: Option<(char, nat)>)
    requires |s| >= 2 && s[..2] == "\\u"
    ensures e.Some? ==> 2 < e.value.1 <= |s| && forall i :: 1 <= i < e.value.1 ==> s[i] != '"'
  {
    var high := HexFour(s[2..]);
    if high.None? || 0xDC00 <= high.value < 0xE000 then None
    else if high.value < 0xD800 || high.value >= 0xE000 then
      assert forall i :: 2 <= i < 6 ==> s[i] == s[2..][i - 2];
      Some((high.value as char, 6))
    else if |s| < 8 || s[6..8] != "\\u" then None
    else
      var low := HexFour(s[8..]);
      if low.None? || !(0xDC00 <= low.value < 0xE000) then None
      else
        assert forall i :: 2 <= i < 6 ==> s[i] == s[2..][i - 2];
        assert forall i :: 8 <= i < 12 ==> s[i] == s[8..][i - 8];
        assert s[6] == s[6..8][0] && s[7] == s[6..8][1];
        Some(((0x10000 + (high.value - 0xD800) * 0x400 + (low.value - 0xDC00)) as char, 12))
  }

  /** The character an escape stands for, and the length of the escape. The only escape with a
      quote in it stands for that quote. */
  function Escape(s: string): (e: Option<(char, nat)>)
    requires s != [] && s[0] == '\\'
    ensures e.Some? ==> 2 <= e.value.1 <= |s|
    ensures e.Some? ==> forall i :: 1 <= i < e.value.1 && s[i] == '"' ==> e.value == ('"', 2)
  {
    if |s| < 2 then None
    else
      match s[1]
      case '"' => Some(('"', 2))
      case '\\' => Some(('\\', 2))
      case '/' => Some(('/', 2))
      case 'b' => Some((8 as char, 2))
      case 'f' => Some((12 as char, 2))
      case 'n' => Some(('\n', 2))
      case 'r' => Some(('\r', 2))
      case 't' => Some(('\t', 2))
      case 'u' => UnicodeEscape(s)
      case _ => None
  }

  /** The rest of a string, up to its closing quote, and the length of that text. */
  function Unescape(s: string): (r: Option<(string, nat)>)
    ensures r.Some? ==> |r.value.0| < r.value.1 <= |s|
    decreases |s|
  {
    if s == [] then None
    else if s[0] == '"' then Some(("", 1))
    else if s[0] == '\\' then
      var e := Escape(s);
      if e.None? then None else Longer(e.value.0, e.value.1, Unescape(s[e.value.1..]))
    else if IsPlain(s[0]) then Longer(s[0], 1, Unescape(s[1..]))
    else None
  }

  function Longer(c: char, n: nat, rest: Option<(string, nat)>): Option<(string, nat)> {
    match rest
    case None => None
    case Some(r) => Some(([c] + r.0, n + r.1))
  }

  // ----- Lexing -----

  function Cons(t: Token, rest: Option<seq<Token>>): Option<seq<Token>> {
    match rest
    case None => None
    case Some(ts) => Some([t] + ts)
  }

  function LexNumber(s: string, negative: bool): Option<(Token, nat)> {
    var k := Digits(s);
    if k == 0 || (k > 1 && s[0] == '0') then None
    else
      var value: int := DecValue(s[..k]);
      Some((Number(if negative then -value else value), k))
  }

  function Structural(c: char): Option<Token> {
    match c
    case '{' => Some(OpenBrace)
    case '}' => Some(CloseBrace)
    case '[' => Some(OpenBracket)
    case ']' => Some(CloseBracket)
    case ',' => Some(Comma)
    case ':' => Some(Colon)
    case _ => None
  }

  function Lex(s: string): Option<seq<Token>>
    decreases |s|
  {
    if s == [] then Some([])
    else if IsSpace(s[0]) then Lex(s[1..])
    else if Structural(s[0]).Some? then Cons(Structural(s[0]).value, Lex(s[1..]))
    else if s[0] == '"' then
      var t := Unescape(s[1..]);
      if t.None? then None else Cons(Text(t.value.0), Lex(s[1 + t.value.1..]))
    else if s[0] == '-' then
      var number := LexNumber(s[1..], true);
      if number.None? then None else Cons(number.value.0, Lex(s[1 + number.value.1..]))
    else if IsDigit(s[0]) then
      var number := LexNumber(s, false);
      if number.None? then None else Cons(number.value.0, Lex(s[number.value.1..]))
    else None
  }

  function Prepend(ts: seq<Token>, rest: Option<seq<Token>>): Option<seq<Token>> {
    match rest
    case None => None
    case Some(us) => Some(ts + us)
  }

  /** What is known of a piece of text `s` in front of `r`: if `ok` it is lexed into `ts`, and
      only if `ok` can the whole be lexed into `ts` and something more. */
  ghost predicate Lexed(s: string, ts: seq<Token>, ok: bool, r: string) {
    && (ok ==> Lex(s + r) == Prepend(ts, Lex(r)))
    && (forall us :: Lex(s + r) == Some(ts + us) ==> ok)
  }

  lemma LexedNothing(r: string)
    ensures Lexed("", [], true, r)
  {
    assert "" + r == r;
    if Lex(r).Some? {
      assert [] + Lex(r).value == Lex(r).value;
    }
  }

  lemma LexedSpace(c: char, r: string)
    requires IsSpace(c)
    ensures Lexed([c], [], true, r)
  {
    assert ([c] + r)[1..] == r;
    if Lex(r).Some? {
      assert [] + Lex(r).value == Lex(r).value;
    }
  }

  lemma LexedStructural(c: char, r: string)
    requires Structural(c).Some?
    ensures Lexed([c], [Structural(c).value], true, r)
  {
    assert ([c] + r)[1..] == r;
  }

  /** One piece of text after another. */
  lemma LexedBoth(s: string, ts: seq<Token>, ok: bool, s': string, ts': seq<Token>, ok': bool, r: string)
    requires Lexed(s, ts, ok, s' + r) && Lexed(s', ts', ok', r)
    ensures Lexed(s + s', ts + ts', ok && ok', r)
  {
    hide Lex;
    assert s + s' + r == s + (s' + r);
    if ok && ok' && Lex(r).Some? {
      assert ts + (ts' + Lex(r).value) == ts + ts' + Lex(r).value;
    }
    forall us | Lex(s + s' + r) == Some(ts + ts' + us)
      ensures ok && ok'
    {
      assert ts + ts' + us == ts + (ts' + us);
      if ok {
        var rest := Lex(s' + r).value;
        assert ts + rest == ts + (ts' + us);
        assert rest == (ts + rest)[|ts|..] == ts' + us;
      }
    }
  }

  // ----- Strings -----

  /** A plain string is read as it stands. */
  lemma {:induction false} UnescapePlain(s: string, r: string)
    requires Plain(s)
    ensures Unescape(s + ['"'] + r) == Some((s, |s| + 1))
  {
    var t := s + ['"'] + r;
    if s == [] {
      assert t[0] == '"';
    } else {
      UnescapePlain(s[1..], r);
      assert t[1..] == s[1..] + ['"'] + r && [s[0]] + s[1..] == s;
    }
  }

  /** A string that is read without getting shorter is plain. */
  lemma {:induction false} UnescapeShort(s: string)
    requires Unescape(s).Some? && Unescape(s).value.1 == |Unescape(s).value.0| + 1
    ensures Plain(Unescape(s).value.0)
  {
    if s[0] != '"' {
      if s[0] != '\\' {
        UnescapeShort(s[1..]);
      }
    }
  }

  /** The first character of a string that is read, and how much text it takes. */
  lemma UnescapeStep(s: string) returns (c: char, n: nat)
    requires Unescape(s).Some? && s[0] != '"'
    ensures 1 <= n <= |s| && Unescape(s[n..]).Some?
    ensures Unescape(s).value == ([c] + Unescape(s[n..]).value.0, n + Unescape(s[n..]).value.1)
    ensures forall i :: 0 <= i < n && s[i] == '"' ==> 1 <= i && c == '"'
  {
    hide Escape;
    if s[0] == '\\' {
      c, n := Escape(s).value.0, Escape(s).value.1;
    } else {
      c, n := s[0], 1;
    }
  }

  /** A quote inside a string that is read is an escaped one, and stands further to the front in
      what was read. */
  lemma {:induction false} QuoteMoves(s: string, q: nat) returns (p: nat)
    requires Unescape(s).Some? && q < Unescape(s).value.1 - 1 && s[q] == '"'
    ensures p < q && p < |Unescape(s).value.0| && Unescape(s).value.0[p] == '"'
    decreases |s|
  {
    hide *;
    QuoteFirst(s);
    var c, n := UnescapeStep(s);
    if q < n {
      p := 0;
    } else {
      assert s[n..][q - n] == s[q];
      p := QuoteMoves(s[n..], q - n);
      p := p + 1;
    }
  }

  lemma QuoteFirst(s: string)
    requires Unescape(s).Some?
    ensures s[0] == '"' ==> Unescape(s).value.1 == 1
  {
  }

  /** If what is read is how the text begins, there is no such quote: the one it stands for
      would be another. */
  lemma {:induction false} NoQuote(s: string, q: nat)
    requires Unescape(s).Some? && Unescape(s).value.0 <= s && q < Unescape(s).value.1 - 1
    ensures s[q] != '"'
    decreases q
  {
    if s[q] == '"' {
      var p := QuoteMoves(s, q);
      assert s[p] == Unescape(s).value.0[p];
      NoQuote(s, p);
    }
  }

  /** A string reads back as itself exactly when it is plain, whatever follows its quote. */
  lemma UnescapeExact(s: string, r: string)
    ensures (Unescape(s + ['"'] + r).Some? && Unescape(s + ['"'] + r).value.0 == s) <==> Plain(s)
    ensures Plain(s) ==> Unescape(s + ['"'] + r) == Some((s, |s| + 1))
  {
    var t := s + ['"'] + r;
    if Plain(s) {
      UnescapePlain(s, r);
    }
    if Unescape(t).Some? && Unescape(t).value.0 == s {
      assert t[|s|] == '"' && s <= t;
      if Unescape(t).value.1 > |s| + 1 {
        NoQuote(t, |s|);
      }
      UnescapeShort(t);
    }
  }

  lemma LexedString(s: string, r: string)
    ensures Lexed(Quoted(s), [Text(s)], Plain(s), r)
  {
    var t := Quoted(s) + r;
    assert t[0] == '"' && t[1..] == s + ['"'] + r;
    UnescapeExact(s, r);
    if Plain(s) {
      assert t[1 + (|s| + 1)..] == r;
    }
    forall us | Lex(t) == Some([Text(s)] + us)
      ensures Plain(s)
    {
      var d := Unescape(t[1..]).value;
      assert Lex(t).value[0] == Text(d.0) && ([Text(s)] + us)[0] == Text(s);
    }
  }

  // ----- Numbers -----

  lemma LexDec(n: nat, r: string)
    requires !StartsWithDigit(r)
    ensures Lex(Dec(n) + r) == Prepend([Number(n)], Lex(r))
    ensures LexNumber(Dec(n) + r, true) == Some((Number(-(n as int)), |Dec(n)|))
  {
    hide Dec, Digits, Unescape;
    DecIs(n);
    DigitsIs(Dec(n), r);
    var t := Dec(n) + r;
    assert t[..|Dec(n)|] == Dec(n) && t[|Dec(n)|..] == r && t[0] == Dec(n)[0];
    assert IsDigit(t[0]);
  }

  lemma LexMinus(n: nat, r: string)
    requires !StartsWithDigit(r)
    ensures Lex("-" + Dec(n) + r) == Prepend([Number(-(n as int))], Lex(r))
  {
    hide Dec, DecValue, LexNumber, Unescape;
    LexDec(n, r);
    var t := "-" + Dec(n) + r;
    assert t[1..] == Dec(n) + r;
    assert t[1 + |Dec(n)|..] == r;
  }

  lemma LexedInt(n: int, r: string)
    requires !StartsWithDigit(r)
    ensures Lexed(Int(n), [Number(n)], true, r)
  {
    hide Lex, Prepend, Dec;
    if n < 0 {
      LexMinus(-n, r);
    } else {
      LexDec(n, r);
    }
  }

  // ----- Printing -----

  function Quoted(s: string): string {
    "\"" + s + "\""
  }

  /** The program's layout: a space after each colon and between members, none between items. */
  function Print(j: Json): (s: string)
    ensures |s| > 0
    decreases j, 1
  {
    match j
    case Num(n) => Int(n)
    case Str(s) => Quoted(s)
    case Arr(items) => "[" + PrintItems(items) + "]"
    case Obj(members) => "{" + PrintMembers(members) + "}"
  }

  function PrintItems(items: seq<Json>): string
    decreases items, 0
  {
    if items == [] then ""
    else if |items| == 1 then Print(items[0])
    else Print(items[0]) + "," + PrintItems(items[1..])
  }

  function PrintMembers(members: seq<Member>): string
    decreases members, 0
  {
    if members == [] then ""
    else if |members| == 1 then PrintMember(members[0])
    else PrintMember(members[0]) + ", " + PrintMembers(members[1..])
  }

  function PrintMember(member: Member): string
    decreases member, 0
  {
    Quoted(member.key) + ": " + Print(member.value)
  }

  function Tokens(j: Json): (ts: seq<Token>)
    ensures |ts| > 0
    decreases j, 1
  {
    match j
    case Num(n) => [Number(n)]
    case Str(s) => [Text(s)]
    case Arr(items) => [OpenBracket] + ItemTokens(items) + [CloseBracket]
    case Obj(members) => [OpenBrace] + MemberTokens(members) + [CloseBrace]
  }

  function ItemTokens(items: seq<Json>): seq<Token>
    decreases items, 0
  {
    if items == [] then []
    else if |items| == 1 then Tokens(items[0])
    else Tokens(items[0]) + [Comma] + ItemTokens(items[1..])
  }

  function MemberTokens(members: seq<Member>): seq<Token>
    decreases members, 0
  {
    if members == [] then []
    else if |members| == 1 then OneMember(members[0])
    else OneMember(members[0]) + [Comma] + MemberTokens(members[1..])
  }

  function OneMember(member: Member): seq<Token>
    decreases member, 0
  {
    [Text(member.key), Colon] + Tokens(member.value)
  }

  /** No string in the value needs an escape. */
  predicate NoEscapes(j: Json)
    decreases j, 1
  {
    match j
    case Num(_) => true
    case Str(s) => Plain(s)
    case Arr(items) => ItemsPlain(items)
    case Obj(members) => MembersPlain(members)
  }

  predicate ItemsPlain(items: seq<Json>)
    decreases items, 0
  {
    forall i :: 0 <= i < |items| ==> NoEscapes(items[i])
  }

  predicate MembersPlain(members: seq<Member>)
    decreases members, 1
  {
    forall i :: 0 <= i < |members| ==> MemberPlain(members[i])
  }

  predicate MemberPlain(member: Member)
    decreases member, 0
  {
    Plain(member.key) && NoEscapes(member.value)
  }

  lemma MemberNum(key: string, n: int)
    ensures MemberPlain(Member(key, Num(n))) <==> Plain(key)
  {
  }

  lemma MemberStr(key: string, s: string)
    ensures MemberPlain(Member(key, Str(s))) <==> Plain(key) && Plain(s)
  {
  }

  lemma MemberArr(key: string, items: seq<Json>)
    ensures MemberPlain(Member(key, Arr(items))) <==> Plain(key) && forall i :: 0 <= i < |items| ==> NoEscapes(items[i])
  {
    assert NoEscapes(Arr(items)) <==> ItemsPlain(items);
  }

  lemma ObjPlain(members: seq<Member>)
    ensures NoEscapes(Obj(members)) <==> forall i :: 0 <= i < |members| ==> MemberPlain(members[i])
  {
  }

  // ----- Parsing -----

  function Parse(ts: seq<Token>): (r: Option<(Json, seq<Token>)>)
    ensures r.Some? ==> |r.value.1| < |ts|
    decreases |ts|, 0
  {
    if ts == [] then None
    else
      match ts[0]
      case Number(n) => Some((Num(n), ts[1..]))
      case Text(s) => Some((Str(s), ts[1..]))
      case OpenBracket =>
        if |ts| > 1 && ts[1] == CloseBracket then Some((Arr([]), ts[2..]))
        else
          var items := ParseItems(ts[1..]);
          if items.None? then None else Some((Arr(items.value.0), items.value.1))
      case OpenBrace =>
        if |ts| > 1 && ts[1] == CloseBrace then Some((Obj([]), ts[2..]))
        else
          var members := ParseMembers(ts[1..]);
          if members.None? then None else Some((Obj(members.value.0), members.value.1))
      case _ => None
  }

  /** One or more items and the closing bracket. */
  function ParseItems(ts: seq<Token>): (r: Option<(seq<Json>, seq<Token>)>)
    ensures r.Some? ==> |r.value.1| < |ts|
    decreases |ts|, 1
  {
    var first := Parse(ts);
    if first.None? || first.value.1 == [] then None
    else
      var (item, rest) := first.value;
      match rest[0]
      case CloseBracket => Some(([item], rest[1..]))
      case Comma =>
        var more := ParseItems(rest[1..]);
        if more.None? then None else Some(([item] + more.value.0, more.value.1))
      case _ => None
  }

  /** One or more members and the closing brace. */
  function ParseMembers(ts: seq<Token>): (r: Option<(seq<Member>, seq<Token>)>)
    ensures r.Some? ==> |r.value.1| < |ts|
    decreases |ts|, 1
  {
    if |ts| < 2 || !ts[0].Text? || ts[1] != Colon then None
    else
      var first := Parse(ts[2..]);
      if first.None? || first.value.1 == [] then None
      else
        var (item, rest) := first.value;
        match rest[0]
        case CloseBrace => Some(([Member(ts[0].s, item)], rest[1..]))
        case Comma =>
          var more := ParseMembers(rest[1..]);
          if more.None? then None else Some(([Member(ts[0].s, item)] + more.value.0, more.value.1))
        case _ => None
  }

  /** A JSON text is one value and nothing else. */
  function Read(text: string): Option<Json> {
    match Lex(text)
    case None => None
    case Some(ts) =>
      var r := Parse(ts);
      if r.None? || r.value.1 != [] then None else Some(r.value.0)
  }

  /** Parsing loses no token: the tokens are those of the value and the rest. */
  lemma {:induction false} ParseSound(ts: seq<Token>)
    requires Parse(ts).Some?
    ensures ts == Tokens(Parse(ts).value.0) + Parse(ts).value.1
    decreases |ts|, 0
  {
    var (j, r) := Parse(ts).value;
    match ts[0]
    case OpenBracket =>
      if |ts| > 1 && ts[1] == CloseBracket {
        assert ts == [OpenBracket] + [] + [CloseBracket] + r;
      } else {
        ParseItemsSound(ts[1..]);
        assert ts == [OpenBracket] + ts[1..];
      }
    case OpenBrace =>
      if |ts| > 1 && ts[1] == CloseBrace {
        assert ts == [OpenBrace] + [] + [CloseBrace] + r;
      } else {
        ParseMembersSound(ts[1..]);
        assert ts == [OpenBrace] + ts[1..];
      }
    case Number(n) => assert ts == [Number(n)] + r;
    case Text(t) => assert ts == [Text(t)] + r;
    case _ =>
  }

  lemma {:induction false} ParseItemsSound(ts: seq<Token>)
    requires ParseItems(ts).Some?
    ensures var (items, r) := ParseItems(ts).value;
            items != [] && ts == ItemTokens(items) + [CloseBracket] + r
    decreases |ts|, 1
  {
    hide Tokens, ItemTokens, Parse;
    ParseSound(ts);
    var (item, rest) := Parse(ts).value;
    assert rest == [rest[0]] + rest[1..];
    if rest[0] == Comma {
      ParseItemsSound(rest[1..]);
      var (more, r) := ParseItems(rest[1..]).value;
      MoreItems(item, more, r);
    } else {
      LastItem(item, rest[1..]);
    }
  }

  lemma LastItem(item: Json, r: seq<Token>)
    ensures Tokens(item) + ([CloseBracket] + r) == ItemTokens([item]) + [CloseBracket] + r
  {
  }

  lemma MoreItems(item: Json, more: seq<Json>, r: seq<Token>)
    requires more != []
    ensures Tokens(item) + ([Comma] + (ItemTokens(more) + [CloseBracket] + r))
            == ItemTokens([item] + more) + [CloseBracket] + r
  {
    hide Tokens;
    assert ([item] + more)[1..] == more;
    assert ItemTokens([item] + more) == Tokens(item) + [Comma] + ItemTokens(more);
  }

  lemma {:induction false} ParseMembersSound(ts: seq<Token>)
    requires ParseMembers(ts).Some?
    ensures var (members, r) := ParseMembers(ts).value;
            members != [] && ts == MemberTokens(members) + [CloseBrace] + r
    decreases |ts|, 1
  {
    hide Tokens, MemberTokens, OneMember, Parse;
    ParseSound(ts[2..]);
    var (value, rest) := Parse(ts[2..]).value;
    var member := Member(ts[0].s, value);
    FirstMember(ts, member, rest);
    assert rest == [rest[0]] + rest[1..];
    if rest[0] == Comma {
      ParseMembersSound(rest[1..]);
      var (more, r) := ParseMembers(rest[1..]).value;
      MoreMembers(member, more, r);
    } else {
      LastMember(member, rest[1..]);
    }
  }

  lemma FirstMember(ts: seq<Token>, member: Member, rest: seq<Token>)
    requires |ts| >= 2 && ts[0] == Text(member.key) && ts[1] == Colon && ts[2..] == Tokens(member.value) + rest
    ensures ts == OneMember(member) + rest
  {
    hide Tokens;
    assert ts == [ts[0], ts[1]] + ts[2..];
  }

  lemma LastMember(member: Member, r: seq<Token>)
    ensures OneMember(member) + ([CloseBrace] + r) == MemberTokens([member]) + [CloseBrace] + r
  {
    hide OneMember;
  }

  lemma MoreMembers(member: Member, more: seq<Member>, r: seq<Token>)
    requires more != []
    ensures OneMember(member) + ([Comma] + (MemberTokens(more) + [CloseBrace] + r))
            == MemberTokens([member] + more) + [CloseBrace] + r
  {
    hide OneMember;
    assert ([member] + more)[1..] == more;
    assert MemberTokens([member] + more) == OneMember(member) + [Comma] + MemberTokens(more);
  }

  // ----- Reading what was printed -----

  lemma {:induction false} ParseTokens(j: Json, r: seq<Token>)
    ensures Parse(Tokens(j) + r) == Some((j, r))
    decreases j, 1
  {
    match j
    case Num(n) => assert (Tokens(j) + r)[1..] == r;
    case Str(s) => assert (Tokens(j) + r)[1..] == r;
    case Arr(items) =>
      var ts := Tokens(j) + r;
      assert ts[1..] == ItemTokens(items) + [CloseBracket] + r;
      if items == [] {
        assert ts[2..] == r;
      } else {
        ParseItemTokens(items, r);
        FirstToken(items[0]);
      }
    case Obj(members) =>
      var ts := Tokens(j) + r;
      assert ts[1..] == MemberTokens(members) + [CloseBrace] + r;
      if members == [] {
        assert ts[2..] == r;
      } else {
        ParseMemberTokens(members, r);
      }
  }

  lemma FirstToken(j: Json)
    ensures Tokens(j)[0] != CloseBracket
  {
  }

  lemma {:induction false} ParseItemTokens(items: seq<Json>, r: seq<Token>)
    requires items != []
    ensures ParseItems(ItemTokens(items) + [CloseBracket] + r) == Some((items, r))
    decreases items, 0
  {
    hide Parse, Tokens;
    var ts := ItemTokens(items) + [CloseBracket] + r;
    if |items| == 1 {
      ParseTokens(items[0], [CloseBracket] + r);
      assert ts == Tokens(items[0]) + ([CloseBracket] + r);
      assert ([CloseBracket] + r)[1..] == r && items == [items[0]];
    } else {
      var rest := ItemTokens(items[1..]) + [CloseBracket] + r;
      ParseTokens(items[0], [Comma] + rest);
      assert ts == Tokens(items[0]) + ([Comma] + rest);
      assert ([Comma] + rest)[1..] == rest;
      ParseItemTokens(items[1..], r);
      assert items == [items[0]] + items[1..];
    }
  }

  lemma {:induction false} ParseMemberTokens(members: seq<Member>, r: seq<Token>)
    requires members != []
    ensures ParseMembers(MemberTokens(members) + [CloseBrace] + r) == Some((members, r))
    decreases members, 0
  {
    hide Parse, Tokens, OneMember;
    var ts := MemberTokens(members) + [CloseBrace] + r;
    if |members| == 1 {
      ParseOneMember(members[0], [CloseBrace] + r);
      assert ts == OneMember(members[0]) + ([CloseBrace] + r);
      assert ([CloseBrace] + r)[1..] == r && members == [members[0]];
    } else {
      var rest := MemberTokens(members[1..]) + [CloseBrace] + r;
      ParseOneMember(members[0], [Comma] + rest);
      assert ts == OneMember(members[0]) + ([Comma] + rest);
      assert ([Comma] + rest)[1..] == rest;
      ParseMemberTokens(members[1..], r);
      assert members == [members[0]] + members[1..];
    }
  }

  lemma {:induction false} ParseOneMember(member: Member, r: seq<Token>)
    ensures var ts := OneMember(member) + r;
            |ts| >= 2 && ts[0] == Text(member.key) && ts[1] == Colon && Parse(ts[2..]) == Some((member.value, r))
    decreases member, 0
  {
    ParseTokens(member.value, r);
    assert (OneMember(member) + r)[2..] == Tokens(member.value) + r;
  }

  lemma {:induction false} LexedPrint(j: Json, r: string)
    requires !StartsWithDigit(r)
    ensures Lexed(Print(j), Tokens(j), NoEscapes(j), r)
    decreases j, 1
  {
    hide Lexed, Int, Plain;
    match j
    case Num(n) => LexedInt(n, r);
    case Str(s) => LexedString(s, r);
    case Arr(items) =>
      LexedItems(items, [']'] + r);
      LexedBetween('[', PrintItems(items), ItemTokens(items), ItemsPlain(items), ']', r);
    case Obj(members) =>
      LexedMembers(members, ['}'] + r);
      LexedBetween('{', PrintMembers(members), MemberTokens(members), MembersPlain(members), '}', r);
  }

  /** Brackets or braces around something. */
  lemma LexedBetween(open: char, s: string, ts: seq<Token>, ok: bool, close: char, r: string)
    requires Structural(open).Some? && Structural(close).Some? && Lexed(s, ts, ok, [close] + r)
    ensures Lexed([open] + s + [close], [Structural(open).value] + ts + [Structural(close).value], ok, r)
  {
    hide Lexed, Structural;
    LexedStructural(close, r);
    LexedStructural(open, s + ([close] + r));
    LexedBoth([open], [Structural(open).value], true, s, ts, ok, [close] + r);
    LexedBoth([open] + s, [Structural(open).value] + ts, ok, [close], [Structural(close).value], true, r);
  }

  lemma {:induction false} LexedItems(items: seq<Json>, r: string)
    requires !StartsWithDigit(r)
    ensures Lexed(PrintItems(items), ItemTokens(items), ItemsPlain(items), r)
    decreases items, 0
  {
    hide Lexed, Print, Tokens, NoEscapes;
    if items == [] {
      LexedNothing(r);
    } else if |items| == 1 {
      LexedPrint(items[0], r);
    } else {
      var rest := PrintItems(items[1..]);
      LexedItems(items[1..], r);
      LexedPrint(items[0], [','] + (rest + r));
      LexedComma(Print(items[0]), Tokens(items[0]), NoEscapes(items[0]),
                 rest, ItemTokens(items[1..]), ItemsPlain(items[1..]), r);
      ItemsPlainStep(items);
    }
  }

  /** A comma between two pieces. */
  lemma LexedComma(s: string, ts: seq<Token>, ok: bool, s': string, ts': seq<Token>, ok': bool, r: string)
    requires Lexed(s, ts, ok, [','] + (s' + r)) && Lexed(s', ts', ok', r)
    ensures Lexed(s + [','] + s', ts + [Comma] + ts', ok && ok', r)
  {
    hide Lexed;
    LexedStructural(',', s' + r);
    LexedBoth(s, ts, ok, [','], [Comma], true, s' + r);
    LexedBoth(s + [','], ts + [Comma], ok, s', ts', ok', r);
  }

  /** A comma and a space between two pieces. */
  lemma LexedCommaSpace(s: string, ts: seq<Token>, ok: bool, s': string, ts': seq<Token>, ok': bool, r: string)
    requires Lexed(s, ts, ok, [','] + ([' '] + s' + r)) && Lexed(s', ts', ok', r)
    ensures Lexed(s + ", " + s', ts + [Comma] + ts', ok && ok', r)
  {
    hide Lexed;
    LexedSpace(' ', s' + r);
    LexedBoth([' '], [], true, s', ts', ok', r);
    assert [] + ts' == ts';
    LexedComma(s, ts, ok, [' '] + s', ts', ok', r);
    assert s + [','] + ([' '] + s') == s + ", " + s';
  }

  lemma {:induction false} LexedMembers(members: seq<Member>, r: string)
    requires !StartsWithDigit(r)
    ensures Lexed(PrintMembers(members), MemberTokens(members), MembersPlain(members), r)
    decreases members, 0
  {
    hide Lexed, PrintMember, OneMember, Plain, NoEscapes;
    if members == [] {
      LexedNothing(r);
    } else if |members| == 1 {
      LexedMember(members[0], r);
    } else {
      var rest := PrintMembers(members[1..]);
      LexedMembers(members[1..], r);
      LexedMember(members[0], [','] + ([' '] + rest + r));
      LexedCommaSpace(PrintMember(members[0]), OneMember(members[0]), MemberPlain(members[0]),
                      rest, MemberTokens(members[1..]), MembersPlain(members[1..]), r);
      MembersPlainStep(members);
    }
  }

  lemma {:induction false} LexedMember(member: Member, r: string)
    requires !StartsWithDigit(r)
    ensures Lexed(PrintMember(member), OneMember(member), MemberPlain(member), r)
    decreases member, 0
  {
    hide Lexed, Print, Tokens, Plain, NoEscapes, Quoted;
    LexedPrint(member.value, r);
    LexedKey(member.key, Print(member.value) + r);
    LexedBoth(Quoted(member.key) + ": ", [Text(member.key), Colon], Plain(member.key),
              Print(member.value), Tokens(member.value), NoEscapes(member.value), r);
  }

  /** A key with its colon. */
  lemma LexedKey(key: string, r: string)
    ensures Lexed(Quoted(key) + ": ", [Text(key), Colon], Plain(key), r)
  {
    hide Lexed, Plain, Quoted;
    LexedSpace(' ', r);
    LexedStructural(':', [' '] + r);
    LexedString(key, [':'] + ([' '] + r));
    LexedBoth(Quoted(key), [Text(key)], Plain(key), [':'], [Colon], true, [' '] + r);
    LexedBoth(Quoted(key) + [':'], [Text(key)] + [Colon], Plain(key), [' '], [], true, r);
    assert Quoted(key) + [':'] + [' '] == Quoted(key) + ": ";
    assert [Text(key)] + [Colon] + [] == [Text(key), Colon];
  }

  lemma ItemsPlainStep(items: seq<Json>)
    requires items != []
    ensures ItemsPlain(items) <==> NoEscapes(items[0]) && ItemsPlain(items[1..])
  {
    hide NoEscapes;
    assert items == [items[0]] + items[1..];
  }

  lemma MembersPlainStep(members: seq<Member>)
    requires members != []
    ensures MembersPlain(members) <==> MemberPlain(members[0]) && MembersPlain(members[1..])
  {
    hide NoEscapes, Plain;
    assert members == [members[0]] + members[1..];
  }

  /** Reading undoes printing exactly when no string needs an escape. */
  lemma ReadPrint(j: Json)
    ensures Read(Print(j)) == Some(j) <==> NoEscapes(j)
  {
    hide Lex, Parse, Print, Tokens, NoEscapes;
    LexedPrint(j, "");
    ReadTokens(Print(j), j);
    assert Print(j) + "" == Print(j);
    LexedAll(Print(j), Tokens(j), NoEscapes(j));
  }

  /** A text has a value exactly when it is lexed into the value's tokens. */
  lemma ReadTokens(text: string, j: Json)
    ensures Read(text) == Some(j) <==> Lex(text) == Some(Tokens(j))
  {
    hide Lex, Parse, Tokens;
    if Read(text) == Some(j) {
      ParseSound(Lex(text).value);
      assert Tokens(j) + [] == Tokens(j);
    }
    if Lex(text) == Some(Tokens(j)) {
      ParseTokens(j, []);
      assert Tokens(j) + [] == Tokens(j);
    }
  }

  /** The last piece of a text. */
  lemma LexedAll(s: string, ts: seq<Token>, ok: bool)
    requires Lexed(s, ts, ok, "")
    ensures Lex(s) == Some(ts) <==> ok
  {
    assert s + "" == s && Lex("") == Some([]);
    hide Lex;
    assert ts + [] == ts;
  }
}
