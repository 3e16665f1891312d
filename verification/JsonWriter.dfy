/** Documents as they are written, so that parsing one is checked against the characters of it. */
module JsonWriter {
  import opened Bytes
  import opened Json
  import opened JsonParse
  import opened JsonText

  /** A document: strings and keys in the pieces they are written in, numbers in their characters. */
  datatype Value =
    | JNull
    | JBool(b: bool)
    | JNumber(text: bytes)
    | JString(pieces: seq<Piece>)
    | JArray(items: seq<Value>)
    | JObject(members: seq<Field>)

  datatype Field = Field(key: seq<Piece>, value: Value)

  ghost predicate Blank(gap: bytes) {
    forall c :: c in gap ==> c == ' ' as int || c == '\t' as int || c == '\n' as int || c == '\r' as int
  }

  predicate IsNumeral(c: byte) {
    c < 0x80 && c as char in "0123456789+-.eE"
  }

  ghost predicate Writable(v: Value) {
    match v
    case JNumber(text) => text != [] && forall c :: c in text ==> IsNumeral(c)
    case JString(pieces) => AllOk(pieces)
    case JArray(items) => forall i :: 0 <= i < |items| ==> Writable(items[i])
    case JObject(members) => forall i :: 0 <= i < |members| ==> AllOk(members[i].key) && Writable(members[i].value)
    case _ => true
  }

  // ----- the text -----

  ghost function QuotedText(pieces: seq<Piece>): bytes
    requires AllOk(pieces)
  {
    Ascii("\"") + WrittenAll(pieces) + Ascii("\"")
  }

  /** The text of a value, with the same blanks wherever blanks may be. */
  ghost function TextOf(v: Value, gap: bytes): bytes
    requires Writable(v)
    decreases v, 0
  {
    match v
    case JNull => Ascii("null")
    case JBool(b) => if b then Ascii("true") else Ascii("false")
    case JNumber(text) => text
    case JString(pieces) => QuotedText(pieces)
    case JArray(items) => Ascii("[") + (if items == [] then gap else ItemsText(items, gap)) + Ascii("]")
    case JObject(members) => Ascii("{") + (if members == [] then gap else MembersText(members, gap)) + Ascii("}")
  }

  ghost function ItemsText(items: seq<Value>, gap: bytes): bytes
    requires items != [] && forall i :: 0 <= i < |items| ==> Writable(items[i])
    decreases items
  {
    gap + TextOf(items[0], gap) + gap + if |items| == 1 then [] else Ascii(",") + ItemsText(items[1..], gap)
  }

  ghost function MembersText(members: seq<Field>, gap: bytes): bytes
    requires members != [] && forall i :: 0 <= i < |members| ==> AllOk(members[i].key) && Writable(members[i].value)
    decreases members
  {
    FieldText(members[0], gap) + gap + if |members| == 1 then [] else Ascii(",") + MembersText(members[1..], gap)
  }

  ghost function FieldText(f: Field, gap: bytes): bytes
    requires AllOk(f.key) && Writable(f.value)
    decreases f
  {
    gap + QuotedText(f.key) + gap + Ascii(":") + gap + TextOf(f.value, gap)
  }

  // ----- the value it is read as -----

  /** The value whose text starts at `at`: strings, keys, numbers and literals are the spans they take up. */
  ghost function TreeAt(v: Value, gap: bytes, at: nat): Tree
    requires Writable(v)
    decreases v, 0
  {
    match v
    case JNull => Null
    case JBool(b) => Bool(at, if b then 4 else 5)
    case JNumber(text) => Number(at, |text|)
    case JString(pieces) => Str(at + 1, |WrittenAll(pieces)|)
    case JArray(items) => Arr(if items == [] then [] else ItemsAt(items, gap, at + 1))
    case JObject(members) => Obj(if members == [] then [] else MembersAt(members, gap, at + 1))
  }

  ghost function ItemsAt(items: seq<Value>, gap: bytes, at: nat): (trees: seq<Tree>)
    requires items != [] && forall i :: 0 <= i < |items| ==> Writable(items[i])
    ensures |trees| == |items|
    decreases items
  {
    [TreeAt(items[0], gap, at + |gap|)]
    + if |items| == 1 then [] else ItemsAt(items[1..], gap, at + |gap| + |TextOf(items[0], gap)| + |gap| + 1)
  }

  ghost function MembersAt(members: seq<Field>, gap: bytes, at: nat): (trees: seq<Member>)
    requires members != [] && forall i :: 0 <= i < |members| ==> AllOk(members[i].key) && Writable(members[i].value)
    ensures |trees| == |members|
    decreases members
  {
    [FieldAt(members[0], gap, at)]
    + if |members| == 1 then [] else MembersAt(members[1..], gap, at + |FieldText(members[0], gap)| + |gap| + 1)
  }

  ghost function FieldAt(f: Field, gap: bytes, at: nat): Member
    requires AllOk(f.key) && Writable(f.value)
    decreases f
  {
    var n := |WrittenAll(f.key)|;
    Member(at + |gap| + 1, n, TreeAt(f.value, gap, at + |gap| + n + 2 + |gap| + 1 + |gap|))
  }

  // ----- what stands in the text -----

  ghost predicate Stands(t: bytes, at: nat, s: bytes) {
    at + |s| <= |t| && t[at..at + |s|] == s
  }

  lemma StandsBoth(t: bytes, at: nat, a: bytes, b: bytes)
    requires Stands(t, at, a + b)
    ensures Stands(t, at, a) && Stands(t, at + |a|, b)
  {
    SliceOfSlice(t, at, at + |a + b|, 0, |a|);
    SliceOfSlice(t, at, at + |a + b|, |a|, |a + b|);
    assert (a + b)[0..|a|] == a && (a + b)[|a|..|a + b|] == b;
  }

  lemma BlankIsWs(t: bytes, at: nat, gap: bytes)
    requires Stands(t, at, gap) && Blank(gap)
    ensures Ws(t, at, at + |gap|)
  {
    forall k | at <= k < at + |gap|
      ensures IsWs(t[k])
    {
      assert t[k] == gap[k - at] && gap[k - at] in gap;
    }
  }

  lemma Marks()
    ensures Ascii("\"") == [QUOTE] && Ascii(",") == [COMMA] && Ascii(":") == [COLON] && Ascii("[") == [OPEN_BRACKET] && Ascii("]") == [CLOSE_BRACKET]
    ensures Ascii("{") == [OPEN_BRACE] && Ascii("}") == [CLOSE_BRACE]
    ensures Ascii("null") == NULL && Ascii("true") == TRUE && Ascii("false") == FALSE
  {
  }

  /** The characters a number may consist of, and those that may stand between tokens: these and no others. */
  lemma CharactersOf(c: byte)
    ensures IsNumberChar(c) <==> IsNumeral(c)
    ensures IsWs(c) <==> Blank([c])
  {
    var row := "0123456789+-.eE";
    assert row == ['0', '1', '2', '3', '4', '5', '6', '7', '8', '9', '+', '-', '.', 'e', 'E'];
    if c < 0x80 {
      assert (c as char) as int == c;
    }
    assert [c][0] == c && c in [c];
  }

  // ----- strings -----

  /** Bytes that are neither a quote nor a backslash. */
  ghost predicate Plain(s: bytes) {
    forall c :: c in s ==> c != QUOTE && c != BACKSLASH
  }

  lemma {:induction false} PlainBody(t: bytes, i: nat, n: nat, j: nat)
    requires i + n <= j <= |t| && (forall k :: i <= k < i + n ==> t[k] != QUOTE && t[k] != BACKSLASH) && Body(t, i + n, j)
    ensures Body(t, i, j)
    decreases n
  {
    if n > 0 {
      PlainBody(t, i + 1, n - 1, j);
    }
  }

  lemma PlainStands(t: bytes, i: nat, s: bytes)
    requires Stands(t, i, s) && Plain(s)
    ensures forall k :: i <= k < i + |s| ==> t[k] != QUOTE && t[k] != BACKSLASH
  {
    forall k | i <= k < i + |s|
      ensures t[k] != QUOTE && t[k] != BACKSLASH
    {
      assert t[k] == s[k - i] && s[k - i] in s;
    }
  }

  lemma HexIsPlain(digits: bytes, v: nat)
    requires SpellsHex4(digits, v)
    ensures Plain(digits) && |digits| == 4
  {
    DigitIsPlain(digits[0], v / 0x1000);
    DigitIsPlain(digits[1], v / 0x100 % 0x10);
    DigitIsPlain(digits[2], v / 0x10 % 0x10);
    DigitIsPlain(digits[3], v % 0x10);
  }

  lemma DigitIsPlain(c: byte, v: nat)
    requires DigitIs(c, v)
    ensures c != QUOTE && c != BACKSLASH
  {
    NibbleIsDigit(c, v);
  }

  lemma CharacterIsPlain(cp: nat)
    requires IsScalar(cp) && cp != QUOTE && cp != BACKSLASH
    ensures Plain(Utf8(cp))
  {
  }

  /** One piece of a string is inside of it, escapes and all. */
  lemma PieceBody(t: bytes, i: nat, p: Piece, j: nat)
    requires PieceOk(p) && Stands(t, i, Written(p)) && i + |Written(p)| <= j <= |t| && Body(t, i + |Written(p)|, j)
    ensures Body(t, i, j)
  {
    hide SpellsHex4, Utf8, Ascii;
    LettersU();
    var w := Written(p);
    match p
    case Raw(cp) =>
      CharacterIsPlain(cp);
      PlainStands(t, i, w);
      PlainBody(t, i, |w|, j);
    case Short(letter) =>
      assert t[i] == w[0] == BACKSLASH;
    case Escaped(cp, digits) =>
      HexIsPlain(digits, cp);
      EscapeBody(t, i, digits, j);
    case Paired(cp, high, low) =>
      HexIsPlain(high, 0xD800 + (cp - 0x1_0000) / 0x400);
      HexIsPlain(low, 0xDC00 + (cp - 0x1_0000) % 0x400);
      assert w == ([BACKSLASH, LETTER_U] + high) + ([BACKSLASH, LETTER_U] + low);
      StandsBoth(t, i, [BACKSLASH, LETTER_U] + high, [BACKSLASH, LETTER_U] + low);
      EscapeBody(t, i + 6, low, j);
      EscapeBody(t, i, high, j);
  }

  lemma EscapeBody(t: bytes, i: nat, digits: bytes, j: nat)
    requires |digits| == 4 && Plain(digits) && Stands(t, i, [BACKSLASH, LETTER_U] + digits) && i + 6 <= j <= |t| && Body(t, i + 6, j)
    ensures Body(t, i, j)
  {
    StandsBoth(t, i, [BACKSLASH, LETTER_U], digits);
    PlainStands(t, i + 2, digits);
    PlainBody(t, i + 2, 4, j);
    assert t[i] == t[i..i + 2][0] == BACKSLASH;
  }

  lemma {:induction false} StringBody(t: bytes, i: nat, ps: seq<Piece>)
    requires AllOk(ps) && Stands(t, i, WrittenAll(ps))
    ensures Body(t, i, i + |WrittenAll(ps)|)
    decreases |ps|
  {
    hide Written, PieceOk, Body;
    if ps == [] {
      EmptyBody(t, i);
    } else {
      StandsBoth(t, i, Written(ps[0]), WrittenAll(ps[1..]));
      StringBody(t, i + |Written(ps[0])|, ps[1..]);
      PieceBody(t, i, ps[0], i + |WrittenAll(ps)|);
    }
  }

  lemma EmptyBody(t: bytes, i: nat)
    requires i <= |t|
    ensures Body(t, i, i)
  {
  }

  lemma StringStands(t: bytes, at: nat, ps: seq<Piece>)
    requires AllOk(ps) && Stands(t, at, QuotedText(ps))
    ensures var n := |WrittenAll(ps)|; |QuotedText(ps)| == n + 2 && Quoted(t, at, at + 1, n, at + n + 2)
  {
    hide WrittenAll, Ascii, Body;
    Marks();
    var w := WrittenAll(ps);
    StandsBoth(t, at, Ascii("\"") + w, Ascii("\""));
    StandsBoth(t, at, Ascii("\""), w);
    StringBody(t, at + 1, ps);
    assert t[at] == t[at..at + 1][0] && t[at + |w| + 1] == t[at + |w| + 1..at + |w| + 2][0];
  }

  // ----- a text derives its value -----

  lemma LitStands(t: bytes, at: nat, lit: bytes)
    requires Stands(t, at, lit)
    ensures Lit(t, at, lit)
  {
  }

  /** What stands between brackets stands one behind the first of them. */
  lemma Inside(t: bytes, at: nat, open: byte, inner: bytes, close: byte)
    requires Stands(t, at, [open] + inner + [close])
    ensures Stands(t, at + 1, inner) && t[at] == open && t[at + |inner| + 1] == close && at + |inner| + 2 <= |t|
  {
    StandsBoth(t, at, [open] + inner, [close]);
    StandsBoth(t, at, [open], inner);
    assert t[at..at + 1][0] == t[at];
    assert t[at + |inner| + 1..at + |inner| + 2][0] == t[at + |inner| + 1];
  }

  lemma ArrayFrom(t: bytes, at: nat, n: nat, items: seq<Tree>)
    requires at + n + 2 <= |t| && t[at] == OPEN_BRACKET && t[at + n + 1] == CLOSE_BRACKET
    requires if items == [] then Ws(t, at + 1, at + 1 + n) else Items(t, at + 1, at + 1 + n, items)
    ensures Token(t, at, at + n + 2, Arr(items))
  {
    hide Ws, Items;
  }

  lemma ObjectFrom(t: bytes, at: nat, n: nat, members: seq<Member>)
    requires at + n + 2 <= |t| && t[at] == OPEN_BRACE && t[at + n + 1] == CLOSE_BRACE
    requires if members == [] then Ws(t, at + 1, at + 1 + n) else Members(t, at + 1, at + 1 + n, members)
    ensures Token(t, at, at + n + 2, Obj(members))
  {
    hide Ws, Members;
  }

  lemma LiteralStands(t: bytes, at: nat, v: Value, gap: bytes)
    requires v.JNull? || v.JBool? || (v.JString? && Writable(v))
    requires Stands(t, at, TextOf(v, gap))
    ensures Token(t, at, at + |TextOf(v, gap)|, TreeAt(v, gap, at))
  {
    hide WrittenAll, Quoted, Ascii;
    Marks();
    match v
    case JNull => LitStands(t, at, NULL);
    case JBool(b) => LitStands(t, at, if b then TRUE else FALSE);
    case JString(pieces) => StringStands(t, at, pieces);
    case _ =>
  }

  lemma {:induction false} TextIsToken(t: bytes, at: nat, v: Value, gap: bytes)
    requires Writable(v) && Blank(gap) && Stands(t, at, TextOf(v, gap))
    ensures Token(t, at, at + |TextOf(v, gap)|, TreeAt(v, gap, at))
    decreases v, 0
  {
    hide WrittenAll, Quoted, Ascii, Blank, Ws, Derives, Items, Members, ItemsText, MembersText, ItemsAt, MembersAt, Token;
    Marks();
    match v
    case JNumber(text) => NumberStands(t, at, text);
    case JArray(items) =>
      var inner := if items == [] then gap else ItemsText(items, gap);
      Inside(t, at, OPEN_BRACKET, inner, CLOSE_BRACKET);
      if items == [] {
        BlankIsWs(t, at + 1, gap);
      } else {
        TextIsItems(t, at + 1, items, gap);
        ItemsAreSome(items, gap, at + 1);
      }
      ArrayFrom(t, at, |inner|, TreeAt(v, gap, at).items);
    case JObject(members) =>
      var inner := if members == [] then gap else MembersText(members, gap);
      Inside(t, at, OPEN_BRACE, inner, CLOSE_BRACE);
      if members == [] {
        BlankIsWs(t, at + 1, gap);
      } else {
        TextIsMembers(t, at + 1, members, gap);
        MembersAreSome(members, gap, at + 1);
      }
      ObjectFrom(t, at, |inner|, TreeAt(v, gap, at).members);
    case _ => LiteralStands(t, at, v, gap);
  }

  lemma ItemsAreSome(items: seq<Value>, gap: bytes, at: nat)
    requires items != [] && forall i :: 0 <= i < |items| ==> Writable(items[i])
    ensures ItemsAt(items, gap, at) != []
  {
  }

  lemma MembersAreSome(members: seq<Field>, gap: bytes, at: nat)
    requires members != [] && forall i :: 0 <= i < |members| ==> AllOk(members[i].key) && Writable(members[i].value)
    ensures MembersAt(members, gap, at) != []
  {
  }

  lemma NumberStands(t: bytes, at: nat, text: bytes)
    requires Stands(t, at, text) && text != [] && forall c :: c in text ==> IsNumeral(c)
    ensures Token(t, at, at + |text|, Number(at, |text|))
  {
    forall m | at <= m < at + |text|
      ensures IsNumberChar(t[m])
    {
      assert t[m] == text[m - at] && text[m - at] in text;
      CharactersOf(t[m]);
    }
  }

  /** Blanks and a value behind them. */
  lemma {:induction false} TextDerives(t: bytes, at: nat, v: Value, gap: bytes)
    requires Writable(v) && Blank(gap) && Stands(t, at, gap + TextOf(v, gap))
    ensures Derives(t, at, at + |gap| + |TextOf(v, gap)|, TreeAt(v, gap, at + |gap|))
    decreases v, 1
  {
    hide Blank, Ws, Token, Stands;
    StandsBoth(t, at, gap, TextOf(v, gap));
    BlankIsWs(t, at, gap);
    TextIsToken(t, at + |gap|, v, gap);
    assert Ws(t, at, at + |gap|) && Token(t, at + |gap|, at + |gap| + |TextOf(v, gap)|, TreeAt(v, gap, at + |gap|));
  }

  lemma OneItem(t: bytes, at: nat, m: nat, j: nat, trees: seq<Tree>)
    requires |trees| == 1 && Derives(t, at, m, trees[0]) && Ws(t, m, j)
    ensures Items(t, at, j, trees)
  {
    hide Derives, Ws;
  }

  lemma MoreItems(t: bytes, at: nat, m: nat, n: nat, j: nat, trees: seq<Tree>)
    requires |trees| > 1 && Derives(t, at, m, trees[0]) && Ws(t, m, n) && n < j && CharAt(t, n, COMMA) && Items(t, n + 1, j, trees[1..])
    ensures Items(t, at, j, trees)
  {
    hide Derives, Ws;
    assert ItemsAfter(t, m, j, trees);
  }

  lemma OneMember(t: bytes, at: nat, m: nat, j: nat, trees: seq<Member>)
    requires |trees| == 1 && Pair(t, at, m, trees[0]) && Ws(t, m, j)
    ensures Members(t, at, j, trees)
  {
    hide Pair, Ws;
  }

  lemma MoreMembers(t: bytes, at: nat, m: nat, n: nat, j: nat, trees: seq<Member>)
    requires |trees| > 1 && Pair(t, at, m, trees[0]) && Ws(t, m, n) && n < j && CharAt(t, n, COMMA) && Members(t, n + 1, j, trees[1..])
    ensures Members(t, at, j, trees)
  {
    hide Pair, Ws;
    assert MembersAfter(t, m, j, trees);
  }

  /** The first of several, blanks, a comma, and the others. */
  lemma Separated(t: bytes, at: nat, first: bytes, gap: bytes, rest: bytes)
    requires Stands(t, at, first + gap + (Ascii(",") + rest)) && Blank(gap)
    ensures var m := at + |first|;
            var n := m + |gap|;
            && Stands(t, at, first) && Ws(t, m, n) && CharAt(t, n, COMMA) && Stands(t, n + 1, rest)
            && |first + gap + (Ascii(",") + rest)| == |first| + |gap| + 1 + |rest|
  {
    hide Ascii, Blank, Ws;
    Marks();
    var n := at + |first| + |gap|;
    StandsBoth(t, at, first + gap, Ascii(",") + rest);
    StandsBoth(t, at, first, gap);
    StandsBoth(t, n, Ascii(","), rest);
    BlankIsWs(t, at + |first|, gap);
    assert t[n] == t[n..n + 1][0];
  }

  lemma RestText(items: seq<Value>, gap: bytes)
    requires items != [] && forall i :: 0 <= i < |items| ==> Writable(items[i])
    ensures var first := gap + TextOf(items[0], gap);
            ItemsText(items, gap) == if |items| == 1 then first + gap else first + gap + (Ascii(",") + ItemsText(items[1..], gap))
  {
    hide TextOf, Writable, Ascii;
    if |items| > 1 {
      var first, rest := gap + TextOf(items[0], gap), ItemsText(items[1..], gap);
      assert first + gap + Ascii(",") + rest == first + gap + (Ascii(",") + rest);
    }
  }

  lemma {:induction false} TextIsItems(t: bytes, at: nat, items: seq<Value>, gap: bytes)
    requires items != [] && (forall i :: 0 <= i < |items| ==> Writable(items[i])) && Blank(gap) && Stands(t, at, ItemsText(items, gap))
    ensures Items(t, at, at + |ItemsText(items, gap)|, ItemsAt(items, gap, at))
    decreases items
  {
    hide Blank, Ws, Token, TreeAt, TextOf, ItemsText, ItemsAt, Writable, Derives, Items, Ascii, Stands;
    RestAt(items, gap, at);
    RestText(items, gap);
    var first := gap + TextOf(items[0], gap);
    var m, j := at + |first|, at + |ItemsText(items, gap)|;
    if |items| == 1 {
      StandsBoth(t, at, first, gap);
      TextDerives(t, at, items[0], gap);
      BlankIsWs(t, m, gap);
      OneItem(t, at, m, j, ItemsAt(items, gap, at));
    } else {
      Separated(t, at, first, gap, ItemsText(items[1..], gap));
      TextDerives(t, at, items[0], gap);
      TextIsItems(t, m + |gap| + 1, items[1..], gap);
      MoreItems(t, at, m, m + |gap|, j, ItemsAt(items, gap, at));
    }
  }

  lemma {:induction false} TextIsMembers(t: bytes, at: nat, members: seq<Field>, gap: bytes)
    requires members != [] && (forall i :: 0 <= i < |members| ==> AllOk(members[i].key) && Writable(members[i].value))
    requires Blank(gap) && Stands(t, at, MembersText(members, gap))
    ensures Members(t, at, at + |MembersText(members, gap)|, MembersAt(members, gap, at))
    decreases members
  {
    hide Blank, Ws, Token, FieldAt, FieldText, TreeAt, Pair, Members, Ascii, Stands;
    var first := FieldText(members[0], gap);
    var m, j := at + |first|, at + |MembersText(members, gap)|;
    if |members| == 1 {
      assert MembersText(members, gap) == first + gap;
      StandsBoth(t, at, first, gap);
      TextIsField(t, at, members[0], gap);
      BlankIsWs(t, m, gap);
      OneMember(t, at, m, j, MembersAt(members, gap, at));
    } else {
      var rest := MembersText(members[1..], gap);
      assert MembersText(members, gap) == first + gap + (Ascii(",") + rest);
      Separated(t, at, first, gap, rest);
      TextIsField(t, at, members[0], gap);
      TextIsMembers(t, m + |gap| + 1, members[1..], gap);
      MoreMembers(t, at, m, m + |gap|, j, MembersAt(members, gap, at));
    }
  }

  /** A key, a colon and a value, with blanks before each. */
  lemma KeyAndColon(t: bytes, at: nat, gap: bytes, key: seq<Piece>, value: bytes)
    requires AllOk(key) && Blank(gap) && Stands(t, at, gap + QuotedText(key) + gap + Ascii(":") + value)
    ensures var n, k := |WrittenAll(key)|, at + |gap|;
            var c := k + n + 2 + |gap|;
            && |gap + QuotedText(key) + gap + Ascii(":") + value| == c + 1 - at + |value|
            && Ws(t, at, k) && k < |t| && Quoted(t, k, k + 1, n, k + n + 2) && Ws(t, k + n + 2, c) && CharAt(t, c, COLON) && Stands(t, c + 1, value)
  {
    hide Ascii, Blank, Ws, QuotedText, WrittenAll, Quoted;
    Marks();
    var k, q := at + |gap|, QuotedText(key);
    StandsBoth(t, at, gap + q + gap + Ascii(":"), value);
    StandsBoth(t, at, gap + q + gap, Ascii(":"));
    StandsBoth(t, at, gap + q, gap);
    StandsBoth(t, at, gap, q);
    StringStands(t, k, key);
    BlankIsWs(t, at, gap);
    BlankIsWs(t, k + |q|, gap);
    var c := k + |q| + |gap|;
    assert t[c] == t[c..c + 1][0];
  }

  lemma {:induction false} TextIsField(t: bytes, at: nat, f: Field, gap: bytes)
    requires AllOk(f.key) && Writable(f.value) && Blank(gap) && Stands(t, at, FieldText(f, gap))
    ensures Pair(t, at, at + |FieldText(f, gap)|, FieldAt(f, gap, at))
    decreases f
  {
    hide Blank, Ws, Token, TreeAt, Derives, Ascii, QuotedText, WrittenAll, Quoted, Stands;
    var value := gap + TextOf(f.value, gap);
    assert FieldText(f, gap) == gap + QuotedText(f.key) + gap + Ascii(":") + value;
    KeyAndColon(t, at, gap, f.key, value);
    var n, k := |WrittenAll(f.key)|, at + |gap|;
    var c := k + n + 2 + |gap|;
    TextDerives(t, c + 1, f.value, gap);
    PairFrom(t, at, k, k + n + 2, c, at + |FieldText(f, gap)|, FieldAt(f, gap, at));
  }

  lemma PairFrom(t: bytes, i: nat, k: nat, e: nat, c: nat, j: nat, member: Member)
    requires Ws(t, i, k) && k < |t| && Quoted(t, k, member.start, member.len, e) && Ws(t, e, c) && CharAt(t, c, COLON)
    requires Derives(t, c + 1, j, member.value)
    ensures Pair(t, i, j, member)
  {
    hide Ws, Quoted, Derives;
  }

  // ----- sizes -----

  /** Nodes: one for each value and one for each key. */
  ghost function Nodes(v: Value): (n: nat) {
    match v
    case JArray(items) => 1 + ItemsNodes(items)
    case JObject(members) => 1 + MembersNodes(members)
    case _ => 1
  }

  ghost function ItemsNodes(items: seq<Value>): nat {
    if items == [] then 0 else Nodes(items[0]) + ItemsNodes(items[1..])
  }

  ghost function MembersNodes(members: seq<Field>): nat {
    if members == [] then 0 else FieldNodes(members[0]) + MembersNodes(members[1..])
  }

  ghost function FieldNodes(f: Field): nat {
    1 + Nodes(f.value)
  }

  /** How many arrays and objects enclose the innermost value. */
  ghost function Levels(v: Value): nat {
    match v
    case JArray(items) => ItemsLevels(items)
    case JObject(members) => MembersLevels(members)
    case _ => 0
  }

  ghost function ItemsLevels(items: seq<Value>): nat {
    if items == [] then 0 else Max(1 + Levels(items[0]), ItemsLevels(items[1..]))
  }

  ghost function MembersLevels(members: seq<Field>): nat {
    if members == [] then 0 else Max(FieldLevels(members[0]), MembersLevels(members[1..]))
  }

  ghost function FieldLevels(f: Field): nat {
    1 + Levels(f.value)
  }

  lemma {:induction false} SizesAgree(v: Value, gap: bytes, at: nat)
    requires Writable(v)
    ensures Size(TreeAt(v, gap, at)) == Nodes(v) && Depth(TreeAt(v, gap, at)) == Levels(v)
    decreases v, 0
  {
    hide TextOf, ItemsAt, MembersAt;
    match v
    case JArray(items) => if items != [] { ItemsAgree(items, gap, at + 1); }
    case JObject(members) => if members != [] { MembersAgree(members, gap, at + 1); }
    case _ =>
  }

  lemma {:induction false} ItemsAgree(items: seq<Value>, gap: bytes, at: nat)
    requires items != [] && forall i :: 0 <= i < |items| ==> Writable(items[i])
    ensures ItemsSize(ItemsAt(items, gap, at)) == ItemsNodes(items) && ItemsDepth(ItemsAt(items, gap, at)) == ItemsLevels(items)
    decreases items
  {
    hide TextOf, TreeAt, Size, Depth, Nodes, Levels, Writable;
    SizesAgree(items[0], gap, at + |gap|);
    var trees := ItemsAt(items, gap, at);
    if |items| > 1 {
      var next := at + |gap| + |TextOf(items[0], gap)| + |gap| + 1;
      ItemsAgree(items[1..], gap, next);
      assert trees[1..] == ItemsAt(items[1..], gap, next);
    } else {
      assert items[1..] == [] && trees[1..] == [];
    }
  }

  lemma {:induction false} MembersAgree(members: seq<Field>, gap: bytes, at: nat)
    requires members != [] && forall i :: 0 <= i < |members| ==> AllOk(members[i].key) && Writable(members[i].value)
    ensures MembersSize(MembersAt(members, gap, at)) == MembersNodes(members) && MembersDepth(MembersAt(members, gap, at)) == MembersLevels(members)
    decreases members
  {
    hide FieldText, FieldAt, FieldNodes, FieldLevels, MemberSize, MemberDepth, Writable;
    FieldAgrees(members[0], gap, at);
    var trees := MembersAt(members, gap, at);
    if |members| > 1 {
      var next := at + |FieldText(members[0], gap)| + |gap| + 1;
      MembersAgree(members[1..], gap, next);
      assert trees[1..] == MembersAt(members[1..], gap, next);
    } else {
      assert members[1..] == [] && trees[1..] == [];
    }
  }

  lemma {:induction false} FieldAgrees(f: Field, gap: bytes, at: nat)
    requires AllOk(f.key) && Writable(f.value)
    ensures MemberSize(FieldAt(f, gap, at)) == FieldNodes(f) && MemberDepth(FieldAt(f, gap, at)) == FieldLevels(f)
    decreases f
  {
    hide TreeAt, Nodes, Levels, Size, Depth;
    SizesAgree(f.value, gap, at + |gap| + |WrittenAll(f.key)| + 2 + |gap| + 1 + |gap|);
  }

  // ----- what the spans say -----

  /** The spans of a tree hold what the value says: strings and keys decode to its characters, numbers are its own text. */
  ghost predicate Says(t: bytes, tree: Tree, v: Value)
    requires Writable(v)
    decreases v, 0
  {
    match v
    case JNull => tree.Null?
    case JBool(b) => tree.Bool? && Stands(t, tree.start, if b then Ascii("true") else Ascii("false")) && tree.len == if b then 4 else 5
    case JNumber(text) => tree.Number? && tree.len == |text| && Stands(t, tree.start, text)
    case JString(pieces) => tree.Str? && SaysString(t, tree.start, tree.len, pieces)
    case JArray(items) => tree.Arr? && SaysItems(t, tree.items, items)
    case JObject(members) => tree.Obj? && SaysMembers(t, tree.members, members)
  }

  ghost predicate SaysString(t: bytes, start: nat, len: nat, pieces: seq<Piece>)
    requires AllOk(pieces)
  {
    start + len <= |t| && Decode(t[start..start + len]) == Some(Utf8All(CodesOf(pieces)))
  }

  ghost predicate SaysItems(t: bytes, trees: seq<Tree>, items: seq<Value>)
    requires forall i :: 0 <= i < |items| ==> Writable(items[i])
    decreases items
  {
    |trees| == |items| && (items != [] ==> Says(t, trees[0], items[0]) && SaysItems(t, trees[1..], items[1..]))
  }

  ghost predicate SaysMembers(t: bytes, trees: seq<Member>, members: seq<Field>)
    requires forall i :: 0 <= i < |members| ==> AllOk(members[i].key) && Writable(members[i].value)
    decreases members
  {
    |trees| == |members| && (members != [] ==> SaysField(t, trees[0], members[0]) && SaysMembers(t, trees[1..], members[1..]))
  }

  ghost predicate SaysField(t: bytes, tree: Member, f: Field)
    requires AllOk(f.key) && Writable(f.value)
    decreases f
  {
    SaysString(t, tree.start, tree.len, f.key) && Says(t, tree.value, f.value)
  }

  lemma StringSays(t: bytes, at: nat, pieces: seq<Piece>)
    requires AllOk(pieces) && Stands(t, at, QuotedText(pieces))
    ensures SaysString(t, at + 1, |WrittenAll(pieces)|, pieces)
  {
    hide WrittenAll, Decode, Utf8All, CodesOf, Ascii;
    Marks();
    var w := WrittenAll(pieces);
    StandsBoth(t, at, Ascii("\"") + w, Ascii("\""));
    StandsBoth(t, at, Ascii("\""), w);
    DecodingInvertsEscaping(pieces);
  }

  lemma {:induction false} TextSays(t: bytes, at: nat, v: Value, gap: bytes)
    requires Writable(v) && Blank(gap) && Stands(t, at, TextOf(v, gap))
    ensures Says(t, TreeAt(v, gap, at), v)
    decreases v, 0
  {
    hide WrittenAll, QuotedText, SaysString, Ascii, Blank, Ws, ItemsText, MembersText, ItemsAt, MembersAt, Stands,
      SaysItems, SaysMembers;
    Marks();
    match v
    case JString(pieces) => StringSays(t, at, pieces);
    case JArray(items) =>
      if items == [] {
        NothingSaid(t);
      } else {
        Inside(t, at, OPEN_BRACKET, ItemsText(items, gap), CLOSE_BRACKET);
        ItemsSay(t, at + 1, items, gap);
      }
    case JObject(members) =>
      if members == [] {
        NothingSaid(t);
      } else {
        Inside(t, at, OPEN_BRACE, MembersText(members, gap), CLOSE_BRACE);
        MembersSay(t, at + 1, members, gap);
      }
    case _ =>
  }

  lemma NothingSaid(t: bytes)
    ensures SaysItems(t, [], []) && SaysMembers(t, [], [])
  {
  }

  lemma {:induction false} ItemsSay(t: bytes, at: nat, items: seq<Value>, gap: bytes)
    requires items != [] && (forall i :: 0 <= i < |items| ==> Writable(items[i])) && Blank(gap) && Stands(t, at, ItemsText(items, gap))
    ensures SaysItems(t, ItemsAt(items, gap, at), items)
    decreases items
  {
    hide Blank, Ws, TreeAt, TextOf, Writable, ItemsAt, Ascii, Stands, Says;
    RestAt(items, gap, at);
    var first, trees := gap + TextOf(items[0], gap), ItemsAt(items, gap, at);
    if |items| == 1 {
      assert ItemsText(items, gap) == first + gap;
      StandsBoth(t, at, first, gap);
      assert items[1..] == [];
    } else {
      var rest, next := ItemsText(items[1..], gap), at + |first| + |gap| + 1;
      assert ItemsText(items, gap) == first + gap + (Ascii(",") + rest);
      Separated(t, at, first, gap, rest);
      ItemsSay(t, next, items[1..], gap);
    }
    StandsBoth(t, at, gap, TextOf(items[0], gap));
    TextSays(t, at + |gap|, items[0], gap);
  }

  lemma RestAt(items: seq<Value>, gap: bytes, at: nat)
    requires items != [] && forall i :: 0 <= i < |items| ==> Writable(items[i])
    ensures ItemsAt(items, gap, at)[0] == TreeAt(items[0], gap, at + |gap|)
    ensures |items| == 1 ==> ItemsAt(items, gap, at)[1..] == []
    ensures |items| > 1 ==> ItemsAt(items, gap, at)[1..] == ItemsAt(items[1..], gap, at + |gap + TextOf(items[0], gap)| + |gap| + 1)
  {
    hide TreeAt, TextOf, Writable;
  }

  lemma {:induction false} MembersSay(t: bytes, at: nat, members: seq<Field>, gap: bytes)
    requires members != [] && (forall i :: 0 <= i < |members| ==> AllOk(members[i].key) && Writable(members[i].value))
    requires Blank(gap) && Stands(t, at, MembersText(members, gap))
    ensures SaysMembers(t, MembersAt(members, gap, at), members)
    decreases members
  {
    hide Blank, Ws, FieldAt, FieldText, Ascii, Stands, SaysField;
    var first, trees := FieldText(members[0], gap), MembersAt(members, gap, at);
    if |members| == 1 {
      assert MembersText(members, gap) == first + gap;
      StandsBoth(t, at, first, gap);
      assert trees[1..] == [] && members[1..] == [];
    } else {
      var rest, next := MembersText(members[1..], gap), at + |first| + |gap| + 1;
      assert MembersText(members, gap) == first + gap + (Ascii(",") + rest);
      Separated(t, at, first, gap, rest);
      MembersSay(t, next, members[1..], gap);
      assert trees[1..] == MembersAt(members[1..], gap, next);
    }
    FieldSays(t, at, members[0], gap);
  }

  lemma {:induction false} FieldSays(t: bytes, at: nat, f: Field, gap: bytes)
    requires AllOk(f.key) && Writable(f.value) && Blank(gap) && Stands(t, at, FieldText(f, gap))
    ensures SaysField(t, FieldAt(f, gap, at), f)
    decreases f
  {
    hide Blank, Ws, TreeAt, Ascii, WrittenAll, Quoted, Stands, Says, SaysString, QuotedText;
    var value, front := gap + TextOf(f.value, gap), gap + QuotedText(f.key) + gap + Ascii(":");
    assert FieldText(f, gap) == front + value;
    KeyAndColon(t, at, gap, f.key, value);
    var n, k := |WrittenAll(f.key)|, at + |gap|;
    StandsBoth(t, at, front, value);
    StandsBoth(t, at, gap + QuotedText(f.key) + gap, Ascii(":"));
    StandsBoth(t, at, gap + QuotedText(f.key), gap);
    StandsBoth(t, at, gap, QuotedText(f.key));
    StringSays(t, k, f.key);
    StandsBoth(t, k + n + 2 + |gap| + 1, gap, TextOf(f.value, gap));
    TextSays(t, k + n + 2 + |gap| + 1 + |gap|, f.value, gap);
  }

  // ----- the round trip -----

  /**
   * Whatever blanks stand between its tokens, a document is accepted exactly when it is at most 32 levels deep and takes
   * at most 4095 nodes, and then as the value it was written from, string for string and number for number.
   */
  lemma ParseInvertsWriting(v: Value, gap: bytes)
    requires Writable(v) && Blank(gap)
    ensures ParseDocument(gap + TextOf(v, gap) + gap) == Some(TreeAt(v, gap, |gap|)) <==> Levels(v) <= 32 && Nodes(v) <= 4095
    ensures Says(gap + TextOf(v, gap) + gap, TreeAt(v, gap, |gap|), v)
  {
    hide ParseDocument, TextOf, Size, Depth, Nodes, Levels, Ws, Blank, Derives, Says, Stands;
    var t, tree := gap + TextOf(v, gap) + gap, TreeAt(v, gap, |gap|);
    assert Stands(t, 0, t) by { AllStands(t); }
    StandsBoth(t, 0, gap + TextOf(v, gap), gap);
    StandsBoth(t, 0, gap, TextOf(v, gap));
    TextSays(t, |gap|, v, gap);
    TextDerives(t, 0, v, gap);
    BlankIsWs(t, |gap + TextOf(v, gap)|, gap);
    assert Reads(t, tree);
    SizesAgree(v, gap, |gap|);
    AcceptsExactlyTheGrammar(t, tree);
  }

  lemma AllStands(t: bytes)
    ensures Stands(t, 0, t)
  {
    assert t[0..|t|] == t;
  }
}
