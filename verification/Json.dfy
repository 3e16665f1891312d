/**
 * The JSON subset the source indexes use: its grammar, the parser as a function, and the flat node layout.
 * The grammar is that of RFC 8259 with two liberties: any byte may appear in a string, and a number is any
 * run of digits, signs, dots and exponent letters.
 */
module Json {
  import opened Bytes

  const MAX_NODES: nat := 4096
  const MAX_DEPTH: nat := 32

  const QUOTE: byte := 0x22
  const BACKSLASH: byte := 0x5C
  const COMMA: byte := 0x2C
  const COLON: byte := 0x3A
  const OPEN_BRACKET: byte := 0x5B
  const CLOSE_BRACKET: byte := 0x5D
  const OPEN_BRACE: byte := 0x7B
  const CLOSE_BRACE: byte := 0x7D

  const TRUE: bytes := [0x74, 0x72, 0x75, 0x65]
  const FALSE: bytes := [0x66, 0x61, 0x6C, 0x73, 0x65]
  const NULL: bytes := [0x6E, 0x75, 0x6C, 0x6C]

  /** A value; strings, numbers and literals are spans of the text. */
  datatype Tree =
    | Null
    | Bool(start: nat, len: nat)
    | Number(start: nat, len: nat)
    | Str(start: nat, len: nat)
    | Arr(items: seq<Tree>)
    | Obj(members: seq<Member>)

  datatype Member = Member(start: nat, len: nat, value: Tree)

  predicate IsWs(c: byte) {
    c == 0x20 || c == 0x09 || c == 0x0A || c == 0x0D
  }

  predicate IsNumberChar(c: byte) {
    0x30 <= c <= 0x39 || c == 0x2D || c == 0x2B || c == 0x2E || c == 0x65 || c == 0x45
  }

  predicate CharAt(t: bytes, i: nat, c: byte) {
    i < |t| && t[i] == c
  }

  // ----- the grammar -----

  ghost predicate Ws(t: bytes, i: nat, j: nat) {
    i <= j <= |t| && forall k :: i <= k < j ==> IsWs(t[k])
  }

  predicate Lit(t: bytes, i: nat, lit: bytes) {
    i + |lit| <= |t| && t[i..i + |lit|] == lit
  }

  /** The inside of a string: plain bytes, and pairs of a backslash and any byte. */
  ghost predicate Body(t: bytes, i: nat, j: nat)
    requires j <= |t|
    decreases j - i
  {
    if i >= j then i == j
    else if t[i] == BACKSLASH then Body(t, i + 2, j)
    else t[i] != QUOTE && Body(t, i + 1, j)
  }

  ghost predicate Quoted(t: bytes, i: nat, start: nat, len: nat, j: nat) {
    start == i + 1 && j == start + len + 1 <= |t| && t[i] == QUOTE && t[j - 1] == QUOTE && Body(t, start, start + len)
  }

  /** Text from `i` to `j` is whitespace, then the value `v`. */
  ghost predicate Derives(t: bytes, i: nat, j: nat, v: Tree)
    decreases v, 1
  {
    exists k: nat :: Ws(t, i, k) && Token(t, k, j, v)
  }

  ghost predicate Token(t: bytes, k: nat, j: nat, v: Tree)
    decreases v, 0
  {
    k < j <= |t|
    && match v
       case Null => Lit(t, k, NULL) && j == k + |NULL|
       case Bool(s, l) => s == k && j == k + l && ((Lit(t, k, TRUE) && l == |TRUE|) || (Lit(t, k, FALSE) && l == |FALSE|))
       case Number(s, l) => s == k && j == k + l && forall m :: k <= m < j ==> IsNumberChar(t[m])
       case Str(s, l) => Quoted(t, k, s, l, j)
       case Arr(items) =>
         && t[k] == OPEN_BRACKET && k + 1 < j && t[j - 1] == CLOSE_BRACKET
         && if items == [] then Ws(t, k + 1, j - 1) else Items(t, k + 1, j - 1, items)
       case Obj(members) =>
         && t[k] == OPEN_BRACE && k + 1 < j && t[j - 1] == CLOSE_BRACE
         && if members == [] then Ws(t, k + 1, j - 1) else Members(t, k + 1, j - 1, members)
  }

  /** Values between commas. */
  ghost predicate Items(t: bytes, i: nat, j: nat, items: seq<Tree>)
    requires items != []
    decreases items
  {
    exists m: nat :: Derives(t, i, m, items[0]) && ItemsAfter(t, m, j, items)
  }

  ghost predicate ItemsAfter(t: bytes, m: nat, j: nat, items: seq<Tree>)
    requires items != []
    decreases items, 0
  {
    if |items| == 1 then Ws(t, m, j)
    else exists n: nat :: Ws(t, m, n) && n < j && CharAt(t, n, COMMA) && Items(t, n + 1, j, items[1..])
  }

  ghost predicate Members(t: bytes, i: nat, j: nat, members: seq<Member>)
    requires members != []
    decreases members
  {
    exists m: nat :: Pair(t, i, m, members[0]) && MembersAfter(t, m, j, members)
  }

  /** A key, a colon and a value. */
  ghost predicate Pair(t: bytes, i: nat, j: nat, member: Member)
    decreases member
  {
    exists k: nat, e: nat, c: nat ::
      && Ws(t, i, k) && k < |t| && Quoted(t, k, member.start, member.len, e)
      && Ws(t, e, c) && CharAt(t, c, COLON)
      && Derives(t, c + 1, j, member.value)
  }

  ghost predicate MembersAfter(t: bytes, m: nat, j: nat, members: seq<Member>)
    requires members != []
    decreases members, 0
  {
    if |members| == 1 then Ws(t, m, j)
    else exists n: nat :: Ws(t, m, n) && n < j && CharAt(t, n, COMMA) && Members(t, n + 1, j, members[1..])
  }

  // ----- sizes -----

  /** The nodes a value takes: one for itself, one for each key. */
  function Size(v: Tree): (n: nat)
    ensures n > 0
  {
    match v
    case Arr(items) => 1 + ItemsSize(items)
    case Obj(members) => 1 + MembersSize(members)
    case _ => 1
  }

  function ItemsSize(items: seq<Tree>): nat {
    if items == [] then 0 else Size(items[0]) + ItemsSize(items[1..])
  }

  function MembersSize(members: seq<Member>): nat {
    if members == [] then 0 else MemberSize(members[0]) + MembersSize(members[1..])
  }

  function MemberSize(m: Member): nat {
    1 + Size(m.value)
  }

  /** How deeply values are nested. */
  function Depth(v: Tree): nat {
    match v
    case Arr(items) => ItemsDepth(items)
    case Obj(members) => MembersDepth(members)
    case _ => 0
  }

  function ItemsDepth(items: seq<Tree>): nat {
    if items == [] then 0 else Max(1 + Depth(items[0]), ItemsDepth(items[1..]))
  }

  function MembersDepth(members: seq<Member>): nat {
    if members == [] then 0 else Max(MemberDepth(members[0]), MembersDepth(members[1..]))
  }

  function MemberDepth(m: Member): nat {
    1 + Depth(m.value)
  }
}
