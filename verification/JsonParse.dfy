/** The parser as a function of the text, and its agreement with the grammar. */
module JsonParse {
  import opened Bytes
  import opened Json

  datatype Parsed = Parsed(tree: Tree, next: nat, count: nat)

  datatype ParsedItems = ParsedItems(items: seq<Tree>, next: nat, count: nat)

  datatype ParsedMembers = ParsedMembers(members: seq<Member>, next: nat, count: nat)

  // ----- scanning -----

  function SkipWs(t: bytes, i: nat): (r: nat)
    requires i <= |t|
    ensures Ws(t, i, r) && (r < |t| ==> !IsWs(t[r]))
    decreases |t| - i
  {
    if i < |t| && IsWs(t[i]) then SkipWs(t, i + 1) else i
  }

  /** Where the string whose inside starts at `i` closes. An escape skips whatever byte it introduces. */
  function Closing(t: bytes, i: nat): (r: Option<nat>)
    requires i <= |t|
    ensures r.Some? ==> i <= r.value < |t|
    decreases |t| - i
  {
    if i >= |t| then None
    else if t[i] == BACKSLASH then if i + 2 > |t| then None else Closing(t, i + 2)
    else if t[i] == QUOTE then Some(i)
    else Closing(t, i + 1)
  }

  /** The span of a quoted string: where its inside starts and ends. */
  function ScanString(t: bytes, i: nat): (r: Option<nat>)
    requires i <= |t|
    ensures r.Some? ==> i + 1 <= r.value < |t|
  {
    if !CharAt(t, i, QUOTE) then None else Closing(t, i + 1)
  }

  function NumberEnd(t: bytes, i: nat): (r: nat)
    requires i <= |t|
    ensures i <= r <= |t| && (forall k :: i <= k < r ==> IsNumberChar(t[k])) && (r < |t| ==> !IsNumberChar(t[r]))
    decreases |t| - i
  {
    if i < |t| && IsNumberChar(t[i]) then NumberEnd(t, i + 1) else i
  }

  // ----- parsing -----

  /** A value at `pos`, with `count` nodes already taken. */
  function ParseValue(t: bytes, pos: nat, depth: nat, count: nat): (r: Option<Parsed>)
    requires pos <= |t| && count <= MAX_NODES
    ensures r.Some? ==> pos < r.value.next <= |t| && count < r.value.count <= MAX_NODES
    decreases |t| - pos, 2
  {
    if depth > MAX_DEPTH then None
    else
      var k := SkipWs(t, pos);
      if k >= |t| then None else ParseToken(t, k, depth, count)
  }

  function ParseToken(t: bytes, k: nat, depth: nat, count: nat): (r: Option<Parsed>)
    requires k < |t| && count <= MAX_NODES
    ensures r.Some? ==> k < r.value.next <= |t| && count < r.value.count <= MAX_NODES
    decreases |t| - k, 1
  {
    if t[k] == OPEN_BRACE then ParseObject(t, k, depth, count)
    else if t[k] == OPEN_BRACKET then ParseArray(t, k, depth, count)
    else if t[k] == QUOTE then
      match ScanString(t, k)
      case None => None
      case Some(end) => if count >= MAX_NODES then None else Some(Parsed(Str(k + 1, end - (k + 1)), end + 1, count + 1))
    else if Lit(t, k, TRUE) || Lit(t, k, FALSE) then
      var n := if t[k] == TRUE[0] then |TRUE| else |FALSE|;
      if count >= MAX_NODES then None else Some(Parsed(Bool(k, n), k + n, count + 1))
    else if Lit(t, k, NULL) then
      if count >= MAX_NODES then None else Some(Parsed(Null, k + |NULL|, count + 1))
    else if IsNumberChar(t[k]) then
      var end := NumberEnd(t, k);
      if count >= MAX_NODES then None else Some(Parsed(Number(k, end - k), end, count + 1))
    else None
  }

  function ParseArray(t: bytes, k: nat, depth: nat, count: nat): (r: Option<Parsed>)
    requires k < |t| && count <= MAX_NODES
    ensures r.Some? ==> k < r.value.next <= |t| && count < r.value.count <= MAX_NODES
    decreases |t| - k, 0
  {
    if count >= MAX_NODES then None
    else
      var i := SkipWs(t, k + 1);
      if CharAt(t, i, CLOSE_BRACKET) then Some(Parsed(Arr([]), i + 1, count + 1))
      else
        match ParseItems(t, i, depth, count + 1)
        case None => None
        case Some(p) => Some(Parsed(Arr(p.items), p.next, p.count))
  }

  /** The values of an array from `i` on, and the bracket that ends them. */
  function ParseItems(t: bytes, i: nat, depth: nat, count: nat): (r: Option<ParsedItems>)
    requires i <= |t| && count <= MAX_NODES
    ensures r.Some? ==> i < r.value.next <= |t| && count < r.value.count <= MAX_NODES && r.value.items != []
    decreases |t| - i, 3
  {
    match ParseValue(t, i, depth + 1, count)
    case None => None
    case Some(v) => ItemsBehind(t, v, depth)
  }

  function ItemsBehind(t: bytes, v: Parsed, depth: nat): (r: Option<ParsedItems>)
    requires v.next <= |t| && v.count <= MAX_NODES
    ensures r.Some? ==> v.next < r.value.next <= |t| && v.count <= r.value.count <= MAX_NODES && r.value.items != []
    decreases |t| - v.next, 4
  {
    var j := SkipWs(t, v.next);
    if CharAt(t, j, COMMA) then
      match ParseItems(t, j + 1, depth, v.count)
      case None => None
      case Some(rest) => Some(ParsedItems([v.tree] + rest.items, rest.next, rest.count))
    else if CharAt(t, j, CLOSE_BRACKET) then Some(ParsedItems([v.tree], j + 1, v.count))
    else None
  }

  function ParseObject(t: bytes, k: nat, depth: nat, count: nat): (r: Option<Parsed>)
    requires k < |t| && count <= MAX_NODES
    ensures r.Some? ==> k < r.value.next <= |t| && count < r.value.count <= MAX_NODES
    decreases |t| - k, 0
  {
    if count >= MAX_NODES then None
    else
      var i := SkipWs(t, k + 1);
      if CharAt(t, i, CLOSE_BRACE) then Some(Parsed(Obj([]), i + 1, count + 1))
      else
        match ParseMembers(t, i, depth, count + 1)
        case None => None
        case Some(p) => Some(Parsed(Obj(p.members), p.next, p.count))
  }

  /** A key and its colon; the node of the key is taken before the value is parsed. */
  function ParseKey(t: bytes, i: nat, count: nat): (r: Option<(nat, nat, nat)>)
    requires i <= |t| && count <= MAX_NODES
    ensures r.Some? ==> i < r.value.0 && r.value.0 + r.value.1 < r.value.2 <= |t| && count < MAX_NODES
  {
    var k := SkipWs(t, i);
    match ScanString(t, k)
    case None => None
    case Some(end) =>
      if count >= MAX_NODES then None
      else
        var c := SkipWs(t, end + 1);
        if CharAt(t, c, COLON) then Some((k + 1, end - (k + 1), c + 1)) else None
  }

  function ParseMembers(t: bytes, i: nat, depth: nat, count: nat): (r: Option<ParsedMembers>)
    requires i <= |t| && count <= MAX_NODES
    ensures r.Some? ==> i < r.value.next <= |t| && count < r.value.count <= MAX_NODES && r.value.members != []
    decreases |t| - i, 3
  {
    match ParseKey(t, i, count)
    case None => None
    case Some((start, len, after)) =>
      match ParseValue(t, after, depth + 1, count + 1)
      case None => None
      case Some(v) => MembersBehind(t, Member(start, len, v.tree), v.next, depth, v.count)
  }

  function MembersBehind(t: bytes, member: Member, next: nat, depth: nat, count: nat): (r: Option<ParsedMembers>)
    requires next <= |t| && count <= MAX_NODES
    ensures r.Some? ==> next < r.value.next <= |t| && count <= r.value.count <= MAX_NODES && r.value.members != []
    decreases |t| - next, 4
  {
    var j := SkipWs(t, next);
    if CharAt(t, j, COMMA) then
      match ParseMembers(t, j + 1, depth, count)
      case None => None
      case Some(rest) => Some(ParsedMembers([member] + rest.members, rest.next, rest.count))
    else if CharAt(t, j, CLOSE_BRACE) then Some(ParsedMembers([member], j + 1, count))
    else None
  }

  /** A whole document: one value, then nothing but whitespace. Node 0 is reserved. */
  function ParseDocument(t: bytes): Option<Tree> {
    match ParseValue(t, 0, 0, 1)
    case None => None
    case Some(v) => if SkipWs(t, v.next) == |t| then Some(v.tree) else None
  }

  // ----- soundness -----

  lemma {:induction false} ClosingIsBody(t: bytes, i: nat)
    requires i <= |t|
    ensures Closing(t, i).Some? ==> Body(t, i, Closing(t, i).value) && t[Closing(t, i).value] == QUOTE
    decreases |t| - i
  {
    if i < |t| {
      if t[i] == BACKSLASH {
        if i + 2 <= |t| {
          ClosingIsBody(t, i + 2);
        }
      } else if t[i] != QUOTE {
        ClosingIsBody(t, i + 1);
      }
    }
  }

  lemma ScanIsQuoted(t: bytes, i: nat)
    requires i <= |t| && ScanString(t, i).Some?
    ensures var end := ScanString(t, i).value; Quoted(t, i, i + 1, end - (i + 1), end + 1)
  {
    ClosingIsBody(t, i + 1);
  }

  /** What the parser makes of a text at `pos` is a value of the grammar, within the depth and node limits. */
  lemma {:induction false} ValueIsSound(t: bytes, pos: nat, depth: nat, count: nat)
    requires pos <= |t| && count <= MAX_NODES && ParseValue(t, pos, depth, count).Some?
    ensures var p := ParseValue(t, pos, depth, count).value;
            && Derives(t, pos, p.next, p.tree)
            && p.count == count + Size(p.tree) && depth + Depth(p.tree) <= MAX_DEPTH
    decreases |t| - pos, 2
  {
    hide Token, ParseToken;
    var k := SkipWs(t, pos);
    TokenIsSound(t, k, depth, count);
  }

  lemma {:induction false} TokenIsSound(t: bytes, k: nat, depth: nat, count: nat)
    requires k < |t| && count <= MAX_NODES && depth <= MAX_DEPTH && ParseToken(t, k, depth, count).Some?
    ensures var p := ParseToken(t, k, depth, count).value;
            && Token(t, k, p.next, p.tree)
            && p.count == count + Size(p.tree) && depth + Depth(p.tree) <= MAX_DEPTH
    decreases |t| - k, 1
  {
    hide ParseArray, ParseObject, Closing, Body, SkipWs, Items, Members;
    if t[k] == OPEN_BRACE {
      ObjectIsSound(t, k, depth, count);
    } else if t[k] == OPEN_BRACKET {
      ArrayIsSound(t, k, depth, count);
    } else if t[k] == QUOTE {
      ScanIsQuoted(t, k);
    }
  }

  lemma {:induction false} ArrayIsSound(t: bytes, k: nat, depth: nat, count: nat)
    requires k < |t| && t[k] == OPEN_BRACKET && count <= MAX_NODES && depth <= MAX_DEPTH && ParseArray(t, k, depth, count).Some?
    ensures var p := ParseArray(t, k, depth, count).value;
            && Token(t, k, p.next, p.tree)
            && p.count == count + Size(p.tree) && depth + Depth(p.tree) <= MAX_DEPTH
    decreases |t| - k, 0
  {
    hide Items, ParseItems;
    var i := SkipWs(t, k + 1);
    if !CharAt(t, i, CLOSE_BRACKET) {
      ItemsAreSound(t, i, depth, count + 1);
      var p := ParseItems(t, i, depth, count + 1).value;
      WsBeforeItems(t, k + 1, i, p.next - 1, p.items);
    }
  }

  /** Whitespace may be read before the first value or as part of it. */
  lemma WsBeforeItems(t: bytes, i: nat, k: nat, j: nat, items: seq<Tree>)
    requires items != [] && Ws(t, i, k) && Items(t, k, j, items)
    ensures Items(t, i, j, items)
  {
    hide Token, ItemsAfter;
    var m: nat :| Derives(t, k, m, items[0]) && ItemsAfter(t, m, j, items);
    var s: nat :| Ws(t, k, s) && Token(t, s, m, items[0]);
    assert Ws(t, i, s);
    assert Derives(t, i, m, items[0]);
  }

  lemma {:induction false} ItemsAreSound(t: bytes, i: nat, depth: nat, count: nat)
    requires i <= |t| && count <= MAX_NODES && depth <= MAX_DEPTH && ParseItems(t, i, depth, count).Some?
    ensures var p := ParseItems(t, i, depth, count).value;
            && Items(t, i, p.next - 1, p.items) && t[p.next - 1] == CLOSE_BRACKET
            && p.count == count + ItemsSize(p.items) && depth + ItemsDepth(p.items) <= MAX_DEPTH
    decreases |t| - i, 3
  {
    hide Derives, ParseValue, ItemsBehind, Items;
    ValueIsSound(t, i, depth + 1, count);
    BehindIsSound(t, i, ParseValue(t, i, depth + 1, count).value, depth);
  }

  lemma {:induction false} BehindIsSound(t: bytes, i: nat, v: Parsed, depth: nat)
    requires v.next <= |t| && v.count <= MAX_NODES && Derives(t, i, v.next, v.tree) && depth + 1 + Depth(v.tree) <= MAX_DEPTH
    requires ItemsBehind(t, v, depth).Some?
    ensures var p := ItemsBehind(t, v, depth).value;
            && Items(t, i, p.next - 1, p.items) && t[p.next - 1] == CLOSE_BRACKET
            && p.count == v.count - Size(v.tree) + ItemsSize(p.items) && depth + ItemsDepth(p.items) <= MAX_DEPTH
    decreases |t| - v.next, 4
  {
    hide Derives, ParseItems, Items, Size, Depth, ItemsSize, ItemsDepth;
    var j := SkipWs(t, v.next);
    if CharAt(t, j, COMMA) {
      ItemsAreSound(t, j + 1, depth, v.count);
      var rest := ParseItems(t, j + 1, depth, v.count).value;
      ItemsCons(t, i, v.next, j, rest.next - 1, v.tree, rest.items);
    } else {
      ItemsOne(t, i, v.next, j, v.tree);
    }
  }

  lemma ItemsCons(t: bytes, i: nat, m: nat, n: nat, j: nat, item: Tree, rest: seq<Tree>)
    requires Derives(t, i, m, item) && Ws(t, m, n) && n < j && CharAt(t, n, COMMA) && rest != [] && Items(t, n + 1, j, rest)
    ensures Items(t, i, j, [item] + rest)
    ensures ItemsSize([item] + rest) == Size(item) + ItemsSize(rest)
    ensures ItemsDepth([item] + rest) == Max(1 + Depth(item), ItemsDepth(rest))
  {
    hide Derives, Size, Depth;
    var items := [item] + rest;
    assert items[1..] == rest;
    assert ItemsAfter(t, m, j, items);
  }

  lemma ItemsOne(t: bytes, i: nat, m: nat, j: nat, item: Tree)
    requires Derives(t, i, m, item) && Ws(t, m, j)
    ensures Items(t, i, j, [item])
    ensures ItemsSize([item]) == Size(item) && ItemsDepth([item]) == 1 + Depth(item)
  {
    hide Derives, Size, Depth;
    assert [item][1..] == [];
    assert ItemsAfter(t, m, j, [item]);
  }

  lemma {:induction false} ObjectIsSound(t: bytes, k: nat, depth: nat, count: nat)
    requires k < |t| && t[k] == OPEN_BRACE && count <= MAX_NODES && depth <= MAX_DEPTH && ParseObject(t, k, depth, count).Some?
    ensures var p := ParseObject(t, k, depth, count).value;
            && Token(t, k, p.next, p.tree)
            && p.count == count + Size(p.tree) && depth + Depth(p.tree) <= MAX_DEPTH
    decreases |t| - k, 0
  {
    hide Members, ParseMembers;
    var i := SkipWs(t, k + 1);
    if !CharAt(t, i, CLOSE_BRACE) {
      MembersAreSound(t, i, depth, count + 1);
      var p := ParseMembers(t, i, depth, count + 1).value;
      WsBeforeMembers(t, k + 1, i, p.next - 1, p.members);
    }
  }

  lemma WsBeforeMembers(t: bytes, i: nat, k: nat, j: nat, members: seq<Member>)
    requires members != [] && Ws(t, i, k) && Members(t, k, j, members)
    ensures Members(t, i, j, members)
  {
    hide Derives, MembersAfter, Quoted;
    var m: nat :| Pair(t, k, m, members[0]) && MembersAfter(t, m, j, members);
    var s: nat, e: nat, c: nat :|
      && Ws(t, k, s) && s < |t| && Quoted(t, s, members[0].start, members[0].len, e)
      && Ws(t, e, c) && CharAt(t, c, COLON) && Derives(t, c + 1, m, members[0].value);
    assert Ws(t, i, s);
    assert Pair(t, i, m, members[0]);
  }

  lemma {:induction false} MembersAreSound(t: bytes, i: nat, depth: nat, count: nat)
    requires i <= |t| && count <= MAX_NODES && depth <= MAX_DEPTH && ParseMembers(t, i, depth, count).Some?
    ensures var p := ParseMembers(t, i, depth, count).value;
            && Members(t, i, p.next - 1, p.members) && t[p.next - 1] == CLOSE_BRACE
            && p.count == count + MembersSize(p.members) && depth + MembersDepth(p.members) <= MAX_DEPTH
    decreases |t| - i, 3
  {
    hide Derives, ParseValue, Pair, ParseKey, MembersBehind, Members;
    KeyIsSound(t, i, count);
    var (start, len, after) := ParseKey(t, i, count).value;
    ValueIsSound(t, after, depth + 1, count + 1);
    var v := ParseValue(t, after, depth + 1, count + 1).value;
    PairFromKey(t, i, count, v.next, v.tree);
    BehindMemberIsSound(t, i, Member(start, len, v.tree), v.next, depth, v.count);
  }

  lemma {:induction false} BehindMemberIsSound(t: bytes, i: nat, member: Member, next: nat, depth: nat, count: nat)
    requires next <= |t| && count <= MAX_NODES && Pair(t, i, next, member) && depth + 1 + Depth(member.value) <= MAX_DEPTH
    requires MembersBehind(t, member, next, depth, count).Some?
    ensures var p := MembersBehind(t, member, next, depth, count).value;
            && Members(t, i, p.next - 1, p.members) && t[p.next - 1] == CLOSE_BRACE
            && p.count == count - 1 - Size(member.value) + MembersSize(p.members) && depth + MembersDepth(p.members) <= MAX_DEPTH
    decreases |t| - next, 4
  {
    hide Pair, ParseMembers, Members, Size, Depth, MembersSize, MembersDepth;
    var j := SkipWs(t, next);
    if CharAt(t, j, COMMA) {
      MembersAreSound(t, j + 1, depth, count);
      var rest := ParseMembers(t, j + 1, depth, count).value;
      MembersCons(t, i, next, j, rest.next - 1, member, rest.members);
    } else {
      MembersOne(t, i, next, j, member);
    }
  }

  lemma MembersCons(t: bytes, i: nat, m: nat, n: nat, j: nat, member: Member, rest: seq<Member>)
    requires Pair(t, i, m, member) && Ws(t, m, n) && n < j && CharAt(t, n, COMMA) && rest != [] && Members(t, n + 1, j, rest)
    ensures Members(t, i, j, [member] + rest)
    ensures MembersSize([member] + rest) == 1 + Size(member.value) + MembersSize(rest)
    ensures MembersDepth([member] + rest) == Max(1 + Depth(member.value), MembersDepth(rest))
  {
    hide Pair, Size, Depth;
    var members := [member] + rest;
    assert members[1..] == rest;
    assert MembersAfter(t, m, j, members);
  }

  lemma MembersOne(t: bytes, i: nat, m: nat, j: nat, member: Member)
    requires Pair(t, i, m, member) && Ws(t, m, j)
    ensures Members(t, i, j, [member])
    ensures MembersSize([member]) == 1 + Size(member.value) && MembersDepth([member]) == 1 + Depth(member.value)
  {
    hide Pair, Size, Depth;
    assert [member][1..] == [];
    assert MembersAfter(t, m, j, [member]);
  }

  lemma KeyIsSound(t: bytes, i: nat, count: nat)
    requires i <= |t| && count <= MAX_NODES && ParseKey(t, i, count).Some?
    ensures var (start, len, after) := ParseKey(t, i, count).value;
            exists k: nat, e: nat, c: nat ::
              && Ws(t, i, k) && k < |t| && Quoted(t, k, start, len, e) && Ws(t, e, c) && CharAt(t, c, COLON) && after == c + 1
  {
    hide Quoted;
    var k := SkipWs(t, i);
    ScanIsQuoted(t, k);
    var end := ScanString(t, k).value;
    var c := SkipWs(t, end + 1);
    assert Ws(t, i, k) && Quoted(t, k, k + 1, end - (k + 1), end + 1) && Ws(t, end + 1, c) && CharAt(t, c, COLON);
  }

  lemma PairFromKey(t: bytes, i: nat, count: nat, j: nat, v: Tree)
    requires i <= |t| && count <= MAX_NODES && ParseKey(t, i, count).Some? && Derives(t, ParseKey(t, i, count).value.2, j, v)
    ensures Pair(t, i, j, Member(ParseKey(t, i, count).value.0, ParseKey(t, i, count).value.1, v))
  {
    hide Quoted, ParseKey, Derives;
    KeyIsSound(t, i, count);
  }

  // ----- completeness -----

  /** Whitespace is skipped to exactly one place: the first byte that is none. */
  lemma {:induction false} SkipIsUnique(t: bytes, i: nat, k: nat)
    requires Ws(t, i, k) && (k == |t| || !IsWs(t[k]))
    ensures SkipWs(t, i) == k
    decreases k - i
  {
    if i < k {
      SkipIsUnique(t, i + 1, k);
    }
  }

  lemma {:induction false} ClosingIsUnique(t: bytes, i: nat, j: nat)
    requires i <= j < |t| && Body(t, i, j) && t[j] == QUOTE
    ensures Closing(t, i) == Some(j)
    decreases j - i
  {
    if i < j {
      if t[i] == BACKSLASH {
        ClosingIsUnique(t, i + 2, j);
      } else {
        ClosingIsUnique(t, i + 1, j);
      }
    }
  }

  lemma QuotedIsScanned(t: bytes, i: nat, start: nat, len: nat, j: nat)
    requires Quoted(t, i, start, len, j)
    ensures ScanString(t, i) == Some(start + len)
  {
    hide Closing, Body;
    ClosingIsUnique(t, start, start + len);
  }

  lemma {:induction false} NumberEndIsUnique(t: bytes, i: nat, j: nat)
    requires i <= j <= |t| && (forall k :: i <= k < j ==> IsNumberChar(t[k])) && (j == |t| || !IsNumberChar(t[j]))
    ensures NumberEnd(t, i) == j
    decreases j - i
  {
    if i < j {
      NumberEndIsUnique(t, i + 1, j);
    }
  }

  /** A value begins with a byte that is not whitespace. */
  lemma TokenStarts(t: bytes, k: nat, j: nat, v: Tree)
    requires Token(t, k, j, v)
    ensures k < |t| && !IsWs(t[k]) && t[k] != CLOSE_BRACKET && t[k] != CLOSE_BRACE
  {
    hide Items, Members, Body;
    match v
    case Null => assert t[k] == t[k..k + |NULL|][0];
    case Bool(_, _) =>
      if Lit(t, k, TRUE) {
        assert t[k] == t[k..k + |TRUE|][0];
      } else {
        assert t[k] == t[k..k + |FALSE|][0];
      }
    case Number(_, _) => assert IsNumberChar(t[k]);
    case _ =>
  }

  /** The byte behind a value does not prolong a number. */
  predicate Stops(t: bytes, j: nat) {
    j >= |t| || !IsNumberChar(t[j])
  }

  predicate Fits(v: Tree, depth: nat, count: nat) {
    depth + Depth(v) <= MAX_DEPTH && count + Size(v) <= MAX_NODES
  }

  /** Every value of the grammar within the limits is what the parser finds. */
  lemma {:induction false} ValueIsComplete(t: bytes, i: nat, j: nat, v: Tree, depth: nat, count: nat)
    requires Derives(t, i, j, v) && Fits(v, depth, count) && Stops(t, j)
    ensures i <= |t| && ParseValue(t, i, depth, count) == Some(Parsed(v, j, count + Size(v)))
    decreases v, 1
  {
    hide Token, ParseToken;
    var k: nat :| Ws(t, i, k) && Token(t, k, j, v);
    TokenStarts(t, k, j, v);
    SkipIsUnique(t, i, k);
    TokenIsComplete(t, k, j, v, depth, count);
  }

  lemma {:induction false} TokenIsComplete(t: bytes, k: nat, j: nat, v: Tree, depth: nat, count: nat)
    requires Token(t, k, j, v) && Fits(v, depth, count) && Stops(t, j)
    ensures k < |t| && ParseToken(t, k, depth, count) == Some(Parsed(v, j, count + Size(v)))
    decreases v, 0
  {
    hide ParseArray, ParseObject, Closing, Body, Items, Members, NumberEnd, SkipWs;
    match v
    case Null => LitStarts(t, k, NULL);
    case Bool(_, _) =>
      if Lit(t, k, TRUE) {
        LitStarts(t, k, TRUE);
      } else {
        LitStarts(t, k, FALSE);
      }
    case Number(s, l) =>
      assert IsNumberChar(t[k]);
      NumberStarts(t, k);
      NumberEndIsUnique(t, k, j);
    case Str(s, l) => QuotedIsScanned(t, k, s, l, j);
    case Arr(items) => ArrayIsComplete(t, k, j, items, depth, count);
    case Obj(members) => ObjectIsComplete(t, k, j, members, depth, count);
  }

  lemma LitStarts(t: bytes, k: nat, lit: bytes)
    requires Lit(t, k, lit) && lit != []
    ensures t[k] == lit[0]
  {
    assert t[k] == t[k..k + |lit|][0];
  }

  lemma NumberStarts(t: bytes, k: nat)
    requires k < |t| && IsNumberChar(t[k])
    ensures !Lit(t, k, TRUE) && !Lit(t, k, FALSE) && !Lit(t, k, NULL)
  {
    if Lit(t, k, TRUE) { LitStarts(t, k, TRUE); }
    if Lit(t, k, FALSE) { LitStarts(t, k, FALSE); }
    if Lit(t, k, NULL) { LitStarts(t, k, NULL); }
  }

  lemma {:induction false} ArrayIsComplete(t: bytes, k: nat, j: nat, items: seq<Tree>, depth: nat, count: nat)
    requires Token(t, k, j, Arr(items)) && Fits(Arr(items), depth, count)
    ensures k < |t| && ParseArray(t, k, depth, count) == Some(Parsed(Arr(items), j, count + Size(Arr(items))))
    decreases items, 1
  {
    hide ParseItems, Items, SkipWs, ParseArray;
    if items == [] {
      EmptyIsComplete(t, k, j, depth, count);
    } else {
      var i := SkipWs(t, k + 1);
      ItemsStart(t, k + 1, j - 1, items);
      ItemsAreComplete(t, i, j - 1, items, depth, count + 1);
      ArrayOfItems(t, k, depth, count);
    }
  }

  lemma EmptyIsComplete(t: bytes, k: nat, j: nat, depth: nat, count: nat)
    requires k + 1 < j <= |t| && Ws(t, k + 1, j - 1) && t[j - 1] == CLOSE_BRACKET && count < MAX_NODES
    ensures ParseArray(t, k, depth, count) == Some(Parsed(Arr([]), j, count + 1))
  {
    hide ParseItems, SkipWs;
    SkipIsUnique(t, k + 1, j - 1);
  }

  lemma ArrayOfItems(t: bytes, k: nat, depth: nat, count: nat)
    requires k < |t| && count < MAX_NODES && !CharAt(t, SkipWs(t, k + 1), CLOSE_BRACKET)
    ensures ParseArray(t, k, depth, count)
            == match ParseItems(t, SkipWs(t, k + 1), depth, count + 1)
               case None => None
               case Some(p) => Some(Parsed(Arr(p.items), p.next, p.count))
  {
    hide ParseItems, SkipWs;
  }

  /** The first value of a list begins after the whitespace, and not with a closing bracket. */
  lemma ItemsStart(t: bytes, i: nat, j: nat, items: seq<Tree>)
    requires items != [] && Items(t, i, j, items)
    ensures i <= |t| && var s := SkipWs(t, i); Items(t, s, j, items) && !CharAt(t, s, CLOSE_BRACKET)
  {
    hide Token, ItemsAfter, SkipWs;
    var m: nat :| Derives(t, i, m, items[0]) && ItemsAfter(t, m, j, items);
    var s: nat :| Ws(t, i, s) && Token(t, s, m, items[0]);
    TokenStarts(t, s, m, items[0]);
    SkipIsUnique(t, i, s);
    assert Ws(t, s, s);
    assert Derives(t, s, m, items[0]);
  }

  lemma {:induction false} ItemsAreComplete(t: bytes, i: nat, j: nat, items: seq<Tree>, depth: nat, count: nat)
    requires items != [] && Items(t, i, j, items) && CharAt(t, j, CLOSE_BRACKET)
    requires depth + ItemsDepth(items) <= MAX_DEPTH && count + ItemsSize(items) <= MAX_NODES
    ensures i <= |t| && ParseItems(t, i, depth, count) == Some(ParsedItems(items, j + 1, count + ItemsSize(items)))
    decreases items, 0
  {
    hide Derives, ParseValue, ItemsBehind, ItemsAfter;
    var m: nat :| Derives(t, i, m, items[0]) && ItemsAfter(t, m, j, items);
    AfterStops(t, m, j, items);
    ValueIsComplete(t, i, m, items[0], depth + 1, count);
    BehindIsComplete(t, m, j, items, depth, count + Size(items[0]));
  }

  lemma AfterStops(t: bytes, m: nat, j: nat, items: seq<Tree>)
    requires items != [] && ItemsAfter(t, m, j, items) && CharAt(t, j, CLOSE_BRACKET)
    ensures Stops(t, m) && m <= |t|
  {
    hide Items;
    if |items| == 1 {
      WsStops(t, m, j);
    } else {
      var n: nat :| Ws(t, m, n) && n < j && CharAt(t, n, COMMA) && Items(t, n + 1, j, items[1..]);
      WsStops(t, m, n);
    }
  }

  lemma {:induction false} BehindIsComplete(t: bytes, m: nat, j: nat, items: seq<Tree>, depth: nat, count: nat)
    requires items != [] && ItemsAfter(t, m, j, items) && CharAt(t, j, CLOSE_BRACKET) && m <= |t|
    requires depth + ItemsDepth(items) <= MAX_DEPTH && count - Size(items[0]) + ItemsSize(items) <= MAX_NODES
    requires count <= MAX_NODES
    ensures ItemsBehind(t, Parsed(items[0], m, count), depth) == Some(ParsedItems(items, j + 1, count - Size(items[0]) + ItemsSize(items)))
    decreases items[1..], 5
  {
    hide SkipWs, ParseItems, Items, Size, Depth;
    assert items == [items[0]] + items[1..];
    if |items| == 1 {
      SkipIsUnique(t, m, j);
      assert items[1..] == [] && items == [items[0]];
    } else {
      var n: nat :| Ws(t, m, n) && n < j && CharAt(t, n, COMMA) && Items(t, n + 1, j, items[1..]);
      SkipIsUnique(t, m, n);
      ItemsAreComplete(t, n + 1, j, items[1..], depth, count);
    }
  }

  /** Whitespace, a comma and a closing bracket all stop a number. */
  lemma WsStops(t: bytes, m: nat, n: nat)
    requires Ws(t, m, n) && (CharAt(t, n, COMMA) || CharAt(t, n, CLOSE_BRACKET) || CharAt(t, n, CLOSE_BRACE))
    ensures Stops(t, m)
  {
    if m < n {
      assert IsWs(t[m]);
    }
  }

  lemma {:induction false} ObjectIsComplete(t: bytes, k: nat, j: nat, members: seq<Member>, depth: nat, count: nat)
    requires Token(t, k, j, Obj(members)) && Fits(Obj(members), depth, count)
    ensures k < |t| && ParseObject(t, k, depth, count) == Some(Parsed(Obj(members), j, count + Size(Obj(members))))
    decreases members, 1
  {
    hide ParseMembers, Members, SkipWs;
    if members == [] {
      SkipIsUnique(t, k + 1, j - 1);
    } else {
      var i := SkipWs(t, k + 1);
      MembersStart(t, k + 1, j - 1, members);
      MembersAreComplete(t, i, j - 1, members, depth, count + 1);
    }
  }

  lemma MembersStart(t: bytes, i: nat, j: nat, members: seq<Member>)
    requires members != [] && Members(t, i, j, members)
    ensures i <= |t| && var s := SkipWs(t, i); Members(t, s, j, members) && !CharAt(t, s, CLOSE_BRACE)
  {
    hide Derives, MembersAfter, SkipWs, Body;
    var m: nat :| Pair(t, i, m, members[0]) && MembersAfter(t, m, j, members);
    var s: nat, e: nat, c: nat :|
      && Ws(t, i, s) && s < |t| && Quoted(t, s, members[0].start, members[0].len, e)
      && Ws(t, e, c) && CharAt(t, c, COLON) && Derives(t, c + 1, m, members[0].value);
    SkipIsUnique(t, i, s);
    assert Ws(t, s, s);
    assert Pair(t, s, m, members[0]);
  }

  lemma KeyIsComplete(t: bytes, i: nat, m: nat, member: Member, count: nat)
    requires Pair(t, i, m, member) && count < MAX_NODES
    ensures i <= |t| && ParseKey(t, i, count).Some?
    ensures var (start, len, after) := ParseKey(t, i, count).value;
            start == member.start && len == member.len && Derives(t, after, m, member.value)
  {
    hide Derives, SkipWs, ScanString;
    var k: nat, e: nat, c: nat :|
      && Ws(t, i, k) && k < |t| && Quoted(t, k, member.start, member.len, e)
      && Ws(t, e, c) && CharAt(t, c, COLON) && Derives(t, c + 1, m, member.value);
    SkipIsUnique(t, i, k);
    QuotedIsScanned(t, k, member.start, member.len, e);
    SkipIsUnique(t, e, c);
  }

  lemma {:induction false} MembersAreComplete(t: bytes, i: nat, j: nat, members: seq<Member>, depth: nat, count: nat)
    requires members != [] && Members(t, i, j, members) && CharAt(t, j, CLOSE_BRACE)
    requires depth + MembersDepth(members) <= MAX_DEPTH && count + MembersSize(members) <= MAX_NODES
    ensures i <= |t| && ParseMembers(t, i, depth, count) == Some(ParsedMembers(members, j + 1, count + MembersSize(members)))
    decreases members, 0
  {
    hide Derives, ParseValue, Pair, ParseKey, MembersBehind, MembersAfter;
    var m: nat :| Pair(t, i, m, members[0]) && MembersAfter(t, m, j, members);
    KeyIsComplete(t, i, m, members[0], count);
    AfterMemberStops(t, m, j, members);
    MemberIsComplete(t, ParseKey(t, i, count).value.2, m, members[0], depth, count);
    BehindMemberIsComplete(t, m, j, members, depth, count + MemberSize(members[0]));
  }

  lemma AfterMemberStops(t: bytes, m: nat, j: nat, members: seq<Member>)
    requires members != [] && MembersAfter(t, m, j, members) && CharAt(t, j, CLOSE_BRACE)
    ensures Stops(t, m) && m <= |t|
  {
    hide Members;
    if |members| == 1 {
      WsStops(t, m, j);
    } else {
      var n: nat :| Ws(t, m, n) && n < j && CharAt(t, n, COMMA) && Members(t, n + 1, j, members[1..]);
      WsStops(t, m, n);
    }
  }

  lemma {:induction false} BehindMemberIsComplete(t: bytes, m: nat, j: nat, members: seq<Member>, depth: nat, count: nat)
    requires members != [] && MembersAfter(t, m, j, members) && CharAt(t, j, CLOSE_BRACE) && m <= |t|
    requires depth + MembersDepth(members) <= MAX_DEPTH && count - MemberSize(members[0]) + MembersSize(members) <= MAX_NODES
    requires count <= MAX_NODES
    ensures MembersBehind(t, members[0], m, depth, count) == Some(ParsedMembers(members, j + 1, count - MemberSize(members[0]) + MembersSize(members)))
    decreases members[1..], 5
  {
    hide SkipWs, ParseMembers, Members, MemberSize, MemberDepth;
    assert members == [members[0]] + members[1..];
    if |members| == 1 {
      SkipIsUnique(t, m, j);
      assert members[1..] == [] && members == [members[0]];
    } else {
      var n: nat :| Ws(t, m, n) && n < j && CharAt(t, n, COMMA) && Members(t, n + 1, j, members[1..]);
      SkipIsUnique(t, m, n);
      MembersAreComplete(t, n + 1, j, members[1..], depth, count);
    }
  }

  lemma {:induction false} MemberIsComplete(t: bytes, i: nat, j: nat, member: Member, depth: nat, count: nat)
    requires Derives(t, i, j, member.value) && Fits(member.value, depth + 1, count + 1) && Stops(t, j)
    ensures i <= |t| && ParseValue(t, i, depth + 1, count + 1) == Some(Parsed(member.value, j, count + 1 + Size(member.value)))
    decreases member
  {
    ValueIsComplete(t, i, j, member.value, depth + 1, count + 1);
  }

  // ----- the main theorem -----

  /** `v` is a reading of the whole text. */
  ghost predicate Reads(t: bytes, v: Tree) {
    exists j: nat :: Derives(t, 0, j, v) && Ws(t, j, |t|)
  }

  /** A document is accepted as `v` exactly when `v` reads it, at most 32 levels deep and in at most 4095 nodes. */
  lemma AcceptsExactlyTheGrammar(t: bytes, v: Tree)
    ensures ParseDocument(t) == Some(v) <==> Reads(t, v) && Depth(v) <= MAX_DEPTH && Size(v) <= MAX_NODES - 1
  {
    hide Derives, ParseValue, SkipWs;
    if ParseDocument(t) == Some(v) {
      ValueIsSound(t, 0, 0, 1);
      assert Ws(t, ParseValue(t, 0, 0, 1).value.next, |t|);
    }
    if Reads(t, v) && Depth(v) <= MAX_DEPTH && Size(v) <= MAX_NODES - 1 {
      var j: nat :| Derives(t, 0, j, v) && Ws(t, j, |t|);
      if j < |t| {
        assert IsWs(t[j]);
      }
      ValueIsComplete(t, 0, j, v, 0, 1);
      SkipIsUnique(t, j, |t|);
    }
  }
}
