/**
 The strict shape check of the bot client (internal/botsearch/response.go:120-200): one
 pass over the decoder's token stream that accepts exact member names only, each at most
 once, every required member, no null, and a nesting of at most 32.

 A stream is the sequence of tokens the JSON decoder hands out before its first error or
 the end of the input; separators are not tokens. The stream need not be well formed.
 */
module WireShape {
  import opened Wrappers

  const MAX_DEPTH := 32

  datatype Token = BeginObject | EndObject | BeginArray | EndArray | Text(text: string)
                 | Number(number: real) | Boolean(flag: bool) | Null

  /** A Go type as the check sees it: a struct is its JSON fields by exact name. */
  datatype Shape =
    | Struct(fields: map<string, Field>)
    | Slice(elem: Shape)
    | StringShape
    | TimeShape
    | BoolShape
    | NumberShape
    | UnsupportedShape

  datatype Field = Field(shape: Shape, required: bool)

  // ---------- the trees a stream can spell ----------

  datatype Json =
    | Object(members: seq<Member>)
    | Array(items: seq<Json>)
    | Scalar(token: Token)

  datatype Member = Member(name: string, value: Json)

  predicate IsScalar(t: Token) {
    t.Text? || t.Number? || t.Boolean? || t.Null?
  }

  function Tokens(j: Json): (ts: seq<Token>)
    ensures |ts| >= 1
  {
    match j
    case Object(members) => [BeginObject] + MemberTokens(members) + [EndObject]
    case Array(items) => [BeginArray] + ItemTokens(items) + [EndArray]
    case Scalar(t) => [t]
  }

  function MemberTokens(members: seq<Member>): seq<Token> {
    if members == [] then []
    else [Text(members[0].name)] + Tokens(members[0].value) + MemberTokens(members[1..])
  }

  function ItemTokens(items: seq<Json>): seq<Token> {
    if items == [] then [] else Tokens(items[0]) + ItemTokens(items[1..])
  }

  // ---------- what conforming means ----------

  predicate FitsScalar(t: Token, shape: Shape) {
    match shape
    case StringShape => t.Text?
    case TimeShape => t.Text?
    case BoolShape => t.Boolean?
    case NumberShape => t.Number?
    case _ => false
  }

  ghost predicate DistinctNames(members: seq<Member>) {
    forall i, j | 0 <= i < j < |members| :: members[i].name != members[j].name
  }

  ghost function NamesOf(members: seq<Member>): set<string> {
    set m | m in members :: m.name
  }

  ghost predicate AllRequired(fields: map<string, Field>, names: set<string>) {
    forall name | name in fields && fields[name].required :: name in names
  }

  /** The tree has the shape, and nests no deeper than allowed when it sits at the given depth. */
  ghost predicate Conforms(j: Json, shape: Shape, depth: nat)
    decreases j
  {
    && depth <= MAX_DEPTH
    && match j
       case Object(members) =>
         && shape.Struct?
         && DistinctNames(members)
         && (forall m | m in members :: m.name in shape.fields && Conforms(m.value, shape.fields[m.name].shape, depth + 1))
         && AllRequired(shape.fields, NamesOf(members))
       case Array(items) =>
         shape.Slice? && forall x | x in items :: Conforms(x, shape.elem, depth + 1)
       case Scalar(t) => FitsScalar(t, shape)
  }

  // ---------- the check as a function of the stream ----------

  /** The rest of the stream after one accepted value, None if the value is refused. */
  function Check(ts: seq<Token>, shape: Shape, depth: nat): (r: Option<seq<Token>>)
    ensures r.Some? ==> |r.value| < |ts|
    decreases |ts|, 0
  {
    if depth > MAX_DEPTH || ts == [] || ts[0] == Null then None
    else
      match shape
      case Struct(fields) => if ts[0] == BeginObject then CheckMembers(ts[1..], fields, {}, depth) else None
      case Slice(elem) => if ts[0] == BeginArray then CheckItems(ts[1..], elem, depth) else None
      case _ => if FitsScalar(ts[0], shape) then Some(ts[1..]) else None
  }

  /** The decoder's More: another member or element follows. */
  predicate More(ts: seq<Token>) {
    ts != [] && ts[0] != EndObject && ts[0] != EndArray
  }

  function CheckMembers(ts: seq<Token>, fields: map<string, Field>, seen: set<string>, depth: nat): (r: Option<seq<Token>>)
    ensures r.Some? ==> |r.value| < |ts|
    decreases |ts|, 1
  {
    if !More(ts) then
      if (forall name | name in fields && fields[name].required :: name in seen) && ts != [] && ts[0] == EndObject
      then Some(ts[1..]) else None
    else if !ts[0].Text? || ts[0].text !in fields || ts[0].text in seen then None
    else
      var rest := Check(ts[1..], fields[ts[0].text].shape, depth + 1);
      if rest.None? then None else CheckMembers(rest.value, fields, seen + {ts[0].text}, depth)
  }

  function CheckItems(ts: seq<Token>, elem: Shape, depth: nat): (r: Option<seq<Token>>)
    ensures r.Some? ==> |r.value| < |ts|
    decreases |ts|, 1
  {
    if !More(ts) then
      if ts != [] && ts[0] == EndArray then Some(ts[1..]) else None
    else
      var rest := Check(ts, elem, depth + 1);
      if rest.None? then None else CheckItems(rest.value, elem, depth)
  }

  // ---------- accepted streams spell conforming trees ----------

  /** j is the tree spelled before the rest, and it conforms. */
  ghost predicate Spells(ts: seq<Token>, rest: seq<Token>, shape: Shape, depth: nat, j: Json) {
    ts == Tokens(j) + rest && Conforms(j, shape, depth)
  }

  ghost predicate SpellsMembers(ts: seq<Token>, rest: seq<Token>, fields: map<string, Field>, seen: set<string>, depth: nat,
                                ms: seq<Member>)
  {
    && ts == MemberTokens(ms) + [EndObject] + rest
    && DistinctNames(ms) && NamesOf(ms) !! seen
    && (forall m | m in ms :: m.name in fields && Conforms(m.value, fields[m.name].shape, depth + 1))
    && AllRequired(fields, seen + NamesOf(ms))
  }

  ghost predicate SpellsItems(ts: seq<Token>, rest: seq<Token>, elem: Shape, depth: nat, items: seq<Json>) {
    ts == ItemTokens(items) + [EndArray] + rest && forall x | x in items :: Conforms(x, elem, depth + 1)
  }

  lemma {:induction false} Sound(ts: seq<Token>, shape: Shape, depth: nat) returns (j: Json)
    requires Check(ts, shape, depth).Some?
    ensures Spells(ts, Check(ts, shape, depth).value, shape, depth, j)
    decreases |ts|, 0
  {
    var first := ts[0];
    match shape
    case Struct(fields) =>
      var ms := SoundMembers(ts[1..], fields, {}, depth);
      j := Object(ms);
      assert {} + NamesOf(ms) == NamesOf(ms);
      assert ts == [BeginObject] + ts[1..];
    case Slice(elem) =>
      var items := SoundItems(ts[1..], elem, depth);
      j := Array(items);
      assert ts == [BeginArray] + ts[1..];
    case _ =>
      j := Scalar(first);
  }

  lemma {:induction false} SoundMembers(ts: seq<Token>, fields: map<string, Field>, seen: set<string>, depth: nat)
    returns (ms: seq<Member>)
    requires CheckMembers(ts, fields, seen, depth).Some?
    ensures SpellsMembers(ts, CheckMembers(ts, fields, seen, depth).value, fields, seen, depth, ms)
    decreases |ts|, 1
  {
    var rest := CheckMembers(ts, fields, seen, depth).value;
    if !More(ts) {
      ms := [];
      assert ts == [EndObject] + rest;
    } else {
      var name := ts[0].text;
      var next := Check(ts[1..], fields[name].shape, depth + 1).value;
      var value := Sound(ts[1..], fields[name].shape, depth + 1);
      var tail := SoundMembers(next, fields, seen + {name}, depth);
      ms := [Member(name, value)] + tail;
      PutMember(ts, next, rest, fields, seen, depth, Member(name, value), tail);
    }
  }

  lemma PutMember(ts: seq<Token>, next: seq<Token>, rest: seq<Token>, fields: map<string, Field>, seen: set<string>, depth: nat,
                  m: Member, tail: seq<Member>)
    requires ts != [] && ts[0] == Text(m.name) && m.name in fields && m.name !in seen
    requires Spells(ts[1..], next, fields[m.name].shape, depth + 1, m.value)
    requires SpellsMembers(next, rest, fields, seen + {m.name}, depth, tail)
    ensures SpellsMembers(ts, rest, fields, seen, depth, [m] + tail)
  {
    hide Conforms;
    var ms := [m] + tail;
    assert ms[1..] == tail;
    assert ts == [Text(m.name)] + ts[1..];
    assert NamesOf(ms) == {m.name} + NamesOf(tail) by {
      assert forall x :: x in ms <==> x == m || x in tail;
    }
    assert seen + NamesOf(ms) == seen + {m.name} + NamesOf(tail);
    forall i | 0 <= i < |tail|
      ensures tail[i].name != m.name
    {
      assert tail[i] in tail && tail[i].name in NamesOf(tail);
    }
  }

  lemma {:induction false} SoundItems(ts: seq<Token>, elem: Shape, depth: nat) returns (items: seq<Json>)
    requires CheckItems(ts, elem, depth).Some?
    ensures SpellsItems(ts, CheckItems(ts, elem, depth).value, elem, depth, items)
    decreases |ts|, 1
  {
    var rest := CheckItems(ts, elem, depth).value;
    if !More(ts) {
      items := [];
      assert ts == [EndArray] + rest;
    } else {
      var next := Check(ts, elem, depth + 1).value;
      var x := Sound(ts, elem, depth + 1);
      var tail := SoundItems(next, elem, depth);
      items := [x] + tail;
      PutItem(ts, next, rest, elem, depth, x, tail);
    }
  }

  lemma PutItem(ts: seq<Token>, next: seq<Token>, rest: seq<Token>, elem: Shape, depth: nat, x: Json, tail: seq<Json>)
    requires Spells(ts, next, elem, depth + 1, x) && SpellsItems(next, rest, elem, depth, tail)
    ensures SpellsItems(ts, rest, elem, depth, [x] + tail)
  {
    hide Conforms;
    assert ([x] + tail)[1..] == tail;
  }

  // ---------- conforming trees are accepted ----------

  lemma {:induction false} Complete(j: Json, rest: seq<Token>, shape: Shape, depth: nat)
    requires Conforms(j, shape, depth)
    ensures Check(Tokens(j) + rest, shape, depth) == Some(rest)
    decreases j, 1
  {
    var ts := Tokens(j) + rest;
    match j
    case Object(members) =>
      assert {} + NamesOf(members) == NamesOf(members);
      CompleteMembers(j, members, rest, shape.fields, {}, depth);
      assert ts[1..] == MemberTokens(members) + [EndObject] + rest;
      hide Conforms;
    case Array(items) =>
      CompleteItems(j, items, rest, shape.elem, depth);
      assert ts[1..] == ItemTokens(items) + [EndArray] + rest;
      hide Conforms;
    case Scalar(t) =>
      assert ts[1..] == rest;
  }

  lemma {:induction false} CompleteMembers(owner: Json, ms: seq<Member>, rest: seq<Token>, fields: map<string, Field>,
                                           seen: set<string>, depth: nat)
    requires owner.Object? && forall m | m in ms :: m in owner.members
    requires DistinctNames(ms) && NamesOf(ms) !! seen
    requires forall m | m in ms :: m.name in fields && Conforms(m.value, fields[m.name].shape, depth + 1)
    requires AllRequired(fields, seen + NamesOf(ms))
    ensures CheckMembers(MemberTokens(ms) + [EndObject] + rest, fields, seen, depth) == Some(rest)
    decreases owner, 0, |ms|
  {
    var ts := MemberTokens(ms) + [EndObject] + rest;
    if ms == [] {
      assert seen + NamesOf(ms) == seen;
      assert ts[1..] == rest;
    } else {
      var m, tail := ms[0], ms[1..];
      assert m in ms && m.name in NamesOf(ms);
      TakeMember(ms, seen);
      RestOfMembers(ms, rest);
      hide Conforms;
      Complete(m.value, MemberTokens(tail) + [EndObject] + rest, fields[m.name].shape, depth + 1);
      CompleteMembers(owner, tail, rest, fields, seen + {m.name}, depth);
    }
  }

  lemma TakeMember(ms: seq<Member>, seen: set<string>)
    requires ms != [] && DistinctNames(ms) && NamesOf(ms) !! seen
    ensures DistinctNames(ms[1..]) && NamesOf(ms[1..]) !! seen + {ms[0].name}
    ensures seen + NamesOf(ms) == seen + {ms[0].name} + NamesOf(ms[1..])
  {
    assert ms == [ms[0]] + ms[1..];
    assert forall x :: x in ms <==> x == ms[0] || x in ms[1..];
    assert NamesOf(ms) == {ms[0].name} + NamesOf(ms[1..]);
    assert ms[0].name !in NamesOf(ms[1..]) by {
      assert forall i | 0 <= i < |ms| - 1 :: ms[1..][i] == ms[i + 1];
    }
  }

  lemma {:induction false} CompleteItems(owner: Json, items: seq<Json>, rest: seq<Token>, elem: Shape, depth: nat)
    requires owner.Array? && forall x | x in items :: x in owner.items
    requires forall x | x in items :: Conforms(x, elem, depth + 1)
    ensures CheckItems(ItemTokens(items) + [EndArray] + rest, elem, depth) == Some(rest)
    decreases owner, 0, |items|
  {
    var ts := ItemTokens(items) + [EndArray] + rest;
    if items == [] {
      assert ts[1..] == rest;
    } else {
      var x, tail := items[0], items[1..];
      assert x in items;
      assert ts == Tokens(x) + (ItemTokens(tail) + [EndArray] + rest);
      Complete(x, ItemTokens(tail) + [EndArray] + rest, elem, depth + 1);
      Opens(x);
      assert forall y | y in tail :: y in items;
      CompleteItems(owner, tail, rest, elem, depth);
    }
  }

  /** A conforming value never starts like the end of a collection. */
  lemma Opens(j: Json)
    requires j.Scalar? ==> IsScalar(j.token)
    ensures Tokens(j)[0] != EndObject && Tokens(j)[0] != EndArray
  {
  }

  /**
   The check accepts exactly the streams that begin with a conforming tree, and consumes
   exactly that tree's tokens.
   */
  lemma CheckMeaning(ts: seq<Token>, shape: Shape, depth: nat, rest: seq<Token>)
    ensures Check(ts, shape, depth) == Some(rest) <==> exists j :: Spells(ts, rest, shape, depth, j)
  {
    if Check(ts, shape, depth) == Some(rest) {
      var j := Sound(ts, shape, depth);
      assert Spells(ts, rest, shape, depth, j);
    }
    forall j | Spells(ts, rest, shape, depth, j)
      ensures Check(ts, shape, depth) == Some(rest)
    {
      Complete(j, rest, shape, depth);
    }
  }

  // ---------- a stream begins with at most one tree ----------

  /** Leaves are scalars; every conforming tree is proper. */
  ghost predicate Proper(j: Json)
    decreases j
  {
    match j
    case Object(members) => forall m | m in members :: Proper(m.value)
    case Array(items) => forall x | x in items :: Proper(x)
    case Scalar(t) => IsScalar(t)
  }

  lemma {:induction false} ConformingIsProper(j: Json, shape: Shape, depth: nat)
    requires Conforms(j, shape, depth)
    ensures Proper(j)
    decreases j
  {
    match j
    case Object(members) =>
      forall m | m in members { ConformingIsProper(m.value, shape.fields[m.name].shape, depth + 1); }
    case Array(items) =>
      forall x | x in items { ConformingIsProper(x, shape.elem, depth + 1); }
    case Scalar(t) =>
  }

  lemma {:induction false} UniqueTree(a: Json, b: Json, ra: seq<Token>, rb: seq<Token>)
    requires Proper(a) && Proper(b) && Tokens(a) + ra == Tokens(b) + rb
    ensures a == b && ra == rb
    decreases a, 1
  {
    assert (Tokens(a) + ra)[0] == Tokens(a)[0] && (Tokens(b) + rb)[0] == Tokens(b)[0];
    match a
    case Object(ms) =>
      assert b.Object?;
      var ta, tb := MemberTokens(ms) + [EndObject] + ra, MemberTokens(b.members) + [EndObject] + rb;
      assert Tokens(a) + ra == [BeginObject] + ta && Tokens(b) + rb == [BeginObject] + tb;
      assert ta == (Tokens(a) + ra)[1..] && tb == (Tokens(b) + rb)[1..];
      UniqueMembers(a, ms, b.members, ra, rb);
    case Array(items) =>
      assert b.Array?;
      var ta, tb := ItemTokens(items) + [EndArray] + ra, ItemTokens(b.items) + [EndArray] + rb;
      assert Tokens(a) + ra == [BeginArray] + ta && Tokens(b) + rb == [BeginArray] + tb;
      assert ta == (Tokens(a) + ra)[1..] && tb == (Tokens(b) + rb)[1..];
      UniqueItems(a, items, b.items, ra, rb);
    case Scalar(t) =>
      assert b == a;
      assert (Tokens(a) + ra)[1..] == ra && (Tokens(b) + rb)[1..] == rb;
  }

  lemma {:induction false} UniqueMembers(owner: Json, a: seq<Member>, b: seq<Member>, ra: seq<Token>, rb: seq<Token>)
    requires owner.Object? && (forall m | m in a :: m in owner.members)
    requires (forall m | m in a :: Proper(m.value)) && (forall m | m in b :: Proper(m.value))
    requires MemberTokens(a) + [EndObject] + ra == MemberTokens(b) + [EndObject] + rb
    ensures a == b && ra == rb
    decreases owner, 0, |a|
  {
    var ta, tb := MemberTokens(a) + [EndObject] + ra, MemberTokens(b) + [EndObject] + rb;
    FirstOfMembers(a, ra);
    FirstOfMembers(b, rb);
    assert a == [] <==> b == [];
    if a == [] {
      assert ta[1..] == ra && tb[1..] == rb;
    } else {
      var xa, xb := MemberTokens(a[1..]) + [EndObject] + ra, MemberTokens(b[1..]) + [EndObject] + rb;
      RestOfMembers(a, ra);
      RestOfMembers(b, rb);
      hide MemberTokens, Tokens;
      assert a[0] in a && b[0] in b;
      UniqueTree(a[0].value, b[0].value, xa, xb);
      UniqueMembers(owner, a[1..], b[1..], ra, rb);
      assert a == [a[0]] + a[1..] && b == [b[0]] + b[1..];
    }
  }

  lemma FirstOfMembers(ms: seq<Member>, rest: seq<Token>)
    ensures |MemberTokens(ms) + [EndObject] + rest| > 0
    ensures (MemberTokens(ms) + [EndObject] + rest)[0] == if ms == [] then EndObject else Text(ms[0].name)
  {
  }

  lemma RestOfMembers(ms: seq<Member>, rest: seq<Token>)
    requires ms != []
    ensures |MemberTokens(ms) + [EndObject] + rest| > 0
    ensures (MemberTokens(ms) + [EndObject] + rest)[1..]
         == Tokens(ms[0].value) + (MemberTokens(ms[1..]) + [EndObject] + rest)
  {
    DropFirst(Text(ms[0].name), Tokens(ms[0].value), MemberTokens(ms[1..]), [EndObject], rest);
  }

  lemma DropFirst<T>(a: T, x: seq<T>, y: seq<T>, e: seq<T>, r: seq<T>)
    ensures (([a] + x + y) + e + r)[1..] == x + (y + e + r)
  {
  }

  lemma {:induction false} UniqueItems(owner: Json, a: seq<Json>, b: seq<Json>, ra: seq<Token>, rb: seq<Token>)
    requires owner.Array? && (forall x | x in a :: x in owner.items)
    requires (forall x | x in a :: Proper(x)) && (forall x | x in b :: Proper(x))
    requires ItemTokens(a) + [EndArray] + ra == ItemTokens(b) + [EndArray] + rb
    ensures a == b && ra == rb
    decreases owner, 0, |a|
  {
    var ta, tb := ItemTokens(a) + [EndArray] + ra, ItemTokens(b) + [EndArray] + rb;
    FirstOfItems(a, ra);
    FirstOfItems(b, rb);
    assert a == [] <==> b == [];
    if a == [] {
      assert ta[1..] == ra && tb[1..] == rb;
    } else {
      var xa, xb := ItemTokens(a[1..]) + [EndArray] + ra, ItemTokens(b[1..]) + [EndArray] + rb;
      assert ta == Tokens(a[0]) + xa && tb == Tokens(b[0]) + xb;
      assert a[0] in a && b[0] in b;
      UniqueTree(a[0], b[0], xa, xb);
      UniqueItems(owner, a[1..], b[1..], ra, rb);
      assert a == [a[0]] + a[1..] && b == [b[0]] + b[1..];
    }
  }

  lemma FirstOfItems(items: seq<Json>, rest: seq<Token>)
    requires forall x | x in items :: Proper(x)
    ensures |ItemTokens(items) + [EndArray] + rest| > 0
    ensures (ItemTokens(items) + [EndArray] + rest)[0] == EndArray <==> items == []
  {
    if items != [] {
      assert items[0] in items;
      Opens(items[0]);
    }
  }

  /** Two readings of one stream agree on the tree and on what is left. */
  lemma OneReading(ts: seq<Token>, shape: Shape, depth: nat, a: Json, b: Json, ra: seq<Token>, rb: seq<Token>)
    requires Spells(ts, ra, shape, depth, a) && Spells(ts, rb, shape, depth, b)
    ensures a == b && ra == rb
  {
    ConformingIsProper(a, shape, depth);
    ConformingIsProper(b, shape, depth);
    UniqueTree(a, b, ra, rb);
  }

  // ---------- the decoder and the check over it ----------

  class Decoder {
    const tokens: seq<Token>
    var pos: nat

    constructor (tokens: seq<Token>)
      ensures this.tokens == tokens && pos == 0
    {
      this.tokens := tokens;
      pos := 0;
    }

    ghost predicate Valid()
      reads this
    {
      pos <= |tokens|
    }

    /** What has not been read yet. */
    function Rest(): seq<Token>
      requires pos <= |tokens|
      reads this
    {
      tokens[pos..]
    }

    method Next() returns (t: Option<Token>)
      requires Valid()
      modifies this
      ensures Valid()
      ensures t.None? <==> old(Rest()) == []
      ensures t.None? ==> pos == old(pos)
      ensures t.Some? ==> t.value == old(Rest())[0] && Rest() == old(Rest())[1..]
    {
      if pos == |tokens| { return None; }
      t := Some(tokens[pos]);
      pos := pos + 1;
    }

    method HasMore() returns (more: bool)
      requires Valid()
      ensures more == More(Rest())
    {
      more := pos < |tokens| && tokens[pos] != EndObject && tokens[pos] != EndArray;
    }
  }

  /** The result agrees with what was unread before, and on success that much has been consumed. */
  twostate predicate Agrees(d: Decoder, ok: bool, new expected: Option<seq<Token>>)
    reads d
  {
    d.Valid() && (ok <==> expected.Some?) && (ok ==> d.Rest() == expected.value)
  }

  method ValidWireValue(d: Decoder, shape: Shape, depth: nat) returns (ok: bool)
    requires d.Valid()
    modifies d
    ensures Agrees(d, ok, old(Check(d.Rest(), shape, depth)))
    decreases |d.Rest()|, 0
  {
    if depth > MAX_DEPTH { return false; }
    ghost var start := d.Rest();
    var token := d.Next();
    if token.None? { return false; }
    if token.value == Null { return false; }
    match shape
    case Struct(fields) =>
      if token.value != BeginObject { return false; }
      ok := ValidMembers(d, fields, depth);
    case Slice(elem) =>
      if token.value != BeginArray { return false; }
      ok := ValidItems(d, elem, depth);
    case _ =>
      ok := FitsScalar(token.value, shape);
  }

  method ValidMembers(d: Decoder, fields: map<string, Field>, depth: nat) returns (ok: bool)
    requires d.Valid()
    modifies d
    ensures Agrees(d, ok, old(CheckMembers(d.Rest(), fields, {}, depth)))
    decreases |d.Rest()|, 1
  {
    var seen: set<string> := {};
    ghost var goal := CheckMembers(d.Rest(), fields, {}, depth);
    var more := d.HasMore();
    while more
      invariant d.Valid() && more == More(d.Rest())
      invariant |d.Rest()| <= old(|d.Rest()|)
      invariant CheckMembers(d.Rest(), fields, seen, depth) == goal
      decreases |d.Rest()|
    {
      var key := d.Next();
      if key.None? || !key.value.Text? { return false; }
      var name := key.value.text;
      if name !in fields || name in seen { return false; }
      var valueOk := ValidWireValue(d, fields[name].shape, depth + 1);
      if !valueOk { return false; }
      seen := seen + {name};
      more := d.HasMore();
    }
    if !(forall name | name in fields && fields[name].required :: name in seen) { return false; }
    var end := d.Next();
    return end == Some(EndObject);
  }

  method ValidItems(d: Decoder, elem: Shape, depth: nat) returns (ok: bool)
    requires d.Valid()
    modifies d
    ensures Agrees(d, ok, old(CheckItems(d.Rest(), elem, depth)))
    decreases |d.Rest()|, 1
  {
    ghost var goal := CheckItems(d.Rest(), elem, depth);
    var more := d.HasMore();
    while more
      invariant d.Valid() && more == More(d.Rest())
      invariant |d.Rest()| <= old(|d.Rest()|)
      invariant CheckItems(d.Rest(), elem, depth) == goal
      decreases |d.Rest()|
    {
      var itemOk := ValidWireValue(d, elem, depth + 1);
      if !itemOk { return false; }
      more := d.HasMore();
    }
    var end := d.Next();
    return end == Some(EndArray);
  }

  /** The stream is exactly one conforming tree. */
  ghost predicate IsBody(tokens: seq<Token>, shape: Shape, j: Json) {
    tokens == Tokens(j) && Conforms(j, shape, 0)
  }

  /** The whole body: one value and nothing after it. */
  method ValidBody(tokens: seq<Token>, shape: Shape) returns (ok: bool)
    ensures ok <==> exists j :: IsBody(tokens, shape, j)
  {
    var d := new Decoder(tokens);
    assert d.Rest() == tokens;
    ok := ValidWireValue(d, shape, 0);
    if ok {
      var trailing := d.Next();
      ok := trailing.None?;
    }
    WholeBody(tokens, shape);
  }

  lemma WholeBody(tokens: seq<Token>, shape: Shape)
    ensures Check(tokens, shape, 0) == Some([]) <==> exists j :: IsBody(tokens, shape, j)
  {
    CheckMeaning(tokens, shape, 0, []);
    if Check(tokens, shape, 0) == Some([]) {
      var j :| Spells(tokens, [], shape, 0, j);
      assert IsBody(tokens, shape, j);
    }
    forall j | IsBody(tokens, shape, j)
      ensures Check(tokens, shape, 0) == Some([])
    {
      assert tokens == Tokens(j) + [];
      assert Spells(tokens, [], shape, 0, j);
    }
  }
}
