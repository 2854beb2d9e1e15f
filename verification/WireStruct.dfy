/**
 Go structs as JSON objects: the tags that the encoder, the client's shape check
 (internal/botsearch/response.go:142-176) and its typed decoder all go by.
 */
module WireStruct {
  import opened Wrappers
  import opened WireShape

  /** A struct field: its JSON name, its type, and whether an empty value is left out. */
  datatype Tag = Tag(name: string, shape: Shape, omitempty: bool)

  type Tags = seq<Tag>

  /** The value of each field, None for one that is left out. */
  type Row = seq<Option<Json>>

  ghost predicate DistinctTags(tags: Tags) {
    forall i, j | 0 <= i < j < |tags| :: tags[i].name != tags[j].name
  }

  /** The name decides the position: names that a function numbers in order are distinct. */
  lemma NumberedTags(tags: Tags, position: string -> int)
    requires forall i | 0 <= i < |tags| :: position(tags[i].name) == i
    ensures DistinctTags(tags)
  {
  }

  function Fields(tags: Tags): map<string, Field> {
    if tags == [] then map[]
    else
      var last := tags[|tags| - 1];
      Fields(tags[..|tags| - 1])[last.name := Field(last.shape, !last.omitempty)]
  }

  function StructShape(tags: Tags): Shape {
    Struct(Fields(tags))
  }

  lemma {:induction false} FieldNames(tags: Tags, name: string)
    ensures name in Fields(tags) ==> exists i :: 0 <= i < |tags| && tags[i].name == name
  {
    if tags != [] && name in Fields(tags) {
      var n := |tags| - 1;
      if name == tags[n].name {
        assert tags[n].name == name;
      } else {
        FieldNames(tags[..n], name);
        var i :| 0 <= i < n && tags[..n][i].name == name;
        assert tags[i].name == name;
      }
    }
  }

  lemma {:induction false} FieldAt(tags: Tags, i: nat)
    requires DistinctTags(tags) && i < |tags|
    ensures tags[i].name in Fields(tags) && Fields(tags)[tags[i].name] == Field(tags[i].shape, !tags[i].omitempty)
  {
    var n := |tags| - 1;
    if i < n {
      FieldAt(tags[..n], i);
    }
  }

  lemma FieldsMeaning(tags: Tags)
    requires DistinctTags(tags)
    ensures forall i | 0 <= i < |tags| ::
              tags[i].name in Fields(tags) && Fields(tags)[tags[i].name] == Field(tags[i].shape, !tags[i].omitempty)
    ensures forall name | name in Fields(tags) :: exists i :: 0 <= i < |tags| && tags[i].name == name
  {
    hide Fields;
    forall i | 0 <= i < |tags| { FieldAt(tags, i); }
    forall name | name in Fields(tags)
      ensures exists i :: 0 <= i < |tags| && tags[i].name == name
    {
      FieldNames(tags, name);
    }
  }

  // ---------- encoding ----------

  /** The members written, in field order. */
  function Members(tags: Tags, row: Row): seq<Member>
    requires |tags| == |row|
  {
    if tags == [] then []
    else
      var n := |tags| - 1;
      Members(tags[..n], row[..n]) + if row[n].Some? then [Member(tags[n].name, row[n].value)] else []
  }

  function StructTree(tags: Tags, row: Row): Json
    requires |tags| == |row|
  {
    Object(Members(tags, row))
  }

  /** Only fields whose tag allows it are left out. */
  predicate Encodes(tags: Tags, row: Row) {
    |tags| == |row| && forall i | 0 <= i < |tags| :: row[i].None? ==> tags[i].omitempty
  }

  lemma {:induction false} MembersMeaning(tags: Tags, row: Row)
    requires |tags| == |row|
    ensures forall m | m in Members(tags, row) ::
              exists i :: 0 <= i < |tags| && row[i] == Some(m.value) && tags[i].name == m.name
    ensures forall i | 0 <= i < |tags| && row[i].Some? :: Member(tags[i].name, row[i].value) in Members(tags, row)
  {
    if tags != [] {
      var n := |tags| - 1;
      MembersMeaning(tags[..n], row[..n]);
      forall m | m in Members(tags, row)
        ensures exists i :: 0 <= i < |tags| && row[i] == Some(m.value) && tags[i].name == m.name
      {
        if m in Members(tags[..n], row[..n]) {
          var i :| 0 <= i < n && row[..n][i] == Some(m.value) && tags[..n][i].name == m.name;
          assert row[i] == Some(m.value) && tags[i].name == m.name;
        } else {
          assert row[n] == Some(m.value) && tags[n].name == m.name;
        }
      }
      forall i | 0 <= i < |tags| && row[i].Some?
        ensures Member(tags[i].name, row[i].value) in Members(tags, row)
      {
        if i < n { assert row[..n][i] == row[i] && tags[..n][i] == tags[i]; }
      }
    }
  }

  lemma {:induction false} MembersDistinct(tags: Tags, row: Row)
    requires |tags| == |row| && DistinctTags(tags)
    ensures DistinctNames(Members(tags, row))
  {
    if tags != [] {
      var n := |tags| - 1;
      MembersDistinct(tags[..n], row[..n]);
      MembersMeaning(tags[..n], row[..n]);
      var front := Members(tags[..n], row[..n]);
      forall i | 0 <= i < |front|
        ensures front[i].name != tags[n].name
      {
        assert front[i] in front;
        var k :| 0 <= k < n && tags[..n][k].name == front[i].name;
        assert tags[k].name == front[i].name;
      }
    }
  }

  /** Every value present has its field's shape. */
  ghost predicate RowFits(tags: Tags, row: Row, depth: nat)
    requires |tags| == |row|
  {
    forall i | 0 <= i < |tags| && row[i].Some? :: Conforms(row[i].value, tags[i].shape, depth)
  }

  /** An encoded struct has the shape the check derives from the same tags exactly when each value has its own. */
  lemma StructConforms(tags: Tags, row: Row, depth: nat)
    requires DistinctTags(tags) && Encodes(tags, row) && depth <= MAX_DEPTH
    ensures Conforms(StructTree(tags, row), StructShape(tags), depth) <==> RowFits(tags, row, depth + 1)
  {
    MembersMeaning(tags, row);
    MembersDistinct(tags, row);
    FieldsMeaning(tags);
    var ms, fields := Members(tags, row), Fields(tags);
    MembersFit(tags, row, depth + 1);
    forall name | name in fields && fields[name].required
      ensures name in NamesOf(ms)
    {
      var i :| 0 <= i < |tags| && tags[i].name == name;
      assert row[i].Some?;
      assert Member(tags[i].name, row[i].value) in ms;
    }
  }

  lemma MembersFit(tags: Tags, row: Row, depth: nat)
    requires DistinctTags(tags) && |tags| == |row|
    ensures RowFits(tags, row, depth)
       <==> forall m | m in Members(tags, row) :: m.name in Fields(tags) && Conforms(m.value, Fields(tags)[m.name].shape, depth)
  {
    MembersMeaning(tags, row);
    FieldsMeaning(tags);
    hide Conforms, Members, Fields;
    if forall m | m in Members(tags, row) :: m.name in Fields(tags) && Conforms(m.value, Fields(tags)[m.name].shape, depth) {
      forall i | 0 <= i < |tags| && row[i].Some?
        ensures Conforms(row[i].value, tags[i].shape, depth)
      {
        assert Member(tags[i].name, row[i].value) in Members(tags, row);
      }
    }
  }

  // ---------- decoding ----------

  /** The value under a name; of repeated members the last one counts. */
  function Get(ms: seq<Member>, name: string): Option<Json> {
    if ms == [] then None
    else if ms[|ms| - 1].name == name then Some(ms[|ms| - 1].value)
    else Get(ms[..|ms| - 1], name)
  }

  /** The decoder's view of an object: one slot a field. */
  function RowOf(tags: Tags, ms: seq<Member>): Row {
    seq(|tags|, i requires 0 <= i < |tags| => Get(ms, tags[i].name))
  }

  /** The typed decoder with unknown members disallowed. */
  function ReadRow(tags: Tags, j: Json): (row: Option<Row>)
    ensures row.Some? ==> |row.value| == |tags|
  {
    if j.Object? && forall m | m in j.members :: m.name in Fields(tags) then Some(RowOf(tags, j.members)) else None
  }

  lemma {:induction false} GetBack(tags: Tags, row: Row, i: nat)
    requires |tags| == |row| && DistinctTags(tags) && i < |tags|
    ensures Get(Members(tags, row), tags[i].name) == row[i]
  {
    var n := |tags| - 1;
    var front := Members(tags[..n], row[..n]);
    if row[n].Some? {
      assert Members(tags, row)[..|front|] == front;
    } else {
      assert Members(tags, row) == front;
    }
    if i < n {
      GetBack(tags[..n], row[..n], i);
    } else if row[n].None? {
      NotAMember(tags[..n], row[..n], tags[n].name);
    }
  }

  lemma {:induction false} GetMissing(ms: seq<Member>, name: string)
    requires forall m | m in ms :: m.name != name
    ensures Get(ms, name) == None
  {
    if ms != [] {
      assert ms[|ms| - 1] in ms;
      GetMissing(ms[..|ms| - 1], name);
    }
  }

  lemma NotAMember(tags: Tags, row: Row, name: string)
    requires |tags| == |row| && forall i | 0 <= i < |tags| :: tags[i].name != name
    ensures Get(Members(tags, row), name) == None
  {
    hide Members, Get;
    MembersMeaning(tags, row);
    GetMissing(Members(tags, row), name);
  }

  /** Decoding a struct gives back what was encoded, field by field. */
  lemma RowReadsBack(tags: Tags, row: Row)
    requires |tags| == |row| && DistinctTags(tags)
    ensures ReadRow(tags, StructTree(tags, row)) == Some(row)
  {
    MembersMeaning(tags, row);
    FieldsMeaning(tags);
    forall i | 0 <= i < |tags| { GetBack(tags, row, i); }
    assert RowOf(tags, Members(tags, row)) == row;
  }

  // ---------- single values ----------

  function TextTree(s: string): Json {
    Scalar(Text(s))
  }

  function NumberTree(x: real): Json {
    Scalar(Number(x))
  }

  function FlagTree(b: bool): Json {
    Scalar(Boolean(b))
  }

  function Texts(values: seq<string>): seq<Json> {
    seq(|values|, i requires 0 <= i < |values| => TextTree(values[i]))
  }

  function OptionalText(s: string): Option<Json> {
    if s == "" then None else Some(TextTree(s))
  }

  function OptionalFlag(b: bool): Option<Json> {
    if b then Some(FlagTree(b)) else None
  }

  function OptionalList(items: seq<Json>): Option<Json> {
    if items == [] then None else Some(Array(items))
  }

  /** A missing member leaves the zero value. */
  function ReadText(o: Option<Json>): Option<string> {
    if o.None? then Some("")
    else if o.value.Scalar? && o.value.token.Text? then Some(o.value.token.text)
    else None
  }

  function ReadNumber(o: Option<Json>): Option<real> {
    if o.None? then Some(0.0)
    else if o.value.Scalar? && o.value.token.Number? then Some(o.value.token.number)
    else None
  }

  /** An integer field takes whole numbers only. */
  function ReadInteger(o: Option<Json>): Option<int> {
    var x := ReadNumber(o);
    if x.Some? && x.value.Floor as real == x.value then Some(x.value.Floor) else None
  }

  function ReadFlag(o: Option<Json>): Option<bool> {
    if o.None? then Some(false)
    else if o.value.Scalar? && o.value.token.Boolean? then Some(o.value.token.flag)
    else None
  }

  /** All or nothing. */
  function ReadAll<T>(items: seq<Json>, read: Json -> Option<T>): Option<seq<T>> {
    if items == [] then Some([])
    else
      var n := |items| - 1;
      var front, last := ReadAll(items[..n], read), read(items[n]);
      if front.None? || last.None? then None else Some(front.value + [last.value])
  }

  /** A missing or null list is the nil slice. */
  function ReadList<T>(o: Option<Json>, read: Json -> Option<T>): Option<seq<T>> {
    if o.None? || o.value == Scalar(Null) then Some([])
    else if o.value.Array? then ReadAll(o.value.items, read)
    else None
  }

  function ReadTexts(o: Option<Json>): Option<seq<string>> {
    ReadList(o, (j: Json) => ReadText(Some(j)))
  }

  lemma {:induction false} AllReadBack<T>(items: seq<Json>, values: seq<T>, read: Json -> Option<T>)
    requires |items| == |values| && forall i | 0 <= i < |items| :: read(items[i]) == Some(values[i])
    ensures ReadAll(items, read) == Some(values)
  {
    if items != [] {
      var n := |items| - 1;
      AllReadBack(items[..n], values[..n], read);
      assert values == values[..n] + [values[n]];
    }
  }

  lemma ListReadsBack<T>(items: seq<Json>, values: seq<T>, read: Json -> Option<T>)
    requires |items| == |values| && forall i | 0 <= i < |items| :: read(items[i]) == Some(values[i])
    ensures ReadList(Some(Array(items)), read) == Some(values)
    ensures ReadList(OptionalList(items), read) == Some(values)
  {
    AllReadBack(items, values, read);
  }

  /** Every element of a list that was read was read from some tree. */
  lemma {:induction false} ElementsWereRead<T>(items: seq<Json>, read: Json -> Option<T>)
    requires ReadAll(items, read).Some?
    ensures forall x | x in ReadAll(items, read).value :: exists j :: read(j) == Some(x)
  {
    if items != [] {
      ElementsWereRead(items[..|items| - 1], read);
    }
  }

  lemma ListElementsWereRead<T>(o: Option<Json>, read: Json -> Option<T>)
    requires ReadList(o, read).Some?
    ensures forall x | x in ReadList(o, read).value :: exists j :: read(j) == Some(x)
  {
    if o.Some? && o.value.Array? { ElementsWereRead(o.value.items, read); }
  }

  lemma TextsReadBack(values: seq<string>)
    ensures ReadTexts(Some(Array(Texts(values)))) == Some(values)
    ensures ReadTexts(OptionalList(Texts(values))) == Some(values)
  {
    ListReadsBack(Texts(values), values, (j: Json) => ReadText(Some(j)));
  }

  lemma TextsConform(values: seq<string>, depth: nat)
    requires depth < MAX_DEPTH
    ensures Conforms(Array(Texts(values)), Slice(StringShape), depth)
    ensures OptionalList(Texts(values)).Some? ==> Conforms(OptionalList(Texts(values)).value, Slice(StringShape), depth)
  {
    forall x | x in Texts(values)
      ensures Conforms(x, StringShape, depth + 1)
    {
      var i :| 0 <= i < |values| && x == TextTree(values[i]);
    }
  }
}
