/**
 Loading Avro files: a cheap pre-check decides from the writer schema whether the file holds
 decimals and must take the slower reader, whose schema converter is modelled beside it.
 Node kinds follow "Complex Types" and "Logical Types" of the Apache Avro specification.
 */
module AvroRouting {
  import opened Basics

  /** A schema node: a type name, a union, or a dictionary with the keys the code looks at. */
  datatype Avro =
    | Name(name: string)
    | Union(branches: seq<Avro>)
    | Dict(base: Option<Avro>, logical: Option<string>, precision: Option<nat>, scale: Option<nat>,
           hasFields: bool, fields: seq<Field>, items: Option<Avro>, values: Option<Avro>)

  datatype Field = Field(title: string, content: Avro)

  datatype Arrow =
    | Text | Null | Bool | Int32 | Int64 | Float32 | Float64 | Binary | Date | Timestamp
    | Decimal(digits: nat, places: nat)
    | Struct(members: seq<Member>)
    | List(element: Arrow)
    | Map(mapped: Arrow)

  datatype Member = Member(title: string, content: Arrow)

  function Or(n: Option<nat>, default: nat): nat { if n.Some? then n.value else default }

  predicate IsNull(a: Avro) { a == Name("null") }

  /** The index of the only branch that is not null, if there is exactly one. */
  function Sole(branches: seq<Avro>): (r: Option<nat>)
    ensures r.Some? ==> r.value < |branches| && !IsNull(branches[r.value])
                        && forall i :: 0 <= i < |branches| && i != r.value ==> IsNull(branches[i])
  {
    if branches == [] then None
    else
      var last := |branches| - 1;
      var r := Sole(branches[..last]);
      if IsNull(branches[last]) then r
      else if forall i :: 0 <= i < last ==> IsNull(branches[i]) then Some(last)
      else None
  }

  function Primitive(n: string): Arrow {
    match n
    case "boolean" => Bool
    case "int" => Int32
    case "long" => Int64
    case "float" => Float32
    case "double" => Float64
    case "bytes" => Binary
    case "null" => Null
    case _ => Text
  }

  predicate IsDate(l: Option<string>) { l == Some("date") }
  predicate IsTimestamp(l: Option<string>) { l == Some("timestamp-millis") || l == Some("timestamp-micros") }
  predicate IsDecimal(l: Option<string>) { l == Some("decimal") }

  predicate Is(base: Option<Avro>, n: string) { base == Some(Name(n)) }

  /** The keys of a dictionary node are those of its kind, throughout the schema. */
  predicate WellFormed(a: Avro) {
    match a
    case Name(_) => true
    case Union(bs) => forall i :: 0 <= i < |bs| ==> WellFormed(bs[i])
    case Dict(base, _, _, _, hasFields, fields, items, values) =>
      && (hasFields ==> Is(base, "record"))
      && (items.Some? <==> Is(base, "array"))
      && (values.Some? <==> Is(base, "map"))
      && (base.Some? ==> WellFormed(base.value))
      && (hasFields ==> forall i :: 0 <= i < |fields| ==> WellFormed(fields[i].content))
      && (items.Some? ==> WellFormed(items.value))
      && (values.Some? ==> WellFormed(values.value))
  }

  /** The converter of the slower reader. */
  function Convert(a: Avro): Arrow
    requires WellFormed(a)
    decreases a
  {
    match a
    case Name(n) => Primitive(n)
    case Union(bs) =>
      var i := Sole(bs);
      if i.Some? then Convert(bs[i.value]) else Text
    case Dict(base, logical, precision, scale, hasFields, fs, items, values) =>
      if IsDecimal(logical) then Decimal(Or(precision, 38), Or(scale, 9))
      else if IsDate(logical) then Date
      else if IsTimestamp(logical) then Timestamp
      else if Is(base, "record") then
        if !hasFields then Struct([])
        else Struct(seq(|fs|, i requires 0 <= i < |fs| => Member(fs[i].title, Convert(fs[i].content))))
      else if Is(base, "array") then List(Convert(items.value))
      else if Is(base, "map") then Map(Convert(values.value))
      else if Is(base, "bytes") then Binary
      else if base.None? then Text
      else Convert(base.value)
  }

  predicate HasDecimal(t: Arrow) {
    match t
    case Decimal(_, _) => true
    case Struct(members) => exists i :: 0 <= i < |members| && HasDecimal(members[i].content)
    case List(e) => HasDecimal(e)
    case Map(v) => HasDecimal(v)
    case _ => false
  }

  /** The pre-check: any decimal node anywhere the walk goes. */
  predicate PreCheck(a: Avro) {
    match a
    case Name(_) => false
    case Union(bs) => exists i :: 0 <= i < |bs| && PreCheck(bs[i])
    case Dict(base, logical, _, _, hasFields, fields, items, values) =>
      if IsDecimal(logical) then true
      else if hasFields then exists i :: 0 <= i < |fields| && PreCheck(fields[i].content)
      else if items.Some? then PreCheck(items.value)
      else if values.Some? then PreCheck(values.value)
      else base.Some? && PreCheck(base.value)
  }

  /** Some node of the schema, anywhere at all, is a decimal. */
  predicate AnyDecimal(a: Avro) {
    match a
    case Name(_) => false
    case Union(bs) => exists i :: 0 <= i < |bs| && AnyDecimal(bs[i])
    case Dict(base, logical, _, _, hasFields, fields, items, values) =>
      || logical == Some("decimal")
      || (hasFields && exists i :: 0 <= i < |fields| && AnyDecimal(fields[i].content))
      || (items.Some? && AnyDecimal(items.value))
      || (values.Some? && AnyDecimal(values.value))
      || (base.Some? && AnyDecimal(base.value))
  }

  /** On well-formed schemas the walk misses no node: the pre-check says yes exactly when there is a decimal somewhere. */
  lemma {:induction false} PreCheckFindsAny(a: Avro)
    requires WellFormed(a)
    ensures PreCheck(a) <==> AnyDecimal(a)
    decreases a
  {
    match a
    case Name(n) =>
    case Union(bs) => forall i | 0 <= i < |bs| ensures PreCheck(bs[i]) <==> AnyDecimal(bs[i]) { PreCheckFindsAny(bs[i]); }
    case Dict(base, _, _, _, hasFields, fields, items, values) =>
      if hasFields {
        forall i | 0 <= i < |fields| ensures PreCheck(fields[i].content) <==> AnyDecimal(fields[i].content) { PreCheckFindsAny(fields[i].content); }
      }
      if items.Some? { PreCheckFindsAny(items.value); }
      if values.Some? { PreCheckFindsAny(values.value); }
      if base.Some? { PreCheckFindsAny(base.value); }
  }

  /** A decimal node sits where the converter does not look: under a union of several types, or inside a date or timestamp node. */
  predicate Hidden(a: Avro) {
    match a
    case Name(_) => false
    case Union(bs) =>
      var s := Sole(bs);
      if s.Some? then Hidden(bs[s.value]) else exists i :: 0 <= i < |bs| && AnyDecimal(bs[i])
    case Dict(base, logical, _, _, hasFields, fields, items, values) =>
      if IsDecimal(logical) then false
      else if IsDate(logical) || IsTimestamp(logical) then AnyDecimal(a)
      else if hasFields then exists i :: 0 <= i < |fields| && Hidden(fields[i].content)
      else if items.Some? then Hidden(items.value)
      else if values.Some? then Hidden(values.value)
      else base.Some? && Hidden(base.value)
  }

  // ---- What the converter makes of each node ----

  lemma PrimitivesExactly(n: string)
    ensures Convert(Name("boolean")) == Bool && Convert(Name("int")) == Int32 && Convert(Name("long")) == Int64
    ensures Convert(Name("float")) == Float32 && Convert(Name("double")) == Float64 && Convert(Name("bytes")) == Binary
    ensures Convert(Name("null")) == Null
    ensures n !in {"boolean", "int", "long", "float", "double", "bytes", "null"} ==> Convert(Name(n)) == Text
  {
    assert |"double"| == 6 && |"boolean"| == 7 && |"float"| == 5 == |"bytes"| && |"long"| == 4 == |"null"|;
  }

  /** A logical type decides before the base type; a decimal without precision or scale has 38 and 9. */
  lemma LogicalExactly(a: Avro)
    requires WellFormed(a) && a.Dict?
    ensures a.logical == Some("decimal") ==>
              Convert(a) == Decimal(if a.precision.Some? then a.precision.value else 38, if a.scale.Some? then a.scale.value else 9)
    ensures a.logical == Some("date") ==> Convert(a) == Date
    ensures a.logical == Some("timestamp-millis") || a.logical == Some("timestamp-micros") ==> Convert(a) == Timestamp
  {
    assert |"decimal"| == 7 && |"date"| == 4 && |"timestamp-millis"| == 16 == |"timestamp-micros"|;
  }

  /** Records keep their fields, names and order; arrays and maps their element; any other dictionary node is its base. */
  lemma ComplexExactly(a: Avro)
    requires WellFormed(a) && a.Dict? && a.logical.None?
    ensures a.hasFields ==> Convert(a).Struct? && |Convert(a).members| == |a.fields|
                            && forall i :: 0 <= i < |a.fields| ==> Convert(a).members[i] == Member(a.fields[i].title, Convert(a.fields[i].content))
    ensures a.items.Some? ==> Convert(a) == List(Convert(a.items.value))
    ensures a.values.Some? ==> Convert(a) == Map(Convert(a.values.value))
    ensures Is(a.base, "record") && !a.hasFields ==> Convert(a) == Struct([])
    ensures a.base.None? ==> Convert(a) == Text
    ensures a.base.Some? && !Is(a.base, "record") && a.items.None? && a.values.None? ==> Convert(a) == Convert(a.base.value)
  {
    assert |"record"| == 6 && |"array"| == 5 && |"map"| == 3 && |"bytes"| == 5 && "array"[0] != "bytes"[0];
  }

  /** A union with one branch besides nulls, wherever it stands, is that branch; any other union is text. */
  lemma UnionConverts(bs: seq<Avro>, i: nat)
    requires WellFormed(Union(bs)) && i < |bs|
    ensures bs[i] != Name("null") && (forall j :: 0 <= j < |bs| && j != i ==> bs[j] == Name("null")) ==> Convert(Union(bs)) == Convert(bs[i])
    ensures (exists j :: 0 <= j < |bs| && j != i && bs[j] != Name("null")) && bs[i] != Name("null") ==> Convert(Union(bs)) == Text
  {
    SoleFinds(bs);
  }

  lemma {:induction false} SoleFinds(bs: seq<Avro>)
    ensures forall i :: 0 <= i < |bs| && !IsNull(bs[i]) && (forall j :: 0 <= j < |bs| && j != i ==> IsNull(bs[j])) ==> Sole(bs) == Some(i)
    decreases |bs|
  {
    if bs != [] {
      var last := |bs| - 1;
      SoleFinds(bs[..last]);
      forall i | 0 <= i < |bs| && !IsNull(bs[i]) && (forall j :: 0 <= j < |bs| && j != i ==> IsNull(bs[j]))
        ensures Sole(bs) == Some(i)
      {
        if i < last { assert bs[..last][i] == bs[i] && forall j :: 0 <= j < last && j != i ==> IsNull(bs[..last][j]); }
      }
    }
  }

  lemma UnionExactly(bs: seq<Avro>)
    requires WellFormed(Union(bs))
    requires forall i :: 0 <= i < |bs| ==> (PreCheck(bs[i]) <==> HasDecimal(Convert(bs[i])) || Hidden(bs[i]))
    ensures PreCheck(Union(bs)) <==> HasDecimal(Convert(Union(bs))) || Hidden(Union(bs))
  {
    var s := Sole(bs);
    forall i | 0 <= i < |bs| ensures PreCheck(bs[i]) <==> AnyDecimal(bs[i]) { PreCheckFindsAny(bs[i]); }
    if s.Some? {
      assert forall i :: 0 <= i < |bs| && i != s.value ==> !PreCheck(bs[i]);
      if PreCheck(bs[s.value]) { assert PreCheck(Union(bs)); }
    }
  }

  lemma RecordExactly(a: Avro)
    requires WellFormed(a) && a.Dict? && a.hasFields && !IsDecimal(a.logical) && !IsDate(a.logical) && !IsTimestamp(a.logical)
    requires forall i :: 0 <= i < |a.fields| ==>
               (PreCheck(a.fields[i].content) <==> HasDecimal(Convert(a.fields[i].content)) || Hidden(a.fields[i].content))
    ensures PreCheck(a) <==> HasDecimal(Convert(a)) || Hidden(a)
  {
    var fs, t := a.fields, Convert(a);
    assert t.Struct? && |t.members| == |fs|;
    assert forall i :: 0 <= i < |fs| ==> t.members[i].content == Convert(fs[i].content);
  }

  /** The pre-check answers yes exactly when the converted schema has a decimal or one is hidden from the converter. */
  lemma {:induction false} PreCheckExactly(a: Avro)
    requires WellFormed(a)
    ensures PreCheck(a) <==> HasDecimal(Convert(a)) || Hidden(a)
    decreases a
  {
    match a
    case Name(n) =>
    case Union(bs) =>
      forall i | 0 <= i < |bs| ensures PreCheck(bs[i]) <==> HasDecimal(Convert(bs[i])) || Hidden(bs[i]) { PreCheckExactly(bs[i]); }
      UnionExactly(bs);
    case Dict(base, logical, _, _, hasFields, fields, items, values) =>
      if IsDecimal(logical) || IsDate(logical) || IsTimestamp(logical) {
        PreCheckFindsAny(a);
      } else if hasFields {
        forall i | 0 <= i < |fields|
          ensures PreCheck(fields[i].content) <==> HasDecimal(Convert(fields[i].content)) || Hidden(fields[i].content)
        {
          PreCheckExactly(fields[i].content);
        }
        RecordExactly(a);
      } else if items.Some? {
        PreCheckExactly(items.value);
      } else if values.Some? {
        PreCheckExactly(values.value);
      } else if base.Some? {
        PreCheckExactly(base.value);
      }
  }

  /** The top-level record, whose own logical type the converter ignores. */
  function ConvertFile(a: Avro): Arrow
    requires WellFormed(a) && a.Dict? && Is(a.base, "record")
  {
    Convert(a.(logical := None))
  }

  /** Routing is sound: a file whose converted schema has a decimal never takes the fast path. */
  lemma RoutingSound(a: Avro)
    requires WellFormed(a) && a.Dict? && Is(a.base, "record")
    ensures HasDecimal(ConvertFile(a)) ==> PreCheck(a)
    ensures a.logical.None? && !Hidden(a) ==> (PreCheck(a) <==> HasDecimal(ConvertFile(a)))
  {
    PreCheckExactly(a.(logical := None));
  }

  /** A union of two types hides its decimal from the converter: the pre-check alone says yes. */
  lemma HiddenInUnion(precision: Option<nat>, scale: Option<nat>)
    ensures var decimal := Dict(Some(Name("bytes")), Some("decimal"), precision, scale, false, [], None, None);
            var u := Union([Name("string"), decimal]);
            WellFormed(u) && PreCheck(u) && !HasDecimal(Convert(u))
  {
    var decimal := Dict(Some(Name("bytes")), Some("decimal"), precision, scale, false, [], None, None);
    var u := Union([Name("string"), decimal]);
    assert PreCheck(u.branches[1]);
    assert |"string"| != |"null"|;
    assert !IsNull(u.branches[0]) && !IsNull(u.branches[1]);
  }
}
