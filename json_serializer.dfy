/**
  The reflection-driven JSON serializer (Services/JsonSerializer.cs).

  Reflection is replaced by an explicit, declared-order list of properties per
  object.  An object the projector mutates in place is a class, `Obj`; the
  values reachable from its properties, nested objects included, are immutable
  datatype values.  The string escaper (the C# CodeDom code generator, a
  foreign library) is a parameter `escape` of every encoder; nothing is
  assumed about it.
*/
module JsonSerializer {
  import opened Wrappers
  import opened Text

  /** Runtime types: the nine data-contract classes, and every other type. */
  datatype TypeTag =
    | TokenData | AccountData | ProductData | PriceData | RatingData
    | MetaData | CreditsData | PurchaseData | IdData
    | Unregistered(typeName: string)

  /** The `types` registry: the only runtime types the serializer accepts. */
  const Types: set<TypeTag> :=
    {TokenData, AccountData, ProductData, PriceData, RatingData,
     MetaData, CreditsData, PurchaseData, IdData}

  predicate Supported(t: TypeTag)
  {
    t in Types
  }

  type UInt32 = x: int | 0 <= x < 0x1_0000_0000

  /** The value GetValue reads from one property. */
  datatype Value =
    | Null                        // a null reference or an empty Nullable<T>
    | Str(s: string)
    | UInt(n: UInt32)             // a uint, or a uint? holding a value
    | Bool(b: bool)               // a bool, or a bool? holding a value
    | Nested(rec: Record)         // an object with properties of its own
    | Other(runtimeType: string)  // any other non-null value, e.g. a signed int

  /** One property: its name and its current value. */
  datatype Field = Field(name: string, value: Value)

  /** An object: its runtime type and its properties in declared order. */
  datatype Record = Record(tag: TypeTag, fields: seq<Field>)

  /** The exception JsonString throws for a type outside the registry. */
  datatype SerializeError = ClassNotSupported

  type Encoded<T> = Result<T, SerializeError>

  type Escaper = string -> string

  /** The mutable object handed to the serializer by a caller. */
  class Obj {
    const tag: TypeTag
    var props: seq<Field>

    constructor (tag: TypeTag, props: seq<Field>)
      ensures this.tag == tag && this.props == props
    {
      this.tag := tag;
      this.props := props;
    }

    /** What reading every property of the object yields right now. */
    function Snapshot(): Record
      reads this
    {
      Record(tag, props)
    }
  }

  // ---------------------------------------------------------------------
  // Specification of JsonString
  // ---------------------------------------------------------------------

  /** `"name":text`, one entry of the output object. */
  function PairText(name: string, text: string): string
  {
    "\"" + name + "\":" + text
  }

  function PairTexts(props: seq<(string, string)>): seq<string>
  {
    seq(|props|, j requires 0 <= j < |props| => PairText(props[j].0, props[j].1))
  }

  /** The collected (name, text) pairs as one JSON object. */
  function Render(props: seq<(string, string)>): string
  {
    "{" + Join(PairTexts(props), ",") + "}"
  }

  function Keys(props: seq<(string, string)>): seq<string>
  {
    seq(|props|, j requires 0 <= j < |props| => props[j].0)
  }

  /** JsonString: the registry check, then the non-null properties. */
  function EncodeRecord(r: Record, escape: Escaper): (res: Encoded<string>)
    ensures !Supported(r.tag) ==> res == Failure(ClassNotSupported)
    ensures res.Failure? ==> res.error == ClassNotSupported
    ensures res.Success? ==> |res.value| >= 2 && res.value[0] == '{' && res.value[|res.value| - 1] == '}'
  {
    if !Supported(r.tag) then Failure(ClassNotSupported)
    else
      var props :- EncodeProperties(r.fields, escape);
      Success(Render(props))
  }

  /** The (name, text) pairs JsonString collects for the given properties. */
  function EncodeProperties(fs: seq<Field>, escape: Escaper): (r: Encoded<seq<(string, string)>>)
    ensures r.Failure? ==> r.error == ClassNotSupported
    ensures r.Success? ==> |r.value| <= |fs|
  {
    if |fs| == 0 then Success([])
    else Collect(EncodeProperties(fs[..|fs| - 1], escape), fs[|fs| - 1], escape)
  }

  /** One turn of the loop over the properties: a null value is skipped, any
      other is dispatched and its pair appended; a failure propagates. */
  function Collect(acc: Encoded<seq<(string, string)>>, f: Field, escape: Escaper): (r: Encoded<seq<(string, string)>>)
    ensures acc.Failure? ==> r == acc
    ensures f.value.Null? ==> r == acc
    ensures r.Failure? ==> acc.Failure? || EncodeValue(f.value, escape).Failure?
    ensures r.Success? && !f.value.Null? ==>
      |r.value| == |acc.value| + 1 && r.value[..|acc.value|] == acc.value && r.value[|acc.value|].0 == f.name
    decreases f
  {
    var props :- acc;
    if f.value.Null? then Success(props)
    else
      var text :- EncodeValue(f.value, escape);
      Success(props + [(f.name, text)])
  }

  /** The dispatch on the runtime type of a non-null property value. */
  function EncodeValue(v: Value, escape: Escaper): (r: Encoded<string>)
    requires !v.Null?
    ensures v.Str? ==> r == Success(escape(v.s))
    ensures v.UInt? ==> r.Success? && AllDigits(r.value) && DecimalValue(r.value) == v.n
    ensures v.Bool? ==> r.Success? && (r.value == "true" <==> v.b) && r.value in {"true", "false"}
    ensures v.Nested? ==> r == EncodeRecord(v.rec, escape)
    ensures v.Other? ==> r == Failure(ClassNotSupported)
  {
    match v
    case Str(s) => Success(escape(s))
    case UInt(n) => DecimalRoundTrip(n); Success(Decimal(n))
    case Bool(b) => Success(if b then "true" else "false")
    case Nested(q) => EncodeRecord(q, escape)
    // JsonString(value) on a value that is not a registered class
    case Other(_) => Failure(ClassNotSupported)
  }

  /** Independent description of the records JsonString accepts. */
  predicate EncodableRecord(r: Record)
  {
    Supported(r.tag) && forall i :: 0 <= i < |r.fields| ==> EncodableValue(r.fields[i].value)
  }

  predicate EncodableValue(v: Value)
  {
    match v
    case Nested(q) => EncodableRecord(q)
    case Other(_) => false
    case _ => true
  }

  /** The properties whose value is not null, in declared order. */
  function NonNullFields(fs: seq<Field>): (r: seq<Field>)
    ensures |r| <= |fs|
    ensures forall j :: 0 <= j < |r| ==> !r[j].value.Null?
    ensures forall f :: f in r <==> f in fs && !f.value.Null?
    ensures |fs| == 1 ==> r == (if fs[0].value.Null? then [] else fs)
  {
    if |fs| == 0 then []
    else
      var init := fs[..|fs| - 1];
      assert fs == init + [fs[|fs| - 1]];
      NonNullFields(init) + (if fs[|fs| - 1].value.Null? then [] else [fs[|fs| - 1]])
  }

  /** Filtering distributes over concatenation: with the singleton cases of
      NonNullFields this fixes the order and the multiplicity of the kept
      properties. */
  lemma {:induction false} NonNullFieldsAppend(a: seq<Field>, b: seq<Field>)
    ensures NonNullFields(a + b) == NonNullFields(a) + NonNullFields(b)
    decreases |b|
  {
    if |b| == 0 {
      assert a + b == a;
    } else {
      var init, last := b[..|b| - 1], b[|b| - 1];
      var kept: seq<Field> := if last.value.Null? then [] else [last];
      assert a + b == (a + init) + [last] by {
        assert b == init + [last];
      }
      calc {
        NonNullFields(a + b);
        { NonNullFieldsSnoc(a + init, last); }
        NonNullFields(a + init) + kept;
        { NonNullFieldsAppend(a, init); }
        (NonNullFields(a) + NonNullFields(init)) + kept;
        NonNullFields(a) + (NonNullFields(init) + kept);
        { NonNullFieldsSnoc(init, last); assert b == init + [last]; }
        NonNullFields(a) + NonNullFields(b);
      }
    }
  }

  lemma {:induction false} NonNullFieldsSnoc(fs: seq<Field>, f: Field)
    ensures NonNullFields(fs + [f]) == NonNullFields(fs) + (if f.value.Null? then [] else [f])
  {
    assert (fs + [f])[..|fs|] == fs;
  }

  // ---------------------------------------------------------------------
  // Properties of JsonString
  // ---------------------------------------------------------------------

  /** The registry gate applies at every nesting level: encoding succeeds
      exactly when every object reached through non-null properties has a
      registered type and no property holds an unsupported scalar. */
  lemma {:induction false} EncodeSucceedsIff(r: Record, escape: Escaper)
    ensures EncodeRecord(r, escape).Success? <==> EncodableRecord(r)
    decreases r
  {
    if Supported(r.tag) {
      PropertiesSucceedIff(r.fields, escape);
    }
  }

  lemma {:induction false} PropertiesSucceedIff(fs: seq<Field>, escape: Escaper)
    ensures EncodeProperties(fs, escape).Success?
        <==> forall i :: 0 <= i < |fs| ==> EncodableValue(fs[i].value)
    decreases fs
  {
    if |fs| > 0 {
      var init := fs[..|fs| - 1];
      PropertiesSucceedIff(init, escape);
      var v := fs[|fs| - 1].value;
      if v.Nested? {
        EncodeSucceedsIff(v.rec, escape);
      }
      assert !v.Null? ==> (EncodeValue(v, escape).Success? <==> EncodableValue(v));
      assert EncodeProperties(fs, escape) == Collect(EncodeProperties(init, escape), fs[|fs| - 1], escape);
      assert EncodeProperties(fs, escape).Success? <==> EncodeProperties(init, escape).Success? && (v.Null? || EncodeValue(v, escape).Success?);
      assert forall i :: 0 <= i < |init| ==> init[i] == fs[i];
      assert (forall i :: 0 <= i < |fs| ==> EncodableValue(fs[i].value))
         <==> (forall i :: 0 <= i < |init| ==> EncodableValue(init[i].value)) && EncodableValue(v);
    }
  }

  /** A nested object of an unregistered type makes the whole call fail. */
  lemma {:induction false} NestedUnsupportedFails(r: Record, i: nat, escape: Escaper)
    requires i < |r.fields|
    requires r.fields[i].value.Nested? && !Supported(r.fields[i].value.rec.tag)
    ensures EncodeRecord(r, escape).Failure?
  {
    assert !EncodableValue(r.fields[i].value);
    EncodeSucceedsIff(r, escape);
  }

  /** So does a non-null value of a type with no dispatch branch (a signed int). */
  lemma {:induction false} OtherValueFails(r: Record, i: nat, escape: Escaper)
    requires i < |r.fields| && r.fields[i].value.Other?
    ensures EncodeRecord(r, escape).Failure?
  {
    assert !EncodableValue(r.fields[i].value);
    EncodeSucceedsIff(r, escape);
  }

  /** Pairs follow the non-null properties one to one, in declared order; each
      pair carries the property's name unchanged and the dispatched text of its
      value. */
  lemma {:induction false} PairsFollowFields(fs: seq<Field>, escape: Escaper, props: seq<(string, string)>)
    requires EncodeProperties(fs, escape) == Success(props)
    ensures |props| == |NonNullFields(fs)|
    ensures forall j :: 0 <= j < |props| ==>
      props[j].0 == NonNullFields(fs)[j].name &&
      EncodeValue(NonNullFields(fs)[j].value, escape) == Success(props[j].1)
    decreases |fs|
  {
    if |fs| > 0 {
      var init := fs[..|fs| - 1];
      var last := fs[|fs| - 1];
      assert EncodeProperties(init, escape).Success?;
      var head := EncodeProperties(init, escape).value;
      PairsFollowFields(init, escape, head);
      if last.value.Null? {
        assert props == head;
        assert NonNullFields(fs) == NonNullFields(init) + [];
      } else {
        assert props == head + [(last.name, EncodeValue(last.value, escape).value)];
        assert NonNullFields(fs) == NonNullFields(init) + [last];
      }
    }
  }

  /** A property that is null contributes no key. */
  lemma {:induction false} NullFieldHasNoKey(fs: seq<Field>, escape: Escaper, props: seq<(string, string)>, name: string)
    requires EncodeProperties(fs, escape) == Success(props)
    requires forall i :: 0 <= i < |fs| && fs[i].name == name ==> fs[i].value.Null?
    ensures name !in Keys(props)
  {
    PairsFollowFields(fs, escape, props);
    forall j | 0 <= j < |props|
      ensures props[j].0 != name
    {
      assert NonNullFields(fs)[j] in NonNullFields(fs);
    }
  }

  /** A property that is not null contributes its key. */
  lemma {:induction false} NonNullFieldHasKey(fs: seq<Field>, escape: Escaper, props: seq<(string, string)>, i: nat)
    requires EncodeProperties(fs, escape) == Success(props)
    requires i < |fs| && !fs[i].value.Null?
    ensures fs[i].name in Keys(props)
  {
    PairsFollowFields(fs, escape, props);
    assert fs[i] in NonNullFields(fs);
    var j :| 0 <= j < |NonNullFields(fs)| && NonNullFields(fs)[j] == fs[i];
    assert Keys(props)[j] == fs[i].name;
  }

  /** Appending one property runs one more turn of the loop. */
  lemma {:induction false} PropertiesSnoc(fs: seq<Field>, f: Field, escape: Escaper)
    ensures EncodeProperties(fs + [f], escape) == Collect(EncodeProperties(fs, escape), f, escape)
  {
    assert (fs + [f])[..|fs|] == fs;
  }

  /** Null properties are skipped without trace: the pairs are those of the
      non-null properties alone, whatever the null ones were. */
  lemma {:induction false} EncodeIgnoresNulls(fs: seq<Field>, escape: Escaper)
    ensures EncodeProperties(fs, escape) == EncodeProperties(NonNullFields(fs), escape)
    decreases |fs|
  {
    if |fs| > 0 {
      var init := fs[..|fs| - 1];
      var last := fs[|fs| - 1];
      EncodeIgnoresNulls(init, escape);
      if last.value.Null? {
        assert NonNullFields(fs) == NonNullFields(init) + [];
        assert NonNullFields(init) + [] == NonNullFields(init);
      } else {
        assert NonNullFields(fs) == NonNullFields(init) + [last];
        PropertiesSnoc(NonNullFields(init), last, escape);
      }
    }
  }

  /** An object whose properties are all null encodes to {}. */
  lemma {:induction false} AllNullEncodesEmpty(r: Record, escape: Escaper)
    requires Supported(r.tag)
    requires forall i :: 0 <= i < |r.fields| ==> r.fields[i].value.Null?
    ensures EncodeRecord(r, escape) == Success("{}")
  {
    EncodeIgnoresNulls(r.fields, escape);
    assert NonNullFields(r.fields) == [];
    assert Render([]) == "{}";
  }

  lemma {:induction false} PrefixFailurePropagates(fs: seq<Field>, n: nat, escape: Escaper)
    requires n <= |fs| && EncodeProperties(fs[..n], escape).Failure?
    ensures EncodeProperties(fs, escape).Failure?
    decreases |fs|
  {
    if n < |fs| {
      assert fs[..|fs| - 1][..n] == fs[..n];
      PrefixFailurePropagates(fs[..|fs| - 1], n, escape);
    } else {
      assert fs[..n] == fs;
    }
  }

  // ---------------------------------------------------------------------
  // JsonString as the loops the source runs
  // ---------------------------------------------------------------------

  /** Checks the registry, collects the pairs, writes them into an array and
      joins it. */
  method JsonString(r: Record, escape: Escaper) returns (res: Encoded<string>)
    ensures res == EncodeRecord(r, escape)
    decreases r, 1
  {
    if !Supported(r.tag) {
      return Failure(ClassNotSupported);
    }
    var properties := CollectProperties(r, escape);
    if properties.Failure? {
      assert EncodeRecord(r, escape).error == properties.error;
      return Failure(properties.error);
    }
    var result := PairArray(properties.value);
    res := Success("{" + Join(result[..], ",") + "}");
  }

  /** The first half of JsonString: the loop over the properties, skipping
      nulls and dispatching on the runtime type of every other value. */
  method CollectProperties(r: Record, escape: Escaper) returns (res: Encoded<seq<(string, string)>>)
    ensures res == EncodeProperties(r.fields, escape)
    decreases r, 0
  {
    var properties: seq<(string, string)> := [];
    var i := 0;
    while i < |r.fields|
      invariant 0 <= i <= |r.fields|
      invariant EncodeProperties(r.fields[..i], escape) == Success(properties)
      decreases |r.fields| - i
    {
      var p := r.fields[i];
      assert r.fields[..i + 1] == r.fields[..i] + [p];
      PropertiesSnoc(r.fields[..i], p, escape);
      if !p.value.Null? {
        var text := ValueText(p.value, escape);
        if text.Failure? {
          PrefixFailurePropagates(r.fields, i + 1, escape);
          assert EncodeProperties(r.fields, escape).error == text.error;
          return Failure(text.error);
        }
        properties := properties + [(p.name, text.value)];
      }
      i := i + 1;
    }
    assert r.fields[..i] == r.fields;
    res := Success(properties);
  }

  /** The dispatch on the runtime type of a non-null value: the first branch
      that matches wins, and anything that is not a string, a uint or a bool
      goes back through JsonString. */
  method ValueText(v: Value, escape: Escaper) returns (text: Encoded<string>)
    requires !v.Null?
    ensures text == EncodeValue(v, escape)
    decreases v
  {
    match v {
      case Str(s) =>
        text := Success(escape(s));
      case UInt(n) =>
        text := Success(Decimal(n));
      case Bool(b) =>
        text := Success(if b then "true" else "false");
      case Nested(q) =>
        text := JsonString(q, escape);
      case Other(_) =>
        text := Failure(ClassNotSupported);
    }
  }

  /** The second half of JsonString: writes the pairs into a fresh array with
      a running counter. */
  method PairArray(properties: seq<(string, string)>) returns (result: array<string>)
    ensures fresh(result)
    ensures result[..] == PairTexts(properties)
  {
    result := new string[|properties|];
    var c := 0;
    while c < |properties|
      invariant 0 <= c <= |properties|
      invariant forall j :: 0 <= j < c ==> result[j] == PairText(properties[j].0, properties[j].1)
    {
      result[c] := "\"" + properties[c].0 + "\":" + properties[c].1;
      c := c + 1;
    }
  }

  /** Json(obj): the text of JsonString for the object's current properties. */
  method Json(obj: Obj, escape: Escaper) returns (res: Encoded<string>)
    ensures res == EncodeRecord(obj.Snapshot(), escape)
  {
    res := JsonString(obj.Snapshot(), escape);
  }

  // ---------------------------------------------------------------------
  // Projection
  // ---------------------------------------------------------------------

  /** The properties after every one not named in keep is set to null. */
  function Project(fs: seq<Field>, keep: set<string>): (r: seq<Field>)
    ensures |r| == |fs|
    ensures forall i :: 0 <= i < |fs| ==> r[i].name == fs[i].name
    ensures forall i :: 0 <= i < |fs| && fs[i].name !in keep ==> r[i].value.Null?
    ensures forall i :: 0 <= i < |fs| && fs[i].name in keep ==> r[i] == fs[i]
  {
    seq(|fs|, i requires 0 <= i < |fs| => if fs[i].name in keep then fs[i] else Field(fs[i].name, Null))
  }

  function NameSet(fs: seq<Field>): set<string>
  {
    set i | 0 <= i < |fs| :: fs[i].name
  }

  function KeepSet(keep: seq<string>): set<string>
  {
    set k | k in keep
  }

  lemma {:induction false} ProjectIdempotent(fs: seq<Field>, keep: set<string>)
    ensures Project(Project(fs, keep), keep) == Project(fs, keep)
  {
  }

  /** Names in keep that match no property have no effect. */
  lemma {:induction false} ProjectIgnoresUnknownNames(fs: seq<Field>, keep: set<string>)
    ensures Project(fs, keep) == Project(fs, keep * NameSet(fs))
  {
    forall i | 0 <= i < |fs|
      ensures Project(fs, keep)[i] == Project(fs, keep * NameSet(fs))[i]
    {
      assert fs[i].name in NameSet(fs);
    }
  }

  /** After projection the emitted keys are exactly the declared properties
      that are named in keep and not null. */
  lemma {:induction false} ProjectedKeys(fs: seq<Field>, keep: set<string>, escape: Escaper, props: seq<(string, string)>, name: string)
    requires EncodeProperties(Project(fs, keep), escape) == Success(props)
    ensures name in Keys(props)
        <==> name in keep && exists i :: 0 <= i < |fs| && fs[i].name == name && !fs[i].value.Null?
  {
    var p := Project(fs, keep);
    if name in keep && exists i :: 0 <= i < |fs| && fs[i].name == name && !fs[i].value.Null? {
      var i :| 0 <= i < |fs| && fs[i].name == name && !fs[i].value.Null?;
      NonNullFieldHasKey(p, escape, props, i);
    } else {
      NullFieldHasNoKey(p, escape, props, name);
    }
  }

  /** Only the kept properties decide whether the projected object encodes. */
  lemma {:induction false} ProjectedSucceedsIff(tag: TypeTag, fs: seq<Field>, keep: set<string>, escape: Escaper)
    ensures EncodeRecord(Record(tag, Project(fs, keep)), escape).Success?
        <==> Supported(tag) && forall i :: 0 <= i < |fs| && fs[i].name in keep ==> EncodableValue(fs[i].value)
  {
    EncodeSucceedsIff(Record(tag, Project(fs, keep)), escape);
  }

  /** nullOutBut: sets every property not in keep to null, in place, and
      returns the same object. */
  method NullOutBut(obj: Obj, keep: set<string>) returns (same: Obj)
    modifies obj
    ensures same == obj
    ensures obj.props == Project(old(obj.props), keep)
  {
    var i := 0;
    while i < |obj.props|
      invariant 0 <= i <= |obj.props| == |old(obj.props)|
      invariant forall k :: 0 <= k < i ==> obj.props[k] == Project(old(obj.props), keep)[k]
      invariant forall k :: i <= k < |obj.props| ==> obj.props[k] == old(obj.props)[k]
    {
      var p := obj.props[i];
      if p.name !in keep {
        obj.props := obj.props[i := Field(p.name, Null)];
      }
      i := i + 1;
    }
    same := obj;
  }

  /** Json(nullOutBut(obj, keepSet)): projects first, then encodes; an object
      is left projected when its encoding fails. */
  method JsonProjected(obj: Obj, keepSet: set<string>, escape: Escaper) returns (res: Encoded<string>)
    modifies obj
    ensures obj.props == Project(old(obj.props), keepSet)
    ensures res == EncodeRecord(Record(obj.tag, Project(old(obj.props), keepSet)), escape)
  {
    var projected := NullOutBut(obj, keepSet);
    res := Json(projected, escape);
  }

  /** Json(obj, keep): the keep array becomes a set, then as above. */
  method JsonKeep(obj: Obj, keep: seq<string>, escape: Escaper) returns (res: Encoded<string>)
    modifies obj
    ensures obj.props == Project(old(obj.props), KeepSet(keep))
    ensures res == EncodeRecord(Record(obj.tag, Project(old(obj.props), KeepSet(keep))), escape)
  {
    var keepSet := KeepSet(keep);
    res := JsonProjected(obj, keepSet, escape);
  }

  // ---------------------------------------------------------------------
  // Arrays of objects
  // ---------------------------------------------------------------------

  /** The per-object texts of an array, or the first failure. */
  function EncodeAll(rs: seq<Record>, escape: Escaper): (r: Encoded<seq<string>>)
    ensures r.Success? ==> |r.value| == |rs|
    ensures r.Failure? ==> r.error == ClassNotSupported
  {
    if |rs| == 0 then Success([])
    else
      var init :- EncodeAll(rs[..|rs| - 1], escape);
      var last :- EncodeRecord(rs[|rs| - 1], escape);
      Success(init + [last])
  }

  /** "[" + the objects' texts joined by "," + "]". */
  function EncodeArray(rs: seq<Record>, escape: Escaper): (r: Encoded<string>)
    ensures |rs| == 0 ==> r == Success("[]")
    ensures r.Success? ==> |r.value| >= 2 && r.value[0] == '[' && r.value[|r.value| - 1] == ']'
  {
    var texts :- EncodeAll(rs, escape);
    assert |rs| == 0 ==> "[" + Join(texts, ",") + "]" == "[]";
    Success("[" + Join(texts, ",") + "]")
  }

  lemma {:induction false} EncodeAllSpec(rs: seq<Record>, escape: Escaper)
    ensures EncodeAll(rs, escape).Success? <==> forall i :: 0 <= i < |rs| ==> EncodeRecord(rs[i], escape).Success?
    ensures EncodeAll(rs, escape).Success? ==>
      |EncodeAll(rs, escape).value| == |rs| &&
      forall i :: 0 <= i < |rs| ==> EncodeAll(rs, escape).value[i] == EncodeRecord(rs[i], escape).value
    decreases |rs|
  {
    if |rs| > 0 {
      var init, last := rs[..|rs| - 1], rs[|rs| - 1];
      EncodeAllSpec(init, escape);
      var head, tail := EncodeAll(init, escape), EncodeRecord(last, escape);
      if head.Success? && tail.Success? {
        var texts := head.value + [tail.value];
        assert EncodeAll(rs, escape) == Success(texts);
        forall i | 0 <= i < |rs|
          ensures EncodeRecord(rs[i], escape).Success? && texts[i] == EncodeRecord(rs[i], escape).value
        {
          if i < |init| { assert rs[i] == init[i]; }
        }
      } else if head.Failure? {
        var k :| 0 <= k < |init| && EncodeRecord(init[k], escape).Failure?;
        assert rs[k] == init[k];
      } else {
        assert rs[|rs| - 1] == last;
      }
    }
  }

  /** An array fails exactly when one of its objects fails to encode. */
  lemma {:induction false} ArrayFailsIff(rs: seq<Record>, escape: Escaper)
    ensures EncodeArray(rs, escape).Failure? <==> exists i :: 0 <= i < |rs| && !EncodableRecord(rs[i])
  {
    EncodeAllSpec(rs, escape);
    forall i | 0 <= i < |rs| {
      EncodeSucceedsIff(rs[i], escape);
    }
  }

  /** Two objects a and b give [a's text,b's text]. */
  lemma {:induction false} TwoElementFraming(a: Record, b: Record, escape: Escaper)
    requires EncodableRecord(a) && EncodableRecord(b)
    ensures EncodeRecord(a, escape).Success? && EncodeRecord(b, escape).Success?
    ensures EncodeArray([a, b], escape)
         == Success("[" + EncodeRecord(a, escape).value + "," + EncodeRecord(b, escape).value + "]")
  {
    EncodeSucceedsIff(a, escape);
    EncodeSucceedsIff(b, escape);
    var ta, tb := EncodeRecord(a, escape).value, EncodeRecord(b, escape).value;
    assert EncodeAll([a], escape) == Success([ta]) by {
      assert [a][..0] == [];
      assert [] + [ta] == [ta];
    }
    assert EncodeAll([a, b], escape) == Success([ta, tb]) by {
      assert [a, b][..1] == [a];
      assert [ta] + [tb] == [ta, tb];
    }
    assert Join([ta, tb], ",") == ta + "," + tb;
    assert EncodeArray([a, b], escape) == Success("[" + Join([ta, tb], ",") + "]");
    assert "[" + Join([ta, tb], ",") + "]" == "[" + ta + "," + tb + "]";
  }

  function Snapshots(os: seq<Obj>): seq<Record>
    reads set o | o in os
  {
    seq(|os|, i requires 0 <= i < |os| reads set o | o in os => os[i].Snapshot())
  }

  function ProjectedSnapshots(os: seq<Obj>, keep: set<string>): seq<Record>
    reads set o | o in os
  {
    seq(|os|, i requires 0 <= i < |os| reads set o | o in os => Record(os[i].tag, Project(os[i].props, keep)))
  }

  /** One more object that encodes extends the texts by its own. */
  lemma {:induction false} EncodeAllStep(rs: seq<Record>, i: nat, values: seq<string>, escape: Escaper)
    requires i < |rs| && EncodeAll(rs[..i], escape) == Success(values)
    requires EncodeRecord(rs[i], escape).Success?
    ensures EncodeAll(rs[..i + 1], escape) == Success(values + [EncodeRecord(rs[i], escape).value])
  {
    assert rs[..i + 1][..i] == rs[..i];
  }

  /** The first object that fails decides the array's result. */
  lemma {:induction false} EncodeAllStops(rs: seq<Record>, i: nat, values: seq<string>, escape: Escaper)
    requires i < |rs| && EncodeAll(rs[..i], escape) == Success(values)
    requires EncodeRecord(rs[i], escape).Failure?
    ensures EncodeArray(rs, escape) == Failure(EncodeRecord(rs[i], escape).error)
  {
    EncodeAllSpec(rs, escape);
    assert EncodeArray(rs, escape).error == EncodeRecord(rs[i], escape).error;
  }

  /** Json(objects): maps Json over the array and frames the texts. */
  method JsonObjects(objects: seq<Obj>, escape: Escaper) returns (res: Encoded<string>)
    ensures res == EncodeArray(Snapshots(objects), escape)
  {
    ghost var rs := Snapshots(objects);
    var values: seq<string> := [];
    for i := 0 to |objects|
      invariant EncodeAll(rs[..i], escape) == Success(values)
    {
      var text := Json(objects[i], escape);
      if text.Failure? {
        EncodeAllStops(rs, i, values, escape);
        return Failure(text.error);
      }
      EncodeAllStep(rs, i, values, escape);
      values := values + [text.value];
    }
    assert rs[..|objects|] == rs;
    res := Success("[" + Join(values, ",") + "]");
  }

  /** The objects of objects[..n] hold their projected properties, the
      others the properties recorded in before. */
  ghost predicate ProjectedUpTo(objects: seq<Obj>, n: nat, before: map<Obj, seq<Field>>, keep: set<string>)
    requires n <= |objects|
    reads set o | o in objects
  {
    forall o :: o in objects ==>
      o in before && o.props == (if o in objects[..n] then Project(before[o], keep) else before[o])
  }

  /** Projecting objects[n] in place, and nothing else, extends the prefix;
      prior records the properties just before. */
  lemma {:induction false} ProjectedStep(objects: seq<Obj>, n: nat, before: map<Obj, seq<Field>>, prior: map<Obj, seq<Field>>, keep: set<string>)
    requires n < |objects|
    requires forall o :: o in objects ==>
      o in before && o in prior && prior[o] == (if o in objects[..n] then Project(before[o], keep) else before[o])
    requires objects[n].props == Project(prior[objects[n]], keep)
    requires forall o :: o in objects && o != objects[n] ==> o.props == prior[o]
    ensures ProjectedUpTo(objects, n + 1, before, keep)
  {
    var o := objects[n];
    ProjectIdempotent(before[o], keep);
    assert objects[..n + 1] == objects[..n] + [o];
    forall p | p in objects
      ensures p in before && p.props == if p in objects[..n + 1] then Project(before[p], keep) else before[p]
    {
      if p != o {
        assert p in objects[..n + 1] <==> p in objects[..n];
      }
    }
  }

  /** One turn of the loop below: projects objects[n] and encodes it. */
  method ProjectNext(objects: seq<Obj>, n: nat, ghost before: map<Obj, seq<Field>>, keepSet: set<string>, escape: Escaper)
    returns (text: Encoded<string>)
    requires n < |objects| && ProjectedUpTo(objects, n, before, keepSet)
    modifies objects[n]
    ensures ProjectedUpTo(objects, n + 1, before, keepSet)
    ensures text == EncodeRecord(Record(objects[n].tag, Project(before[objects[n]], keepSet)), escape)
  {
    var o := objects[n];
    ghost var prior := map p | p in objects :: p.props;
    ProjectIdempotent(before[o], keepSet);
    text := JsonProjected(o, keepSet, escape);
    ProjectedStep(objects, n, before, prior, keepSet);
  }

  /** Json(objects, keep): projects and encodes each object in turn; when one
      fails, the objects before it and the failing one itself are already
      projected and the rest are untouched. */
  method JsonObjectsKeep(objects: seq<Obj>, keep: seq<string>, escape: Escaper)
    returns (res: Encoded<string>, ghost projected: nat)
    modifies set o | o in objects
    ensures res == EncodeArray(old(ProjectedSnapshots(objects, KeepSet(keep))), escape)
    ensures projected <= |objects| && (res.Success? ==> projected == |objects|)
    ensures res.Failure? ==>
      && 1 <= projected
      && EncodeAll(old(ProjectedSnapshots(objects, KeepSet(keep)))[..projected - 1], escape).Success?
      && EncodeRecord(old(ProjectedSnapshots(objects, KeepSet(keep)))[projected - 1], escape).Failure?
    ensures forall o :: o in objects ==>
      o.props == if o in objects[..projected] then Project(old(o.props), KeepSet(keep)) else old(o.props)
  {
    var keepSet := KeepSet(keep);
    ghost var rs := ProjectedSnapshots(objects, keepSet);
    ghost var before := map o | o in objects :: o.props;
    var values: seq<string> := [];
    var i := 0;
    while i < |objects|
      invariant 0 <= i <= |objects|
      invariant EncodeAll(rs[..i], escape) == Success(values)
      invariant ProjectedUpTo(objects, i, before, keepSet)
    {
      assert rs[i] == Record(objects[i].tag, Project(before[objects[i]], keepSet));
      var text := ProjectNext(objects, i, before, keepSet, escape);
      if text.Failure? {
        EncodeAllStops(rs, i, values, escape);
        return Failure(text.error), i + 1;
      }
      EncodeAllStep(rs, i, values, escape);
      values := values + [text.value];
      i := i + 1;
    }
    assert rs[..|objects|] == rs;
    assert objects[..i] == objects;
    res, projected := Success("[" + Join(values, ",") + "]"), i;
  }

  // ---------------------------------------------------------------------
  // Scalar arrays
  // ---------------------------------------------------------------------

  function DecimalTexts(a: seq<UInt32>): seq<string>
  {
    seq(|a|, i requires 0 <= i < |a| => Decimal(a[i]))
  }

  /** JsonArray(uint[]): the decimal texts joined by "," inside brackets. */
  function JsonArray(intArray: seq<UInt32>): (s: string)
    ensures |intArray| == 0 ==> s == "[]"
    ensures |s| >= 2 && s[0] == '[' && s[|s| - 1] == ']'
    ensures forall k :: 1 <= k < |s| - 1 ==> IsDigit(s[k]) || s[k] == ','
  {
    var texts := DecimalTexts(intArray);
    JoinDigits(texts, ',');
    var s := "[" + Join(texts, ",") + "]";
    assert forall k :: 1 <= k < |s| - 1 ==> s[k] == Join(texts, [','])[k - 1];
    s
  }

  /** Joining digit strings with a separator leaves only digits and separators. */
  lemma {:induction false} JoinDigits(parts: seq<string>, sep: char)
    requires forall k :: 0 <= k < |parts| ==> AllDigits(parts[k])
    ensures forall k :: 0 <= k < |Join(parts, [sep])| ==> IsDigit(Join(parts, [sep])[k]) || Join(parts, [sep])[k] == sep
    decreases |parts|
  {
    if |parts| > 1 {
      JoinDigits(parts[1..], sep);
      var j := Join(parts, [sep]);
      assert j == parts[0] + [sep] + Join(parts[1..], [sep]);
      forall k | 0 <= k < |j| ensures IsDigit(j[k]) || j[k] == sep {
        if k < |parts[0]| {
          assert j[k] == parts[0][k];
        } else if k > |parts[0]| {
          assert j[k] == Join(parts[1..], [sep])[k - |parts[0]| - 1];
        }
      }
    }
  }

  /** A reader for the texts JsonArray writes. */
  function ParseUIntArray(s: string): Option<seq<int>>
  {
    if |s| < 2 || s[0] != '[' || s[|s| - 1] != ']' then None
    else
      var inner := s[1..|s| - 1];
      if inner == "" then Some([])
      else
        var parts := Split(inner, ',');
        if forall k :: 0 <= k < |parts| ==> AllDigits(parts[k]) then Some(DecimalValues(parts))
        else None
  }

  function DecimalValues(parts: seq<string>): seq<int>
    requires forall k :: 0 <= k < |parts| ==> AllDigits(parts[k])
  {
    seq(|parts|, k requires 0 <= k < |parts| => DecimalValue(parts[k]))
  }

  /** Reading JsonArray's text back gives the array it was written from. */
  lemma {:induction false} JsonArrayRoundTrip(a: seq<UInt32>)
    ensures ParseUIntArray(JsonArray(a)).Some?
    ensures ParseUIntArray(JsonArray(a)).value == seq(|a|, i requires 0 <= i < |a| => a[i] as int)
  {
    var texts := DecimalTexts(a);
    var s := JsonArray(a);
    assert s[1..|s| - 1] == Join(texts, ",");
    if |a| > 0 {
      SplitDecimalTexts(a);
      DecimalTextsValues(a);
    }
  }

  /** The joined decimal texts split back into the texts. */
  lemma {:induction false} SplitDecimalTexts(a: seq<UInt32>)
    requires |a| > 0
    ensures Join(DecimalTexts(a), ",") != ""
    ensures Split(Join(DecimalTexts(a), ","), ',') == DecimalTexts(a)
  {
    var texts := DecimalTexts(a);
    forall k | 0 <= k < |texts| ensures ',' !in texts[k] {
      NoDigitIsSeparator(a[k], ',');
    }
    SplitJoin(texts, ',');
    JoinNonEmpty(texts, ",");
  }

  /** Each decimal text reads back as its number. */
  lemma {:induction false} DecimalTextsValues(a: seq<UInt32>)
    ensures forall k :: 0 <= k < |a| ==> AllDigits(DecimalTexts(a)[k])
    ensures DecimalValues(DecimalTexts(a)) == seq(|a|, i requires 0 <= i < |a| => a[i] as int)
  {
    forall k | 0 <= k < |a| ensures DecimalValue(DecimalTexts(a)[k]) == a[k] {
      DecimalRoundTrip(a[k]);
    }
  }

  lemma {:induction false} JoinNonEmpty(parts: seq<string>, sep: string)
    requires |parts| >= 1 && |parts[0]| >= 1
    ensures |Join(parts, sep)| >= 1
  {
  }

  /** The text StrArray's loop accumulates between the brackets. */
  function QuotedWithCommas(stra: seq<string>): (r: string)
    ensures r == "" <==> |stra| == 0
    ensures |stra| > 0 ==> |r| >= 3 && r[0] == '"' && r[|r| - 1] == ','
  {
    if |stra| == 0 then "" else QuotedWithCommas(stra[..|stra| - 1]) + "\"" + stra[|stra| - 1] + "\","
  }

  function Quoted(stra: seq<string>): seq<string>
  {
    seq(|stra|, i requires 0 <= i < |stra| => "\"" + stra[i] + "\"")
  }

  /** StrArray(string[]), as written: elements are quoted but not escaped and
      each is followed by a comma, the last one too. */
  method StrArray(stra: seq<string>) returns (str: string)
    ensures str == "[" + QuotedWithCommas(stra) + "]"
  {
    str := "[";
    for i := 0 to |stra|
      invariant str == "[" + QuotedWithCommas(stra[..i])
    {
      assert stra[..i + 1][..i] == stra[..i];
      str := str + "\"" + stra[i] + "\",";
    }
    assert stra[..|stra|] == stra;
    str := str + "]";
  }

  /** QuotedWithCommas is the properly joined list plus one trailing comma. */
  lemma {:induction false} QuotedWithCommasIsJoinPlusComma(stra: seq<string>)
    requires |stra| >= 1
    ensures QuotedWithCommas(stra) == Join(Quoted(stra), ",") + ","
    decreases |stra|
  {
    if |stra| > 1 {
      var init := stra[..|stra| - 1];
      QuotedWithCommasIsJoinPlusComma(init);
      JoinSnoc(Quoted(init), "\"" + stra[|stra| - 1] + "\"", ",");
      assert Quoted(init) + ["\"" + stra[|stra| - 1] + "\""] == Quoted(stra);
    } else {
      assert stra[..0] == [];
    }
  }

  lemma {:induction false} JoinSnoc(parts: seq<string>, last: string, sep: string)
    requires |parts| >= 1
    ensures Join(parts + [last], sep) == Join(parts, sep) + sep + last
    decreases |parts|
  {
    if |parts| > 1 {
      assert (parts + [last])[1..] == parts[1..] + [last];
      JoinSnoc(parts[1..], last, sep);
    }
  }

  /** The output for a non-empty array ends in ",]", which is not JSON. */
  lemma {:induction false} StrArrayTrailingComma(stra: seq<string>)
    requires |stra| >= 1
    ensures "[" + QuotedWithCommas(stra) + "]" == "[" + Join(Quoted(stra), ",") + ",]"
  {
    QuotedWithCommasIsJoinPlusComma(stra);
  }

  /** The array StrArray evidently means to write. */
  function StrArrayFramed(stra: seq<string>): (str: string)
    ensures |stra| == 0 ==> str == "[]"
    ensures |stra| >= 1 ==> |str| >= 4 && str[|str| - 2..] == "\"]"
  {
    var q := Quoted(stra);
    if |q| >= 1 then JoinEndsWithLast(q, ","); "[" + Join(q, ",") + "]"
    else "[]"
  }

  /** As written the output is the intended one with a comma slipped in
      before the closing bracket. */
  lemma {:induction false} StrArrayExtraComma(stra: seq<string>)
    requires |stra| >= 1
    ensures "[" + QuotedWithCommas(stra) + "]" == StrArrayFramed(stra)[..|StrArrayFramed(stra)| - 1] + ",]"
  {
    StrArrayTrailingComma(stra);
    var j := "[" + Join(Quoted(stra), ",");
    assert StrArrayFramed(stra) == j + "]";
    assert StrArrayFramed(stra)[..|StrArrayFramed(stra)| - 1] == j;
  }

  lemma {:induction false} JoinEndsWithLast(parts: seq<string>, sep: string)
    requires |parts| >= 1
    ensures |Join(parts, sep)| >= |parts[|parts| - 1]|
    ensures Join(parts, sep)[|Join(parts, sep)| - |parts[|parts| - 1]|..] == parts[|parts| - 1]
    decreases |parts|
  {
    if |parts| > 1 {
      JoinEndsWithLast(parts[1..], sep);
    }
  }

  // ---------------------------------------------------------------------
  // Concrete cases
  // ---------------------------------------------------------------------

  /** A single pair renders as a one-entry object. */
  lemma {:induction false} SinglePair(name: string, text: string)
    ensures Render([(name, text)]) == "{\"" + name + "\":" + text + "}"
  {
    assert PairTexts([(name, text)]) == [PairText(name, text)];
  }

  lemma {:induction false} TwoFieldProperties(f: Field, g: Field, escape: Escaper)
    ensures EncodeProperties([f, g], escape) == Collect(Collect(Success([]), f, escape), g, escape)
  {
    PropertiesSnoc([], f, escape);
    PropertiesSnoc([f], g, escape);
    assert [] + [f] == [f] && [f] + [g] == [f, g];
  }

  lemma {:induction false} DecimalThousand()
    ensures Decimal(1000) == "1000"
  {
    assert Decimal(1) == "1";
    assert Decimal(10) == "10";
    assert Decimal(100) == "100";
  }

  /** PriceData{buy = 1000, rent = null} encodes to {"buy":1000}. */
  lemma {:induction false} PriceExample(escape: Escaper)
    ensures EncodeRecord(Record(PriceData, [Field("buy", UInt(1000)), Field("rent", Null)]), escape)
         == Success("{\"buy\":1000}")
  {
    DecimalThousand();
    var buy, rent := Field("buy", UInt(1000)), Field("rent", Null);
    TwoFieldProperties(buy, rent, escape);
    assert [] + [("buy", "1000")] == [("buy", "1000")];
    assert Collect(Success([]), buy, escape) == Success([("buy", "1000")]);
    assert EncodeProperties([buy, rent], escape) == Success([("buy", "1000")]);
    SinglePair("buy", "1000");
    assert "{\"" + "buy" + "\":" + "1000" + "}" == "{\"buy\":1000}";
  }

  /** Projecting a ProductData on {"title"} drops the description whatever it was. */
  lemma {:induction false} ProjectionExample(title: string, description: Value, escape: Escaper)
    ensures EncodeRecord(Record(ProductData, Project([Field("title", Str(title)), Field("description", description)], {"title"})), escape)
         == Success("{\"title\":" + escape(title) + "}")
  {
    var p := Project([Field("title", Str(title)), Field("description", description)], {"title"});
    assert p == [Field("title", Str(title)), Field("description", Null)];
    TwoFieldProperties(p[0], p[1], escape);
    assert [] + [("title", escape(title))] == [("title", escape(title))];
    assert Collect(Success([]), p[0], escape) == Success([("title", escape(title))]);
    assert EncodeProperties(p, escape) == Success([("title", escape(title))]);
    SinglePair("title", escape(title));
    assert "{\"" + "title" + "\":" + escape(title) + "}" == "{\"title\":" + escape(title) + "}";
  }
}
