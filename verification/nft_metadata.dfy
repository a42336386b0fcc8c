/**
 * The token metadata the NFT helpers and components read: the outcome of fetching the gateway
 * URL, the parsed JSON value, and the property look-ups made on it (`attributes`, `name`,
 * `image`), including the look-ups that throw a TypeError in JavaScript.
 */
module NftMetadata {
  import opened Wrappers

  /** A value `JSON.parse` can return. Numbers are kept as integers. */
  datatype Json =
    | JNull
    | JBool(b: bool)
    | JNumber(n: int)
    | JString(s: string)
    | JArray(items: seq<Json>)
    | JObject(fields: map<string, Json>)

  /** What `fetch(url)` followed by reading and parsing the body gives. */
  datatype Body = Malformed | Parsed(value: Json)

  /** `fetch` or reading the body threw, or a response arrived with this status and body. */
  datatype Fetched = NetworkError | Response(status: nat, body: Body)

  /** An evaluation that either throws or returns a value. */
  datatype Outcome<T> = Throws | Returns(value: T)

  /** `response.ok`: a status in the range 200-299. */
  predicate Ok(status: nat) {
    200 <= status <= 299
  }

  /** JavaScript truthiness of a JSON value. */
  predicate Truthy(j: Json) {
    match j
    case JNull => false
    case JBool(b) => b
    case JNumber(n) => n != 0
    case JString(s) => s != ""
    case _ => true
  }

  /** `typeof j === "object"` (true for null as well). */
  predicate TypeofObject(j: Json) {
    j.JNull? || j.JArray? || j.JObject?
  }

  /** `!metadata || typeof metadata !== "object"` rejects the value. */
  predicate BadStructure(j: Json) {
    !Truthy(j) || !TypeofObject(j)
  }

  /** Only arrays and objects pass the structure check. */
  lemma {:induction false} StructureAccepts(j: Json)
    ensures !BadStructure(j) <==> j.JArray? || j.JObject?
  {
  }

  /** `j.key` on a non-null value: the field of an object, undefined (None) otherwise. */
  function Prop(j: Json, key: string): (r: Option<Json>)
    ensures r.Some? ==> j.JObject? && key in j.fields && r.value == j.fields[key]
  {
    if j.JObject? && key in j.fields then Some(j.fields[key]) else None
  }

  /** `attr.trait_type === "Vehicle"`. */
  predicate IsVehicle(attr: Json) {
    Prop(attr, "trait_type") == Some(JString("Vehicle"))
  }

  /**
   * `items.find(attr => attr.trait_type === "Vehicle")`: the first element that is a "Vehicle"
   * attribute; reading `trait_type` of a null element throws.
   */
  function FindVehicle(items: seq<Json>): Outcome<Option<Json>> {
    if items == [] then Returns(None)
    else if items[0].JNull? then Throws
    else if IsVehicle(items[0]) then Returns(Some(items[0]))
    else FindVehicle(items[1..])
  }

  /** Element `i` is the first "Vehicle" attribute and no null element comes before it. */
  predicate FirstVehicleAt(items: seq<Json>, i: int) {
    0 <= i < |items| && IsVehicle(items[i]) &&
    forall j :: 0 <= j < i ==> items[j] != JNull && !IsVehicle(items[j])
  }

  /** `find` returns the first "Vehicle" attribute when no null element comes before it. */
  lemma {:induction false} FindVehicleFinds(items: seq<Json>, i: int)
    requires FirstVehicleAt(items, i)
    ensures FindVehicle(items) == Returns(Some(items[i]))
    decreases i
  {
    if i > 0 {
      assert items[0] != JNull && !IsVehicle(items[0]);
      var rest := items[1..];
      assert FirstVehicleAt(rest, i - 1) by {
        forall j | 0 <= j < i - 1 ensures rest[j] != JNull && !IsVehicle(rest[j]) {
          assert rest[j] == items[j + 1];
        }
      }
      FindVehicleFinds(rest, i - 1);
    }
  }

  /** When `find` returns an attribute, it is the first "Vehicle" attribute and nothing before it is null. */
  lemma {:induction false} FindVehicleFound(items: seq<Json>) returns (i: int)
    requires FindVehicle(items).Returns? && FindVehicle(items).value.Some?
    ensures FirstVehicleAt(items, i) && FindVehicle(items).value.value == items[i]
    decreases |items|
  {
    if IsVehicle(items[0]) {
      i := 0;
    } else {
      var rest := items[1..];
      var k := FindVehicleFound(rest);
      i := k + 1;
      forall j | 0 <= j < i ensures items[j] != JNull && !IsVehicle(items[j]) {
        if j > 0 { assert items[j] == rest[j - 1]; }
      }
    }
  }

  /** `find` returns undefined exactly when no element is null or a "Vehicle" attribute. */
  lemma {:induction false} FindVehicleUndefined(items: seq<Json>)
    ensures FindVehicle(items) == Returns(None) <==>
      forall j :: 0 <= j < |items| ==> items[j] != JNull && !IsVehicle(items[j])
    decreases |items|
  {
    if items != [] && items[0] != JNull && !IsVehicle(items[0]) {
      var rest := items[1..];
      FindVehicleUndefined(rest);
      if FindVehicle(items) == Returns(None) {
        forall j | 0 <= j < |items| ensures items[j] != JNull && !IsVehicle(items[j]) {
          if j > 0 { assert items[j] == rest[j - 1]; }
        }
      }
      if forall j :: 0 <= j < |items| ==> items[j] != JNull && !IsVehicle(items[j]) {
        forall j | 0 <= j < |rest| ensures rest[j] != JNull && !IsVehicle(rest[j]) {
          assert rest[j] == items[j + 1];
        }
      }
    } else if items != [] {
      assert items[0] == JNull || IsVehicle(items[0]);
    }
  }

  /** `find` throws exactly when a null element comes before every "Vehicle" attribute. */
  lemma {:induction false} FindVehicleThrows(items: seq<Json>)
    ensures FindVehicle(items).Throws? <==>
      exists i :: 0 <= i < |items| && items[i] == JNull && forall j :: 0 <= j < i ==> !IsVehicle(items[j])
    decreases |items|
  {
    if items == [] {
    } else if items[0] == JNull {
      assert items[0] == JNull;
    } else if IsVehicle(items[0]) {
      assert items[0] != JNull;
    } else {
      var rest := items[1..];
      FindVehicleThrows(rest);
      if FindVehicle(items).Throws? {
        var i :| 0 <= i < |rest| && rest[i] == JNull && forall j :: 0 <= j < i ==> !IsVehicle(rest[j]);
        assert items[i + 1] == JNull;
        forall j | 0 <= j < i + 1 ensures !IsVehicle(items[j]) {
          if j > 0 { assert items[j] == rest[j - 1]; }
        }
      }
      if exists i :: 0 <= i < |items| && items[i] == JNull && forall j :: 0 <= j < i ==> !IsVehicle(items[j]) {
        var i :| 0 <= i < |items| && items[i] == JNull && forall j :: 0 <= j < i ==> !IsVehicle(items[j]);
        assert i > 0;
        assert rest[i - 1] == JNull;
        forall j | 0 <= j < i - 1 ensures !IsVehicle(rest[j]) {
          assert rest[j] == items[j + 1];
        }
      }
    }
  }

  /** Once a "Vehicle" attribute is reached, the elements after it are never looked at. */
  lemma {:induction false} FindVehicleIgnoresLater(before: seq<Json>, attr: Json, after: seq<Json>)
    requires forall j :: 0 <= j < |before| ==> before[j] != JNull && !IsVehicle(before[j])
    requires IsVehicle(attr)
    ensures FindVehicle(before + [attr] + after) == Returns(Some(attr))
    decreases |before|
  {
    var items := before + [attr] + after;
    if before == [] {
      assert items[0] == attr;
    } else {
      assert items[0] == before[0];
      assert items[1..] == before[1..] + [attr] + after;
      FindVehicleIgnoresLater(before[1..], attr, after);
    }
  }

  /**
   * `metadata.attributes?.find(...)`: undefined when there are no attributes (or they are
   * null); the search when they are an array; a TypeError for anything else, which has no
   * `find` method.
   */
  function VehicleAttribute(metadata: Json): Outcome<Option<Json>> {
    match Prop(metadata, "attributes")
    case None => Returns(None)
    case Some(JNull) => Returns(None)
    case Some(JArray(items)) => FindVehicle(items)
    case Some(_) => Throws
  }

  /** Where the display name came from. */
  datatype NameChoice = Vehicle(value: Json) | Named(name: Json) | NoName

  /**
   * `vehicleAttribute?.value` if truthy, else `metadata.name` if truthy, else neither;
   * throws when the attribute search throws.
   */
  function ChooseName(metadata: Json): (r: Outcome<NameChoice>)
    ensures r == Returns(NoName) || r.Throws? || (r.Returns? && r.value.Vehicle? && Truthy(r.value.value))
      || (r.Returns? && r.value.Named? && Truthy(r.value.name))
  {
    match VehicleAttribute(metadata)
    case Throws => Throws
    case Returns(found) =>
      var value := if found.Some? then Prop(found.value, "value") else None;
      if value.Some? && Truthy(value.value) then Returns(Vehicle(value.value))
      else
        var name := Prop(metadata, "name");
        if name.Some? && Truthy(name.value) then Returns(Named(name.value))
        else Returns(NoName)
  }

  /**
   * The first "Vehicle" attribute with a truthy value wins over `name` and over any later
   * "Vehicle" attribute.
   */
  lemma {:induction false} VehicleWins(fields: map<string, Json>, before: seq<Json>, attr: Json, after: seq<Json>)
    requires "attributes" in fields && fields["attributes"] == JArray(before + [attr] + after)
    requires forall j :: 0 <= j < |before| ==> before[j] != JNull && !IsVehicle(before[j])
    requires IsVehicle(attr) && Prop(attr, "value").Some? && Truthy(Prop(attr, "value").value)
    ensures ChooseName(JObject(fields)) == Returns(Vehicle(Prop(attr, "value").value))
  {
    FindVehicleIgnoresLater(before, attr, after);
  }

  /** Without a "Vehicle" attribute among the attributes, a truthy `name` is the display name. */
  lemma {:induction false} NameWithoutVehicle(fields: map<string, Json>)
    requires "attributes" !in fields || fields["attributes"] == JNull ||
      (fields["attributes"].JArray? && forall j :: 0 <= j < |fields["attributes"].items| ==>
        fields["attributes"].items[j] != JNull && !IsVehicle(fields["attributes"].items[j]))
    requires "name" in fields && Truthy(fields["name"])
    ensures ChooseName(JObject(fields)) == Returns(Named(fields["name"]))
  {
    if "attributes" in fields && fields["attributes"].JArray? {
      FindVehicleUndefined(fields["attributes"].items);
    }
  }

  /** A "Vehicle" attribute whose value is falsy gives way to `name`. */
  lemma {:induction false} FalsyVehicleFallsBack(fields: map<string, Json>, before: seq<Json>, attr: Json, after: seq<Json>)
    requires "attributes" in fields && fields["attributes"] == JArray(before + [attr] + after)
    requires forall j :: 0 <= j < |before| ==> before[j] != JNull && !IsVehicle(before[j])
    requires IsVehicle(attr) && (Prop(attr, "value").None? || !Truthy(Prop(attr, "value").value))
    ensures ChooseName(JObject(fields)) ==
      if "name" in fields && Truthy(fields["name"]) then Returns(Named(fields["name"])) else Returns(NoName)
  {
    FindVehicleIgnoresLater(before, attr, after);
  }

  /** Attributes that are neither absent, null nor an array make the look-up throw. */
  lemma {:induction false} AttributesNotArrayThrows(fields: map<string, Json>)
    requires "attributes" in fields && fields["attributes"] != JNull && !fields["attributes"].JArray?
    ensures ChooseName(JObject(fields)) == Throws
  {
  }
}
