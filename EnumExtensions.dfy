/**
 * `EnumExtensions`: the guard in front of parsing, and the metadata lookups
 * that fall back from a display name to a description to the constant's name
 * (the flag arithmetic is in `EnumFlags`).
 *
 * Reflection is replaced by an explicit table of the enum's fields: each field
 * has a name, a value and, optionally, the text of its `[Description]` and
 * `[Display(Name = …)]` attributes.
 */
module EnumExtensions {
  import opened Wrappers
  import Strings

  /** One named constant of an enum, with the attributes the library reads. */
  datatype EnumField = EnumField(name: string, value: int, description: Option<string>, displayName: Option<string>)

  /** The C# compiler admits no two constants of one enum with the same name. */
  predicate DistinctNames(fields: seq<EnumField>) {
    forall i, j :: 0 <= i < j < |fields| ==> fields[i].name != fields[j].name
  }

  /** `GetType().GetField(name)`: the field of that name, if there is one. */
  function GetField(fields: seq<EnumField>, name: string): (r: Option<EnumField>)
    ensures r.Some? ==> r.value in fields && r.value.name == name
    ensures r.None? ==> forall i :: 0 <= i < |fields| ==> fields[i].name != name
  {
    if fields == [] then None
    else if fields[0].name == name then Some(fields[0])
    else GetField(fields[1..], name)
  }

  /** `text` stands for `value.ToString()`: the constant's name for a defined value,
      and whatever .NET prints otherwise. */
  function GetDescription(fields: seq<EnumField>, text: string): (r: string)
    ensures r == text || exists i :: 0 <= i < |fields| && fields[i].name == text && fields[i].description == Some(r)
  {
    match GetField(fields, text)
    case None => text
    case Some(field) => field.description.GetOr(text)
  }

  function GetDisplayName(fields: seq<EnumField>, text: string): (r: string)
    ensures r == GetDescription(fields, text) ||
      exists i :: 0 <= i < |fields| && fields[i].name == text && fields[i].displayName == Some(r)
  {
    match GetField(fields, text)
    case None => text
    case Some(field) => field.displayName.GetOr(GetDescription(fields, text))
  }

  /** The field named `fields[i].name` is `fields[i]` itself. */
  lemma {:induction false} GetFieldOfMember(fields: seq<EnumField>, i: int)
    requires DistinctNames(fields) && 0 <= i < |fields|
    ensures GetField(fields, fields[i].name) == Some(fields[i])
  {
    if i > 0 {
      assert fields[0].name != fields[i].name;
      assert fields[1..][i - 1] == fields[i];
      GetFieldOfMember(fields[1..], i - 1);
    }
  }

  /** The fallback chain for a member: its description if it has one, else its name;
      its display name if it has one, else that description. */
  lemma MetadataFallback(fields: seq<EnumField>, i: int)
    requires DistinctNames(fields) && 0 <= i < |fields|
    ensures GetDescription(fields, fields[i].name) ==
      (if fields[i].description.Some? then fields[i].description.value else fields[i].name)
    ensures GetDisplayName(fields, fields[i].name) ==
      (if fields[i].displayName.Some? then fields[i].displayName.value else GetDescription(fields, fields[i].name))
  {
    GetFieldOfMember(fields, i);
  }

  /** A text naming no member comes back unchanged from both lookups. */
  lemma UnknownTextFallsBack(fields: seq<EnumField>, text: string)
    requires forall i :: 0 <= i < |fields| ==> fields[i].name != text
    ensures GetDescription(fields, text) == text && GetDisplayName(fields, text) == text
  {
  }

  /** No two constants share a value. */
  predicate DistinctValues(fields: seq<EnumField>) {
    forall i, j :: 0 <= i < j < |fields| ==> fields[i].value != fields[j].value
  }

  /** The error `Enumerable.ToDictionary` raises for a repeated key. */
  datatype DictionaryError = DuplicateKey(key: int)

  /** `ToDictionary` over `rest`, a suffix of the constants in declaration order:
      each value maps to the description of its own constant. */
  function DescriptionsOf(fields: seq<EnumField>, rest: seq<EnumField>): (r: Result<map<int, string>, DictionaryError>)
    ensures r.Success? <==> DistinctValues(rest)
    ensures r.Success? ==> r.value.Keys == set i | 0 <= i < |rest| :: rest[i].value
    ensures r.Success? ==> forall i :: 0 <= i < |rest| ==> r.value[rest[i].value] == GetDescription(fields, rest[i].name)
  {
    if rest == [] then Success(map[])
    else
      var f := rest[0];
      match DescriptionsOf(fields, rest[1..])
      case Failure(e) =>
        assert !DistinctValues(rest) by {
          var i, j :| 0 <= i < j < |rest[1..]| && rest[1..][i].value == rest[1..][j].value;
          assert rest[i + 1].value == rest[j + 1].value;
        }
        Failure(e)
      case Success(m) =>
        if f.value in m then
          assert !DistinctValues(rest) by {
            var j :| 0 <= j < |rest[1..]| && rest[1..][j].value == f.value;
            assert rest[j + 1].value == rest[0].value;
          }
          Failure(DuplicateKey(f.value))
        else
          ExtendDescriptions(fields, rest, m);
          Success(m[f.value := GetDescription(fields, f.name)])
  }

  /** The step of `DescriptionsOf`: a constant whose value is new joins the map. */
  lemma ExtendDescriptions(fields: seq<EnumField>, rest: seq<EnumField>, m: map<int, string>)
    requires rest != [] && rest[0].value !in m && DistinctValues(rest[1..])
    requires m.Keys == set i | 0 <= i < |rest[1..]| :: rest[1..][i].value
    requires forall i :: 0 <= i < |rest[1..]| ==> m[rest[1..][i].value] == GetDescription(fields, rest[1..][i].name)
    ensures DistinctValues(rest)
    ensures m[rest[0].value := GetDescription(fields, rest[0].name)].Keys == set i | 0 <= i < |rest| :: rest[i].value
    ensures forall i :: 0 <= i < |rest| ==>
      m[rest[0].value := GetDescription(fields, rest[0].name)][rest[i].value] == GetDescription(fields, rest[i].name)
  {
    var f := rest[0];
    var d := m[f.value := GetDescription(fields, f.name)];
    forall i, j | 0 <= i < j < |rest| ensures rest[i].value != rest[j].value {
      assert rest[j].value == rest[1..][j - 1].value;
      if i > 0 {
        assert rest[i].value == rest[1..][i - 1].value;
      }
    }
    forall x | x in set i | 0 <= i < |rest| :: rest[i].value ensures x in d.Keys {
      var i :| 0 <= i < |rest| && rest[i].value == x;
      if i > 0 { assert rest[1..][i - 1].value == x; }
    }
    forall x | x in d.Keys ensures x in set i | 0 <= i < |rest| :: rest[i].value {
      if x != f.value {
        var i :| 0 <= i < |rest[1..]| && rest[1..][i].value == x;
        assert rest[i + 1].value == x;
      }
    }
    forall i | 0 <= i < |rest| ensures d[rest[i].value] == GetDescription(fields, rest[i].name) {
      if i > 0 {
        assert rest[i] == rest[1..][i - 1];
      }
    }
  }

  /** `ToDictionary<TEnum>()`: each value to `GetDescription`; a value declared twice
      makes `Enumerable.ToDictionary` throw. */
  function ToDictionary(fields: seq<EnumField>): (r: Result<map<int, string>, DictionaryError>)
    ensures r.Success? <==> DistinctValues(fields)
    ensures r.Success? ==> r.value.Keys == set i | 0 <= i < |fields| :: fields[i].value
  {
    DescriptionsOf(fields, fields)
  }

  /** With distinct values, each value maps to its constant's description, or to the
      constant's name when it has none. */
  lemma ToDictionaryDescribesEveryMember(fields: seq<EnumField>, i: int)
    requires DistinctNames(fields) && DistinctValues(fields) && 0 <= i < |fields|
    ensures ToDictionary(fields).Success?
    ensures ToDictionary(fields).value[fields[i].value] ==
      (if fields[i].description.Some? then fields[i].description.value else fields[i].name)
  {
    MetadataFallback(fields, i);
  }

  /** The exception `ToEnum` throws before parsing. */
  datatype ParseError = ArgumentException(message: string, paramName: string) | ParseFailed

  /** `ToEnum`: null or white space is rejected; anything else goes to `parse`, which
      stands for `Enum.Parse` with the chosen case sensitivity. */
  function ToEnum(value: Option<string>, parse: string -> Result<int, ParseError>): (r: Result<int, ParseError>)
    ensures Strings.IsNullOrWhiteSpace(value) ==> r == Failure(ArgumentException("Value cannot be null or empty.", "value"))
    ensures !Strings.IsNullOrWhiteSpace(value) ==> r == parse(value.value)
  {
    if Strings.IsNullOrWhiteSpace(value) then Failure(ArgumentException("Value cannot be null or empty.", "value"))
    else parse(value.value)
  }

  /* ---------- The library's sample enum ---------- */

  const SampleEnum: seq<EnumField> := [
    EnumField("First", 1, Some("First Value"), Some("First")),
    EnumField("Second", 2, Some("Second Value"), Some("Second")),
    EnumField("Third", 4, None, None)]

  lemma SampleEnumIsWellFormed()
    ensures DistinctNames(SampleEnum) && DistinctValues(SampleEnum)
  {
  }

  lemma MetadataExamples()
    ensures GetDescription(SampleEnum, "First") == "First Value" && GetDescription(SampleEnum, "Second") == "Second Value"
    ensures GetDescription(SampleEnum, "Third") == "Third"
    ensures GetDisplayName(SampleEnum, "First") == "First" && GetDisplayName(SampleEnum, "Second") == "Second"
    ensures GetDisplayName(SampleEnum, "Third") == "Third"
  {
    SampleEnumIsWellFormed();
    MetadataFallback(SampleEnum, 0);
    MetadataFallback(SampleEnum, 1);
    MetadataFallback(SampleEnum, 2);
  }

  lemma ToDictionaryExample()
    ensures ToDictionary(SampleEnum).Success?
    ensures ToDictionary(SampleEnum).value[1] == "First Value" && ToDictionary(SampleEnum).value[2] == "Second Value"
    ensures ToDictionary(SampleEnum).value[4] == "Third"
  {
    SampleEnumIsWellFormed();
    ToDictionaryDescribesEveryMember(SampleEnum, 0);
    ToDictionaryDescribesEveryMember(SampleEnum, 1);
    ToDictionaryDescribesEveryMember(SampleEnum, 2);
  }

  lemma ToEnumRejectsBlank(parse: string -> Result<int, ParseError>)
    ensures ToEnum(Some(""), parse).Failure? && ToEnum(None, parse).Failure? && ToEnum(Some(" \t"), parse).Failure?
  {
    assert Strings.IsNullOrWhiteSpace(Some(" \t"));
  }
}
