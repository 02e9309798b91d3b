/**
  The advocate validation schema: a parsed JSON value is accepted as an
  advocate record iff every one of seven field checks passes; otherwise the
  failing fields are reported in schema order.
 */
module Schema {
  import opened Common
  import opened AdvocateTypes

  /** A parsed JSON value; numbers are exact reals. */
  datatype Json =
    | JNull
    | JBool(b: bool)
    | JNumber(n: real)
    | JString(s: string)
    | JArray(items: seq<Json>)
    | JObject(fields: map<string, Json>)

  /** The checked fields of the schema. */
  datatype Field = FirstName | LastName | City | Degree | Specialties | YearsOfExperience | PhoneNumber

  /** Where validation failed: the input as a whole, or one field. */
  datatype Issue = NotAnObject | FieldIssue(field: Field)

  /** The fields in the order the schema declares them. */
  const Fields: seq<Field> := [FirstName, LastName, City, Degree, Specialties, YearsOfExperience, PhoneNumber]

  /** The object key of each field. */
  function Key(f: Field): string {
    match f
    case FirstName => "firstName"
    case LastName => "lastName"
    case City => "city"
    case Degree => "degree"
    case Specialties => "specialties"
    case YearsOfExperience => "yearsOfExperience"
    case PhoneNumber => "phoneNumber"
  }

  lemma KeyInjective(f: Field, g: Field)
    requires f != g
    ensures Key(f) != Key(g)
  {
    assert |Key(f)| != |Key(g)| || Key(f)[0] != Key(g)[0];
  }

  /** A string of length at least one. */
  predicate NonEmptyString(v: Option<Json>) {
    v.Some? && v.value.JString? && |v.value.s| >= 1
  }

  /** An array whose every element is a string (the empty array included). */
  predicate StringList(v: Option<Json>) {
    v.Some? && v.value.JArray? && forall i :: 0 <= i < |v.value.items| ==> v.value.items[i].JString?
  }

  predicate IsInteger(n: real) {
    n.Floor as real == n
  }

  /** A number that is an integer and strictly greater than zero. */
  predicate PositiveInt(v: Option<Json>) {
    v.Some? && v.value.JNumber? && IsInteger(v.value.n) && v.value.n > 0.0
  }

  function Lookup(obj: map<string, Json>, key: string): Option<Json> {
    if key in obj then Some(obj[key]) else None
  }

  /** The check the schema applies to field `f`. */
  predicate FieldOk(obj: map<string, Json>, f: Field) {
    var v := Lookup(obj, Key(f));
    match f
    case Specialties => StringList(v)
    case YearsOfExperience => PositiveInt(v)
    case PhoneNumber => PositiveInt(v)
    case _ => NonEmptyString(v)
  }

  /** Every field passes its check. */
  predicate AllFieldsOk(obj: map<string, Json>) {
    && FieldOk(obj, FirstName) && FieldOk(obj, LastName) && FieldOk(obj, City) && FieldOk(obj, Degree)
    && FieldOk(obj, Specialties) && FieldOk(obj, YearsOfExperience) && FieldOk(obj, PhoneNumber)
  }

  /** `Fields` lists every field. */
  lemma EveryFieldListed()
    ensures forall f :: f in Fields
  {
    forall f: Field ensures f in Fields {
      match f
      case FirstName => assert Fields[0] == f;
      case LastName => assert Fields[1] == f;
      case City => assert Fields[2] == f;
      case Degree => assert Fields[3] == f;
      case Specialties => assert Fields[4] == f;
      case YearsOfExperience => assert Fields[5] == f;
      case PhoneNumber => assert Fields[6] == f;
    }
  }

  lemma AllFieldsOkIff(obj: map<string, Json>)
    ensures AllFieldsOk(obj) <==> forall f :: FieldOk(obj, f)
  {
  }

  function Fails(obj: map<string, Json>): Field -> bool {
    (f: Field) => !FieldOk(obj, f)
  }

  /** The fields of `fs` that fail, in the order of `fs`. */
  function FailingAmong(obj: map<string, Json>, fs: seq<Field>): (r: seq<Field>)
    ensures forall f :: f in r <==> f in fs && !FieldOk(obj, f)
    ensures forall f :: multiset(r)[f] == if FieldOk(obj, f) then 0 else multiset(fs)[f]
  {
    FilterContents(fs, Fails(obj));
    Filter(fs, Fails(obj))
  }

  /** The failing fields, in schema order. */
  function FailingFields(obj: map<string, Json>): (r: seq<Field>)
    ensures forall f :: f in r <==> !FieldOk(obj, f)
    ensures r == [] <==> AllFieldsOk(obj)
  {
    EveryFieldListed();
    AllFieldsOkIff(obj);
    var r := FailingAmong(obj, Fields);
    assert r != [] ==> r[0] in r;
    r
  }

  /** Each field is listed exactly once. */
  lemma FieldsListedOnce(f: Field)
    ensures multiset(Fields)[f] == 1
  {
    match f
    case FirstName =>
    case LastName =>
    case City =>
    case Degree =>
    case Specialties =>
    case YearsOfExperience =>
    case PhoneNumber =>
  }

  function Strings(items: seq<Json>): (r: seq<string>)
    requires forall i :: 0 <= i < |items| ==> items[i].JString?
    ensures |r| == |items|
    ensures forall i :: 0 <= i < |r| ==> r[i] == items[i].s
  {
    seq(|items|, i requires 0 <= i < |items| => items[i].s)
  }

  /** One issue per failing field, in the same order. */
  function IssuesFor(failing: seq<Field>): (r: seq<Issue>)
    ensures |r| == |failing|
    ensures forall i :: 0 <= i < |r| ==> r[i] == FieldIssue(failing[i])
    ensures forall f :: FieldIssue(f) in r <==> f in failing
  {
    var r := seq(|failing|, i requires 0 <= i < |failing| => FieldIssue(failing[i]));
    assert forall f :: f in failing ==> FieldIssue(f) in r by {
      forall f | f in failing ensures FieldIssue(f) in r {
        var i :| 0 <= i < |failing| && failing[i] == f;
        assert r[i] == FieldIssue(f);
      }
    }
    r
  }

  /** The record built from an object that passes every check. */
  function Build(o: map<string, Json>): (a: Advocate)
    requires AllFieldsOk(o)
    ensures a.id == None && a.createdAt == None
    ensures "firstName" in o && a.firstName == o["firstName"].s && |a.firstName| >= 1
    ensures "lastName" in o && a.lastName == o["lastName"].s && |a.lastName| >= 1
    ensures "city" in o && a.city == o["city"].s && |a.city| >= 1
    ensures "degree" in o && a.degree == o["degree"].s && |a.degree| >= 1
    ensures "specialties" in o && o["specialties"].JArray?
    ensures |a.specialties| == |o["specialties"].items|
    ensures forall i :: 0 <= i < |a.specialties| ==> o["specialties"].items[i] == JString(a.specialties[i])
    ensures "yearsOfExperience" in o && a.yearsOfExperience as real == o["yearsOfExperience"].n && a.yearsOfExperience > 0
    ensures "phoneNumber" in o && a.phoneNumber as real == o["phoneNumber"].n && a.phoneNumber > 0
  {
    assert FieldOk(o, FirstName) && FieldOk(o, LastName) && FieldOk(o, City) && FieldOk(o, Degree);
    assert FieldOk(o, Specialties) && FieldOk(o, YearsOfExperience) && FieldOk(o, PhoneNumber);
    Advocate(None, o["firstName"].s, o["lastName"].s, o["city"].s, o["degree"].s,
             Strings(o["specialties"].items), o["yearsOfExperience"].n.Floor,
             o["phoneNumber"].n.Floor, None)
  }

  /**
    `advocateSchema.safeParse`: the record built from the seven checked
    fields (other keys are dropped), or one issue per failing field in schema
    order.
   */
  function Validate(input: Json): (r: Result<Advocate, seq<Issue>>)
    ensures r.Ok? <==> input.JObject? && AllFieldsOk(input.fields)
    ensures !input.JObject? ==> r == Err([NotAnObject])
    ensures input.JObject? && r.Err? ==> r.error == IssuesFor(FailingFields(input.fields))
    ensures r.Ok? ==> r.value == Build(input.fields)
  {
    if !input.JObject? then Err([NotAnObject])
    else
      var failing := FailingFields(input.fields);
      if failing != [] then Err(IssuesFor(failing)) else Ok(Build(input.fields))
  }

  /** A rejected object's issues are the failing fields, one issue each. */
  lemma ValidateRejects(o: map<string, Json>)
    requires !AllFieldsOk(o)
    ensures Validate(JObject(o)) == Err(IssuesFor(FailingFields(o)))
  {
  }

  lemma SingleIssue(field: Field)
    ensures IssuesFor([field]) == [FieldIssue(field)]
  {
    var issues := IssuesFor([field]);
    assert |issues| == 1 && issues[0] == FieldIssue(field);
  }

  /** What the schema demands of a record: non-empty names, city and degree, positive counts. */
  predicate Storable(a: Advocate) {
    && |a.firstName| >= 1 && |a.lastName| >= 1 && |a.city| >= 1 && |a.degree| >= 1
    && a.yearsOfExperience > 0 && a.phoneNumber > 0
    && a.id == None && a.createdAt == None
  }

  /** The JSON value a record holds for field `f`. */
  function FieldValue(a: Advocate, f: Field): Json {
    match f
    case FirstName => JString(a.firstName)
    case LastName => JString(a.lastName)
    case City => JString(a.city)
    case Degree => JString(a.degree)
    case Specialties => JArray(seq(|a.specialties|, i requires 0 <= i < |a.specialties| => JString(a.specialties[i])))
    case YearsOfExperience => JNumber(a.yearsOfExperience as real)
    case PhoneNumber => JNumber(a.phoneNumber as real)
  }

  /** The JSON object with a record's seven checked fields. */
  function ToJson(a: Advocate): Json {
    JObject(map[
      "firstName" := FieldValue(a, FirstName),
      "lastName" := FieldValue(a, LastName),
      "city" := FieldValue(a, City),
      "degree" := FieldValue(a, Degree),
      "specialties" := FieldValue(a, Specialties),
      "yearsOfExperience" := FieldValue(a, YearsOfExperience),
      "phoneNumber" := FieldValue(a, PhoneNumber)
    ])
  }

  /** Each field's key holds that field's value. */
  lemma ToJsonFields(a: Advocate, f: Field)
    ensures Key(f) in ToJson(a).fields && ToJson(a).fields[Key(f)] == FieldValue(a, f)
  {
    match f
    case FirstName =>
    case LastName =>
    case City =>
    case Degree =>
    case Specialties =>
    case YearsOfExperience =>
    case PhoneNumber =>
  }

  /** Every field of a storable record's JSON passes its check. */
  lemma ToJsonPasses(a: Advocate)
    requires Storable(a)
    ensures AllFieldsOk(ToJson(a).fields)
  {
    var o := ToJson(a).fields;
    forall f ensures Lookup(o, Key(f)) == Some(FieldValue(a, f)) {
      ToJsonFields(a, f);
    }
    assert FieldOk(o, FirstName) && FieldOk(o, LastName) && FieldOk(o, City) && FieldOk(o, Degree);
    assert FieldOk(o, Specialties);
    assert FieldOk(o, YearsOfExperience) && FieldOk(o, PhoneNumber);
  }

  /** Building from a storable record's JSON gives back the record. */
  lemma BuildToJson(a: Advocate)
    requires Storable(a)
    ensures AllFieldsOk(ToJson(a).fields) && Build(ToJson(a).fields) == a
  {
    var o := ToJson(a).fields;
    ToJsonPasses(a);
    ToJsonFields(a, Specialties);
    var r := Build(o);
    assert r.specialties == a.specialties;
  }

  /** A storable record written out as JSON validates back to itself. */
  lemma ValidateToJson(a: Advocate)
    requires Storable(a)
    ensures Validate(ToJson(a)) == Ok(a)
  {
    BuildToJson(a);
  }

  /** Replacing the value under one field's key leaves every other field's check as it was. */
  lemma OtherFieldsUnaffected(obj: map<string, Json>, field: Field, bad: Json, f: Field)
    requires f != field
    ensures FieldOk(obj[Key(field) := bad], f) == FieldOk(obj, f)
  {
    KeyInjective(f, field);
    assert Lookup(obj[Key(field) := bad], Key(f)) == Lookup(obj, Key(f));
  }

  /** When exactly one field fails and `fs` lists it once, that field is all that is reported. */
  lemma SingleFailure(o: map<string, Json>, fs: seq<Field>, field: Field)
    requires multiset(fs)[field] == 1
    requires !FieldOk(o, field)
    requires forall f :: f != field ==> FieldOk(o, f)
    ensures FailingAmong(o, fs) == [field]
  {
    var failing := FailingAmong(o, fs);
    assert multiset(failing) == multiset{field} by {
      forall x ensures multiset(failing)[x] == multiset{field}[x] {
        if x != field {
          assert FieldOk(o, x);
        }
      }
    }
    assert |failing| == 1;
    assert failing[0] in multiset(failing);
  }

  /** The spoiled field is the only failing one. */
  lemma OnlyFailure(obj: map<string, Json>, field: Field, bad: Json)
    requires AllFieldsOk(obj)
    requires !FieldOk(obj[Key(field) := bad], field)
    ensures FailingFields(obj[Key(field) := bad]) == [field]
  {
    var o := obj[Key(field) := bad];
    AllFieldsOkIff(obj);
    forall f | f != field
      ensures FieldOk(o, f)
    {
      OtherFieldsUnaffected(obj, field, bad, f);
    }
    FieldsListedOnce(field);
    SingleFailure(o, Fields, field);
  }

  /**
    Spoiling one field of an accepted object yields exactly one issue, naming
    that field.
   */
  lemma OneBadField(obj: map<string, Json>, field: Field, bad: Json)
    requires AllFieldsOk(obj)
    requires !FieldOk(obj[Key(field) := bad], field)
    ensures Validate(JObject(obj[Key(field) := bad])) == Err([FieldIssue(field)])
  {
    var o := obj[Key(field) := bad];
    OnlyFailure(obj, field, bad);
    ValidateRejects(o);
    SingleIssue(field);
  }

  /** The record used as the accepted sample. */
  const Sample: map<string, Json> := map[
    "firstName" := JString("John"),
    "lastName" := JString("Doe"),
    "city" := JString("New York"),
    "degree" := JString("Ph.D."),
    "specialties" := JArray([JString("Specialty 1"), JString("Specialty 2")]),
    "yearsOfExperience" := JNumber(5.0),
    "phoneNumber" := JNumber(1234567890.0)
  ]

  lemma SampleAccepted()
    ensures AllFieldsOk(Sample)
  {
  }

  /**
    A value that fails a field's check on its own, put under that field's key
    of the sample, is rejected with exactly that field's issue.
   */
  lemma SampleSpoiled(field: Field, bad: Json)
    requires !FieldOk(map[Key(field) := bad], field)
    ensures Validate(JObject(Sample[Key(field) := bad])) == Err([FieldIssue(field)])
  {
    assert Lookup(Sample[Key(field) := bad], Key(field)) == Lookup(map[Key(field) := bad], Key(field));
    SampleAccepted();
    OneBadField(Sample, field, bad);
  }

  /** Zero years of experience is rejected, naming that field. */
  lemma ZeroYearsRejected()
    ensures Validate(JObject(Sample["yearsOfExperience" := JNumber(0.0)])) == Err([FieldIssue(YearsOfExperience)])
  {
    assert Key(YearsOfExperience) == "yearsOfExperience";
    assert !PositiveInt(Some(JNumber(0.0)));
    SampleSpoiled(YearsOfExperience, JNumber(0.0));
  }

  /** A negative number of years is rejected, naming that field. */
  lemma NegativeYearsRejected()
    ensures Validate(JObject(Sample["yearsOfExperience" := JNumber(-1.0)])) == Err([FieldIssue(YearsOfExperience)])
  {
    assert Key(YearsOfExperience) == "yearsOfExperience";
    assert !PositiveInt(Some(JNumber(-1.0)));
    SampleSpoiled(YearsOfExperience, JNumber(-1.0));
  }

  /** A fractional number of years is rejected. */
  lemma FractionalYearsRejected()
    ensures Validate(JObject(Sample["yearsOfExperience" := JNumber(2.5)])) == Err([FieldIssue(YearsOfExperience)])
  {
    assert (2.5).Floor == 2;
    SampleSpoiled(YearsOfExperience, JNumber(2.5));
  }

  /** A negative phone number is rejected. */
  lemma NegativePhoneRejected()
    ensures Validate(JObject(Sample["phoneNumber" := JNumber(-1234567890.0)])) == Err([FieldIssue(PhoneNumber)])
  {
    assert Key(PhoneNumber) == "phoneNumber";
    assert !PositiveInt(Some(JNumber(-1234567890.0)));
    SampleSpoiled(PhoneNumber, JNumber(-1234567890.0));
  }

  /** An empty first name is rejected. */
  lemma EmptyFirstNameRejected()
    ensures Validate(JObject(Sample["firstName" := JString("")])) == Err([FieldIssue(FirstName)])
  {
    SampleSpoiled(FirstName, JString(""));
  }

  /** A specialty list holding a number or null is rejected. */
  lemma NonStringSpecialtyRejected()
    ensures Validate(JObject(Sample["specialties" := JArray([JString("Valid"), JNumber(123.0), JNull])])) == Err([FieldIssue(Specialties)])
  {
    var bad := JArray([JString("Valid"), JNumber(123.0), JNull]);
    assert !bad.items[1].JString?;
    SampleSpoiled(Specialties, bad);
  }

  /**
    The phone check is only "positive integer": a three-digit number is
    accepted, there is no digit-count rule.
   */
  lemma ShortPhoneAccepted()
    ensures Validate(JObject(Sample["phoneNumber" := JNumber(123.0)])).Ok?
  {
    var o := Sample["phoneNumber" := JNumber(123.0)];
    assert AllFieldsOk(o);
  }
}
