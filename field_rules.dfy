/**
  Validation of an incoming Mango body. The serializer module is not part of
  this model; it is taken to be a model serializer over name, ripe, color and
  owner, so its checks follow the field declarations (api/models/mango.py,
  lines 11-19): two required character fields of at most 100 characters, a
  required boolean, and an owner that must be the key of an existing user.
  A partial update checks only the fields it supplies. Keys outside these
  four are ignored.
 */
module FieldRules {
  import opened Wrappers
  import opened MangoModel

  /** The writable fields, as named in a request body. */
  const FieldNames: set<string> := {"name", "ripe", "color", "owner"}

  /** Why a field was refused. */
  datatype FieldError = Required | NullValue | WrongType | Blank | TooLong | NoSuchUser

  /** Whether a value has the type the field of that name stores. */
  predicate Fits(key: string, v: Value)
  {
    if key == "ripe" then v.Bool?
    else if key == "owner" then v.Int?
    else v.Str?
  }

  /** Every supplied field has the type it stores. */
  predicate WellTyped(data: map<string, Value>)
  {
    forall k :: k in FieldNames && k in data ==> Fits(k, data[k])
  }

  /** Every field is supplied with the type it stores. */
  predicate Complete(data: map<string, Value>)
  {
    FieldNames <= data.Keys && WellTyped(data)
  }

  /** The check of one supplied value. */
  function CheckValue(key: string, v: Value, users: set<UserId>): Option<FieldError>
  {
    if v.Null? then Some(NullValue)
    else if !Fits(key, v) then Some(WrongType)
    else if key == "ripe" then None
    else if key == "owner" then (if v.i in users then None else Some(NoSuchUser))
    else if |v.s| == 0 then Some(Blank)
    else if |v.s| > MaxLength then Some(TooLong)
    else None
  }

  /** The check of one field; a missing field is an error unless the update is partial. */
  function CheckField(key: string, data: map<string, Value>, users: set<UserId>, partial: bool): Option<FieldError>
  {
    if key in data then CheckValue(key, data[key], users)
    else if partial then None
    else Some(Required)
  }

  /** `is_valid()` holds when this map is empty; otherwise it is `errors`. */
  function FieldErrors(data: map<string, Value>, users: set<UserId>, partial: bool): (r: map<string, FieldError>)
    ensures r.Keys <= FieldNames
    ensures forall k :: k in FieldNames ==> CheckField(k, data, users, partial) == if k in r then Some(r[k]) else None
    ensures r == map[] ==> WellTyped(data)
    ensures r == map[] && !partial ==> Complete(data)
  {
    var r := map k | k in FieldNames && CheckField(k, data, users, partial).Some? :: CheckField(k, data, users, partial).value;
    forall k | k in FieldNames
      ensures CheckField(k, data, users, partial) == if k in r then Some(r[k]) else None
    {
      if CheckField(k, data, users, partial).Some? {
        assert k in r;
      }
    }
    r
  }

  /** The body describes the record: it supplies each writable field with the record's value. */
  ghost predicate Describes(data: map<string, Value>, m: Mango)
  {
    forall k :: k in FieldNames ==> k in data && data[k] == Field(m, k)
  }

  /** The record a complete body saves under the given primary key. */
  function Build(id: int, data: map<string, Value>): (m: Mango)
    requires Complete(data)
    ensures m.id == id && Describes(data, m)
  {
    Mango(id, data["name"].s, data["ripe"].b, data["color"].s, data["owner"].i)
  }

  /** A full body passes validation exactly when it describes a valid record owned by an existing user. */
  lemma CreateAcceptsExactlyValidRecords(data: map<string, Value>, users: set<UserId>)
    ensures FieldErrors(data, users, false) == map[]
        <==> exists m :: Describes(data, m) && IsValid(m) && m.owner in users
  {
    if FieldErrors(data, users, false) == map[] {
      var m := Build(0, data);
      assert CheckField("name", data, users, false).None?;
      assert CheckField("color", data, users, false).None?;
      assert CheckField("owner", data, users, false).None?;
      assert Describes(data, m) && IsValid(m) && m.owner in users;
    }
    if m :| Describes(data, m) && IsValid(m) && m.owner in users {
      var r := FieldErrors(data, users, false);
      forall k | k in FieldNames
        ensures k !in r
      {
        assert data[k] == Field(m, k);
      }
      assert r.Keys == {};
    }
  }

  /** `serializer.save(instance)` on a partial body: supplied fields replace
      the record's values, fields left out keep theirs, the key stays. */
  function Merge(m: Mango, data: map<string, Value>): (r: Mango)
    requires WellTyped(data)
    ensures r.id == m.id
    ensures forall k :: k in FieldNames ==> Field(r, k) == if k in data then data[k] else Field(m, k)
  {
    var r := Mango(m.id,
      if "name" in data then data["name"].s else m.name,
      if "ripe" in data then data["ripe"].b else m.ripe,
      if "color" in data then data["color"].s else m.color,
      if "owner" in data then data["owner"].i else m.owner);
    forall k | k in FieldNames && k in data
      ensures Field(r, k) == data[k]
    {
      assert Fits(k, data[k]);
    }
    r
  }

  /** A valid record stays valid under a partial body that passes validation,
      and a supplied owner is an existing user. */
  lemma MergeKeepsValid(m: Mango, data: map<string, Value>, users: set<UserId>)
    requires IsValid(m)
    requires FieldErrors(data, users, true) == map[]
    ensures IsValid(Merge(m, data))
    ensures "owner" in data ==> Merge(m, data).owner in users
  {
    assert CheckField("name", data, users, true).None?;
    assert CheckField("color", data, users, true).None?;
    assert CheckField("owner", data, users, true).None?;
  }

  /** A body supplying every field makes a partial update the same as a fresh save. */
  lemma MergeOfCompleteIsBuild(m: Mango, data: map<string, Value>)
    requires Complete(data)
    ensures Merge(m, data) == Build(m.id, data)
  {
  }
}
