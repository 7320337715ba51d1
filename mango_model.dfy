/**
  The Mango record of api/models/mango.py: its fields, the constraints
  their declarations put on a stored record, `as_dict`, `__str__`, and the
  cascade rule of the `owner` foreign key, stated on the table of records.
 */
module MangoModel {
  import opened Wrappers

  /** The primary key of a user; users themselves belong to the identity provider. */
  type UserId = int

  /** A value as it travels in a JSON request or response body. */
  datatype Value = Null | Bool(b: bool) | Int(i: int) | Str(s: string)

  /** The `max_length` of both character fields. */
  const MaxLength: nat := 100

  /** A stored record. `id` is the primary key the store assigns. */
  datatype Mango = Mango(id: int, name: string, ripe: bool, color: string, owner: UserId)

  /** A required `CharField(max_length=100)`: not blank, at most 100 characters. */
  predicate ValidText(s: string)
  {
    0 < |s| <= MaxLength
  }

  /** What the field declarations demand of a stored record. `ripe` is a
      `BooleanField` and `owner` has exactly one value by the record's shape. */
  predicate IsValid(m: Mango): (ok: bool)
    ensures ok ==> 0 < |m.name| <= MaxLength && 0 < |m.color| <= MaxLength
  {
    ValidText(m.name) && ValidText(m.color)
  }

  /** The record's attribute of the given name, as a body value. */
  function Field(m: Mango, key: string): Value
  {
    if key == "id" then Int(m.id)
    else if key == "name" then Str(m.name)
    else if key == "ripe" then Bool(m.ripe)
    else if key == "color" then Str(m.color)
    else if key == "owner" then Int(m.owner)
    else Null
  }

  /** The keys `as_dict` produces. */
  const DictKeys: set<string> := {"id", "name", "ripe", "color"}

  /** `Mango.as_dict`: the record as a dictionary, without its owner. */
  function AsDict(m: Mango): (d: map<string, Value>)
    ensures d.Keys == DictKeys && "owner" !in d
    ensures forall k :: k in d ==> d[k] == Field(m, k)
  {
    map["id" := Int(m.id), "name" := Str(m.name), "ripe" := Bool(m.ripe), "color" := Str(m.color)]
  }

  /** Two records have the same dictionary exactly when they differ at most in their owner. */
  lemma AsDictForgetsOnlyOwner(m1: Mango, m2: Mango)
    ensures AsDict(m1) == AsDict(m2) <==> m1.(owner := m2.owner) == m2
  {
    if AsDict(m1) == AsDict(m2) {
      assert Field(m1, "id") == AsDict(m1)["id"] == AsDict(m2)["id"] == Field(m2, "id");
      assert Field(m1, "name") == AsDict(m1)["name"] == AsDict(m2)["name"] == Field(m2, "name");
      assert Field(m1, "ripe") == AsDict(m1)["ripe"] == AsDict(m2)["ripe"] == Field(m2, "ripe");
      assert Field(m1, "color") == AsDict(m1)["color"] == AsDict(m2)["color"] == Field(m2, "color");
    }
  }

  /** How Python renders a boolean inside an f-string. */
  function PyBool(b: bool): string
  {
    if b then "True" else "False"
  }

  const StrPrefix := "The mango named '"
  const StrSuffix := " that it is ripe."

  /** `Mango.__str__`: the fixed sentence with name, color and ripe substituted in that order. */
  function ToString(m: Mango): (s: string)
    ensures StrPrefix + m.name <= s
    ensures |s| == |m.name| + |m.color| + |PyBool(m.ripe)| + 56
    ensures s[|s| - |StrSuffix|..] == StrSuffix
  {
    StrPrefix + m.name + "' is " + m.color + " in color. It is " + PyBool(m.ripe) + StrSuffix
  }

  /** Reads the ripeness back from the end of a sentence `ToString` produced. */
  function ParseRipe(s: string): Option<bool>
  {
    var yes := "True" + StrSuffix;
    var no := "False" + StrSuffix;
    if |yes| <= |s| && s[|s| - |yes|..] == yes then Some(true)
    else if |no| <= |s| && s[|s| - |no|..] == no then Some(false)
    else None
  }

  /** The sentence always says how ripe the mango is, as "True" or "False". */
  lemma RipeReadBack(m: Mango)
    ensures ParseRipe(ToString(m)) == Some(m.ripe)
  {
    var s := ToString(m);
    var head := StrPrefix + m.name + "' is " + m.color + " in color. It is ";
    var tail := PyBool(m.ripe) + StrSuffix;
    assert s == head + tail;
    assert s[|s| - |tail|..] == tail;
    if !m.ripe {
      var yes := "True" + StrSuffix;
      assert s[|s| - |yes|] == tail[1] == 'a';
      assert s[|s| - |yes|..] != yes by {
        assert s[|s| - |yes|..][0] == 'a' != yes[0];
      }
    }
  }

  /** `Mango.objects.filter(owner=user)`: the records the user owns. */
  function OwnedBy(mangos: map<int, Mango>, user: UserId): (r: map<int, Mango>)
    ensures forall id :: id in r <==> id in mangos && mangos[id].owner == user
    ensures forall id :: id in r ==> r[id] == mangos[id]
  {
    map id | id in mangos && mangos[id].owner == user :: mangos[id]
  }

  /** `on_delete=CASCADE`: what is left of the table once a user is deleted. */
  function CascadeOnOwnerDelete(mangos: map<int, Mango>, user: UserId): (r: map<int, Mango>)
    ensures forall id :: id in r ==> id in mangos && r[id] == mangos[id] && r[id].owner != user
    ensures forall id :: id in mangos && mangos[id].owner != user ==> id in r
  {
    map id | id in mangos && mangos[id].owner != user :: mangos[id]
  }

  /** The cascade removes exactly the user's records: the table splits into
      what the user owned and what survives. */
  lemma CascadePartition(mangos: map<int, Mango>, user: UserId)
    ensures OwnedBy(mangos, user).Keys !! CascadeOnOwnerDelete(mangos, user).Keys
    ensures OwnedBy(mangos, user) + CascadeOnOwnerDelete(mangos, user) == mangos
  {
    var owned := OwnedBy(mangos, user);
    var kept := CascadeOnOwnerDelete(mangos, user);
    assert (owned + kept).Keys == mangos.Keys;
  }

  /** The number of records left is the number stored minus the number the user owned. */
  lemma CascadeSize(mangos: map<int, Mango>, user: UserId)
    ensures |CascadeOnOwnerDelete(mangos, user)| == |mangos| - |OwnedBy(mangos, user)|
  {
    var owned := OwnedBy(mangos, user).Keys;
    var kept := CascadeOnOwnerDelete(mangos, user).Keys;
    assert kept == mangos.Keys - owned;
    SubsetSize(owned, mangos.Keys);
  }

  /** Removing a subset removes exactly its elements from the count. */
  lemma {:induction false} SubsetSize<T>(small: set<T>, big: set<T>)
    requires small <= big
    ensures |big - small| == |big| - |small|
  {
    if x :| x in small {
      SubsetSize(small - {x}, big - {x});
      assert big - small == (big - {x}) - (small - {x});
    }
  }

  /** Deleting the same user twice removes nothing more. */
  lemma CascadeIdempotent(mangos: map<int, Mango>, user: UserId)
    ensures CascadeOnOwnerDelete(CascadeOnOwnerDelete(mangos, user), user) == CascadeOnOwnerDelete(mangos, user)
    ensures OwnedBy(CascadeOnOwnerDelete(mangos, user), user) == map[]
  {
    var kept := CascadeOnOwnerDelete(mangos, user);
    assert CascadeOnOwnerDelete(kept, user).Keys == kept.Keys;
    assert OwnedBy(kept, user).Keys == {};
  }
}
