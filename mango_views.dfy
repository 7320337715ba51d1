/**
  The handlers of api/views/mango_views.py over one table of Mango records.
  The table is a map from primary key to record; the caller is the id of the
  authenticated user; each handler returns a status and a body. The table
  also knows which users exist, because `owner` is a foreign key.
 */
module MangoViews {
  import opened Wrappers
  import opened MangoModel
  import opened FieldRules

  /** The statuses the handlers answer with. */
  datatype Status = OK | Created | NoContent | BadRequest | Forbidden | NotFound
  {
    function Code(): int
    {
      match this
      case OK => 200
      case Created => 201
      case NoContent => 204
      case BadRequest => 400
      case Forbidden => 403
      case NotFound => 404
    }
  }

  /** A response body: nothing, one record, a list, field errors, or an error detail. */
  datatype Body =
    | NoBody
    | Record(mango: Mango)
    | Records(mangos: seq<Mango>)
    | Errors(errors: map<string, FieldError>)
    | Detail(message: string)

  datatype Response = Response(status: Status, body: Body)

  /** The `PermissionDenied` messages of the three item handlers. */
  const NotOwnerShow := "You do not own this mango."
  const NotOwnerDelete := "Cant delete a mango you dont own bub"
  const NotOwnerUpdate := "Cant update a mango you dont own bub"

  /** The framework's default detail for a missing record (its text, not the source's). */
  const NotFoundDetail := "Not found."

  /** `mango_data['owner'] = request.user.id`: the body with its owner forced to the caller. */
  function WithOwner(data: map<string, Value>, caller: UserId): (d: map<string, Value>)
    ensures "owner" in d && d["owner"] == Int(caller)
    ensures forall k :: k in data && k != "owner" ==> k in d && d[k] == data[k]
    ensures d.Keys == data.Keys + {"owner"}
  {
    data["owner" := Int(caller)]
  }

  /** The records listed are exactly those of the table, each once. */
  ghost predicate Enumerates(rs: seq<Mango>, table: map<int, Mango>)
  {
    && (forall i :: 0 <= i < |rs| ==> rs[i].id in table && table[rs[i].id] == rs[i])
    && (forall id :: id in table ==> exists i :: 0 <= i < |rs| && rs[i] == table[id])
    && (forall i, j :: 0 <= i < j < |rs| ==> rs[i].id != rs[j].id)
  }

  /** Each record of the table sits under its own primary key. */
  ghost predicate KeyedById(table: map<int, Mango>)
  {
    forall id :: id in table ==> table[id].id == id
  }

  /** A listing of a table keyed by primary key has as many entries as the table has records. */
  lemma {:induction false} EnumerationSize(rs: seq<Mango>, table: map<int, Mango>)
    requires KeyedById(table)
    requires Enumerates(rs, table)
    ensures |rs| == |table|
    decreases |rs|
  {
    if rs == [] {
      assert forall id :: id !in table;
      assert table.Keys == {};
    } else {
      var last := rs[|rs| - 1];
      var rest := rs[..|rs| - 1];
      var smaller := table - {last.id};
      forall id | id in smaller
        ensures exists i :: 0 <= i < |rest| && rest[i] == smaller[id]
      {
        var i :| 0 <= i < |rs| && rs[i] == table[id];
        assert i != |rs| - 1;
        assert rest[i] == smaller[id];
      }
      assert Enumerates(rest, smaller);
      EnumerationSize(rest, smaller);
    }
  }

  /** The table with its users; `Valid` is what every handler keeps. */
  class MangoStore {
    var users: set<UserId>
    var mangos: map<int, Mango>

    /** Each record sits under its own key, satisfies its field declarations,
        and is owned by an existing user. */
    ghost predicate Valid()
      reads this
    {
      forall id :: id in mangos ==>
        mangos[id].id == id && IsValid(mangos[id]) && mangos[id].owner in users
    }

    constructor (users: set<UserId>)
      ensures Valid() && this.users == users && mangos == map[]
    {
      this.users := users;
      mangos := map[];
    }

    /** `Mangos.get`: every record the caller owns, in the order the table yields them. */
    method List(caller: UserId) returns (resp: Response)
      requires Valid()
      ensures resp.status == OK && resp.body.Records?
      ensures Enumerates(resp.body.mangos, OwnedBy(mangos, caller))
      ensures forall i :: 0 <= i < |resp.body.mangos| ==> resp.body.mangos[i].owner == caller
      ensures |resp.body.mangos| == |OwnedBy(mangos, caller)|
    {
      var remaining := mangos.Keys;
      var rs: seq<Mango> := [];
      while exists id :: id in remaining
        invariant remaining <= mangos.Keys
        invariant forall i :: 0 <= i < |rs| ==>
          rs[i].id in mangos && rs[i].id !in remaining && mangos[rs[i].id] == rs[i] && rs[i].owner == caller
        invariant forall id :: id in mangos && id !in remaining && mangos[id].owner == caller ==>
          exists i :: 0 <= i < |rs| && rs[i] == mangos[id]
        invariant forall i, j :: 0 <= i < j < |rs| ==> rs[i].id != rs[j].id
        decreases remaining
      {
        var id :| id in remaining;
        if mangos[id].owner == caller {
          ghost var before := rs;
          rs := rs + [mangos[id]];
          assert forall i :: 0 <= i < |before| ==> rs[i] == before[i];
          assert rs[|rs| - 1] == mangos[id];
        }
        remaining := remaining - {id};
      }
      EnumerationSize(rs, OwnedBy(mangos, caller));
      resp := Response(OK, Records(rs));
    }

    /** `Mangos.post`: validates the body with the owner forced to the caller
        and, if it passes, stores it under a fresh key. */
    method Create(caller: UserId, data: map<string, Value>) returns (resp: Response)
      requires Valid()
      modifies this`mangos
      ensures Valid()
      ensures var d := WithOwner(data, caller);
        var errors := FieldErrors(d, users, false);
        if errors == map[] then
          && resp.status == Created && resp.body.Record?
          && resp.body.mango.id !in old(mangos)
          && resp.body.mango.owner == caller
          && Describes(d, resp.body.mango)
          && mangos == old(mangos)[resp.body.mango.id := resp.body.mango]
        else
          resp == Response(BadRequest, Errors(errors)) && mangos == old(mangos)
    {
      var d := WithOwner(data, caller);
      var errors := FieldErrors(d, users, false);
      if errors == map[] {
        var bound := BoundAbove(mangos.Keys);
        assert bound !in mangos;
        var id :| id !in mangos;
        var m := Build(id, d);
        assert m.owner == caller by {
          assert d["owner"] == Field(m, "owner");
        }
        CreateAcceptsExactlyValidRecords(d, users);
        ghost var w :| Describes(d, w) && IsValid(w) && w.owner in users;
        assert w == m.(id := w.id) by {
          assert Field(w, "name") == d["name"] == Field(m, "name");
          assert Field(w, "ripe") == d["ripe"] == Field(m, "ripe");
          assert Field(w, "color") == d["color"] == Field(m, "color");
          assert Field(w, "owner") == d["owner"] == Field(m, "owner");
        }
        mangos := mangos[id := m];
        resp := Response(Created, Record(m));
      } else {
        resp := Response(BadRequest, Errors(errors));
      }
    }

    /** `MangoDetail.get`: the lookup comes first (404), the ownership check second (403). */
    method Retrieve(caller: UserId, pk: int) returns (resp: Response)
      ensures pk !in mangos ==> resp == Response(NotFound, Detail(NotFoundDetail))
      ensures pk in mangos && mangos[pk].owner != caller ==> resp == Response(Forbidden, Detail(NotOwnerShow))
      ensures pk in mangos && mangos[pk].owner == caller ==> resp == Response(OK, Record(mangos[pk]))
    {
      if pk !in mangos {
        return Response(NotFound, Detail(NotFoundDetail));
      }
      var mango := mangos[pk];
      if caller != mango.owner {
        return Response(Forbidden, Detail(NotOwnerShow));
      }
      resp := Response(OK, Record(mango));
    }

    /** `MangoDetail.delete`: looks up, checks ownership, removes that one record. */
    method Delete(caller: UserId, pk: int) returns (resp: Response)
      requires Valid()
      modifies this`mangos
      ensures Valid()
      ensures pk !in old(mangos) ==>
        resp == Response(NotFound, Detail(NotFoundDetail)) && mangos == old(mangos)
      ensures pk in old(mangos) && old(mangos)[pk].owner != caller ==>
        resp == Response(Forbidden, Detail(NotOwnerDelete)) && mangos == old(mangos)
      ensures pk in old(mangos) && old(mangos)[pk].owner == caller ==>
        resp == Response(NoContent, NoBody) && mangos == old(mangos) - {pk}
    {
      if pk !in mangos {
        return Response(NotFound, Detail(NotFoundDetail));
      }
      var mango := mangos[pk];
      if caller != mango.owner {
        return Response(Forbidden, Detail(NotOwnerDelete));
      }
      mangos := mangos - {pk};
      resp := Response(NoContent, NoBody);
    }

    /** `MangoDetail.partial_update`: looks up, checks ownership, forces the
        owner to the caller, validates the supplied fields and merges them. */
    method PartialUpdate(caller: UserId, pk: int, data: map<string, Value>) returns (resp: Response)
      requires Valid()
      modifies this`mangos
      ensures Valid()
      ensures pk !in old(mangos) ==>
        resp == Response(NotFound, Detail(NotFoundDetail)) && mangos == old(mangos)
      ensures pk in old(mangos) && old(mangos)[pk].owner != caller ==>
        resp == Response(Forbidden, Detail(NotOwnerUpdate)) && mangos == old(mangos)
      ensures pk in old(mangos) && old(mangos)[pk].owner == caller ==>
        var d := WithOwner(data, caller);
        var errors := FieldErrors(d, users, true);
        if errors == map[] then
          && resp.status == OK && resp.body.Record?
          && resp.body.mango == Merge(old(mangos)[pk], d)
          && resp.body.mango.owner == caller
          && mangos == old(mangos)[pk := resp.body.mango]
        else
          resp == Response(BadRequest, Errors(errors)) && mangos == old(mangos)
    {
      if pk !in mangos {
        return Response(NotFound, Detail(NotFoundDetail));
      }
      var mango := mangos[pk];
      if caller != mango.owner {
        return Response(Forbidden, Detail(NotOwnerUpdate));
      }
      var d := WithOwner(data, caller);
      var errors := FieldErrors(d, users, true);
      if errors == map[] {
        var updated := Merge(mango, d);
        MergeKeepsValid(mango, d, users);
        mangos := mangos[pk := updated];
        resp := Response(OK, Record(updated));
      } else {
        resp := Response(BadRequest, Errors(errors));
      }
    }

    /** Deleting a user: the user goes, and `on_delete=CASCADE` takes their records with them. */
    method RemoveUser(user: UserId)
      requires Valid()
      modifies this
      ensures Valid()
      ensures users == old(users) - {user}
      ensures mangos == CascadeOnOwnerDelete(old(mangos), user)
    {
      users := users - {user};
      mangos := CascadeOnOwnerDelete(mangos, user);
    }
  }

  /** Some key is above every key in use, so a fresh key always exists. */
  lemma {:induction false} BoundAbove(keys: set<int>) returns (bound: int)
    ensures forall k :: k in keys ==> k < bound
  {
    if x :| x in keys {
      var rest := BoundAbove(keys - {x});
      bound := if x < rest then rest else x + 1;
      assert forall k :: k in keys ==> k == x || k in keys - {x};
    } else {
      bound := 1;
    }
  }
}
