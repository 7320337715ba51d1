/**
  A client of the store: one user creates a mango, a second user can neither
  list nor see it, the owner deletes it, and it is gone. Everything asserted
  here follows from the handlers' contracts alone.
 */
module Walkthrough {
  import opened MangoModel
  import opened FieldRules
  import opened MangoViews

  /** The record created, the second user's listing and the status codes along that sequence of requests. */
  method CreateListRetrieveDelete(alice: UserId, bob: UserId)
    returns (larryStored: Mango, bobSees: seq<Mango>, codes: seq<int>)
    requires alice != bob
    ensures larryStored.owner == alice
    ensures larryStored.name == "Larry" && larryStored.ripe && larryStored.color == "green"
    ensures bobSees == []
    ensures codes == [201, 200, 403, 204, 404]
  {
    var store := new MangoStore({alice, bob});
    var larry := LarryBody(bob);

    LarryIsAccepted(bob, alice, store.users);
    var created := store.Create(alice, larry);
    larryStored := created.body.mango;
    var id := larryStored.id;
    LarryIsStored(bob, alice, larryStored);
    assert store.mangos == map[id := larryStored];

    var listed := store.List(bob);
    assert OwnedBy(store.mangos, bob) == map[];
    bobSees := listed.body.mangos;

    var shown := store.Retrieve(bob, id);
    var deleted := store.Delete(alice, id);
    var again := store.Retrieve(alice, id);
    assert listed.status == OK && shown.status == Forbidden;
    assert deleted.status == NoContent && again.status == NotFound;
    codes := [created.status.Code(), listed.status.Code(), shown.status.Code(), deleted.status.Code(), again.status.Code()];
  }

  /** The body of the walkthrough's create request, naming some owner of the client's choosing. */
  function LarryBody(claimed: UserId): map<string, Value>
  {
    map["name" := Str("Larry"), "ripe" := Bool(true), "color" := Str("green"), "owner" := Int(claimed)]
  }

  /** The walkthrough's body passes validation once its owner is forced to a known user. */
  lemma LarryIsAccepted(claimed: UserId, alice: UserId, users: set<UserId>)
    requires alice in users
    ensures FieldErrors(WithOwner(LarryBody(claimed), alice), users, false) == map[]
  {
    var d := WithOwner(LarryBody(claimed), alice);
    CreateAcceptsExactlyValidRecords(d, users);
    assert Describes(d, Mango(0, "Larry", true, "green", alice));
  }

  /** A record the walkthrough's body describes is Larry, ripe, green, owned by the caller. */
  lemma LarryIsStored(claimed: UserId, alice: UserId, m: Mango)
    requires Describes(WithOwner(LarryBody(claimed), alice), m)
    ensures m == Mango(m.id, "Larry", true, "green", alice)
  {
    var d := WithOwner(LarryBody(claimed), alice);
    assert Field(m, "name") == d["name"] == Str("Larry");
    assert Field(m, "ripe") == d["ripe"] == Bool(true);
    assert Field(m, "color") == d["color"] == Str("green");
    assert Field(m, "owner") == d["owner"] == Int(alice);
  }
}
