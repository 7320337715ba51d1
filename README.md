# Mango records with per-owner access control

A model of a small REST API over one table of Mango records. Each record has
a name, a ripeness flag, a color and an owner (a user). Each request runs as
an authenticated user, the caller. The caller can list their own mangos,
create one, and retrieve, partially update or delete one they own. The owner
field is always overwritten with the caller on create and update. An item
request first looks the record up, answering 404 when it is missing. Only
then does it check ownership, answering 403 when the caller is not the
owner. Deleting a user deletes every mango that user owns.

Modules:

- `MangoModel` (`mango_model.dfy`) covers `api/models/mango.py`. It holds the
  `Mango` datatype, the validity predicate taken from the field declarations,
  `AsDict`, `ToString` and the owner filter. It also has the cascade rule,
  written as a function on the table.
- `FieldRules` (`field_rules.dfy`) holds the checks applied to an incoming
  body. The serializer module is not part of this model. It is assumed to be
  a model serializer over name, ripe, color and owner, so these checks follow
  the field declarations: name and color must be present, non-blank
  and at most 100 characters; ripe must be a boolean; owner must be an
  existing user. A partial update checks only the fields it supplies.
  `FieldErrors` is the field-level error map. `Build` and `Merge` are what a
  create and a partial update save.
- `MangoViews` (`mango_views.dfy`) covers `api/views/mango_views.py`. The class
  `MangoStore` holds the table as a `map<int, Mango>` plus the set of existing
  users. Its methods `List`, `Create`, `Retrieve`, `PartialUpdate` and
  `Delete` each take the caller's id and return a status with a body.
  `RemoveUser` applies the cascade. `Valid()` is the store invariant that
  every handler keeps: each record sits under its own key, satisfies the
  field rules, and has an existing owner.
- `Walkthrough` (`walkthrough.dfy`) is a client run using only the handlers'
  contracts. User A creates a mango while sending a different owner. User B
  lists (gets nothing) and retrieves it (403). A deletes it (204), and A's
  next retrieve gets 404.

Modelling choices:

- "Required" character fields follow the framework default for model
  character fields (blank not allowed), so the empty string is refused.
- The handlers take the decoded `mango` object of the request body directly,
  as a map from key to JSON value.
- A create picks some key not already in the table.
- `List` returns the caller's records in whatever order the table yields them.

## Model

| member | source | states |
|---|---|---|
| `MangoModel.IsValid` | api/models/mango.py:11-13 | a valid record has a name and a color that are non-blank and at most 100 characters; ripe is a boolean and owner a single user id by the record's type |
| `MangoModel.AsDict` | api/models/mango.py:25-32 | the dictionary has exactly the keys id, name, ripe and color, never owner, and each key holds the record's attribute of that name |
| `MangoModel.AsDictForgetsOnlyOwner` | api/models/mango.py:25-32 | two records have equal dictionaries if and only if they differ at most in their owner |
| `MangoModel.ToString` | api/models/mango.py:21-23 | the sentence starts with the fixed prefix followed by the name, ends with the fixed suffix, and its length is the two field lengths plus the ripe word plus the template's 56 characters |
| `MangoModel.RipeReadBack` | api/models/mango.py:21-23 | the ripe flag always reads back from the end of the sentence, where it is rendered as "True" or "False" |
| `MangoModel.OwnedBy` | api/views/mango_views.py:23 | an id is in the filtered table if and only if it is stored and its record's owner is the user; the records are unchanged |
| `MangoModel.CascadeOnOwnerDelete` | api/models/mango.py:16-19 | after the owner is deleted, exactly the records of other owners remain, unchanged |
| `MangoModel.CascadePartition` | api/models/mango.py:16-19 | the records the user owns and the records the cascade keeps are disjoint and together make up the whole table |
| `MangoModel.CascadeSize` | api/models/mango.py:16-19 | the cascade removes as many records as the user owned and no more |
| `MangoModel.CascadeIdempotent` | api/models/mango.py:16-19 | once the cascade has run, the user owns nothing and running it again changes nothing |
| `FieldRules.FieldErrors` | api/models/mango.py:11-19 | the error map only names writable fields, and holds a field exactly when that field's check fails; an empty map means every supplied field has its stored type, and on a create also that all four fields are supplied |
| `FieldRules.Build` | api/views/mango_views.py:55-57 | the record a create saves carries the chosen key and exactly the body's name, ripe, color and owner |
| `FieldRules.CreateAcceptsExactlyValidRecords` | api/models/mango.py:11-19 | a full body passes validation if and only if it describes a record whose name and color are non-blank and at most 100 characters, with a boolean ripe flag and an existing user as owner |
| `FieldRules.Merge` | api/views/mango_views.py:112-116 | what a partial save stores: the primary key is kept; each supplied field among name, ripe, color and owner takes the supplied value and each field left out keeps its old value |
| `FieldRules.MergeKeepsValid` | api/views/mango_views.py:112-116 | a valid record stays valid under a partial body that passes validation, and a supplied owner is an existing user |
| `FieldRules.MergeOfCompleteIsBuild` | api/views/mango_views.py:112-116 | a partial update that supplies every field saves the same record as a create of that body would |
| `MangoViews.WithOwner` | api/views/mango_views.py:47 | the body's owner becomes the caller's id, whatever the client sent; every other key keeps its value |
| `MangoViews.EnumerationSize` | api/views/mango_views.py:23-27 | a listing with each record of a table exactly once has as many entries as the table |
| `MangoViews.BoundAbove` | api/views/mango_views.py:57 | some key lies above every key in use, so a save can always pick a fresh primary key |
| `MangoViews.MangoStore.List` | api/views/mango_views.py:17-27 | answers 200 with the records the caller owns, each exactly once and nothing else, as many as the caller owns |
| `MangoViews.MangoStore.Create` | api/views/mango_views.py:30-60 | validates the body with owner forced to the caller. When it passes: 201 with a record under a key not in the table, owned by the caller, carrying the body's fields; the table gains exactly that record. Otherwise: 400 with the field errors and the table unchanged |
| `MangoViews.MangoStore.Retrieve` | api/views/mango_views.py:63-75 | a missing id gives 404 even for a non-owner; a stored record of another owner gives 403 with only the denial message; the owner gets 200 with the record |
| `MangoViews.MangoStore.Delete` | api/views/mango_views.py:77-87 | 404 for a missing id and 403 for a non-owner, both with the table unchanged; the owner gets 204 and exactly that id is removed |
| `MangoViews.MangoStore.PartialUpdate` | api/views/mango_views.py:92-120 | 404 before 403, each with the table unchanged. For the owner, the body with owner forced to the caller is checked field by field. Valid: 200 with the merged record, still owned by the caller, stored under the same id with every other record unchanged. Invalid: 400 with the errors and the table unchanged |
| `MangoViews.MangoStore.RemoveUser` | api/models/mango.py:16-19 | the user leaves the user set and the table becomes the cascade of the old table, which keeps the store invariant |
| `Walkthrough.CreateListRetrieveDelete` | api/views/mango_views.py:30-87 | create as A (with a foreign owner in the body) gives 201 and stores Larry, ripe, green, owned by A; B's list gives 200 and is empty; B's retrieve gives 403; A's delete gives 204; A's next retrieve gives 404 |

## Left out

- HTTP transport, request parsing and response rendering: a handler returns a `Response` value. The `PermissionDenied` and `Http404` exceptions are modelled as 403 and 404 responses.
- A request whose body has no `mango` key, or whose `mango` is not an object, ends in an unhandled error in the source. The model's handlers take that object directly, so these cases are not represented.
- The body is modelled as a fresh map with the owner set (`WithOwner`). The source mutates the request's dictionary in place, but nothing reads it afterwards.
- Authentication and anonymous callers: the caller is a user id. Users are created outside this API; the store gets its user set when it is constructed.
- Serializer internals, since the serializer module is not part of this model. The framework's input coercions (strings such as "true" for a boolean, numbers for a text field) are not modelled. Neither are whitespace trimming and the wording of error messages: errors are kinds per field. The exact keys of the serialized output are not modelled either; response bodies carry the record value.
- The framework's rejection of null characters in text fields is not modelled: a name or color containing `\0` passes `FieldErrors`.
- The 404 detail text "Not found." is the framework's default message, not the source's; other framework versions may word it differently.
- ORM internals: how the primary key is generated (any unused key is chosen), query ordering (`List` may come out in any order), transactions, persistence and concurrency between requests.
- The `print` debugging calls and the unused `get_token` import.
- `MangoViews.MangoStore.List`: the listing's order is left open, because the query has no ordering.
- `MangoModel.ToString`: the contract states the prefix with the name, the suffix and the length, and `RipeReadBack` recovers the ripe word. The complete sentence is given only by the function's definition.
