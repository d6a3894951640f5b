# Double Date API: user registry and admin gate

This project models the core of a small HTTP service (`main.py`). The service keeps an
in-memory registry of users, a dict from user id to user record. An admin code protects
the endpoints that create, list, update and delete users. The model covers:

- the admin gate (`require_admin`);
- the stored record and its public view, which hides the record's OpenAI key (`public_user`);
- the registry logic of the five handlers: create, list, delete, admin update and stats.

Files:

- `wrappers.dfy`: `Option`, Python truthiness of an optional string (`Truthy`), `s or default`
  (`OrElse`), the three HTTP errors (Forbidden 403, BadRequest 400, NotFound 404), and
  `Result`.
- `guard.dfy`: `RequireAdmin`. It takes the configured code and the `x-admin-code` header as
  optional strings.
- `users.dfy`: the `User` record, the `PublicUser` view, `NewUser`, `Public` and the
  admin-update patch `Patched`.
- `registry.dfy`: the registry state. A Python dict iterates in insertion order, so the
  registry is the id-to-record map plus the sequence of its keys in insertion order.
  - `Consistent` is the invariant: each id is listed once, each record is stored under its
    own id, and each locale is "US" or "INTL".
  - `StubsUnset` says that daysLived, weekday and lastUpdated are never written.
  - `ListUsers` and `Stats` are functions of that state.
  - The class `UserRegistry` holds the state. Its methods `Create`, `Delete` and
    `AdminUpdate` change it in place (`modifies this`). Each runs the gate first and keeps
    `main.py`'s order of checks.
  - Two caller methods at the end show what a client can prove from these contracts.

Facts about `main.py` that the model keeps:

- A duplicate id on create is a 400 BadRequest (main.py:80). A missing field gets the same
  error (main.py:77).
- The missing-field check (main.py:76) runs before the duplicate check (main.py:79).
- `lastUpdated`, `daysLived` and `weekday` are only ever None (main.py:86-88). No handler
  writes them.

## Model

| member | source | states |
|---|---|---|
| Guard.RequireAdmin | main.py:31-38 | With no admin code, or an empty one, every request passes. With a code, a request passes exactly when its header equals the code. The only failure is Forbidden. |
| Guard.ConfiguredCodeNeedsExactHeader | main.py:36-38 | With a code configured, the request passes iff the header was sent and is exactly the code. A missing header is Forbidden. |
| Guard.DevModeAllowsEveryRequest | main.py:32-34 | An unset or empty code lets every request through, whatever its header. |
| Users.PublicHidesOnlyTheKey | main.py:40-47 | Two records have the same public view iff they differ at most in the key. The view shows every other field and reveals nothing about the key. |
| Users.Patched | main.py:116-119 | Only the key and the locale can change. A key that is present replaces the old one, whatever its value. The locale changes only to a supplied "US" or "INTL". A valid locale stays valid. |
| Users.NewUser | main.py:82-89 | The record create stores: the given id and key, locale "US", and daysLived, weekday and lastUpdated None. |
| Users.Public | main.py:40-47 | Copies id, locale, daysLived, weekday and lastUpdated, and has no key field, so it never shows the key. The stored locale is copied (see "## Left out" for the "US" fallback). |
| Registry.Without | main.py:105 | Removing an id from the key order leaves exactly the other ids. |
| Registry.WithoutAt | main.py:105 | In a duplicate-free order, `del` drops exactly the deleted id's position and keeps the other ids in their order. |
| Registry.Projections | main.py:96 | The list has one entry per key, in key order. Entry i is the public view of the record under the i-th key. |
| Registry.ProjectionsCover | main.py:96 | In a consistent registry the list covers the registry exactly. Every entry is a stored record's view, every stored id appears, and no id appears twice. |
| Registry.ListUsers | main.py:93-96 | `list_users` fails, with Forbidden, iff the gate refuses. Otherwise it returns the public views in key order (`Projections`), which `ProjectionsCover` shows is exactly one view per stored record. |
| Registry.ForbiddenListIgnoresRegistry | main.py:95 | A refused list request gets the same answer whatever the registry holds: the gate runs before the registry is read. |
| Registry.ProjectionsAppend | main.py:82-96 | After a create, the list is the old list with the new record's view appended. |
| Registry.ProjectionsRemove | main.py:102-106 | After a delete, the list is the old list without the deleted record's view. The other entries keep their order. |
| Registry.ProjectionsReplace | main.py:115-121 | After an update, the updated record's view is replaced in place. No other entry changes. |
| Registry.Stats | main.py:125-134 | Never fails and needs no admin code. An unknown id gives {"0", ""}. daysLived is the stored value when truthy and "0" otherwise. weekday is the stored value when truthy and "" otherwise. |
| Registry.StatsAreDefaults | main.py:127-134 | No handler writes daysLived or weekday, so in every reachable registry stats answers {"0", ""}. |
| Registry.UserRegistry.constructor | main.py:16 | The registry starts empty and satisfies its invariant. |
| Registry.UserRegistry.Create | main.py:68-91 | The checks run in order: Forbidden (no change), then BadRequest for a missing or empty id or key (no change), then BadRequest for an existing id (no change; the stored record and its key stay). Otherwise the map gains exactly `id ↦ {id, key, "US", None, None, None}`, the id is appended to the key order, and the result is that record's public view. The invariant is kept. |
| Registry.UserRegistry.Delete | main.py:98-106 | Forbidden leaves the registry unchanged. An absent id is NotFound and leaves it unchanged. Otherwise exactly that id is removed from the map and the order, and the result is ok. The invariant is kept. |
| Registry.UserRegistry.AdminUpdate | main.py:108-121 | Forbidden leaves the registry unchanged. An absent id is NotFound and leaves it unchanged, whatever the body. Otherwise only that record changes, by `Patched`, and the order stays. The result is the new public view. The invariant is kept. |
| Registry.CreateTwiceKeepsFirst | main.py:76-89 | Creating the same id twice: the first create returns the public view. The second is BadRequest, whether its key is new or empty. The stored record keeps the first key. |
| Registry.CreateListDeleteList | main.py:68-106 | On a fresh registry, a created user is listed with its public view only. After it is deleted, the list is empty. |

## Left out

- FastAPI app setup, routing, the CORS middleware, the health endpoint and the admin HTML page
  (file I/O). None of them touches the registry.
- Reading `ADMIN_CODE` from the environment. The code is a constructor parameter of
  `UserRegistry` and a parameter of `ListUsers`.
- JSON parsing of request bodies. A body is a record of optional strings. Malformed JSON,
  non-object JSON and non-string field values (numbers, `null` for the key) are not modelled.
  A key sent as a string, even "", replaces the stored key.
- The `"US"` fallback in `public_user`. Every record the handlers store has a locale, so the
  fallback never applies. The model copies the stored locale.
- Exact HTTP status codes and messages. The three errors are an enumeration, and the
  comments map them to 403, 400 and 404.
- Concurrency. Each handler is modelled as one atomic step. In `main.py` the plain `def`
  handlers (`list_users`, `delete_user`, `user_stats`) run on a thread pool, and the `async`
  ones run on the event loop. `admin_update` awaits its body (main.py:115) between its
  not-found check (main.py:112) and its writes (main.py:117-121). A delete of the same id in
  that gap makes it fail with a KeyError (HTTP 500). A `list_users` iterating `users.values()`
  (main.py:96) while another handler inserts or deletes can also fail. The model does not
  capture either case.
- Aliasing of the inner record dicts. Each record is referenced only from the registry, so a
  value model is equivalent.
