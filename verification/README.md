# Food menu dashboard: state model

This project models the state handling of the `Dashboard` page of a restaurant
menu manager. The page keeps four pieces of state:

- the list of food items, in order;
- the object staged for editing;
- whether the add dialog is open;
- whether the edit dialog is open.

Each handler is modelled as a pure transition. The inputs are the old state, the
handler's own argument and the outcome of its remote call. The outputs are the
request the handler sends and the new state.

- `records.dfy` (module `Records`): the `Food` item the server returns, and plain
  JavaScript objects as `map<Key, Value>`. With maps, the object spread
  `{...a, ...b}` is exactly `a + b` (`Merge`). The create body is `CreateBody`.
  A property read is `Get`, where `None` stands for `undefined`.
- `food_list.dfy` (module `FoodList`): the three list rewrites.
  - `Append` is `[...foods, item]`.
  - `ReplaceById` is the update's `map`.
  - `RemoveId` is the delete's `filter`.
  - The module also has lemmas about order, length, membership, idempotence and
    unique ids.
- `dashboard.dfy` (module `Dashboard`):
  - `State`, and `RemoteResult<T> = Ok(data) | Err` for the outcome of a call.
  - `Initial`, the state on first render: an empty list, the editing object `{}`,
    and both dialogs closed.
  - `Request`, for what is sent: list, create, replace (PUT), remove.
  - The handlers `Load`, `HandleAddFood`, `HandleUpdateFood`, `HandleDeleteFood`,
    `ToggleModal`, `ToggleEditModal` and `HandleEditFood`.
  - Lemmas that relate the handlers to each other.

A failed call leaves the state exactly as it was. The source changes the list only
after the awaited call succeeds, and its catch branch only logs.

Four behaviours of the code are easy to misread, and the model keeps them as written:

- An update with no edit target is not skipped. The editing object starts as `{}`
  (index.tsx:37), and the guard `if (editingFood)` (index.tsx:63) tests an object,
  which is always truthy. So the PUT is still sent, to an undefined id, and a
  successful reply is still applied. `Dashboard.UpdateWithoutTargetStillApplies`
  states this.
- An update replaces every entry whose id equals the id in the *reply*
  (index.tsx:69-71). The PUT path uses the editing object's id (index.tsx:65).
- A delete removes every entry with that id (index.tsx:83). It removes exactly one
  entry only when ids are unique (`FoodList.RemoveIdUnique`).
- The `load` effect has no `catch` (index.tsx:42-45). A failed fetch rejects the
  promise and `setFoods` is never reached, so the list is unchanged. That is what
  `Dashboard.Load` states.

## Model

| member | source | states |
|---|---|---|
| Records.FromFood | src/pages/Dashboard/index.tsx:11-18 | a food item as a run-time object carries all six properties, each with the item's own value |
| Records.FoodObjectRoundTrip | src/pages/Dashboard/index.tsx:11-18 | reading a food item's run-time object back gives the same item, so the object encoding of a food item loses no field |
| Records.Get | src/pages/Dashboard/index.tsx:65 | reading a property gives its value when present and undefined (`None`) otherwise |
| Records.Merge | src/pages/Dashboard/index.tsx:66 | `{...editingFood, ...food}`: every property of the submitted data wins, every other property of the editing object is kept, and the keys are the union |
| Records.MergeEmpty | src/pages/Dashboard/index.tsx:37 | spreading the initial empty editing object, or empty form data, changes nothing |
| Records.CreateBody | src/pages/Dashboard/index.tsx:51-54 | the create body is the draft with `available` forced to true; every other draft property passes through unchanged, and no other key is added |
| FoodList.Append | src/pages/Dashboard/index.tsx:55 | the new list is one longer, keeps the old list as its prefix, and ends with the server's item |
| FoodList.RemoveId | src/pages/Dashboard/index.tsx:83 | afterwards no item has the id, and the length drops by the number of items that had it |
| FoodList.ReplaceById | src/pages/Dashboard/index.tsx:69-71 | the length is kept; each item with the reply's id becomes the reply; every other item stays unchanged at its position |
| FoodList.RemoveIdMembers | src/pages/Dashboard/index.tsx:83 | an item survives a delete if and only if it was in the list and has a different id |
| FoodList.RemoveIdInOrder | src/pages/Dashboard/index.tsx:83 | the filter walks the list front to back: each item is appended after the survivors of its prefix exactly when its id differs, which fixes the order and multiplicity of the survivors |
| FoodList.RemoveIdAppend | src/pages/Dashboard/index.tsx:83 | filtering a concatenation filters each part, so the kept items keep their relative order |
| FoodList.RemoveIdAbsent | src/pages/Dashboard/index.tsx:83 | deleting an id that no item has leaves the list unchanged |
| FoodList.RemoveIdIdempotent | src/pages/Dashboard/index.tsx:83 | deleting an id twice gives the same list as deleting it once |
| FoodList.AppendThenRemove | src/pages/Dashboard/index.tsx:55-83 | appending an item with a fresh id and then deleting that id restores the list |
| FoodList.ReplaceByIdKeepsIds | src/pages/Dashboard/index.tsx:69-71 | an update never changes which id is at which position |
| FoodList.ReplaceByIdIdempotent | src/pages/Dashboard/index.tsx:69-71 | applying the same reply twice gives the same list as applying it once |
| FoodList.ReplaceByIdAbsent | src/pages/Dashboard/index.tsx:69-71 | a reply whose id matches no item leaves the list unchanged |
| FoodList.RemoveAfterReplace | src/pages/Dashboard/index.tsx:69-83 | deleting the reply's id after an update gives the same list as deleting it without the update |
| FoodList.UniqueCountAtMostOne | src/pages/Dashboard/index.tsx:83 | when ids are unique, each id occurs at most once |
| FoodList.RemoveIdUnique | src/pages/Dashboard/index.tsx:83 | when ids are unique, a delete removes exactly one item if the id is present and none if it is absent |
| FoodList.AppendKeepsUnique | src/pages/Dashboard/index.tsx:55 | appending an item with a fresh id keeps the ids unique |
| FoodList.ReplaceKeepsUnique | src/pages/Dashboard/index.tsx:69-71 | an update keeps the ids unique |
| FoodList.RemoveKeepsUnique | src/pages/Dashboard/index.tsx:83 | a delete keeps the ids unique |
| Dashboard.Load | src/pages/Dashboard/index.tsx:41-47 | the list request replaces the list wholesale with the snapshot; a failure leaves the state unchanged; nothing else changes |
| Dashboard.HandleAddFood | src/pages/Dashboard/index.tsx:49-59 | posts the create body; on success the list grows by exactly the server's item at the end, with the old prefix intact; on failure the state is unchanged; the editing object and the dialogs never change |
| Dashboard.HandleUpdateFood | src/pages/Dashboard/index.tsx:61-77 | the PUT goes to the editing object's id, with the merged body; on success the length and order are kept, items with the reply's id become the reply and the others stay put; on failure the state is unchanged |
| Dashboard.HandleDeleteFood | src/pages/Dashboard/index.tsx:79-89 | sends the delete; on success the list is the order-preserving filter `RemoveId` (order fixed by `FoodList.RemoveIdInOrder`), no item has the id, the kept items are exactly those with another id, and the length drops by the number removed; on failure the state is unchanged |
| Dashboard.LoadOverwrites | src/pages/Dashboard/index.tsx:43-44 | a successful load discards whatever an earlier load left: the list is the latest snapshot alone |
| Dashboard.ToggleModal | src/pages/Dashboard/index.tsx:91-93 | flips the add-dialog flag and nothing else |
| Dashboard.ToggleEditModal | src/pages/Dashboard/index.tsx:95-97 | flips the edit-dialog flag and nothing else |
| Dashboard.HandleEditFood | src/pages/Dashboard/index.tsx:99-102 | stages the given object and opens the edit dialog; the list and the add dialog are unchanged |
| Dashboard.ToggleModalInvolutive | src/pages/Dashboard/index.tsx:91-93 | toggling the add dialog twice is the identity |
| Dashboard.ToggleEditModalInvolutive | src/pages/Dashboard/index.tsx:95-97 | toggling the edit dialog twice is the identity |
| Dashboard.HandleEditFoodIdempotent | src/pages/Dashboard/index.tsx:99-102 | requesting the same edit twice is the same as requesting it once, unlike a toggle |
| Dashboard.UpdateTargetsEditedFood | src/pages/Dashboard/index.tsx:61-67 | after an edit request on an item, an update whose form data has no id goes to that item's id and keeps it in the body; every other property is the submitted one when present and the item's otherwise |
| Dashboard.UpdateWithoutTargetStillApplies | src/pages/Dashboard/index.tsx:37-72 | with no edit requested, the PUT is still sent, with an undefined id and the form data as body, and a successful reply is still applied |
| Dashboard.AddThenDeleteRestores | src/pages/Dashboard/index.tsx:49-89 | a successful add of an item with a fresh id, then a successful delete of that id, restores the state |
| Dashboard.DeleteTwice | src/pages/Dashboard/index.tsx:79-89 | after a successful delete, deleting the same id again changes nothing, whether that call succeeds or fails |
| Dashboard.UpdateTwice | src/pages/Dashboard/index.tsx:61-77 | replaying the same successful update reply changes nothing further |
| Dashboard.HandlersKeepIdsUnique | src/pages/Dashboard/index.tsx:49-89 | if the list has unique ids and the created item's id is fresh, add, update and delete all keep the ids unique |
| Dashboard.UniqueIdsUpdateAndDelete | src/pages/Dashboard/index.tsx:61-89 | when ids are unique, an update changes at most one position, and a delete shortens the list by one exactly when the id was present |
| Dashboard.Session | src/pages/Dashboard/index.tsx:36-102 | a session that loads a pizza, adds a burger, re-prices the pizza and deletes it sends exactly the list request, the create body with `available` true, the PUT to id 1 with the pizza's full object at the new price, and the delete of id 1, and leaves the list `[pizza]`, `[pizza, burger]`, `[pizza12, burger]`, `[burger]` after each step |

## Left out

- Rendering: the JSX tree and the list of `Food` components (lines 104-131). They produce no state.
- React hooks and the scheduling of the mount effect (lines 41-47). `Load` is a transition that the caller applies once.
- The HTTP client `api`: `src/services/api` is not part of this model. Each call's outcome is the `RemoteResult` input, and `console.log` is modelled as doing nothing.
- Concurrency and stale closures. Each handler reads the list captured at render time, so interleaved asynchronous handlers can lose updates. Here every handler is one atomic step on the current state.
- `src/components/ModalEditFood/index.tsx`: its submit handler only forwards the form data to the update handler and then toggles the edit dialog. It holds no state logic of its own.
- Request paths as strings: the model carries the id that is interpolated into `/foods/${id}` (`Option<Value>`, where `None` is `undefined`), not the formatted path.
- Property values that are present but set to `undefined`: a JavaScript spread copies them and they override. An `Obj` models a property as either present with a value or absent.
- Price as a JavaScript floating-point number: it is only carried and never computed on, so it is an `int`.
- Run-time shapes the types do not describe. A reply is modelled as a well-formed `Food`. The type cast of the initial editing object `{}` is modelled by its real value, an empty object.
