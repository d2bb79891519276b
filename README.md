# Order store of the Yerevan shawarma API, in Dafny

This project models the in-memory order store of a small FastAPI service
(`app.py`). The service keeps a process-wide table `orders_storage` from
integer order ids to order records, and a counter `next_order_id` that starts
at 1. Four request handlers work on it:

- order creation stores a new order under the counter value and advances the counter;
- order lookup reads one record;
- order update replaces an order's item list;
- order cancellation deletes the entry.

The customer name of an order-creation body is validated first. Python's
`str.strip()` removes the surrounding whitespace, and the name is refused
when fewer than two characters remain.

Modules, one per concern:

- `PyStrings` (`pystrings.dfy`): Python's `str.isspace()` set of code points and
  `str.strip()`, with a proof that `Strip` returns exactly the trimmed core of
  any whitespace-padded string.
- `Orders` (`orders.dfy`): the `Order` record, the three status labels kept
  verbatim, the `Error`/`Result` outcome that stands in for the HTTP
  exceptions, and `ValidateName`.
- `Lifecycle` (`lifecycle.dfy`): the store as a value (`StoreState`), the four
  operations as functions on it, and the store invariant `Valid`. `Valid` says
  that every key is below the counter, every order's `id` equals its key, and
  every order has status "Ընթացքում ա".
- `History` (`history.dfy`): sequences of requests served from the initial
  store. It proves that every reachable store is valid and that creations
  hand out the ids 1, 2, 3, … with none skipped or reused.
- `Service` (`service.dfy`): the class `OrderStore` with the two mutable
  fields. Its create, update and cancel methods change them in place and are
  proved to have exactly the effect of the `Lifecycle` functions.

The status labels are three distinct strings, as the code writes them:

- creation stamps "Ընթացքում ա";
- update refuses any order whose status is not "Ընթացքում ա";
- cancel refuses only "պատրաստ";
- "Պատրաստ ա" is the status of the creation response wrapper, not of an order.

No operation ever writes any status other than "Ընթացքում ա". So in every
reachable store the update guard and the cancel guard never reject a present
id (`History.GuardsNeverFire`). `Lifecycle.GuardsDisagree` shows that the
two guards would disagree on an order holding "Պատրաստ ա", but no reachable
store holds one. Because the mismatch cannot be reached, the model keeps the
labels as written rather than merging them into one two-state enumeration.

Inputs from the environment: the creation timestamp (`datetime.now()`) is a
`DateTime` parameter of `Create`. Item lists are plain strings.

## Model

| member | source | states |
|---|---|---|
| PyStrings.IsSpaceListed | app.py:39 | the whitespace test `IsSpace` that strip uses holds for exactly the 29 code points for which Python's `str.isspace()` holds, listed one by one |
| PyStrings.Strip | app.py:39-41 | the stripped name is trimmed, no longer than the input, and empty exactly when the input is all whitespace |
| PyStrings.StripBounds | app.py:39 | strip keeps one slice; everything before and after it is whitespace and the slice is trimmed |
| PyStrings.LeadingSpace | app.py:39 | the longest whitespace prefix: all of it is whitespace and the next character is not |
| PyStrings.TrailingSpace | app.py:39 | the longest whitespace suffix: all of it is whitespace and the character before it is not |
| PyStrings.LeadingSpaceOfPadded | app.py:39 | a whitespace prefix followed by a non-whitespace character is exactly what strip removes on the left |
| PyStrings.TrailingSpaceOfPadded | app.py:39 | a whitespace suffix preceded by a non-whitespace character is exactly what strip removes on the right |
| PyStrings.StripPadded | app.py:39-41 | for any whitespace padding around a trimmed core, strip returns exactly the core |
| PyStrings.StripIdempotent | app.py:41 | stripping an already stripped name changes nothing |
| Orders.ValidateName | app.py:38-41 | an accepted name has at least 2 characters and is trimmed; an all-whitespace name is refused with a validation error |
| Orders.ValidateNamePadded | app.py:38-41 | a padded trimmed core is accepted iff the core has at least 2 characters, and then the core is returned |
| Orders.ValidateNameIdempotent | app.py:41 | a returned name is accepted again unchanged |
| Orders.ValidateNameExample | app.py:38-41 | " An " is accepted as "An" |
| Orders.ValidateNameShortExample | app.py:39-40 | " A\t" keeps one character after stripping and is refused with a validation error |
| Orders.StatusLabelsDistinct | app.py:119 | the creation label, the cancel-guard label (line 171) and the response status (line 131) are three different strings |
| Lifecycle.Init | app.py:65-66 | the store starts with an empty table and counter 1 |
| Lifecycle.Create | app.py:114-125 | succeeds iff the stripped name has at least 2 characters; then the order is stored under the old counter with that id, the stripped name, the given items, status "Ընթացքում ա" and the given time, the counter grows by exactly 1 and all other entries are unchanged; on failure nothing changes; preserves `Valid` and the new id exceeds every stored key |
| Lifecycle.Get | app.py:140-143 | `NotFound` exactly when the id is absent, otherwise the stored record |
| Lifecycle.Update | app.py:148-162 | `NotFound` iff absent; `InvalidState` iff present with a status other than "Ընթացքում ա"; success whenever present with status "Ընթացքում ա"; on error the store is unchanged; on success only that order's items are replaced, its other fields, all other entries and the counter unchanged; preserves `Valid` and never fails on a present id of a valid store |
| Lifecycle.Cancel | app.py:167-175 | `NotFound` iff absent; `InvalidState` iff present with status "պատրաստ"; success whenever present with any other status; on error the store is unchanged; on success exactly that key is removed and the counter is unchanged; preserves `Valid` and never fails on a present id of a valid store |
| Lifecycle.InitValid | app.py:65-66 | the initial store satisfies the store invariant |
| Lifecycle.GetAfterCreate | app.py:124 | looking up a created order's id returns the created record |
| Lifecycle.GetAfterUpdate | app.py:158 | looking up an updated order returns the updated record with the new items |
| Lifecycle.GetAfterCancel | app.py:174 | after a successful cancel, looking up that id gives `NotFound` |
| Lifecycle.CreateTwice | app.py:115-125 | two successive creations return ids differing by exactly 1, the second above every earlier stored id |
| Lifecycle.GuardsDisagree | app.py:152-172 | an order holding the response label would be refused by update but cancelled; one holding "պատրաստ" would be refused by both |
| History.Step | app.py:103-175 | serving one request moves the counter by at most one, the only key it can add is the old counter value, and it keeps the store invariant |
| History.Run | app.py:65-66 | over a run of requests the counter never goes back and every newly present key lies between the old and the new counter value |
| History.RunValid | app.py:103-175 | every sequence of requests keeps the store invariant |
| History.IssuedIdsConsecutive | app.py:115-125 | over any run, the counter grows by the number of successful creations, and they return the old counter value, then that plus 1, and so on |
| History.StepIssues | app.py:115-125 | a single request hands out at most one id, that id is the old counter value, and the counter grows by the number of ids handed out |
| History.IdsNeverReused | app.py:115-125 | from process start the created ids are 1, 2, 3, … and strictly increasing, although cancel deletes entries (line 174) |
| History.ReachableIsValid | app.py:65-66 | every store reachable from process start satisfies the invariant |
| History.StoredIdsWereIssued | app.py:124 | every key of a reachable store is an id some creation returned |
| History.GuardsNeverFire | app.py:152-172 | in a reachable store every order is in progress, so update and cancel always succeed on a present id |
| History.LookupsChangeNothing | app.py:140-143 | any number of lookups leaves the store unchanged, so repeated lookups give identical results |
| History.Scenario | app.py:103-175 | from start: creating " An " with ["հավով"] gives order 1 named "An" in progress; lookup returns it; cancel removes it; lookup gives `NotFound`; the next creation gets id 2 |
| Service.OrderStore.constructor | app.py:65-66 | a new object holds the initial store |
| Service.OrderStore.GetOrder | app.py:140-143 | `NotFound` exactly when the id is absent, otherwise the stored record; reads and changes nothing else |
| Service.OrderStore.CreateOrder | app.py:112-125 | the fields and the answer are exactly those of `Lifecycle.Create` on the old fields; the invariant is kept |
| Service.OrderStore.UpdateOrder | app.py:148-158 | the fields and the answer are exactly those of `Lifecycle.Update` on the old fields; the invariant is kept; a present id of a valid store is always updated |
| Service.ClientScenario | app.py:112-175 | a session on a new object (create " An " with ["հավով"], lookup, update, cancel, cancel again, a refused all-whitespace name) ends with an empty table and counter 2, each answer following from the method contracts |
| Service.OrderStore.CancelOrder | app.py:167-174 | the fields and the answer are exactly those of `Lifecycle.Cancel` on the old fields; the invariant is kept; a present id of a valid store is always cancelled |

## Left out

- HTTP plumbing: routing, `HTTPException` with its status codes and detail messages, and the pydantic response models are not modelled. An outcome is a `Result` whose error is `NotFound`, `InvalidState` or `ValidationError`.
- The creation response wrapper (status "Պատրաստ ա" and the "created" message) is not built; creation answers with the new order.
- `print`, `time.sleep(1)` and `uvicorn.run` are side effects with no effect on the store.
- `datetime.now()` is nondeterministic; the timestamp is a parameter.
- The menu table, the health check, the menu listing and the single-item menu lookup are constant data. The menu lookup's match of a string against enum keys depends on Python enum equality.
- Menu-item validation on creation: the service refuses a creation body whose items are not all menu values ("հավով", "տավարով", "բանջարեղենով", "հատուկ"), answering 422 before the order handler runs, so no order is stored and the counter does not move. The model's creation accepts any list of strings. Update accepts raw strings in the service too, and the model matches it there.
- `special_requests` of the creation body is accepted by the service and never used, so it is not a parameter.
- Concurrency: the handlers are modelled as running one at a time; interleaving of async and threaded handlers is not modelled.
- Aliasing: the source's update mutates the very object stored in the table (and previously returned). The model replaces the record in the map, which is the same observable table content, but it does not model other references to the old record.
