# MonVoyage backend core, modelled in Dafny

This project models the decision logic and state updates of the MonVoyage
travel-booking API (`voyage.py`). The API matches trip requests against a
static catalogue of bus agencies and their routes. It confirms and cancels
tickets that are paid through a payment provider, and it checks new users'
passwords. It issues access tokens, and it relays live vehicle positions to
WebSocket subscribers.

Each handler is a pure function or a short method. Database tables are
sequences of rows in storage order, so a `select(...).first()` is "the first
matching row". The WebSocket registry is an insertion-ordered list of
(vehicle id, socket) pairs with unique keys, which is how a Python dict
behaves. Clocks, database-assigned ids, bcrypt digests, text normalisation and
date parsing are parameters, and so is which sockets raise when sent to.

Modules:

- `Common` (`common.dfy`): `Option`, `Result`, `HttpError`, time as integer microseconds, Python truthiness of optional strings, and the first-match lookup.
- `Password` (`password.dfy`): the ordered password policy.
- `Routes` (`routes.dfy`): route search with normalised city matching and the weekday filter.
- `Tickets` (`tickets.dfy`): the payment webhook and ticket cancellation.
- `Tracking` (`tracking.dfy`): the position table, the connection registry, broadcast, and the position-update endpoint.
- `Auth` (`auth.dfy`): token expiry and claims.
- `Users` (`users.dfy`): registration.

Two behaviours of the connection manager are easy to misread:

- `update_vehicle_location` calls `broadcast`, which sends every update to every registered socket, not only the socket subscribed to that vehicle (`Tracking.UpdateVehicleLocation`).
- `disconnect` runs `del`, so it raises `KeyError` for an absent key and is not idempotent (`Tracking.Disconnect`).

A binding can outlive its connection. `websocket_endpoint` calls
`disconnect` only on `WebSocketDisconnect`, so a closed socket may stay
registered. A later broadcast then raises on it, and the position update
fails with a 500 after its row was committed (`Tracking.Broadcast`,
`Tracking.UpdateVehicleLocation`).

A subscriber that reconnects under the same vehicle id takes over the dict
slot. When the older connection then closes, it removes the newer one's
binding (`Tracking.StaleDisconnectDropsNewerSubscriber`).

The ticket status spellings differ. The webhook sends its confirmation SMS
for `"complete"`, but cancellation accepts only `"completed"`. So a ticket the
webhook has just confirmed cannot then be cancelled, unless a later webhook
changes its status (`Tickets.ConfirmedTicketCannotBeCancelled`,
`Tickets.CompletedTicketCanBeCancelled`).

## Model

| member | source | states |
|---|---|---|
| Password.ValidatePasswordStrength | voyage.py:254-264 | A password is accepted exactly when it has at least 8 characters and contains an A–Z, an a–z, a 0–9 and one of the twenty listed special characters. Otherwise the reported rule is one the password fails, and every rule before it in the order length, upper, lower, digit, special passes. |
| Password.Search | voyage.py:257-263 | One `re.search` of a character class reports a match exactly when some character of the string is in the class. |
| Password.FirstFailure | voyage.py:254-264 | The reported rule is absent exactly for strong passwords. A reported rule fails, and all rules ordered before it hold. |
| Password.ReportedRuleIsEarliest | voyage.py:254-264 | When a password fails some rule, a rule is reported, and it is never later in the order than the failed one. |
| Password.RuleError | voyage.py:255-264 | Every policy failure is an HTTP 400. |
| Routes.JourSemaine | voyage.py:270-279 | A weekday name is derived exactly when the date is non-empty and parses. The name is the French name of the date's weekday, Monday being `Lundi`. |
| Routes.TrouverTrajetDisponible | voyage.py:268-306 | The answer has one entry per offered catalogue position, in the order of the offered positions. Each entry carries the agency name, the route's fields and the requested date. |
| Routes.AgencyRoutes | voyage.py:286-305 | For an agency leaving from the requested city, the entries are exactly its offered routes, in route order. |
| Routes.MatchesExactly | voyage.py:281-291 | A position is offered exactly when it exists and the agency's normalised `ville_depart` equals the normalised departure. The route's normalised `destination` must equal the normalised destination, and the route must pass the weekday filter. |
| Routes.MatchesInCatalogueOrder | voyage.py:284-306 | Offered positions appear in catalogue order: agency order, then route order within an agency. |
| Routes.DayFilterOnlyExcludes | voyage.py:270-291 | A route that matches both cities is left out only when three things hold: a weekday was derived, the route lists non-empty `days_of_week`, and the weekday is not among them. |
| Routes.NoWeekdayNoFilter | voyage.py:270-291 | With a missing, empty or malformed date, every route that matches both cities is offered. |
| Tickets.AnnulerBillet | voyage.py:502-521 | Cancellation succeeds exactly for an existing ticket whose status is `"completed"`. That ticket becomes `"cancelled"` and no other row changes. A missing ticket gives 404. `"cancelled"` gives 400 "already cancelled". Any other status gives 400. Every error leaves the table unchanged. |
| Tickets.PaiementWebhook | voyage.py:464-497 | The first ticket with the reference, if any, takes the incoming status verbatim, and no other row changes. An SMS is requested exactly when a ticket was found and the status is `"complete"`. It goes to the test recipient when one is set, else to the ticket's phone. The reply is always "received". |
| Tickets.WebhookKeepsIds | voyage.py:477-483 | The webhook keeps ticket ids unique and keeps every ticket findable under its id. |
| Tickets.ConfirmedTicketCannotBeCancelled | voyage.py:477-521 | A ticket confirmed by the webhook with `"complete"` triggers the SMS, and cancelling it afterwards is refused with 400 and changes nothing. |
| Tickets.CompletedTicketCanBeCancelled | voyage.py:477-517 | A ticket the webhook set to `"completed"` triggers no SMS and can then be cancelled. |
| Tickets.CancelTwiceRefused | voyage.py:511-519 | Cancelling a ticket a second time is refused as "already cancelled", and the table is unchanged. |
| Tracking.Upsert | voyage.py:591-608 | After an update of `v`, the row for `v` holds the new coordinates and time, and other vehicles' rows are unchanged. The table grows by one row exactly when `v` had no row. The unique index on `vehicle_id` is preserved. |
| Tracking.LastWriteWins | voyage.py:591-608 | After any sequence of updates, each vehicle's row holds its last update, or its old row if it had no update, and vehicle ids stay unique. |
| Tracking.Connect | voyage.py:78-80 | `connect(ws, v)` binds `v` to `ws`, replacing an earlier socket in the same dict slot. All other bindings are unchanged. |
| Tracking.Disconnect | voyage.py:82-83 | `disconnect(v)` raises `KeyError` exactly when `v` is not registered. Otherwise it removes `v`'s binding and no other, and the remaining entries keep their order. |
| Tracking.Broadcast | voyage.py:88-90 | The message is sent once on each registered socket in registry order, until a send raises. Nothing catches that error, so the first failing socket and every socket after it get nothing, and the failing slot is reported. When no send fails, every registered vehicle's socket receives the message. |
| Tracking.UpdateVehicleLocation | voyage.py:588-616 | The table becomes the upsert of the reported position and time: the vehicle's row is the new one, other rows are unchanged, and it grows by one row exactly when the vehicle had none. The committed row is then sent to every registered socket in registry order, whatever vehicle the socket is registered under. The reply echoes the coordinates exactly when no send fails. Otherwise the sends stop at the first failing socket and the answer is a 500, although the row stays committed. |
| Tracking.StaleDisconnectDropsNewerSubscriber | voyage.py:618-626 | After two subscriptions to one vehicle, the first to close removes the binding of the second, and the second's close raises `KeyError`. |
| Auth.Expiry | voyage.py:35-43 | The expiry is `now + delta` for a present non-zero delta, and `now + 30 min` for `None` or a zero delta. It is later than `now` unless the delta is negative. |
| Auth.CreateAccessToken | voyage.py:35-43 | The claims are the caller's claims plus `exp` set to the expiry, and nothing else changes. |
| Auth.LoginTokenExpiresAfterDefault | voyage.py:557-561 | A login token carries its subject and expires 30 minutes after issue, the same as the fallback. |
| Users.RegisterUser | voyage.py:525-546 | The checks run in order: password policy (first failing rule), username taken, then e-mail taken, checked only when an e-mail is given. Each refusal is a 400 and leaves the table unchanged. A success appends one active user whose e-mail is `None` when none or an empty one was given, and it keeps usernames and e-mails unique. |

## Left out

- Google Maps directions and polyline decoding, Notch Pay payment initiation (`initier_paiement`), and Twilio delivery in `send_sms`: these are external HTTP clients. The webhook returns the SMS it would send as a value.
- The confirmation SMS text: the model keeps its fields (recipient, reference, amount, currency, description), not the formatted French sentence.
- bcrypt hashing and verification (`get_password_hash`, `verify_password`, `login_for_access_token`'s credential check) and JWT encoding and decoding (`get_current_user`, `read_users_me`): these are library cryptography. The model stops at the claim set handed to the encoder.
- Haversine distance and the sort by distance in `trouver_agences_proches`: floating-point trigonometry.
- `normalize_text` (Unicode NFD and accent stripping) and `strptime` plus `weekday()`: these are parameters of the route search, not definitions.
- The wrapping handlers `rechercher_trajets` and `get_trajet_details`: their 503 for an empty catalogue and 404 for an empty answer are not modelled.
- `send_personal_message`: no handler calls it.
- The async WebSocket I/O, the handshake `accept()`, the receive loop, and the interleaving of handlers: concurrency and transport. The subscription lifecycle is modelled as `Connect` followed by `Disconnect`.
- Startup loading of `agences.json`, CORS, engine and session creation, `create_db_and_tables`, and the table declarations in `db_setup.py`: plumbing with no decision logic.
- Routes.Agency: the catalogue is assumed to follow its schema: `ville_depart` and `destination` are strings or absent, `trajets` is a list, and `days_of_week` is a list of strings or absent. A JSON `null` city, which makes `normalize_text` raise `TypeError`, and a string-valued `days_of_week`, which makes `not in` a substring test, are not modelled.
- Tickets.PaiementWebhook: does not model the catch-all 500, which only arises from database failures.
- Tracking.VehicleLocation: the surrogate primary key `id` is not modelled, because no handler reads it.
- Auth.Expiry: does not model the `OverflowError` of a `datetime` beyond year 9999. Time is unbounded integer microseconds.
- Users.RegisterUser: the bcrypt digest and the database-assigned id are inputs, not computed.
