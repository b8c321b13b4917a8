# grpc-demo in Dafny: the user record store and the gateway's delegation

This project models the two pieces of logic in the grpc-demo repository.

- **User service** (`internal/user/service.go`). A `Service` object holds a map `users` from id to record and a counter `nextID` that starts at 1.
  - `CreateUser` mints `"user-" + decimal(nextID)`, advances the counter, stores the record and echoes it back.
  - `GetUser` returns the stored record, or a gRPC NotFound error whose description names the id.
- **Gateway service** (`internal/gateway/service.go`). It holds a handle to a User-service client.
  - `GetUserProfile` makes one `GetUser` call, copies id, name and email, and adds `status = "active"`.
  - `RegisterUser` makes one `CreateUser` call and returns the new id with the message `"User <name> registered successfully"`.
  - Either handler wraps any downstream error under a fixed context and keeps the cause.

Layout:

- `wrappers.dfy`: `Option` and `Result`. `Result` stands for Go's `(resp, err)` pair.
- `decimal.dfy`: Go's `%d` for non-negative numbers (`Format`), and its inverse `Parse`. The inverse is used to prove that ids are never reused.
- `errors.dfy`: status errors, plain errors, and errors wrapped with `%w`. It defines `Text` (what `Error()` returns), `Root` (the innermost cause) and `Is` (`errors.Is`).
- `user_service.dfy`: the abstract state `Store`, the operations `Put` (CreateUser) and `Get` (GetUser), and the invariant `Invariant`. The class `Service` has the Go struct's two fields. Its methods are proved to follow `Put` and `Get`.
- `gateway.dfy`: the request and response records and the client handle `UserClient`. `Profile` and `Registration` reshape the downstream answer. `GetUserProfile` and `RegisterUser` compose one client call with that reshaping.
- `end_to_end.dfy`: the gateway wired to a user-service store, and the walkthrough the tests describe (Alice, Bob, `user-3` unknown).

The mutex only makes each call atomic. Each RPC is therefore modelled as one sequential step. A run of creates (`PutAll`) stands for any linearisation of concurrent creates.

## Model

| member | source | states |
|---|---|---|
| `Decimal.Format` | internal/user/service.go:77 | `%d` of a counter value is one or more digits, with no leading zero except for 0 itself |
| `Decimal.ParseFormat` | internal/user/service.go:77 | reading the printed digits back gives the counter value |
| `Decimal.FormatParse` | internal/user/service.go:77 | every canonical numeral is the printout of the number it denotes |
| `Decimal.FormatInjective` | internal/user/service.go:77 | two counter values print the same exactly when they are equal |
| `UserService.UserId` | internal/user/service.go:77 | every minted id is the prefix `user-` followed by a canonical decimal numeral |
| `UserService.IdNumberUserId` | internal/user/service.go:77 | an id has counter value k exactly when it is `"user-" + decimal(k)` (both directions) |
| `UserService.UserIdInjective` | internal/user/service.go:77-78 | distinct counter values give distinct ids |
| `UserService.NotFoundError` | internal/user/service.go:64-66 | a miss yields a status error with code NotFound whose message contains the requested id |
| `UserService.Empty` | internal/user/service.go:27-33 | a fresh store has no users and satisfies the store invariant |
| `UserService.Get` | internal/user/service.go:63-68 | lookup succeeds exactly when the id is a key, and then returns the stored record; otherwise it fails with NotFound for that id |
| `UserService.Put` | internal/user/service.go:77-91 | CreateUser step: the counter goes up by one, the response is the id `user-<nextID>` with the request's name and email, exactly that key is added and it holds that record |
| `UserService.PutIssuesFreshId` | internal/user/service.go:77-91 | CreateUser answers with id `"user-" + decimal(nextID)` and the request's name and email, and that id is not already a key |
| `UserService.PutPreservesInvariant` | internal/user/service.go:77-85 | CreateUser keeps the invariant (keys are exactly `user-1 .. user-(nextID-1)`, each record's id equals its key, one record per create), advances the counter by one, adds exactly the new key and changes no existing record |
| `UserService.GetAfterPut` | internal/user/service_test.go:139-161 | GetUser with the id CreateUser returned gives that id with the request's name and email; every other id is answered as before |
| `UserService.PutAllResponseAt` | internal/user/service.go:77-78 | the i-th of a run of creates gets id `user-<n+i>` and echoes the i-th request |
| `UserService.PutAllSequentialIds` | internal/user/service_test.go:85-137 | N successive creates return `user-n, user-(n+1), ...` in issue order, each echoing its own request, and leave the counter N higher |
| `UserService.PutAllInvariant` | internal/user/service.go:72-92 | N successive creates keep the invariant and add exactly N records |
| `UserService.PutAllDistinctIds` | internal/user/service.go:77-78 | ids from successive creates are pairwise distinct and their counter values strictly increase in issue order |
| `UserService.PutAllKeepsRecords` | internal/user/service.go:85 | later creates never overwrite a record already stored |
| `UserService.GetAfterPutAll` | internal/user/service.go:77-85 | after a run of creates, every returned id retrieves the record built from its own request (nothing lost) |
| `UserService.Service.constructor` | internal/user/service.go:27-33 | NewService: empty map, counter 1, invariant holds |
| `UserService.Service.GetUser` | internal/user/service.go:58-69 | read-only (no modifies); answers as `Get` on the current state; under the invariant a found record carries the requested id |
| `UserService.Service.CreateUser` | internal/user/service.go:72-92 | always succeeds; the new state and the response are those of `Put`; the invariant is kept and the id is fresh |
| `Errors.Text` | internal/gateway/service.go:85 | the message of a `%w` wrap starts with its context and ends with the cause's message |
| `Errors.Root` | internal/gateway/service.go:85 | the innermost cause is not itself a wrapper and is reachable from the error as `errors.Is` walks it |
| `Errors.Wrap` | internal/gateway/service.go:85 | a `%w` wrap keeps the cause reachable and the same root, starts its message with the context and ends it with the cause's message |
| `Errors.RootTextIsSuffix` | internal/gateway/service.go:109 | however deeply wrapped, the message still ends with the root cause's message |
| `Gateway.Profile` | internal/gateway/service.go:84-96 | success exactly when the downstream call succeeds; id, name and email are copied verbatim and status is "active"; any failure of any kind is wrapped under "failed to get user from user service" with the downstream error as its direct cause (so also the same root) |
| `Gateway.GetUserProfile` | internal/gateway/service.go:77-97 | in terms of the one downstream answer to `GetUser` with the request's id: success exactly when it succeeds, copying id, name and email and adding "active"; otherwise exactly that error wrapped under "failed to get user from user service" |
| `Gateway.GetUserProfileDelegates` | internal/gateway/service.go:81-83 | the handler depends only on the downstream answer to `GetUser` with the request's id unchanged |
| `Gateway.Confirmation` | internal/gateway/service.go:116 | the confirmation message is non-empty and names exactly the user it is built from (`AnnouncedName` reads the name back) |
| `Gateway.Registration` | internal/gateway/service.go:108-117 | success exactly when the downstream call succeeds, with the downstream id and a non-empty message naming the created user; a failure is wrapped under "failed to create user via user service" with the downstream error as its direct cause (so also the same root) |
| `Gateway.RegisterUser` | internal/gateway/service.go:100-118 | in terms of the one downstream answer to `CreateUser` with the request's name and email: success exactly when it succeeds, returning its id and a message naming its user; otherwise exactly that error wrapped under "failed to create user via user service" |
| `Gateway.RegisterUserDelegates` | internal/gateway/service.go:104-107 | the handler depends only on the downstream answer to `CreateUser` with the request's name and email unchanged |
| `EndToEnd.ProfileThroughStore` | internal/gateway/service.go:77-97 | against a user store, GetUserProfile succeeds exactly for stored ids and returns that user's fields with "active"; for an unknown id it fails with NotFound as root cause and the id still in the message |
| `EndToEnd.RegisterThroughStore` | internal/gateway/service.go:100-118 | against a user store, RegisterUser always succeeds, returns the next fresh id and announces the name that was sent |
| `EndToEnd.RegisterUserVia` | internal/gateway/service.go:100-118 | one RegisterUser through a live User service takes exactly one CreateUser step on the store and returns its fresh id |
| `EndToEnd.Scenario` | internal/user/service_test.go:85-137 | Alice gets `user-1`, Bob `user-2`, `user-1` reads back as Alice, `user-3` is NotFound, also through the gateway |

## Left out

- `Start` in both services, `cmd/main.go` and `internal/config/config.go` are not modelled. They only handle listeners, server goroutines, reflection registration, signal handling and logging.
- `gateway.NewService` and `Close` are not modelled, because they dial and close a gRPC connection. The gateway is built as `NewServiceWithClient` builds it: the datatype constructor `Gateway.Service(userClient)`.
- The gateway tests call `NewService(cfg, mock)` with a client and expect two results (internal/gateway/service_test.go:32). `cmd/main.go` passes an address but also expects two results, `(svc, err)` (cmd/main.go:72). The code's `NewService` takes an address and returns one value (internal/gateway/service.go:25). The model follows the code's client-taking constructor `NewServiceWithClient` (internal/gateway/service.go:39-44).
- The read/write mutex, context cancellation and deadlines are not modelled. Each RPC is one atomic step, and concurrent creates are covered by their linearisation (`PutAll`).
- The gRPC channel between the services is not modelled. A client is a pair of total functions (`Gateway.UserClient`). `EndToEnd.StoreClient` answers from a snapshot of a store. `EndToEnd.RegisterUserVia` calls a live `UserService.Service` directly.
- `UserService.Service.CreateUser`: the counter is an unbounded `nat`. Go's `int` would wrap after 2^63 - 1 creates. That is out of reach in practice and is not modelled.
- The message of a status error is modelled as its description alone (`Errors.Text`). The `rpc error: code = ... desc = ...` framing that gRPC adds is not modelled.
- Logging calls (`cfg.Infof`) are not modelled.
- `Gateway.GetUserProfile`, `Gateway.RegisterUser`: a client answer is a `Result`, either a response or an error, so a `(nil, nil)` answer cannot be expressed. On that answer the Go handlers dereference nil (internal/gateway/service.go:92 and :115) and panic. A generated gRPC client never returns it, but the test mock type can.
- `UserService.Service.GetUser`: the Go store holds `*userpb.GetUserResponse` pointers and returns the stored pointer itself (internal/user/service.go:63-68), so an in-process caller shares the record with the store and could mutate it. The model stores and returns values, so that aliasing is not captured.
- `RegisterUser` builds its message from the name in the downstream response (internal/gateway/service.go:116), not from the request. The model does the same. Through a real store the two names agree (`EndToEnd.RegisterThroughStore`).
