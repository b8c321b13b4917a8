/** The two services wired together as the process entry point wires them: the Gateway's
    client answers from a User service's store. The network channel between them is not
    modelled; each call is answered by the store as one atomic step. */
module EndToEnd {
  import opened Wrappers
  import opened Errors
  import opened UserService
  import Gateway

  /** A client whose answers are those of the User service in state `st`. */
  function StoreClient(st: Store): Gateway.UserClient {
    Gateway.UserClient(
      (req: GetUserRequest) => Get(st, req.userId),
      (req: CreateUserRequest) => Success(Put(st, req).response))
  }

  /** GetUserProfile of a stored user returns that user's fields verbatim and "active";
      of an unknown id it fails, with the User service's NotFound as the root cause and
      the id still named in the message. */
  lemma ProfileThroughStore(st: Store, req: Gateway.GetUserProfileRequest)
    requires Invariant(st)
    ensures var r := Gateway.GetUserProfile(Gateway.Service(StoreClient(st)), req);
      && (r.Success? <==> req.userId in st.users)
      && (r.Success? ==> r.value == Gateway.GetUserProfileResponse(
            req.userId, st.users[req.userId].name, st.users[req.userId].email, Gateway.ActiveStatus))
      && (r.Failure? ==> Root(r.error) == NotFoundError(req.userId) && Mentions(Text(r.error), req.userId))
  {
    var r := Gateway.GetUserProfile(Gateway.Service(StoreClient(st)), req);
    if r.Failure? {
      var cause := NotFoundError(req.userId);
      assert r.error == Wrap(Gateway.GetUserContext, cause);
      MentionsInSuffix(Text(r.error), Text(cause), req.userId);
    }
  }

  /** RegisterUser against a store always succeeds, hands out the next fresh id and
      announces the name that was sent. */
  lemma RegisterThroughStore(st: Store, req: Gateway.RegisterUserRequest)
    requires Invariant(st)
    ensures var r := Gateway.RegisterUser(Gateway.Service(StoreClient(st)), req);
      && r.Success?
      && r.value.userId == UserId(st.nextId)
      && r.value.userId !in st.users
      && Gateway.AnnouncedName(r.value.message) == Some(req.name)
  {
    PutIssuesFreshId(st, CreateUserRequest(req.name, req.email));
  }

  /** RegisterUser through a live User service: the store takes one CreateUser step and
      the Gateway reshapes its answer. */
  method RegisterUserVia(users: UserService.Service, req: Gateway.RegisterUserRequest)
    returns (r: Result<Gateway.RegisterUserResponse, Error>)
    requires users.Valid()
    modifies users
    ensures users.Valid()
    ensures users.State() == Put(old(users.State()), CreateUserRequest(req.name, req.email)).store
    ensures r.Success? && r.value.userId == UserId(old(users.nextId)) && r.value.userId !in old(users.users)
    ensures Gateway.AnnouncedName(r.value.message) == Some(req.name)
  {
    var down := users.CreateUser(CreateUserRequest(req.name, req.email));
    r := Gateway.Registration(down);
  }

  /** The end-to-end run: Alice then Bob are created, user-1 is read back, user-3 is
      unknown both to the User service and through the Gateway. */
  method Scenario() returns (alice: Result<CreateUserResponse, Error>, bob: Result<CreateUserResponse, Error>,
                             first: Result<User, Error>, missing: Result<User, Error>,
                             profile: Result<Gateway.GetUserProfileResponse, Error>)
    ensures alice == Success(CreateUserResponse("user-1", "Alice", "alice@example.com"))
    ensures bob == Success(CreateUserResponse("user-2", "Bob", "bob@example.com"))
    ensures first == Success(User("user-1", "Alice", "alice@example.com"))
    ensures missing == Failure(NotFoundError("user-3"))
    ensures profile.Failure? && Root(profile.error) == NotFoundError("user-3")
  {
    var users := new UserService.Service();
    alice := users.CreateUser(CreateUserRequest("Alice", "alice@example.com"));
    bob := users.CreateUser(CreateUserRequest("Bob", "bob@example.com"));
    assert UserId(1) == "user-1" && UserId(2) == "user-2" && UserId(3) == "user-3";
    first := users.GetUser(GetUserRequest("user-1"));
    missing := users.GetUser(GetUserRequest("user-3"));
    profile := Gateway.GetUserProfile(Gateway.Service(StoreClient(users.State())), Gateway.GetUserProfileRequest("user-3"));
    ProfileThroughStore(users.State(), Gateway.GetUserProfileRequest("user-3"));
  }
}
