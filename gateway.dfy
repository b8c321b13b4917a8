/** The Gateway service: each public RPC makes exactly one call to the User service and
    reshapes what comes back. It keeps no state of its own, so a service is only a handle
    to a user-service client, and each handler is a function of that client's answer. */
module Gateway {
  import opened Wrappers
  import opened Errors
  import UserService

  datatype GetUserProfileRequest = GetUserProfileRequest(userId: string)

  datatype GetUserProfileResponse =
    GetUserProfileResponse(userId: string, name: string, email: string, status: string)

  datatype RegisterUserRequest = RegisterUserRequest(name: string, email: string)

  datatype RegisterUserResponse = RegisterUserResponse(userId: string, message: string)

  /** `userpb.UserServiceClient`: the answer the User service gives to each request. */
  datatype UserClient = UserClient(
    getUser: UserService.GetUserRequest -> Result<UserService.User, Error>,
    createUser: UserService.CreateUserRequest -> Result<UserService.CreateUserResponse, Error>)

  /** `gateway.Service` as NewServiceWithClient builds it: a handle to the client. */
  datatype Service = Service(userClient: UserClient)

  const ActiveStatus: string := "active"
  const GetUserContext: string := "failed to get user from user service"
  const CreateUserContext: string := "failed to create user via user service"
  const MessageHead: string := "User "
  const MessageTail: string := " registered successfully"

  /** The user a profile describes, without the enrichment. */
  function ProfileUser(p: GetUserProfileResponse): UserService.User {
    UserService.User(p.userId, p.name, p.email)
  }

  /** What GetUserProfile makes of the User service's answer: a success is copied and
      marked active; any failure, whatever its kind, is wrapped under one fixed context. */
  function Profile(down: Result<UserService.User, Error>): (r: Result<GetUserProfileResponse, Error>)
    ensures r.Success? <==> down.Success?
    ensures r.Success? ==> ProfileUser(r.value) == down.value && r.value.status == ActiveStatus
    ensures r.Failure? ==> r.error.Wrapped? && r.error.context == GetUserContext && r.error.cause == down.error
    ensures r.Failure? ==> Is(r.error, down.error) && Root(r.error) == Root(down.error)
    ensures r.Failure? ==> IsSuffix(Text(down.error), Text(r.error))
  {
    match down
    case Failure(err) => Failure(Wrap(GetUserContext, err))
    case Success(user) => Success(GetUserProfileResponse(user.userId, user.name, user.email, ActiveStatus))
  }

  /** GetUserProfile: forwards the id to GetUser, then reshapes the answer. */
  function GetUserProfile(s: Service, req: GetUserProfileRequest): (r: Result<GetUserProfileResponse, Error>)
    ensures var down := s.userClient.getUser(UserService.GetUserRequest(req.userId));
      && (r.Success? <==> down.Success?)
      && (r.Success? ==> ProfileUser(r.value) == down.value && r.value.status == ActiveStatus)
      && (r.Failure? ==> r.error == Wrapped(GetUserContext, down.error))
  {
    Profile(s.userClient.getUser(UserService.GetUserRequest(req.userId)))
  }

  /** The id is forwarded unchanged and the handler depends on nothing but the one answer
      GetUser gives to it. */
  lemma GetUserProfileDelegates(s: Service, t: Service, req: GetUserProfileRequest)
    requires s.userClient.getUser(UserService.GetUserRequest(req.userId))
          == t.userClient.getUser(UserService.GetUserRequest(req.userId))
    ensures GetUserProfile(s, req) == GetUserProfile(t, req)
  {
  }

  /** `fmt.Sprintf("User %s registered successfully", name)`: never empty, and it names
      exactly the registered user. */
  function Confirmation(name: string): (m: string)
    ensures |m| > 0
    ensures AnnouncedName(m) == Some(name)
  {
    var m := MessageHead + name + MessageTail;
    assert m[|MessageHead|..|m| - |MessageTail|] == name;
    m
  }

  /** The name a confirmation message announces, if it is one. */
  function AnnouncedName(message: string): Option<string> {
    var h, t := |MessageHead|, |MessageTail|;
    if |message| >= h + t && message[..h] == MessageHead && message[|message| - t..] == MessageTail
    then Some(message[h..|message| - t])
    else None
  }

  /** What RegisterUser makes of the User service's answer: the new id and a confirmation
      naming the created user; any failure is wrapped under one fixed context. */
  function Registration(down: Result<UserService.CreateUserResponse, Error>): (r: Result<RegisterUserResponse, Error>)
    ensures r.Success? <==> down.Success?
    ensures r.Success? ==> r.value.userId == down.value.userId && |r.value.message| > 0
    ensures r.Success? ==> AnnouncedName(r.value.message) == Some(down.value.name)
    ensures r.Failure? ==> r.error.Wrapped? && r.error.context == CreateUserContext && r.error.cause == down.error
    ensures r.Failure? ==> Is(r.error, down.error) && Root(r.error) == Root(down.error)
    ensures r.Failure? ==> IsSuffix(Text(down.error), Text(r.error))
  {
    match down
    case Failure(err) => Failure(Wrap(CreateUserContext, err))
    case Success(resp) => Success(RegisterUserResponse(resp.userId, Confirmation(resp.name)))
  }

  /** RegisterUser: forwards name and email to CreateUser, then reshapes the answer. */
  function RegisterUser(s: Service, req: RegisterUserRequest): (r: Result<RegisterUserResponse, Error>)
    ensures var down := s.userClient.createUser(UserService.CreateUserRequest(req.name, req.email));
      && (r.Success? <==> down.Success?)
      && (r.Success? ==> r.value.userId == down.value.userId)
      && (r.Success? ==> AnnouncedName(r.value.message) == Some(down.value.name))
      && (r.Failure? ==> r.error == Wrapped(CreateUserContext, down.error))
  {
    Registration(s.userClient.createUser(UserService.CreateUserRequest(req.name, req.email)))
  }

  /** Name and email are forwarded unchanged and the handler depends on nothing but the
      one answer CreateUser gives to them. */
  lemma RegisterUserDelegates(s: Service, t: Service, req: RegisterUserRequest)
    requires s.userClient.createUser(UserService.CreateUserRequest(req.name, req.email))
          == t.userClient.createUser(UserService.CreateUserRequest(req.name, req.email))
    ensures RegisterUser(s, req) == RegisterUser(t, req)
  {
  }
}
