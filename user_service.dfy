/** The User service: an in-memory record store that mints sequential ids "user-1",
    "user-2", ... and answers lookups, failing with NotFound on a miss.

    `Store` is the abstract state (the `users` map and the `nextID` counter) and `Put` /
    `Get` are the two operations on it; the class `Service` holds the same two fields and
    its methods are proved to follow `Put` and `Get`. Each method is one atomic step, as
    the service's read/write lock makes it. */
module UserService {
  import opened Wrappers
  import opened Errors
  import Decimal

  /** `userpb.GetUserResponse`: the record that is stored and returned by GetUser. */
  datatype User = User(userId: string, name: string, email: string)

  datatype GetUserRequest = GetUserRequest(userId: string)

  datatype CreateUserRequest = CreateUserRequest(name: string, email: string)

  datatype CreateUserResponse = CreateUserResponse(userId: string, name: string, email: string)

  const IdPrefix: string := "user-"

  /** The id `fmt.Sprintf("user-%d", k)`. */
  function UserId(k: nat): (id: string)
    ensures |id| > |IdPrefix| && id[..|IdPrefix|] == IdPrefix
    ensures Decimal.IsCanonical(id[|IdPrefix|..])
  {
    IdPrefix + Decimal.Format(k)
  }

  /** The counter value an id was minted from, if it has the shape of a minted id. */
  function IdNumber(id: string): Option<nat> {
    if |id| >= |IdPrefix| && id[..|IdPrefix|] == IdPrefix && Decimal.IsCanonical(id[|IdPrefix|..])
    then Some(Decimal.Parse(id[|IdPrefix|..]))
    else None
  }

  /** Reading the number back out of an id is exact, in both directions. */
  lemma IdNumberUserId(id: string, k: nat)
    ensures IdNumber(id) == Some(k) <==> id == UserId(k)
  {
    var n := |IdPrefix|;
    assert UserId(k)[..n] == IdPrefix && UserId(k)[n..] == Decimal.Format(k);
    Decimal.ParseFormat(k);
    if IdNumber(id) == Some(k) {
      Decimal.FormatParse(id[n..]);
      assert id == id[..n] + id[n..];
    }
  }

  /** Distinct counter values give distinct ids. */
  lemma UserIdInjective(j: nat, k: nat)
    ensures UserId(j) == UserId(k) <==> j == k
  {
    IdNumberUserId(UserId(j), j);
    IdNumberUserId(UserId(j), k);
  }

  /** The error GetUser returns on a miss: `status.Errorf(codes.NotFound, "user %s not found", id)`. */
  function NotFoundError(id: string): (e: Error)
    ensures e.Status? && e.code == NotFound
    ensures Mentions(Text(e), id)
  {
    var desc := "user " + id + " not found";
    assert OccursAt(desc, id, 5);
    Status(NotFound, desc)
  }

  /** The state of a service: the `users` map and the `nextID` counter. */
  datatype Store = Store(users: map<string, User>, nextId: nat)

  /** `id` was minted by an earlier CreateUser, i.e. it is "user-k" with 1 <= k < nextId. */
  ghost predicate Issued(id: string, nextId: nat) {
    IdNumber(id).Some? && 1 <= IdNumber(id).value < nextId
  }

  /** What NewService followed by any number of CreateUser calls maintains: the keys are
      exactly the ids minted so far, each record carries its own key as its id, and there
      is one record per call. */
  ghost predicate Invariant(st: Store) {
    && st.nextId >= 1
    && (forall id | id in st.users :: st.users[id].userId == id && Issued(id, st.nextId))
    && (forall k: nat | 1 <= k < st.nextId :: UserId(k) in st.users)
    && |st.users| == st.nextId - 1
  }

  /** The state NewService builds: no users, counter at 1. */
  function Empty(): (st: Store)
    ensures Invariant(st)
    ensures |st.users| == 0
  {
    Store(map[], 1)
  }

  /** The outcome of one CreateUser step: the new state and the response. */
  datatype Created = Created(store: Store, response: CreateUserResponse)

  /** CreateUser: mint "user-<nextId>", advance the counter, store and echo the record. */
  function Put(st: Store, req: CreateUserRequest): (c: Created)
    ensures c.store.nextId == st.nextId + 1
    ensures c.response.userId == UserId(st.nextId)
    ensures c.response.name == req.name && c.response.email == req.email
    ensures c.store.users.Keys == st.users.Keys + {c.response.userId}
    ensures c.store.users[c.response.userId] == User(c.response.userId, req.name, req.email)
  {
    var id := UserId(st.nextId);
    Created(Store(st.users[id := User(id, req.name, req.email)], st.nextId + 1),
            CreateUserResponse(id, req.name, req.email))
  }

  /** GetUser: the stored record, or NotFound naming the id. */
  function Get(st: Store, id: string): (r: Result<User, Error>)
    ensures r.Success? <==> id in st.users
    ensures r.Success? ==> r.value == st.users[id]
    ensures r.Failure? ==> r.error == NotFoundError(id)
  {
    if id in st.users then Success(st.users[id]) else Failure(NotFoundError(id))
  }

  /** The id CreateUser mints is "user-<nextId>" and is not already a key. */
  lemma PutIssuesFreshId(st: Store, req: CreateUserRequest)
    requires Invariant(st)
    ensures Put(st, req).response == CreateUserResponse(UserId(st.nextId), req.name, req.email)
    ensures UserId(st.nextId) !in st.users
  {
    var id := UserId(st.nextId);
    if id in st.users {
      assert Issued(id, st.nextId);
      IdNumberUserId(id, st.nextId);
      assert false;
    }
  }

  /** CreateUser keeps the invariant, advances the counter by one, adds exactly one key
      and leaves every existing record as it was. */
  lemma PutPreservesInvariant(st: Store, req: CreateUserRequest)
    requires Invariant(st)
    ensures Invariant(Put(st, req).store)
    ensures Put(st, req).store.nextId == st.nextId + 1
    ensures Put(st, req).store.users.Keys == st.users.Keys + {UserId(st.nextId)}
    ensures |Put(st, req).store.users| == |st.users| + 1
    ensures forall id | id in st.users :: Put(st, req).store.users[id] == st.users[id]
  {
    PutIssuesFreshId(st, req);
    var n := st.nextId;
    var id := UserId(n);
    var users' := st.users[id := User(id, req.name, req.email)];
    assert Put(st, req).store == Store(users', n + 1);
    IdNumberUserId(id, n);
    forall x | x in users'
      ensures users'[x].userId == x && Issued(x, n + 1)
    {
      if x != id {
        assert x in st.users && Issued(x, n);
      }
    }
    forall k: nat | 1 <= k < n + 1
      ensures UserId(k) in users'
    {
      if k < n {
        assert UserId(k) in st.users;
      }
    }
    assert |users'| == |st.users| + 1;
  }

  /** Round trip: GetUser with the id CreateUser returned yields the created record, and
      every other id is answered exactly as before. */
  lemma GetAfterPut(st: Store, req: CreateUserRequest, other: string)
    ensures Get(Put(st, req).store, Put(st, req).response.userId)
            == Success(User(Put(st, req).response.userId, req.name, req.email))
    ensures other != Put(st, req).response.userId ==> Get(Put(st, req).store, other) == Get(st, other)
  {
  }

  /** A run of CreateUser calls issued one after another, in order. */
  datatype Batch = Batch(store: Store, responses: seq<CreateUserResponse>)

  function PutAll(st: Store, reqs: seq<CreateUserRequest>): Batch
    decreases |reqs|
  {
    if reqs == [] then Batch(st, [])
    else
      var c := Put(st, reqs[0]);
      var rest := PutAll(c.store, reqs[1..]);
      Batch(rest.store, [c.response] + rest.responses)
  }

  /** The i-th of N successive creates gets the id "user-<n+i>" and echoes the i-th request. */
  lemma {:induction false} PutAllResponseAt(st: Store, reqs: seq<CreateUserRequest>, i: int)
    requires 0 <= i < |reqs|
    ensures |PutAll(st, reqs).responses| == |reqs|
    ensures PutAll(st, reqs).responses[i] == CreateUserResponse(UserId(st.nextId + i), reqs[i].name, reqs[i].email)
    decreases |reqs|
  {
    var c := Put(st, reqs[0]);
    var rest := PutAll(c.store, reqs[1..]);
    assert PutAll(st, reqs).responses == [c.response] + rest.responses;
    if i == 0 {
      PutAllCount(c.store, reqs[1..]);
    } else {
      PutAllResponseAt(c.store, reqs[1..], i - 1);
      assert reqs[1..][i - 1] == reqs[i];
    }
  }

  /** N successive creates return N responses and advance the counter by N. */
  lemma {:induction false} PutAllCount(st: Store, reqs: seq<CreateUserRequest>)
    ensures |PutAll(st, reqs).responses| == |reqs|
    ensures PutAll(st, reqs).store.nextId == st.nextId + |reqs|
    decreases |reqs|
  {
    if reqs != [] {
      PutAllCount(Put(st, reqs[0]).store, reqs[1..]);
    }
  }

  /** N successive creates get the ids "user-<n>", "user-<n+1>", ... in issue order and
      each echoes its own request. */
  lemma PutAllSequentialIds(st: Store, reqs: seq<CreateUserRequest>)
    ensures var b := PutAll(st, reqs);
      && |b.responses| == |reqs|
      && b.store.nextId == st.nextId + |reqs|
      && (forall i | 0 <= i < |reqs| ::
            b.responses[i] == CreateUserResponse(UserId(st.nextId + i), reqs[i].name, reqs[i].email))
  {
    PutAllCount(st, reqs);
    forall i | 0 <= i < |reqs|
      ensures PutAll(st, reqs).responses[i] == CreateUserResponse(UserId(st.nextId + i), reqs[i].name, reqs[i].email)
    {
      PutAllResponseAt(st, reqs, i);
    }
  }

  /** A run of N creates keeps the invariant and adds exactly N records (none is lost and
      none overwritten). */
  lemma {:induction false} PutAllInvariant(st: Store, reqs: seq<CreateUserRequest>)
    requires Invariant(st)
    ensures Invariant(PutAll(st, reqs).store)
    ensures |PutAll(st, reqs).store.users| == |st.users| + |reqs|
    decreases |reqs|
  {
    if reqs != [] {
      var c := Put(st, reqs[0]);
      PutPreservesInvariant(st, reqs[0]);
      PutAllInvariant(c.store, reqs[1..]);
    }
  }

  /** Ids handed out by successive creates are pairwise distinct and strictly increasing
      in issue order. */
  lemma PutAllDistinctIds(st: Store, reqs: seq<CreateUserRequest>, i: int, j: int)
    requires 0 <= i < j < |reqs|
    ensures |PutAll(st, reqs).responses| == |reqs|
    ensures var ids := PutAll(st, reqs).responses;
      && ids[i].userId != ids[j].userId
      && IdNumber(ids[i].userId).Some? && IdNumber(ids[j].userId).Some?
      && IdNumber(ids[i].userId).value < IdNumber(ids[j].userId).value
  {
    PutAllSequentialIds(st, reqs);
    var ids := PutAll(st, reqs).responses;
    UserIdInjective(st.nextId + i, st.nextId + j);
    IdNumberUserId(ids[i].userId, st.nextId + i);
    IdNumberUserId(ids[j].userId, st.nextId + j);
  }

  /** Nothing is lost: after a run of creates every returned id retrieves the record
      built from its own request. */
  lemma {:induction false} GetAfterPutAll(st: Store, reqs: seq<CreateUserRequest>, i: int)
    requires Invariant(st)
    requires 0 <= i < |reqs|
    ensures |PutAll(st, reqs).responses| == |reqs|
    ensures var b := PutAll(st, reqs);
      Get(b.store, b.responses[i].userId) == Success(User(b.responses[i].userId, reqs[i].name, reqs[i].email))
    decreases |reqs|
  {
    PutAllSequentialIds(st, reqs);
    var c := Put(st, reqs[0]);
    PutPreservesInvariant(st, reqs[0]);
    if i == 0 {
      PutAllKeepsRecords(c.store, reqs[1..], c.response.userId);
    } else {
      GetAfterPutAll(c.store, reqs[1..], i - 1);
      assert reqs[1..][i - 1] == reqs[i];
    }
  }

  /** Later creates never overwrite a record that is already stored. */
  lemma {:induction false} PutAllKeepsRecords(st: Store, reqs: seq<CreateUserRequest>, id: string)
    requires Invariant(st)
    requires id in st.users
    ensures id in PutAll(st, reqs).store.users
    ensures PutAll(st, reqs).store.users[id] == st.users[id]
    decreases |reqs|
  {
    if reqs != [] {
      var c := Put(st, reqs[0]);
      PutPreservesInvariant(st, reqs[0]);
      PutAllKeepsRecords(c.store, reqs[1..], id);
    }
  }

  /** `user.Service`: the store behind the User service's two RPCs. */
  class Service {
    var users: map<string, User>
    var nextId: nat

    function State(): Store
      reads this
    {
      Store(users, nextId)
    }

    ghost predicate Valid()
      reads this
    {
      Invariant(State())
    }

    /** NewService: an empty map and the counter at 1. */
    constructor ()
      ensures Valid()
      ensures users == map[] && nextId == 1
    {
      users := map[];
      nextId := 1;
    }

    /** GetUser: read-only; the stored record, or NotFound carrying the id. */
    method GetUser(req: GetUserRequest) returns (r: Result<User, Error>)
      ensures r == Get(State(), req.userId)
      ensures Valid() && r.Success? ==> r.value.userId == req.userId
    {
      if req.userId !in users {
        return Failure(NotFoundError(req.userId));
      }
      r := Success(users[req.userId]);
    }

    /** CreateUser: always succeeds; mints the next id, advances the counter and stores
        the record under the new id. */
    method CreateUser(req: CreateUserRequest) returns (r: Result<CreateUserResponse, Error>)
      modifies this
      ensures r == Success(Put(old(State()), req).response)
      ensures State() == Put(old(State()), req).store
      ensures old(Valid()) ==> Valid() && r.value.userId !in old(users)
    {
      ghost var before := State();
      var userId := UserId(nextId);
      nextId := nextId + 1;
      var user := User(userId, req.name, req.email);
      users := users[userId := user];
      r := Success(CreateUserResponse(userId, req.name, req.email));
      if Invariant(before) {
        PutIssuesFreshId(before, req);
        PutPreservesInvariant(before, req);
      }
    }
  }
}
