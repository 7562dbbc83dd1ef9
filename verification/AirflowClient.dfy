/** The Airflow REST client: writes that are retried, conflicts that turn into updates, and
    pagination, against a server that may apply a write and still answer with an error. */
module AirflowClient {

  const PAGE_LIMIT := 100
  const WRITE_MAX_RETRIES := 3
  const STATUS_CONFLICT := 409
  const STATUS_TOO_MANY_REQUESTS := 429
  const STATUS_BAD_GATEWAY := 502
  const STATUS_SERVICE_UNAVAILABLE := 503

  // ---------- objects ----------

  datatype Object =
    | Connection(connId: string, connType: string, connDescription: string, host: string, schema: string, login: string,
                 password: string, port: int, extra: string)
    | Variable(key: string, value: string, variableDescription: string)
    | Pool(name: string, slots: int, includeDeferred: bool, poolDescription: string)

  datatype Id = ConnectionId(connId: string) | VariableId(key: string) | PoolId(name: string)

  function IdOf(o: Object): Id {
    match o
    case Connection(id, _, _, _, _, _, _, _, _) => ConnectionId(id)
    case Variable(key, _, _) => VariableId(key)
    case Pool(name, _, _, _) => PoolId(name)
  }

  const DEFAULT_POOL := PoolId("default_pool")

  /** Two objects have one id exactly when they are of one kind and of one name. */
  lemma IdsAreKinds(a: Object, b: Object)
    ensures IdOf(a) == IdOf(b) <==>
            || (a.Connection? && b.Connection? && a.connId == b.connId)
            || (a.Variable? && b.Variable? && a.key == b.key)
            || (a.Pool? && b.Pool? && a.name == b.name)
  {}

  /** What a PATCH with all fields makes of the stored object; the default pool takes its
      slots and include_deferred only. */
  function Patched(stored: Object, body: Object): Object
    requires IdOf(stored) == IdOf(body)
  {
    if IdOf(body) == DEFAULT_POOL then stored.(slots := body.slots, includeDeferred := body.includeDeferred) else body
  }

  // ---------- replies ----------

  /** `decodes`: the body of the reply is the JSON the client expects. */
  datatype Reply = Status(code: int, decodes: bool) | TransportError

  datatype Error = HttpError(status: int) | DecodeError | NetworkError
  datatype Result = Ok | Err(error: Error)

  predicate IsSuccess(code: int) { 200 <= code < 300 }

  predicate IsConflict(r: Result) { r == Err(HttpError(STATUS_CONFLICT)) }

  predicate IsRetryableWriteStatus(code: int) {
    code == STATUS_BAD_GATEWAY || code == STATUS_SERVICE_UNAVAILABLE || code == STATUS_TOO_MANY_REQUESTS
  }

  /** The retry policy for a write: only the three transient statuses, never a transport
      error. */
  predicate RetriesWrite(reply: Reply) { reply.Status? && IsRetryableWriteStatus(reply.code) }

  function ResultOf(reply: Reply): Result {
    match reply
    case TransportError => Err(NetworkError)
    case Status(code, decodes) =>
      if !IsSuccess(code) then Err(HttpError(code)) else if !decodes then Err(DecodeError) else Ok
  }

  // ---------- the server ----------

  datatype Verb = Post | Patch

  /** What one request may do to the stored objects, and what may be answered. */
  ghost predicate MayAnswer(before: map<Id, Object>, verb: Verb, body: Object, after: map<Id, Object>, reply: Reply) {
    var id := IdOf(body);
    match verb
    case Post =>
      if id in before then
        after == before && !(reply.Status? && IsSuccess(reply.code))
      else
        && (after == before || after == before[id := body])
        && (reply.Status? && IsSuccess(reply.code) ==> after == before[id := body])
        && (reply.Status? ==> reply.code != STATUS_CONFLICT)
    case Patch =>
      if id in before && IdOf(before[id]) == id then
        && (after == before || after == before[id := Patched(before[id], body)])
        && (reply.Status? && IsSuccess(reply.code) ==> after == before[id := Patched(before[id], body)])
      else
        after == before && !(reply.Status? && IsSuccess(reply.code))
  }

  datatype Exchange = Exchange(verb: Verb, reply: Reply)

  /** The requests of one kind that got these replies. */
  function Sent(verb: Verb, replies: seq<Reply>): seq<Exchange> {
    if replies == [] then []
    else Sent(verb, replies[..|replies| - 1]) + [Exchange(verb, replies[|replies| - 1])]
  }

  class Server {
    var objects: map<Id, Object>
    ghost var log: seq<Exchange>

    predicate Valid()
      reads this
    {
      forall id :: id in objects ==> IdOf(objects[id]) == id
    }

    constructor (objects: map<Id, Object>)
      requires forall id :: id in objects ==> IdOf(objects[id]) == id
      ensures Valid() && this.objects == objects && log == []
    {
      this.objects, log := objects, [];
    }

    /** Any behaviour `MayAnswer` allows: whether the write is applied and what is answered
        are the server's choice. */
    method Handle(verb: Verb, body: Object) returns (reply: Reply)
      requires Valid()
      modifies this
      ensures Valid() && MayAnswer(old(objects), verb, body, objects, reply)
      ensures log == old(log) + [Exchange(verb, reply)]
    {
      var id := IdOf(body);
      var code: int := *;
      var decodes: bool := *;
      var lost: bool := *;
      var willing: bool := *;
      var applicable := if verb == Post then id !in objects else id in objects;
      if applicable && willing {
        objects := objects[id := if verb == Post then body else Patched(objects[id], body)];
      } else if IsSuccess(code) {
        code := 500;
      }
      if verb == Post && applicable && code == STATUS_CONFLICT { code := 500; }
      reply := if lost then TransportError else Status(code, decodes);
      log := log + [Exchange(verb, reply)];
    }
  }

  // ---------- the client ----------

  /** The stored object after zero or more applied writes of `body`: untouched, created, or
      patched. */
  function Written(before: map<Id, Object>, body: Object): map<Id, Object>
    requires forall id :: id in before ==> IdOf(before[id]) == id
  {
    var id := IdOf(body);
    before[id := if id in before then Patched(before[id], body) else body]
  }

  /** Writing again changes nothing more. */
  lemma WrittenOnce(before: map<Id, Object>, body: Object)
    requires forall id :: id in before ==> IdOf(before[id]) == id
    ensures Written(Written(before, body), body) == Written(before, body)
  {
    var id := IdOf(body);
    assert Written(before, body)[id := Written(before, body)[id]] == Written(before, body);
  }

  /** Sent again after every reply but the last, and no more than three times. */
  predicate IsRetried(replies: seq<Reply>) {
    && 1 <= |replies| <= 4
    && (forall i :: 0 <= i < |replies| - 1 ==> replies[i].Status? && replies[i].code in {429, 502, 503})
    && (|replies| < 4 ==> Last(replies).Status? ==> Last(replies).code !in {429, 502, 503})
  }

  function Last(replies: seq<Reply>): Reply
    requires replies != []
  {
    replies[|replies| - 1]
  }

  /** What the caller is told: success for a 2xx with the expected body, a conflict for a 409. */
  predicate Reports(reply: Reply, r: Result) {
    && (r.Ok? <==> reply.Status? && 200 <= reply.code < 300 && reply.decodes)
    && (r == Err(HttpError(409)) <==> reply.Status? && reply.code == 409)
    && (r == Err(NetworkError) <==> reply == TransportError)
  }

  /** One write with its retries: it is sent again only after a 429, 502 or 503, at most three
      times, and each request leaves the objects as they were or as written. */
  method DoWrite(server: Server, verb: Verb, body: Object) returns (r: Result, ghost replies: seq<Reply>)
    requires server.Valid()
    modifies server
    ensures server.Valid()
    ensures server.objects == old(server.objects) || server.objects == Written(old(server.objects), body)
    ensures r.Ok? ==> server.objects == Written(old(server.objects), body)
    ensures (verb == Post) == (IdOf(body) in old(server.objects)) ==> server.objects == old(server.objects) && r.Err?
    ensures verb == Post && IsConflict(r) ==> IdOf(body) in server.objects
    ensures IsRetried(replies) && r == ResultOf(Last(replies)) && Reports(Last(replies), r)
    ensures server.log == old(server.log) + Sent(verb, replies)
  {
    ghost var before := server.objects;
    WrittenOnce(before, body);
    var reply := server.Handle(verb, body);
    replies := [reply];
    var retries := 0;
    while retries < WRITE_MAX_RETRIES && RetriesWrite(reply)
      invariant 0 <= retries <= WRITE_MAX_RETRIES
      invariant server.Valid()
      invariant server.objects == before || server.objects == Written(before, body)
      invariant reply.Status? && IsSuccess(reply.code) ==> server.objects == Written(before, body)
      invariant (verb == Post) == (IdOf(body) in before) ==>
                  server.objects == before && !(reply.Status? && IsSuccess(reply.code))
      invariant verb == Post && reply.Status? && reply.code == STATUS_CONFLICT ==> IdOf(body) in server.objects
      invariant |replies| == 1 + retries && replies[retries] == reply
      invariant forall i :: 0 <= i < retries ==> RetriesWrite(replies[i])
      invariant server.log == old(server.log) + Sent(verb, replies)
    {
      reply := server.Handle(verb, body);
      assert (replies + [reply])[..|replies|] == replies;
      replies := replies + [reply];
      retries := retries + 1;
    }
    r := ResultOf(reply);
  }

  /** Updating an object that is not there fails and creates nothing. */
  method Update(server: Server, body: Object) returns (r: Result, ghost replies: seq<Reply>)
    requires server.Valid()
    modifies server
    ensures server.Valid()
    ensures server.objects == old(server.objects) || server.objects == Written(old(server.objects), body)
    ensures r.Ok? ==> server.objects == Written(old(server.objects), body)
    ensures IdOf(body) !in old(server.objects) ==> server.objects == old(server.objects) && r.Err?
    ensures IsRetried(replies) && r == ResultOf(Last(replies)) && Reports(Last(replies), r)
    ensures server.log == old(server.log) + Sent(Patch, replies)
  {
    r, replies := DoWrite(server, Patch, body);
  }

  /** Create, or reconcile on a conflict and only then. Success means the object is stored as
      wanted; whatever the outcome, every other object is untouched and this one is never
      half-written. `posted` and `patched` are the replies to the two kinds of request. */
  method Create(server: Server, body: Object) returns (r: Result, ghost posted: seq<Reply>, ghost patched: seq<Reply>)
    requires server.Valid()
    modifies server
    ensures server.Valid()
    ensures r.Ok? ==> server.objects == Written(old(server.objects), body)
    ensures r.Err? ==> server.objects == old(server.objects) || server.objects == Written(old(server.objects), body)
    ensures server.log == old(server.log) + Sent(Post, posted) + Sent(Patch, patched)
    ensures IsRetried(posted) && |posted| <= 4 && |patched| <= 4
    ensures if Last(posted).Status? && Last(posted).code == 409
            then IsRetried(patched) && r == ResultOf(Last(patched)) && Reports(Last(patched), r)
            else patched == [] && r == ResultOf(Last(posted)) && Reports(Last(posted), r)
  {
    ghost var before := server.objects;
    WrittenOnce(before, body);
    r, posted := DoWrite(server, Post, body);
    if IsConflict(r) {
      r, patched := Update(server, body);
    } else {
      patched := [];
    }
  }

  /** What `Written` means for the caller: the object is the wanted one - of a default pool
      that was there already, at least its slots and include_deferred - and all others are as
      before. */
  lemma WrittenMeans(before: map<Id, Object>, body: Object)
    requires forall id :: id in before ==> IdOf(before[id]) == id
    ensures var after := Written(before, body);
            var id := IdOf(body);
            && after.Keys == before.Keys + {id}
            && (forall other :: other in before && other != id ==> after[other] == before[other])
            && (id !in before || id != PoolId("default_pool") ==> after[id] == body)
            && (id == PoolId("default_pool") ==>
                  after[id].slots == body.slots && after[id].includeDeferred == body.includeDeferred)
            && (id in before && id == PoolId("default_pool") ==>
                  after[id].name == before[id].name && after[id].poolDescription == before[id].poolDescription)
  {}

  // ---------- pagination ----------

  /** A page of at most `PAGE_LIMIT` entries from `offset`; the total is 0 when the endpoint
      does not report it. */
  datatype Page<T> = Page(items: seq<T>, totalEntries: nat)

  function PageAt<T>(list: seq<T>, offset: nat, reportsTotal: bool): Page<T> {
    var from := if offset <= |list| then offset else |list|;
    var to := if from + PAGE_LIMIT <= |list| then from + PAGE_LIMIT else |list|;
    Page(list[from..to], if reportsTotal then |list| else 0)
  }

  /** How many requests a list takes: one per started hundred, and at least one; without a
      total, the last full page does not show that it is the last. */
  function RequestsNeeded(n: nat, reportsTotal: bool): nat {
    if !reportsTotal then n / 100 + 1
    else if n == 0 then 1
    else (n + 99) / 100
  }

  datatype Fetched<T> = Fetched(all: seq<T>) | Failed

  /** `answered`: which requests get a page. Exactly the list, in order, in exactly that many
      requests, when all of them are answered; else nothing, after the first that is not. */
  method FetchAllPages<T>(list: seq<T>, reportsTotal: bool, answered: nat -> bool)
    returns (r: Fetched<T>, requests: nat)
    ensures r.Fetched? <==> forall i: nat :: i < RequestsNeeded(|list|, reportsTotal) ==> answered(i)
    ensures r.Fetched? ==> r.all == list && requests == RequestsNeeded(|list|, reportsTotal)
    ensures r.Failed? ==> 0 < requests <= RequestsNeeded(|list|, reportsTotal) && !answered(requests - 1)
    ensures r.Failed? ==> forall i: nat :: i < requests - 1 ==> answered(i)
  {
    var all: seq<T> := [];
    var offset := 0;
    requests := 0;
    while true
      invariant offset == PAGE_LIMIT * requests <= |list|
      invariant all == list[..offset]
      invariant reportsTotal && requests > 0 ==> offset < |list|
      invariant forall i: nat :: i < requests ==> answered(i)
      decreases |list| - offset
    {
      requests := requests + 1;
      if !answered(requests - 1) { return Failed, requests; }
      var page := PageAt(list, offset, reportsTotal);
      var items := page.items;
      all := all + items;
      offset := offset + |items|;
      if |items| < PAGE_LIMIT || (page.totalEntries > 0 && offset >= page.totalEntries) {
        break;
      }
    }
    r := Fetched(all);
  }
}
