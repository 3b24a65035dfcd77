/** The question table, the request fields and responses of the questions
    route, and one pure function per POST action giving the response, the new
    table and the forum posts that action creates. */
module QuestionModel {
  import opened Wrappers

  type Id = string
  type ExperienceId = string
  type UserId = string
  type ForumId = string

  /** The access level the host platform reports for a user on an experience
      ("admin", "customer", "no_access", ...). */
  type AccessLevel = string

  /** The host platform's access check, an input of every handler. */
  type AccessCheck = (UserId, ExperienceId) -> AccessLevel

  /** The host platform's find-or-create-forum call: the id of the forum it
      returns, if any. */
  type ForumFinder = ForumRequest -> Option<ForumId>

  const MaxQuestionLength: nat := 100
  const ForumName := "AMA Forum"
  const ForumPosters := "admins"
  const PostTitle := "Somebody asked:"

  datatype Status = PENDING | APPROVED

  /** One row of the question table; its id is the key it is stored under. */
  datatype Question = Question(
    experienceId: ExperienceId,
    question: string,
    status: Status,
    pushedToForum: bool)

  type Store = map<Id, Question>

  /** The JSON body of a response. */
  datatype Body =
    | Error(message: string)
    | Record(id: Id, record: Question)
    | Records(records: Store)
    | Success

  datatype Response = Response(status: int, body: Body)

  /** The fields of a POST body; a field the client did not send is None. */
  datatype PostBody = PostBody(
    action: Option<string>,
    experienceId: Option<string>,
    id: Option<string>,
    question: Option<string>,
    questionText: Option<string>)

  datatype ForumRequest = ForumRequest(
    asUser: UserId,
    experienceId: ExperienceId,
    name: string,
    whoCanPost: string)

  datatype ForumPost = ForumPost(
    asUser: UserId,
    forumExperienceId: ForumId,
    title: string,
    content: string,
    isMention: bool)

  /** What one request does: its response, the table afterwards and the
      forum posts it created, in order. */
  datatype Effect = Effect(response: Response, store: Store, posts: seq<ForumPost>)

  function Fail(status: int, message: string): (r: Response) {
    Response(status, Error(message))
  }

  /** A string field is truthy in JavaScript when it was sent and is not empty. */
  predicate Present(field: Option<string>) {
    field.Some? && field.value != ""
  }

  predicate IsAdmin(level: AccessLevel) {
    level == "admin"
  }

  /** The question text a submission must carry. */
  predicate ValidText(question: Option<string>) {
    Present(question) && |question.value| <= MaxQuestionLength
  }

  /** What push-to-forums posts: the caller's text between double quotes. */
  function Quoted(text: string): (r: string)
    ensures |r| == |text| + 2 && r[0] == '"' && r[|r| - 1] == '"'
    ensures r[1..|r| - 1] == text
  {
    "\"" + text + "\""
  }

  /** Every record the route can have written: non-empty text of at most
      100 characters, and an experience id. */
  ghost predicate WellFormed(store: Store) {
    forall k :: k in store ==>
      ValidText(Some(store[k].question)) && store[k].experienceId != ""
  }

  /** How a record may change between two moments: its experience and text
      never change, and neither the status nor the forum flag goes back. */
  predicate RecordEvolves(before: Question, after: Question) {
    && after.experienceId == before.experienceId
    && after.question == before.question
    && (before.status == APPROVED ==> after.status == APPROVED)
    && (before.pushedToForum ==> after.pushedToForum)
  }

  ghost predicate Evolves(before: Store, after: Store) {
    forall k :: k in before && k in after ==> RecordEvolves(before[k], after[k])
  }

  /** `after` is `before` with the record under `k` replaced by `q` and
      nothing else changed. */
  ghost predicate ReplacedOnly(before: Store, after: Store, k: Id, q: Question) {
    && after.Keys == before.Keys
    && k in after && after[k] == q
    && forall j :: j in before && j != k ==> after[j] == before[j]
  }

  /** The caller may act on the record named by `id`: the id was sent, names a
      record, and the caller is admin of that record's experience. */
  predicate Admits(store: Store, user: UserId, access: AccessCheck, id: Option<string>) {
    Present(id) && id.value in store && IsAdmin(access(user, store[id.value].experienceId))
  }

  /** The lookup and authorisation shared by approve, delete and push:
      None when the caller may proceed, otherwise the error response. */
  function Authorize(store: Store, user: UserId, access: AccessCheck, id: Id): (denied: Option<Response>)
    ensures denied.None? <==> id in store && IsAdmin(access(user, store[id].experienceId))
    ensures id !in store ==> denied == Some(Fail(404, "Question not found"))
    ensures id in store && !IsAdmin(access(user, store[id].experienceId)) ==>
              denied == Some(Fail(403, "Not authorized"))
  {
    if id !in store then Some(Fail(404, "Question not found"))
    else if !IsAdmin(access(user, store[id].experienceId)) then Some(Fail(403, "Not authorized"))
    else None
  }

  /** action "submit": validate the text, then the experience id, then create
      a PENDING record under the id the store generates. */
  function SubmitEffect(store: Store, experienceId: Option<string>, question: Option<string>, freshId: Id): (e: Effect)
    requires freshId !in store
    ensures e.posts == []
    ensures !ValidText(question) ==> e.response == Fail(400, "Invalid question") && e.store == store
    ensures ValidText(question) && !Present(experienceId) ==>
              e.response == Fail(400, "Missing experienceId") && e.store == store
    ensures e.response.status == 200 <==> ValidText(question) && Present(experienceId)
    ensures e.response.status == 200 ==>
              && e.store.Keys == store.Keys + {freshId}
              && (forall k :: k in store ==> e.store[k] == store[k])
              && e.store[freshId].experienceId == experienceId.value
              && e.store[freshId].question == question.value
              && e.store[freshId].status == PENDING
              && !e.store[freshId].pushedToForum
              && e.response.body == Record(freshId, e.store[freshId])
  {
    if !ValidText(question) then
      Effect(Fail(400, "Invalid question"), store, [])
    else if !Present(experienceId) then
      Effect(Fail(400, "Missing experienceId"), store, [])
    else
      var created := Question(experienceId.value, question.value, PENDING, false);
      Effect(Response(200, Record(freshId, created)), store[freshId := created], [])
  }

  /** action "approve": id, lookup, admin check, then status := APPROVED. */
  function ApproveEffect(store: Store, user: UserId, access: AccessCheck, id: Option<string>): (e: Effect)
    ensures e.posts == []
    ensures !Present(id) ==> e.response == Fail(400, "Missing id")
    ensures Present(id) && id.value !in store ==> e.response == Fail(404, "Question not found")
    ensures Present(id) && id.value in store && !Admits(store, user, access, id) ==>
              e.response == Fail(403, "Not authorized")
    ensures e.response.status == 200 <==> Admits(store, user, access, id)
    ensures e.response.status != 200 ==> e.store == store
    ensures e.response.status == 200 ==>
              && ReplacedOnly(store, e.store, id.value, store[id.value].(status := APPROVED))
              && e.response.body == Record(id.value, e.store[id.value])
  {
    if !Present(id) then
      Effect(Fail(400, "Missing id"), store, [])
    else
      var denied := Authorize(store, user, access, id.value);
      if denied.Some? then
        Effect(denied.value, store, [])
      else
        var approved := store[id.value].(status := APPROVED);
        Effect(Response(200, Record(id.value, approved)), store[id.value := approved], [])
  }

  /** Repeating an approve changes nothing more and gives the same answer,
      whether the first one succeeded or failed. */
  lemma ApproveIdempotent(store: Store, user: UserId, access: AccessCheck, id: Option<string>)
    ensures var once := ApproveEffect(store, user, access, id);
            var twice := ApproveEffect(once.store, user, access, id);
            twice.store == once.store && twice.response == once.response
  {
    var once := ApproveEffect(store, user, access, id);
    if once.response.status == 200 {
      assert once.store[id.value].experienceId == store[id.value].experienceId;
    }
  }

  /** action "delete": id, lookup, admin check, then remove the record. */
  function DeleteEffect(store: Store, user: UserId, access: AccessCheck, id: Option<string>): (e: Effect)
    ensures e.posts == []
    ensures !Present(id) ==> e.response == Fail(400, "Missing id")
    ensures Present(id) && id.value !in store ==> e.response == Fail(404, "Question not found")
    ensures Present(id) && id.value in store && !Admits(store, user, access, id) ==>
              e.response == Fail(403, "Not authorized")
    ensures e.response.status == 200 <==> Admits(store, user, access, id)
    ensures e.response.status != 200 ==> e.store == store
    ensures e.response.status == 200 ==>
              && e.store.Keys == store.Keys - {id.value}
              && (forall k :: k in e.store ==> e.store[k] == store[k])
              && e.response.body == Success
  {
    if !Present(id) then
      Effect(Fail(400, "Missing id"), store, [])
    else
      var denied := Authorize(store, user, access, id.value);
      if denied.Some? then
        Effect(denied.value, store, [])
      else
        Effect(Response(200, Success), store - {id.value}, [])
  }

  /** The forum request push-to-forums makes for a record of experience `experienceId`. */
  function ForumFor(agent: UserId, experienceId: ExperienceId): (request: ForumRequest) {
    ForumRequest(agent, experienceId, ForumName, ForumPosters)
  }

  /** action "pushToForums": id and text, lookup, admin check, find or create
      the experience's forum, post the quoted text, then mark the record. */
  function PushEffect(store: Store, agent: UserId, user: UserId, access: AccessCheck,
                      findForum: ForumFinder, id: Option<string>, questionText: Option<string>): (e: Effect)
    ensures !Present(id) || !Present(questionText) ==>
              e.response == Fail(400, "Missing id or questionText")
    ensures Present(id) && Present(questionText) && id.value !in store ==>
              e.response == Fail(404, "Question not found")
    ensures Present(id) && Present(questionText) && id.value in store && !Admits(store, user, access, id) ==>
              e.response == Fail(403, "Not authorized")
    ensures Present(questionText) && Admits(store, user, access, id)
            && !Present(findForum(ForumFor(agent, store[id.value].experienceId))) ==>
              e.response == Fail(500, "Could not create or find forum")
    ensures e.response.status == 200 <==>
              && Present(questionText) && Admits(store, user, access, id)
              && Present(findForum(ForumFor(agent, store[id.value].experienceId)))
    ensures e.response.status != 200 ==> e.store == store && e.posts == []
    ensures e.response.status == 200 ==>
              && ReplacedOnly(store, e.store, id.value, store[id.value].(pushedToForum := true))
              && e.posts == [ForumPost(agent, findForum(ForumFor(agent, store[id.value].experienceId)).value,
                                       PostTitle, Quoted(questionText.value), true)]
              && e.response.body == Success
  {
    if !Present(id) || !Present(questionText) then
      Effect(Fail(400, "Missing id or questionText"), store, [])
    else
      var denied := Authorize(store, user, access, id.value);
      if denied.Some? then
        Effect(denied.value, store, [])
      else
        var record := store[id.value];
        var forumId := findForum(ForumFor(agent, record.experienceId));
        if !Present(forumId) then
          Effect(Fail(500, "Could not create or find forum"), store, [])
        else
          var post := ForumPost(agent, forumId.value, PostTitle, Quoted(questionText.value), true);
          Effect(Response(200, Success), store[id.value := record.(pushedToForum := true)], [post])
  }

  /** POST: identity first, then dispatch on the action field. */
  function PostEffect(store: Store, agent: UserId, caller: Option<UserId>, access: AccessCheck,
                      findForum: ForumFinder, body: PostBody, freshId: Id): (e: Effect)
    requires freshId !in store
    ensures caller.None? ==> e == Effect(Fail(401, "Unauthorized"), store, [])
    ensures caller.Some? && body.action !in {Some("submit"), Some("approve"), Some("delete"), Some("pushToForums")} ==>
              e == Effect(Fail(400, "Invalid action"), store, [])
    ensures e.response.status != 200 ==> e.store == store && e.posts == []
    ensures e.store.Keys <= store.Keys + {freshId}
    ensures e.posts != [] ==> body.action == Some("pushToForums") && |e.posts| == 1
  {
    if caller.None? then
      Effect(Fail(401, "Unauthorized"), store, [])
    else if body.action == Some("submit") then
      SubmitEffect(store, body.experienceId, body.question, freshId)
    else if body.action == Some("approve") then
      ApproveEffect(store, caller.value, access, body.id)
    else if body.action == Some("delete") then
      DeleteEffect(store, caller.value, access, body.id)
    else if body.action == Some("pushToForums") then
      PushEffect(store, agent, caller.value, access, findForum, body.id, body.questionText)
    else
      Effect(Fail(400, "Invalid action"), store, [])
  }

  /** No POST moves a record of the table backwards or breaks its well-formedness. */
  lemma PostEvolves(store: Store, agent: UserId, caller: Option<UserId>, access: AccessCheck,
                    findForum: ForumFinder, body: PostBody, freshId: Id)
    requires freshId !in store
    ensures var e := PostEffect(store, agent, caller, access, findForum, body, freshId);
            Evolves(store, e.store) && (WellFormed(store) ==> WellFormed(e.store))
  {
  }

  /** Only a submit creates a record: when the generated id is in the table
      afterwards, the request was an identified submit with both fields set,
      and the new record holds its experience and text, PENDING and not
      pushed. */
  lemma PostCreates(store: Store, agent: UserId, caller: Option<UserId>, access: AccessCheck,
                    findForum: ForumFinder, body: PostBody, freshId: Id)
    requires freshId !in store
    ensures var e := PostEffect(store, agent, caller, access, findForum, body, freshId);
            freshId in e.store ==>
              && caller.Some? && body.action == Some("submit")
              && Present(body.experienceId) && ValidText(body.question)
              && e.store[freshId] == Question(body.experienceId.value, body.question.value, PENDING, false)
  {
  }

  /** The records of one experience with one status: exactly those, unchanged. */
  function Matching(store: Store, experienceId: ExperienceId, status: Status): (m: Store)
    ensures forall k :: k in m <==> k in store && store[k].experienceId == experienceId && store[k].status == status
    ensures forall k :: k in m ==> m[k] == store[k]
  {
    map k | k in store && store[k].experienceId == experienceId && store[k].status == status :: store[k]
  }

  /** The PENDING and APPROVED listings of one experience are disjoint and
      together hold every record of that experience. */
  lemma {:induction false} ListingsPartition(store: Store, experienceId: ExperienceId)
    ensures Matching(store, experienceId, PENDING).Keys !! Matching(store, experienceId, APPROVED).Keys
    ensures Matching(store, experienceId, PENDING).Keys + Matching(store, experienceId, APPROVED).Keys
            == set k | k in store && store[k].experienceId == experienceId
  {
    var pending := Matching(store, experienceId, PENDING);
    var approved := Matching(store, experienceId, APPROVED);
    forall k | k in store && store[k].experienceId == experienceId
      ensures k in pending.Keys + approved.Keys
    {
      if store[k].status == PENDING { assert k in pending; } else { assert k in approved; }
    }
  }

  /** The status filter GET accepts. */
  function StatusFilter(status: Option<string>): (s: Option<Status>)
    ensures s == Some(PENDING) <==> status == Some("PENDING")
    ensures s == Some(APPROVED) <==> status == Some("APPROVED")
  {
    if status == Some("PENDING") then Some(PENDING)
    else if status == Some("APPROVED") then Some(APPROVED)
    else None
  }
}
