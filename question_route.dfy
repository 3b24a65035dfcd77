/** The request handlers of the questions route: a handler object owns the
    question table and a log of the forum posts it has made, and handles one
    POST or GET at a time. */
module QuestionRoute {
  import opened Wrappers
  import opened QuestionModel

  class QuestionsHandler {
    /** The platform user the route acts as when it talks to the forum. */
    const agentUserId: UserId
    /** The question table, keyed by id. */
    var store: Store
    /** Every forum post created so far, in order. */
    ghost var posts: seq<ForumPost>

    ghost predicate Valid()
      reads this
    {
      agentUserId != "" && WellFormed(store)
    }

    /** A handler exists only when the agent user id is configured; it starts
        from whatever well-formed table the database already holds. */
    constructor (agentUserId: UserId, initial: Store)
      requires agentUserId != "" && WellFormed(initial)
      ensures Valid()
      ensures this.agentUserId == agentUserId && store == initial && posts == []
    {
      this.agentUserId := agentUserId;
      store := initial;
      posts := [];
    }

    method Submit(experienceId: Option<string>, question: Option<string>, freshId: Id) returns (r: Response)
      requires Valid() && freshId !in store
      modifies this`store
      ensures Valid()
      ensures var e := SubmitEffect(old(store), experienceId, question, freshId);
              r == e.response && store == e.store && e.posts == []
    {
      if !Present(question) || |question.value| > MaxQuestionLength {
        return Fail(400, "Invalid question");
      }
      if !Present(experienceId) {
        return Fail(400, "Missing experienceId");
      }
      var created := Question(experienceId.value, question.value, PENDING, false);
      store := store[freshId := created];
      return Response(200, Record(freshId, created));
    }

    method Approve(user: UserId, access: AccessCheck, id: Option<string>) returns (r: Response)
      requires Valid()
      modifies this`store
      ensures Valid()
      ensures var e := ApproveEffect(old(store), user, access, id);
              r == e.response && store == e.store && e.posts == []
    {
      if !Present(id) {
        return Fail(400, "Missing id");
      }
      var denied := Authorize(store, user, access, id.value);
      if denied.Some? {
        return denied.value;
      }
      var approved := store[id.value].(status := APPROVED);
      store := store[id.value := approved];
      return Response(200, Record(id.value, approved));
    }

    method Delete(user: UserId, access: AccessCheck, id: Option<string>) returns (r: Response)
      requires Valid()
      modifies this`store
      ensures Valid()
      ensures var e := DeleteEffect(old(store), user, access, id);
              r == e.response && store == e.store && e.posts == []
    {
      if !Present(id) {
        return Fail(400, "Missing id");
      }
      var denied := Authorize(store, user, access, id.value);
      if denied.Some? {
        return denied.value;
      }
      store := store - {id.value};
      return Response(200, Success);
    }

    method PushToForums(user: UserId, access: AccessCheck, findForum: ForumFinder,
                        id: Option<string>, questionText: Option<string>) returns (r: Response)
      requires Valid()
      modifies this`store, this`posts
      ensures Valid()
      ensures var e := PushEffect(old(store), agentUserId, user, access, findForum, id, questionText);
              r == e.response && store == e.store && posts == old(posts) + e.posts
    {
      if !Present(id) || !Present(questionText) {
        return Fail(400, "Missing id or questionText");
      }
      var denied := Authorize(store, user, access, id.value);
      if denied.Some? {
        return denied.value;
      }
      var questionObj := store[id.value];
      var forumId := findForum(ForumFor(agentUserId, questionObj.experienceId));
      if !Present(forumId) {
        return Fail(500, "Could not create or find forum");
      }
      posts := posts + [ForumPost(agentUserId, forumId.value, PostTitle, Quoted(questionText.value), true)];
      store := store[id.value := questionObj.(pushedToForum := true)];
      return Response(200, Success);
    }

    /** POST: refuses an unverified caller, then runs the requested action. */
    method Post(caller: Option<UserId>, access: AccessCheck, findForum: ForumFinder,
                body: PostBody, freshId: Id) returns (r: Response)
      requires Valid() && freshId !in store
      modifies this`store, this`posts
      ensures Valid()
      ensures var e := PostEffect(old(store), agentUserId, caller, access, findForum, body, freshId);
              r == e.response && store == e.store && posts == old(posts) + e.posts
    {
      if caller.None? {
        return Fail(401, "Unauthorized");
      }
      var user := caller.value;
      if body.action == Some("submit") {
        r := Submit(body.experienceId, body.question, freshId);
      } else if body.action == Some("approve") {
        r := Approve(user, access, body.id);
      } else if body.action == Some("delete") {
        r := Delete(user, access, body.id);
      } else if body.action == Some("pushToForums") {
        r := PushToForums(user, access, findForum, body.id, body.questionText);
      } else {
        r := Fail(400, "Invalid action");
      }
    }

    /** GET: lists the records of one experience with the requested status,
        for admins of that experience only. */
    method Get(caller: Option<UserId>, access: AccessCheck,
               experienceId: Option<string>, status: Option<string>) returns (r: Response)
      ensures caller.None? ==> r == Fail(401, "Unauthorized")
      ensures caller.Some? && !Present(experienceId) ==> r == Fail(400, "Missing experienceId")
      ensures caller.Some? && Present(experienceId) && !IsAdmin(access(caller.value, experienceId.value)) ==>
                r == Fail(403, "Not authorized")
      ensures caller.Some? && Present(experienceId) && IsAdmin(access(caller.value, experienceId.value))
              && StatusFilter(status).None? ==>
                r == Fail(400, "Invalid status")
      ensures r.status == 200 <==>
                caller.Some? && Present(experienceId) && IsAdmin(access(caller.value, experienceId.value))
                && StatusFilter(status).Some?
      ensures r.status == 200 ==>
                r.body.Records? &&
                forall k :: k in r.body.records <==>
                  k in store && store[k].experienceId == experienceId.value
                  && store[k].status == StatusFilter(status).value
      ensures r.status == 200 ==> forall k :: k in r.body.records ==> r.body.records[k] == store[k]
    {
      if caller.None? {
        return Fail(401, "Unauthorized");
      }
      if !Present(experienceId) {
        return Fail(400, "Missing experienceId");
      }
      if !IsAdmin(access(caller.value, experienceId.value)) {
        return Fail(403, "Not authorized");
      }
      if status == Some("PENDING") {
        return Response(200, Records(Matching(store, experienceId.value, PENDING)));
      }
      if status == Some("APPROVED") {
        return Response(200, Records(Matching(store, experienceId.value, APPROVED)));
      }
      return Fail(400, "Invalid status");
    }
  }
}
