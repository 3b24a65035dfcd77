/** Sequences of POST requests against one question table, and what holds
    across all of them: from any point of a run on, records are created only
    by submits, keep their experience and text, statuses and forum flags
    never go back, and only admin requests remove, approve, push or post. */
module QuestionHistory {
  import opened Wrappers
  import opened QuestionModel

  /** One POST request together with what the platform answered for it and
      the id the store would give a new record. */
  datatype Call = Call(
    caller: Option<UserId>,
    access: AccessCheck,
    findForum: ForumFinder,
    body: PostBody,
    freshId: Id)

  function FreshIds(calls: seq<Call>): (ids: set<Id>) {
    set i | 0 <= i < |calls| :: calls[i].freshId
  }

  /** The store never hands out an id twice: no generated id is already in
      the table, and no two requests get the same one. */
  ghost predicate Unused(store: Store, calls: seq<Call>) {
    && (forall i :: 0 <= i < |calls| ==> calls[i].freshId !in store)
    && (forall i, j :: 0 <= i < j < |calls| ==> calls[i].freshId != calls[j].freshId)
  }

  /** The table after a run, every forum post made, and every response. */
  datatype History = History(store: Store, posts: seq<ForumPost>, responses: seq<Response>)

  function Step(agent: UserId, store: Store, c: Call): (e: Effect)
    requires c.freshId !in store
  {
    PostEffect(store, agent, c.caller, c.access, c.findForum, c.body, c.freshId)
  }

  lemma {:induction false} UnusedTail(agent: UserId, store: Store, calls: seq<Call>)
    requires calls != [] && Unused(store, calls)
    ensures Unused(Step(agent, store, calls[0]).store, calls[1..])
  {
  }

  lemma {:induction false} FreshIdsTail(calls: seq<Call>)
    requires calls != []
    ensures FreshIds(calls) == {calls[0].freshId} + FreshIds(calls[1..])
  {
  }

  /** Replays the requests in order. A run only creates records under the ids
      the store generated for it, and answers every request. */
  function Run(agent: UserId, store: Store, calls: seq<Call>): (h: History)
    requires Unused(store, calls)
    ensures h.store.Keys <= store.Keys + FreshIds(calls)
    ensures |h.responses| == |calls|
    decreases |calls|
  {
    if calls == [] then
      History(store, [], [])
    else
      var e := Step(agent, store, calls[0]);
      UnusedTail(agent, store, calls);
      var rest := Run(agent, e.store, calls[1..]);
      FreshIdsTail(calls);
      History(rest.store, e.posts + rest.posts, [e.response] + rest.responses)
  }

  /** One step of a run: the first request, then the rest from the table it leaves. */
  lemma RunCons(agent: UserId, store: Store, calls: seq<Call>)
    requires calls != [] && Unused(store, calls)
    ensures (UnusedTail(agent, store, calls);
             var e := Step(agent, store, calls[0]);
             var rest := Run(agent, e.store, calls[1..]);
             Run(agent, store, calls) == History(rest.store, e.posts + rest.posts, [e.response] + rest.responses))
  {
  }

  /** The requests of a prefix of a run get unused ids, and so do the rest,
      from the table the prefix leaves. */
  lemma {:induction false} UnusedSplit(agent: UserId, store: Store, a: seq<Call>, b: seq<Call>)
    requires Unused(store, a + b)
    ensures Unused(store, a) && Unused(Run(agent, store, a).store, b)
  {
    assert forall i :: 0 <= i < |a| ==> a[i] == (a + b)[i];
    var after := Run(agent, store, a).store;
    forall j | 0 <= j < |b|
      ensures b[j].freshId !in after
    {
      assert b[j] == (a + b)[|a| + j];
      forall i | 0 <= i < |a| ensures a[i].freshId != b[j].freshId {
        assert a[i] == (a + b)[i];
      }
    }
    forall i, j | 0 <= i < j < |b|
      ensures b[i].freshId != b[j].freshId
    {
      assert b[i] == (a + b)[|a| + i] && b[j] == (a + b)[|a| + j];
    }
  }

  /** The table after a run of `a + b` is the table a run of `b` leaves,
      started from the table a run of `a` leaves. */
  lemma {:induction false} RunAppendStore(agent: UserId, store: Store, a: seq<Call>, b: seq<Call>)
    requires Unused(store, a + b)
    ensures Unused(store, a) && Unused(Run(agent, store, a).store, b)
    ensures Run(agent, store, a + b).store == Run(agent, Run(agent, store, a).store, b).store
    decreases |a|
  {
    UnusedSplit(agent, store, a, b);
    if a != [] {
      var e := Step(agent, store, a[0]);
      assert (a + b)[0] == a[0];
      assert (a + b)[1..] == a[1..] + b;
      UnusedTail(agent, store, a + b);
      RunCons(agent, store, a + b);
      RunCons(agent, store, a);
      RunAppendStore(agent, e.store, a[1..], b);
    } else {
      assert a + b == b;
    }
  }

  lemma Associative<T>(x: seq<T>, y: seq<T>, z: seq<T>)
    ensures x + (y + z) == (x + y) + z
  {
  }

  /** The posts and responses of a run of `a + b` are those of `a` followed
      by those of `b`, run from the table `a` leaves. */
  lemma {:induction false} RunAppendOutput(agent: UserId, store: Store, a: seq<Call>, b: seq<Call>)
    requires Unused(store, a + b)
    ensures Unused(store, a) && Unused(Run(agent, store, a).store, b)
    ensures var ra := Run(agent, store, a);
            var rb := Run(agent, ra.store, b);
            && Run(agent, store, a + b).posts == ra.posts + rb.posts
            && Run(agent, store, a + b).responses == ra.responses + rb.responses
    decreases |a|
  {
    UnusedSplit(agent, store, a, b);
    if a != [] {
      var e := Step(agent, store, a[0]);
      assert (a + b)[0] == a[0];
      assert (a + b)[1..] == a[1..] + b;
      UnusedTail(agent, store, a + b);
      RunCons(agent, store, a + b);
      RunCons(agent, store, a);
      RunAppendOutput(agent, e.store, a[1..], b);
      var ra' := Run(agent, e.store, a[1..]);
      var rb := Run(agent, ra'.store, b);
      var rest := Run(agent, e.store, a[1..] + b);
      assert Run(agent, store, a + b).posts == e.posts + rest.posts;
      assert Run(agent, store, a).posts == e.posts + ra'.posts;
      assert Run(agent, store, a).store == ra'.store;
      Associative(e.posts, ra'.posts, rb.posts);
      assert Run(agent, store, a + b).responses == [e.response] + rest.responses;
      assert Run(agent, store, a).responses == [e.response] + ra'.responses;
      Associative([e.response], ra'.responses, rb.responses);
    } else {
      assert a + b == b;
    }
  }

  /** A run of `a + b` is a run of `a` followed by a run of `b` from the table
      `a` leaves: the tables chain, and the posts and responses concatenate. */
  lemma RunAppend(agent: UserId, store: Store, a: seq<Call>, b: seq<Call>)
    requires Unused(store, a + b)
    ensures Unused(store, a) && Unused(Run(agent, store, a).store, b)
    ensures var ra := Run(agent, store, a);
            var rb := Run(agent, ra.store, b);
            Run(agent, store, a + b) == History(rb.store, ra.posts + rb.posts, ra.responses + rb.responses)
  {
    RunAppendStore(agent, store, a, b);
    RunAppendOutput(agent, store, a, b);
  }

  /** A generated id is never one of the records already in the table. */
  lemma {:induction false} StoredNotFresh(store: Store, calls: seq<Call>, k: Id)
    requires Unused(store, calls) && k in store
    ensures k !in FreshIds(calls)
  {
  }

  /** Over any run, a record that is still there has its experience and
      text unchanged, and its status and forum flag have not gone back. */
  lemma {:induction false} RunEvolves(agent: UserId, store: Store, calls: seq<Call>)
    requires Unused(store, calls)
    ensures Evolves(store, Run(agent, store, calls).store)
    decreases |calls|
  {
    if calls != [] {
      var c := calls[0];
      var next := Step(agent, store, c).store;
      UnusedTail(agent, store, calls);
      PostEvolves(store, agent, c.caller, c.access, c.findForum, c.body, c.freshId);
      RunEvolves(agent, next, calls[1..]);
      var final := Run(agent, store, calls).store;
      assert final == Run(agent, next, calls[1..]).store;
      forall k | k in store && k in final
        ensures RecordEvolves(store[k], final[k])
      {
        StoredNotFresh(store, calls, k);
        FreshIdsTail(calls);
        assert k in next;
      }
    }
  }

  /** Over any run, every record is well formed if every record was. */
  lemma {:induction false} RunWellFormed(agent: UserId, store: Store, calls: seq<Call>)
    requires Unused(store, calls) && WellFormed(store)
    ensures WellFormed(Run(agent, store, calls).store)
    decreases |calls|
  {
    if calls != [] {
      var c := calls[0];
      UnusedTail(agent, store, calls);
      PostEvolves(store, agent, c.caller, c.access, c.findForum, c.body, c.freshId);
      RunWellFormed(agent, Step(agent, store, c).store, calls[1..]);
    }
  }

  /** `c` is a delete of `k` by a caller who is admin of `experienceId`. */
  predicate DeletesAsAdmin(c: Call, k: Id, experienceId: ExperienceId) {
    c.caller.Some? && c.body.action == Some("delete") && Present(c.body.id) && c.body.id.value == k
    && IsAdmin(c.access(c.caller.value, experienceId))
  }

  /** `c` is an approve of `k` by a caller who is admin of `experienceId`. */
  predicate ApprovesAsAdmin(c: Call, k: Id, experienceId: ExperienceId) {
    c.caller.Some? && c.body.action == Some("approve") && Present(c.body.id) && c.body.id.value == k
    && IsAdmin(c.access(c.caller.value, experienceId))
  }

  /** `c` is a push-to-forums of `k` by a caller who is admin of `experienceId`. */
  predicate PushesAsAdmin(c: Call, k: Id, experienceId: ExperienceId) {
    c.caller.Some? && c.body.action == Some("pushToForums") && Present(c.body.id) && c.body.id.value == k
    && IsAdmin(c.access(c.caller.value, experienceId))
  }

  /** `c` is a push-to-forums by an admin of `experienceId` whose text is what
      `p` posts, to the forum found for that experience. */
  predicate Publishes(c: Call, p: ForumPost, agent: UserId, experienceId: ExperienceId) {
    && c.caller.Some? && c.body.action == Some("pushToForums")
    && IsAdmin(c.access(c.caller.value, experienceId))
    && c.findForum(ForumFor(agent, experienceId)) == Some(p.forumExperienceId)
    && c.body.questionText.Some? && c.body.questionText.value != ""
    && p.asUser == agent && p.title == PostTitle && p.isMention
    && p.content == Quoted(c.body.questionText.value)
  }

  /** `c` is an identified submit that got id `k` and carried the experience
      and text that `q` holds. */
  predicate Creates(c: Call, k: Id, q: Question) {
    && c.caller.Some? && c.body.action == Some("submit") && c.freshId == k
    && Present(c.body.experienceId) && ValidText(c.body.question)
    && q.experienceId == c.body.experienceId.value && q.question == c.body.question.value
  }

  /** A single request removes a record only as a delete by an admin. */
  lemma StepRemoves(agent: UserId, store: Store, c: Call, k: Id)
    requires c.freshId !in store && k in store && k !in Step(agent, store, c).store
    ensures DeletesAsAdmin(c, k, store[k].experienceId)
  {
  }

  /** A single request approves a PENDING record only as an approve by an admin. */
  lemma StepApproves(agent: UserId, store: Store, c: Call, k: Id)
    requires c.freshId !in store && k in store && store[k].status == PENDING
    requires k in Step(agent, store, c).store && Step(agent, store, c).store[k].status == APPROVED
    ensures ApprovesAsAdmin(c, k, store[k].experienceId)
  {
  }

  /** A record disappears only through a delete of its id by an admin of its
      experience. */
  lemma {:induction false} RemovedOnlyByAdminDelete(agent: UserId, store: Store, calls: seq<Call>, k: Id)
    requires Unused(store, calls) && k in store && k !in Run(agent, store, calls).store
    ensures exists i :: 0 <= i < |calls| && DeletesAsAdmin(calls[i], k, store[k].experienceId)
    decreases |calls|
  {
    assert calls != [];
    var e := Step(agent, store, calls[0]);
    UnusedTail(agent, store, calls);
    if k !in e.store {
      StepRemoves(agent, store, calls[0], k);
    } else {
      var c := calls[0];
      PostEvolves(store, agent, c.caller, c.access, c.findForum, c.body, c.freshId);
      assert Run(agent, store, calls).store == Run(agent, e.store, calls[1..]).store;
      RemovedOnlyByAdminDelete(agent, e.store, calls[1..], k);
      var i :| 0 <= i < |calls| - 1 && DeletesAsAdmin(calls[1..][i], k, e.store[k].experienceId);
      assert calls[i + 1] == calls[1..][i];
      assert DeletesAsAdmin(calls[i + 1], k, store[k].experienceId);
    }
  }

  /** A record that is in the table at the end of a run but was not at its
      start was created by a submit of the run, whose experience and text it
      still holds. */
  lemma {:induction false} CreatedOnlyBySubmit(agent: UserId, store: Store, calls: seq<Call>, k: Id)
    requires Unused(store, calls) && k !in store && k in Run(agent, store, calls).store
    ensures exists i :: 0 <= i < |calls| && Creates(calls[i], k, Run(agent, store, calls).store[k])
    decreases |calls|
  {
    assert calls != [];
    var c := calls[0];
    var e := Step(agent, store, c);
    UnusedTail(agent, store, calls);
    var final := Run(agent, e.store, calls[1..]).store;
    assert Run(agent, store, calls).store == final;
    if k in e.store {
      PostCreates(store, agent, c.caller, c.access, c.findForum, c.body, c.freshId);
      RunEvolves(agent, e.store, calls[1..]);
      assert RecordEvolves(e.store[k], final[k]);
      assert Creates(calls[0], k, final[k]);
    } else {
      CreatedOnlyBySubmit(agent, e.store, calls[1..], k);
      var i :| 0 <= i < |calls| - 1 && Creates(calls[1..][i], k, final[k]);
      assert calls[i + 1] == calls[1..][i];
    }
  }

  /** A single request sets the forum flag of a record only as a push of
      that id by an admin of its experience. */
  lemma StepPushes(agent: UserId, store: Store, c: Call, k: Id)
    requires c.freshId !in store && k in store && !store[k].pushedToForum
    requires k in Step(agent, store, c).store && Step(agent, store, c).store[k].pushedToForum
    ensures PushesAsAdmin(c, k, store[k].experienceId)
  {
  }

  /** A PENDING record that ends up APPROVED was approved by an admin of its
      experience. */
  lemma {:induction false} ApprovedOnlyByAdmin(agent: UserId, store: Store, calls: seq<Call>, k: Id)
    requires Unused(store, calls) && k in store && store[k].status == PENDING
    requires k in Run(agent, store, calls).store && Run(agent, store, calls).store[k].status == APPROVED
    ensures exists i :: 0 <= i < |calls| && ApprovesAsAdmin(calls[i], k, store[k].experienceId)
    decreases |calls|
  {
    assert calls != [];
    var e := Step(agent, store, calls[0]);
    UnusedTail(agent, store, calls);
    var final := Run(agent, e.store, calls[1..]).store;
    assert Run(agent, store, calls).store == final;
    StoredNotFresh(store, calls, k);
    FreshIdsTail(calls);
    assert k in e.store;
    if e.store[k].status == APPROVED {
      StepApproves(agent, store, calls[0], k);
    } else {
      var c := calls[0];
      PostEvolves(store, agent, c.caller, c.access, c.findForum, c.body, c.freshId);
      ApprovedOnlyByAdmin(agent, e.store, calls[1..], k);
      var i :| 0 <= i < |calls| - 1 && ApprovesAsAdmin(calls[1..][i], k, e.store[k].experienceId);
      assert calls[i + 1] == calls[1..][i];
      assert ApprovesAsAdmin(calls[i + 1], k, store[k].experienceId);
    }
  }

  /** A record not yet pushed that ends up pushed was pushed by an admin of its
      experience. */
  lemma {:induction false} PushedOnlyByAdmin(agent: UserId, store: Store, calls: seq<Call>, k: Id)
    requires Unused(store, calls) && k in store && !store[k].pushedToForum
    requires k in Run(agent, store, calls).store && Run(agent, store, calls).store[k].pushedToForum
    ensures exists i :: 0 <= i < |calls| && PushesAsAdmin(calls[i], k, store[k].experienceId)
    decreases |calls|
  {
    assert calls != [];
    var e := Step(agent, store, calls[0]);
    UnusedTail(agent, store, calls);
    var final := Run(agent, e.store, calls[1..]).store;
    assert Run(agent, store, calls).store == final;
    StoredNotFresh(store, calls, k);
    FreshIdsTail(calls);
    assert k in e.store;
    if e.store[k].pushedToForum {
      StepPushes(agent, store, calls[0], k);
    } else {
      var c := calls[0];
      PostEvolves(store, agent, c.caller, c.access, c.findForum, c.body, c.freshId);
      PushedOnlyByAdmin(agent, e.store, calls[1..], k);
      var i :| 0 <= i < |calls| - 1 && PushesAsAdmin(calls[1..][i], k, e.store[k].experienceId);
      assert calls[i + 1] == calls[1..][i];
      assert PushesAsAdmin(calls[i + 1], k, store[k].experienceId);
    }
  }

  /** The table after the first `n` requests of a run. */
  function RunUntil(agent: UserId, store: Store, calls: seq<Call>, n: nat): (s: Store)
    requires Unused(store, calls) && n <= |calls|
    ensures s.Keys <= store.Keys + FreshIds(calls)
  {
    assert forall i :: 0 <= i < n ==> calls[..n][i] == calls[i];
    assert FreshIds(calls[..n]) <= FreshIds(calls);
    Run(agent, store, calls[..n]).store
  }

  /** Splits a run after its first `n` requests. */
  lemma SplitRun(agent: UserId, store: Store, calls: seq<Call>, n: nat)
    requires Unused(store, calls) && n <= |calls|
    ensures Unused(RunUntil(agent, store, calls, n), calls[n..])
    ensures Run(agent, store, calls).store == Run(agent, RunUntil(agent, store, calls, n), calls[n..]).store
  {
    assert calls[..n] + calls[n..] == calls;
    RunAppend(agent, store, calls[..n], calls[n..]);
  }

  /** The record-level facts hold from any point of a run, so they also reach
      records that a submit inside the run created: a record present after the
      first `n` requests keeps its experience and text to the end, and its
      status and forum flag do not go back. */
  lemma EvolvesFrom(agent: UserId, store: Store, calls: seq<Call>, n: nat)
    requires Unused(store, calls) && n <= |calls|
    ensures Evolves(RunUntil(agent, store, calls, n), Run(agent, store, calls).store)
  {
    SplitRun(agent, store, calls, n);
    RunEvolves(agent, RunUntil(agent, store, calls, n), calls[n..]);
  }

  /** A record absent after the first `n` requests and present at the end was
      created by a later submit, whose experience and text it holds. */
  lemma CreatedFromOnlyBySubmit(agent: UserId, store: Store, calls: seq<Call>, n: nat, k: Id)
    requires Unused(store, calls) && n <= |calls|
    requires k !in RunUntil(agent, store, calls, n) && k in Run(agent, store, calls).store
    ensures exists i :: n <= i < |calls| && Creates(calls[i], k, Run(agent, store, calls).store[k])
  {
    var mid := RunUntil(agent, store, calls, n);
    SplitRun(agent, store, calls, n);
    CreatedOnlyBySubmit(agent, mid, calls[n..], k);
    var j :| 0 <= j < |calls| - n && Creates(calls[n..][j], k, Run(agent, mid, calls[n..]).store[k]);
    assert calls[n + j] == calls[n..][j];
  }

  /** A record present after the first `n` requests and missing at the end was
      deleted by a later admin request. */
  lemma RemovedFromOnlyByAdminDelete(agent: UserId, store: Store, calls: seq<Call>, n: nat, k: Id)
    requires Unused(store, calls) && n <= |calls|
    requires k in RunUntil(agent, store, calls, n) && k !in Run(agent, store, calls).store
    ensures exists i :: n <= i < |calls|
              && DeletesAsAdmin(calls[i], k, RunUntil(agent, store, calls, n)[k].experienceId)
  {
    var mid := RunUntil(agent, store, calls, n);
    SplitRun(agent, store, calls, n);
    RemovedOnlyByAdminDelete(agent, mid, calls[n..], k);
    var j :| 0 <= j < |calls| - n && DeletesAsAdmin(calls[n..][j], k, mid[k].experienceId);
    assert calls[n + j] == calls[n..][j];
  }

  /** A record PENDING after the first `n` requests and APPROVED at the end was
      approved by a later admin request. */
  lemma ApprovedFromOnlyByAdmin(agent: UserId, store: Store, calls: seq<Call>, n: nat, k: Id)
    requires Unused(store, calls) && n <= |calls|
    requires k in RunUntil(agent, store, calls, n) && RunUntil(agent, store, calls, n)[k].status == PENDING
    requires k in Run(agent, store, calls).store && Run(agent, store, calls).store[k].status == APPROVED
    ensures exists i :: n <= i < |calls|
              && ApprovesAsAdmin(calls[i], k, RunUntil(agent, store, calls, n)[k].experienceId)
  {
    var mid := RunUntil(agent, store, calls, n);
    SplitRun(agent, store, calls, n);
    ApprovedOnlyByAdmin(agent, mid, calls[n..], k);
    var j :| 0 <= j < |calls| - n && ApprovesAsAdmin(calls[n..][j], k, mid[k].experienceId);
    assert calls[n + j] == calls[n..][j];
  }

  /** A record not pushed after the first `n` requests and pushed at the end was
      pushed by a later admin request. */
  lemma PushedFromOnlyByAdmin(agent: UserId, store: Store, calls: seq<Call>, n: nat, k: Id)
    requires Unused(store, calls) && n <= |calls|
    requires k in RunUntil(agent, store, calls, n) && !RunUntil(agent, store, calls, n)[k].pushedToForum
    requires k in Run(agent, store, calls).store && Run(agent, store, calls).store[k].pushedToForum
    ensures exists i :: n <= i < |calls|
              && PushesAsAdmin(calls[i], k, RunUntil(agent, store, calls, n)[k].experienceId)
  {
    var mid := RunUntil(agent, store, calls, n);
    SplitRun(agent, store, calls, n);
    PushedOnlyByAdmin(agent, mid, calls[n..], k);
    var j :| 0 <= j < |calls| - n && PushesAsAdmin(calls[n..][j], k, mid[k].experienceId);
    assert calls[n + j] == calls[n..][j];
  }

  /** The posts of one request come from that request's push. */
  lemma StepPostsPublish(agent: UserId, store: Store, c: Call)
    requires c.freshId !in store
    ensures Step(agent, store, c).posts != [] ==>
              && Present(c.body.id) && c.body.id.value in store
              && forall p :: p in Step(agent, store, c).posts ==>
                   Publishes(c, p, agent, store[c.body.id.value].experienceId)
  {
    var e := Step(agent, store, c);
    if e.posts != [] {
      var b := c.body;
      assert e == PushEffect(store, agent, c.caller.value, c.access, c.findForum, b.id, b.questionText);
    }
  }

  /** Every forum post of a run was made by a push-to-forums request from an
      admin of some experience, to the forum found for that experience, as the
      agent user, with that request's text in quotes. */
  lemma {:induction false} PostsComeFromPushes(agent: UserId, store: Store, calls: seq<Call>)
    requires Unused(store, calls)
    ensures forall p :: p in Run(agent, store, calls).posts ==>
              exists i, x :: 0 <= i < |calls| && Publishes(calls[i], p, agent, x)
    decreases |calls|
  {
    if calls != [] {
      var e := Step(agent, store, calls[0]);
      UnusedTail(agent, store, calls);
      var rest := Run(agent, e.store, calls[1..]);
      PostsComeFromPushes(agent, e.store, calls[1..]);
      StepPostsPublish(agent, store, calls[0]);
      assert Run(agent, store, calls).posts == e.posts + rest.posts;
      forall p | p in e.posts + rest.posts
        ensures exists i, x :: 0 <= i < |calls| && Publishes(calls[i], p, agent, x)
      {
        if p in e.posts {
          assert Publishes(calls[0], p, agent, store[calls[0].body.id.value].experienceId);
        } else {
          var i, x :| 0 <= i < |calls| - 1 && Publishes(calls[1..][i], p, agent, x);
          assert calls[i + 1] == calls[1..][i];
          assert Publishes(calls[i + 1], p, agent, x);
        }
      }
    }
  }

  /** Nothing stops a second push of the same record: two identical admin
      pushes make two identical posts, and the record stays pushed. */
  lemma RepeatedPushPostsTwice(agent: UserId, store: Store, first: Call, second: Call)
    requires first.caller.Some? && first.body.action == Some("pushToForums")
    requires Admits(store, first.caller.value, first.access, first.body.id) && Present(first.body.questionText)
    requires Present(first.findForum(ForumFor(agent, store[first.body.id.value].experienceId)))
    requires second == first.(freshId := second.freshId)
    requires first.freshId != second.freshId && first.freshId !in store && second.freshId !in store
    ensures var h := Run(agent, store, [first, second]);
            && |h.posts| == 2 && h.posts[0] == h.posts[1]
            && h.posts[0].content == Quoted(first.body.questionText.value)
            && h.responses == [Response(200, Success), Response(200, Success)]
            && first.body.id.value in h.store && h.store[first.body.id.value].pushedToForum
            && h.store[first.body.id.value].status == store[first.body.id.value].status
  {
    var k := first.body.id.value;
    var user := first.caller.value;
    var b := first.body;
    var e1 := Step(agent, store, first);
    assert e1 == PushEffect(store, agent, user, first.access, first.findForum, b.id, b.questionText);
    assert e1.store[k].experienceId == store[k].experienceId;
    assert second.freshId !in e1.store;
    var e2 := Step(agent, e1.store, second);
    assert e2 == PushEffect(e1.store, agent, user, first.access, first.findForum, b.id, b.questionText);
    RunCons(agent, store, [first, second]);
    assert [first, second][1..] == [second];
    RunCons(agent, e1.store, [second]);
    assert [second][1..] == [];
  }

  /** Once an admin deletes a record, no later listing shows it. */
  lemma DeletedNeverListed(agent: UserId, store: Store, calls: seq<Call>, k: Id)
    requires Unused(store, calls) && calls != [] && k in store
    requires DeletesAsAdmin(calls[0], k, store[k].experienceId)
    ensures forall x, s :: k !in Matching(Run(agent, store, calls).store, x, s)
  {
    var c := calls[0];
    var next := Step(agent, store, c).store;
    assert next == DeleteEffect(store, c.caller.value, c.access, c.body.id).store;
    StoredNotFresh(store, calls, k);
    FreshIdsTail(calls);
    RunCons(agent, store, calls);
    var final := Run(agent, next, calls[1..]).store;
    assert k !in final;
    forall x, s ensures k !in Matching(final, x, s) {
    }
  }

  /** The three requests of the moderation scenario below, one at a time. */
  lemma ScenarioSubmit(agent: UserId, c: Call, experience: ExperienceId, text: string)
    requires c.caller.Some? && c.freshId == "q1"
    requires c.body == PostBody(Some("submit"), Some(experience), None, Some(text), None)
    requires experience != "" && text != "" && |text| <= MaxQuestionLength
    ensures Step(agent, map[], c) ==
            Effect(Response(200, Record("q1", Question(experience, text, PENDING, false))),
                   map["q1" := Question(experience, text, PENDING, false)], [])
  {
    assert Step(agent, map[], c) == SubmitEffect(map[], Some(experience), Some(text), "q1");
  }

  lemma ScenarioApprove(agent: UserId, store: Store, c: Call)
    requires c.caller.Some? && c.freshId !in store && "q1" in store
    requires c.body == PostBody(Some("approve"), None, Some("q1"), None, None)
    ensures !IsAdmin(c.access(c.caller.value, store["q1"].experienceId)) ==>
              Step(agent, store, c) == Effect(Fail(403, "Not authorized"), store, [])
    ensures IsAdmin(c.access(c.caller.value, store["q1"].experienceId)) ==>
              Step(agent, store, c) ==
              Effect(Response(200, Record("q1", store["q1"].(status := APPROVED))),
                     store["q1" := store["q1"].(status := APPROVED)], [])
  {
    assert Step(agent, store, c) == ApproveEffect(store, c.caller.value, c.access, Some("q1"));
  }

  /** A member submits, a non-admin is refused the approval and the record
      stays PENDING, then an admin approves it; no forum post is made. */
  lemma ModerationScenario(agent: UserId, access: AccessCheck, forums: ForumFinder,
                           member: UserId, admin: UserId, experience: ExperienceId, text: string)
    requires !IsAdmin(access(member, experience)) && IsAdmin(access(admin, experience))
    requires experience != "" && text != "" && |text| <= MaxQuestionLength
    ensures var submit := PostBody(Some("submit"), Some(experience), None, Some(text), None);
            var approve := PostBody(Some("approve"), None, Some("q1"), None, None);
            var e0 := Step(agent, map[], Call(Some(member), access, forums, submit, "q1"));
            "q2" !in e0.store &&
            var e1 := Step(agent, e0.store, Call(Some(member), access, forums, approve, "q2"));
            "q3" !in e1.store &&
            var e2 := Step(agent, e1.store, Call(Some(admin), access, forums, approve, "q3"));
            && e0.response == Response(200, Record("q1", Question(experience, text, PENDING, false)))
            && e1.response == Fail(403, "Not authorized")
            && e1.store == e0.store
            && e2.response == Response(200, Record("q1", Question(experience, text, APPROVED, false)))
            && e2.store == map["q1" := Question(experience, text, APPROVED, false)]
            && e0.posts + e1.posts + e2.posts == []
  {
    var submit := PostBody(Some("submit"), Some(experience), None, Some(text), None);
    var approve := PostBody(Some("approve"), None, Some("q1"), None, None);
    var s1 := map["q1" := Question(experience, text, PENDING, false)];
    ScenarioSubmit(agent, Call(Some(member), access, forums, submit, "q1"), experience, text);
    ScenarioApprove(agent, s1, Call(Some(member), access, forums, approve, "q2"));
    ScenarioApprove(agent, s1, Call(Some(admin), access, forums, approve, "q3"));
  }
}
