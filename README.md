# Question moderation route of the AMA app

This project models the server side of an anonymous "ask me anything" app
that lives inside a community platform. A single route handles question
records, which live in a table keyed by id. Each record holds:

- its experience (the community it belongs to);
- its text;
- a status, `PENDING` or `APPROVED`;
- a `pushedToForum` flag.

The POST handler takes an `action`:

- `submit` creates a PENDING record.
- `approve` sets the status to APPROVED.
- `delete` removes the record.
- `pushToForums` publishes caller-supplied text to the experience's forum and
  sets the flag.
- Any other action gets 400.

The GET handler lists one experience's records that have a given status.

A POST first reads the agent user id from the environment, throwing when it is
missing, and parses the JSON body; both happen outside the handler's error
catch. Then comes the identity check (401), then the fields of the action
(400). For approve, delete and push, a lookup by id follows (404), and then the
caller must be `"admin"` of the record's experience (403). A push then looks
up the forum (500 when there is none).

A GET checks identity (401), then that an experience id was given (400), then
that the caller is `"admin"` of that experience (403). Only after that does it
look at the requested status, and any status other than PENDING or APPROVED
gets 400.

The model has three parts:

- `QuestionModel` (question_model.dfy) holds the data model. It has one pure
  function per POST action. Each gives the response, the table afterwards and
  the forum posts made. Their contracts state the order of the checks, what
  each failure leaves alone, and what success changes.
- `QuestionRoute.QuestionsHandler` (question_route.dfy) is the route as an
  object:
  - it owns the table as a `map` and keeps a ghost log of every forum post;
  - its methods are written step by step, with the source's early returns;
  - each mutating method promises that its response, new table and new log are
    those of the matching pure function;
  - `Get` only reads, and states the filter directly;
  - `Valid()` is the class invariant that every method preserves: the agent
    user id is set and the table is well formed. It is the per-request form
    of `RunWellFormed`.
- `QuestionHistory` (question_history.dfy) replays any sequence of POST
  requests. `RunAppend` splits a run into two runs that chain. With it, the
  facts below are proved for every record present at any point of the run,
  whether it was already in the table at the start or was submitted during
  the run. A record that was not in the table at that point but is at the end
  was created by a submit of the run, as a PENDING, unpushed record. For a
  record that was in the table, from that point to the end of the run:
  - it keeps its experience and text;
  - its status and forum flag never go back;
  - it disappears only through an admin delete;
  - it becomes APPROVED only through an admin approve;
  - its forum flag is set only through an admin push.

  Over the whole run, the table stays well formed. Every forum post comes from
  an admin push, to the forum found for that admin's experience.

The external collaborators are inputs to the model:

- Token verification is an `Option<UserId>`.
- The access check is a function `(UserId, ExperienceId) -> AccessLevel`.
- find-or-create-forum is a function from the forum request (acting user,
  experience, name `"AMA Forum"`, `"admins"` may post) to an optional forum id.
- Forum post creation appends to the ghost log.
- The id the database gives a new record is supplied by the caller. It must not
  already be in the table. Across a history, no id is ever handed out twice.
- Text length is the length of a `seq<char>`. The source counts UTF-16 code
  units.
- A JSON field that was not sent is `None`. A JavaScript "falsy" string field is
  one that is missing or empty (`Present`).

`approve` sets only the status of the record. It stores no answer, sets no
answered-at time and makes no forum post. Publishing to the forum is the
separate `pushToForums` action.

## Model

| member | source | states |
|---|---|---|
| `QuestionModel.Authorize` | app/api/questions/route.ts:38-49 | an unknown id gives 404, checked before access; a known id whose experience the caller is not admin of gives 403; the caller may proceed exactly when the record exists and the caller is admin of its experience |
| `QuestionModel.SubmitEffect` | app/api/questions/route.ts:18-33 | a missing, empty or over-100-character question gives 400 "Invalid question", checked before the experience id; a missing experience id gives 400; both leave the table alone; success happens exactly when both are valid, adds exactly one record under the new id (the given experience and text, PENDING, not pushed) with all other records unchanged, and returns it; no forum post |
| `QuestionModel.ApproveEffect` | app/api/questions/route.ts:35-55 | missing id gives 400, then unknown id 404, then non-admin 403, and each leaves the table unchanged; success happens exactly when the caller is admin of the record's experience; it replaces only that record, changing only its status to APPROVED, and returns it |
| `QuestionModel.ApproveIdempotent` | app/api/questions/route.ts:35-55 | repeating any approve request leaves the table as the first one left it and gives the same response, whether the first succeeded or failed |
| `QuestionModel.DeleteEffect` | app/api/questions/route.ts:57-74 | same check order and failures as approve, none changing the table; success removes exactly that id, keeps every other record unchanged and returns `{success: true}` |
| `QuestionModel.Quoted` | app/api/questions/route.ts:113 | posted content is the text with one double quote before and one after |
| `QuestionModel.PushEffect` | app/api/questions/route.ts:76-122 | missing id or questionText gives 400, then 404, then 403; no forum id gives 500; no failure changes the table or posts anything; success happens exactly when the caller is admin and a forum id comes back; it makes exactly one post, as the agent user, to that forum, titled "Somebody asked:", with the caller's text in quotes (not the stored question), as a mention; it sets only `pushedToForum` of that record, leaving its status, and returns success |
| `QuestionModel.PostEffect` | app/api/questions/route.ts:12-124 | an unverified caller gets 401 and nothing changes; an unrecognised action gets 400 and nothing changes; no failure changes the table or posts; the only new key is the generated id; only pushToForums posts, at most once |
| `QuestionModel.PostEvolves` | app/api/questions/route.ts:18-122 | no POST changes a record's experience or text, moves its status back to PENDING or clears its forum flag, or lets a malformed record in |
| `QuestionModel.PostCreates` | app/api/questions/route.ts:18-32 | a POST adds its generated id to the table only as an identified submit with both fields valid, and the new record holds the request's experience and text, PENDING and not pushed |
| `QuestionModel.Matching` | app/api/questions/route.ts:154-165 | the listing holds exactly the records with the given experience and status, unchanged |
| `QuestionModel.ListingsPartition` | app/api/questions/route.ts:154-165 | for one experience, the PENDING and APPROVED listings share no record and together hold every record of that experience |
| `QuestionRoute.QuestionsHandler.constructor` | app/api/questions/route.ts:8-9 | a handler exists only with a non-empty agent user id; it starts from any well-formed table the database holds, with no posts |
| `QuestionRoute.QuestionsHandler.Submit` | app/api/questions/route.ts:18-33 | the response and new table are those of `SubmitEffect`; no post is made; the table stays well formed |
| `QuestionRoute.QuestionsHandler.Approve` | app/api/questions/route.ts:35-55 | the response and new table are those of `ApproveEffect`; no post is made |
| `QuestionRoute.QuestionsHandler.Delete` | app/api/questions/route.ts:57-74 | the response and new table are those of `DeleteEffect`; no post is made |
| `QuestionRoute.QuestionsHandler.PushToForums` | app/api/questions/route.ts:76-122 | the response and new table are those of `PushEffect`, and its post is appended to the log |
| `QuestionRoute.QuestionsHandler.Post` | app/api/questions/route.ts:7-132 | the response, new table and new log entries are those of `PostEffect` |
| `QuestionRoute.QuestionsHandler.Get` | app/api/questions/route.ts:134-166 | 401 without identity, then 400 without experience id, then 403 for a non-admin before the status is looked at, then 400 for a status other than PENDING/APPROVED; success happens exactly when none of these apply, and then lists exactly the matching records of the table |
| `QuestionHistory.Run` | app/api/questions/route.ts:7-124 | a sequence of POSTs only ever adds records under the ids generated for it, and answers every request |
| `QuestionHistory.RunEvolves` | app/api/questions/route.ts:18-122 | over any sequence of POSTs, a record that was in the table when the run started and survives has the same experience and text; its status has not gone from APPROVED back to PENDING, and its forum flag has not been cleared |
| `QuestionHistory.RunAppend` | app/api/questions/route.ts:7-124 | a run of two request sequences one after the other is the first run followed by the second, started from the table the first leaves: the tables chain, and the posts and responses concatenate |
| `QuestionHistory.SplitRun` | app/api/questions/route.ts:7-124 | the table at the end of a run is the table that the run's last requests leave, started from the table after its first `n` requests |
| `QuestionHistory.EvolvesFrom` | app/api/questions/route.ts:18-122 | a record present after the first `n` requests of a run, including one that a submit in the run created, keeps its experience and text to the end if it survives, and its status and forum flag do not go back |
| `QuestionHistory.RunWellFormed` | app/api/questions/route.ts:19-30 | over any sequence of POSTs, every record keeps non-empty text of at most 100 characters and an experience id |
| `QuestionHistory.CreatedOnlyBySubmit` | app/api/questions/route.ts:18-32 | a record in the table at the end of a run that was not there at its start was created by a submit of the run, under that submit's generated id, and still holds that submit's experience and text |
| `QuestionHistory.CreatedFromOnlyBySubmit` | app/api/questions/route.ts:18-32 | a record absent after the first `n` requests of a run and present at its end was created by a later submit, whose experience and text it holds |
| `QuestionHistory.StepRemoves` | app/api/questions/route.ts:57-73 | a single request removes a record only if it is a delete of that id by an admin of its experience |
| `QuestionHistory.RemovedOnlyByAdminDelete` | app/api/questions/route.ts:57-73 | a record in the table when a sequence of POSTs starts and missing at its end was deleted by a request naming its id from an admin of its experience |
| `QuestionHistory.RemovedFromOnlyByAdminDelete` | app/api/questions/route.ts:57-73 | a record present after the first `n` requests of a run and missing at its end was deleted by a later request naming its id, from an admin of its experience |
| `QuestionHistory.StepApproves` | app/api/questions/route.ts:35-54 | a single request turns PENDING into APPROVED only as an approve of that id by an admin |
| `QuestionHistory.ApprovedOnlyByAdmin` | app/api/questions/route.ts:35-54 | a record PENDING when a sequence of POSTs starts and APPROVED at its end was approved by an admin of its experience |
| `QuestionHistory.ApprovedFromOnlyByAdmin` | app/api/questions/route.ts:35-54 | a record PENDING after the first `n` requests of a run and APPROVED at its end was approved by a later request from an admin of its experience |
| `QuestionHistory.StepPushes` | app/api/questions/route.ts:76-120 | a single request sets a record's forum flag only as a pushToForums of that id by an admin of its experience |
| `QuestionHistory.PushedOnlyByAdmin` | app/api/questions/route.ts:76-120 | a record not pushed when a sequence of POSTs starts and pushed at its end was pushed by an admin of its experience |
| `QuestionHistory.PushedFromOnlyByAdmin` | app/api/questions/route.ts:76-120 | a record not pushed after the first `n` requests of a run and pushed at its end was pushed by a later request from an admin of its experience |
| `QuestionHistory.StepPostsPublish` | app/api/questions/route.ts:88-116 | a single request posts only as a pushToForums naming an existing record, from an admin of that record's experience, to the forum found for it, with its text quoted |
| `QuestionHistory.PostsComeFromPushes` | app/api/questions/route.ts:88-116 | every forum post of any sequence of POSTs was made, as the agent user, by a pushToForums request from an admin of some experience, to the forum found for that experience, titled "Somebody asked:", with that request's text in quotes |
| `QuestionHistory.RepeatedPushPostsTwice` | app/api/questions/route.ts:76-121 | nothing guards against an already-pushed record: two identical admin pushes both succeed and make two identical posts; the record stays pushed and its status is untouched |
| `QuestionHistory.DeletedNeverListed` | app/api/questions/route.ts:72-73 | after an admin delete, no later listing of any experience and status shows the record |
| `QuestionHistory.ScenarioSubmit` | app/api/questions/route.ts:18-32 | a valid submission to an empty table creates the PENDING record and returns it |
| `QuestionHistory.ScenarioApprove` | app/api/questions/route.ts:35-54 | an approve of an existing record is refused with 403 for a non-admin and sets APPROVED for an admin |
| `QuestionHistory.ModerationScenario` | app/api/questions/route.ts:18-54 | a member submits and gets the PENDING record; a non-admin's approve gets 403 and the record stays PENDING; an admin's approve gets 200 and the record is APPROVED; no forum post is made |

## Left out

- The catch-all 500 responses (app/api/questions/route.ts:125-131, 167-172) are not modelled. They are how the source handles a failure of the database or the platform API. The model's collaborators never fail, except that find-or-create-forum may return no forum id, which is modelled.
- Because upstream failures are not modelled, neither is a post that is created when the following record update then fails.
- The agent user id read from the environment, and the throw when it is missing (app/api/questions/route.ts:8-9), are a precondition of the handler's constructor.
- QuestionsHandler.constructor: a deployment without the agent user id is outside the model. In the source only POST reads the variable, so such a deployment still answers GET requests (app/api/questions/route.ts:134-173); the model has no handler for it at all.
- QuestionsHandler.constructor: the initial table must be well formed: every record has text of 1 to 100 characters and an experience id. Rows that this route did not write, which could break that rule, are outside the model.
- Parsing the JSON body and the query string is not modelled: every field is an optional string. A body that is not JSON, or a field that is a number or an object, is outside the model.
- The record columns that this route never writes are not modelled: answer, answered-at, forum post id and creation time. Responses carry the id and the four modelled fields.
- Get: the listing is a map, so the order the database returns records in is not modelled.
- The result of the forum post call is ignored, as the source ignores it. `console.log` calls are dropped.
- Concurrency between requests and the database's write semantics are not modelled. The source coordinates neither.
- The React pages and components, and the placeholder server actions in lib/actions.ts, are not part of this model. The question form's 500-character limit is a client-side display limit and is not modelled; the model keeps the server's limit of 100.
