# Reminders Messenger bot: the conversation dispatcher

A Dafny model of the conversation dispatcher of a Messenger task-list bot
(`index.js`). For each inbound webhook event the dispatcher picks exactly one
reply payload and makes at most one change to the task collection:

- **Messages** (`handleMessage`): a first-match-wins chain. The NLP entities
  `greetings`, `thanks` and `bye` come first, in that order. Each is judged only
  on its first candidate and fires only with a confidence strictly above 0.8.
  Next come the exact commands `help`, `create task` and `view all tasks`,
  compared against the lower-cased text. Any other non-empty text becomes a new
  task, stored with the text as typed. With no text and no firing entity,
  `callSendAPI` is still called, with an `undefined` message.
- **Postbacks** (`handlePostback`): `TASK_LIST` sends the sender's listing from
  `viewAllTasks`. `CREATE_TASK` sends the creation prompt. `DELETE_TASK` calls
  `deleteTask` with no id, which the model takes to remove nothing (see
  "Left out"), and confirms. Any other payload containing `DELETE` anywhere removes
  the id `payload.split('_')[1]` and confirms, whether or not that id exists.
  Everything else gets the UNKNOWN reply.
- **Creation and deletion** (`createNewTask`, `deleteTask`): creation builds a
  button template whose second button carries `"DELETE_" + id`. That reply is
  sent even when the save fails.
- **Listing** (`viewAllTasks`): zero tasks give a text, one task a button
  template with its delete button, two or more a compact list template with one
  element per task in store order.
- **Webhook**: `POST /webhook` processes only `object === 'page'` and reads only
  `messaging[0]` of each entry; a message wins over a postback. `GET /webhook`
  performs the mode/token/challenge handshake.

Layout, one module per file:

- `text.dfy`: `toLowerCase`, `indexOf` and `split` with their proofs.
- `task_ids.dfy`: fresh task ids.
- `catalog.dfy`: the `RESPONSES` table and the reply payloads.
- `nlp.dfy`: `firstEntity`.
- `intent.dfy`: the message decision.
- `postback.dfy`: the postback decision.
- `store.dfy`: the task collection, as a class with save and remove methods.
- `render.dfy`: the listing policy.
- `conversation.dfy`: each event as a transition of the observable world. The
  world is the collection, the id counter and the messages sent.
- `webhook.dfy`: the batch loop and the handshake, as functions.
- `bot.dfy`: the `Bot` class. Its handlers assign `response` branch by branch and
  loop over the entries; each is proved to perform exactly the transition
  defined in `conversation.dfy` and `webhook.dfy`.

The environment enters as parameters. `Env` gives the clock reading and whether
the store's writes and reads succeed. `dateString` stands for
`Date.prototype.toDateString`. `callSendAPI` appends to the `sent` sequence.

Behaviours of the code that are easy to miss:

- The text command `view all tasks` returns the canned text "List all the tasks
  here". It does not list anything.
- A message that produces no reply still goes to the Send API, with an
  `undefined` message.
- `GET /webhook` without a mode or token gives no HTTP response at all.
- NLP entities are judged only on their first candidate.

## Model

| member | source | states |
|---|---|---|
| Text.ToLower | index.js:326 | the lower-cased text has the same length, character by character the lower-case form |
| Text.IndexOf | index.js:369 | -1 exactly when the needle occurs nowhere; otherwise the first index where it occurs |
| Text.Split | index.js:371 | `split` with one separator gives at least one piece, and no piece holds the separator |
| Text.JoinSplit | index.js:371 | joining the pieces of a split gives the string back |
| Text.SplitJoin | index.js:371 | splitting a join of separator-free pieces gives the pieces back |
| TaskIds.IdOf | index.js:196-202 | every id handed out is a non-empty hexadecimal string, so it holds no '_' |
| TaskIds.HexRoundTrip | index.js:196-202 | an id reads back as the counter value it was made from |
| TaskIds.IdOfInjective | index.js:196-202 | different counter values give different ids, so each new id is fresh |
| Catalog.Response | index.js:103-125 | every canned reply is plain text with its table text; only HELP carries quick replies, and they are exactly the `TASK_LIST` and `CREATE_TASK` ones |
| Catalog.CreatedReply | index.js:212-232 | the creation reply has two postback buttons: TASK_LIST and the new task's `DELETE_` payload |
| Nlp.FirstEntity | index.js:187-189 | the first candidate under the name exactly when the annotation lists one |
| Nlp.FiresOnFirstCandidateOnly | index.js:310-321 | an entity fires exactly when its first candidate's confidence is strictly above 0.8, so annotations agreeing on that candidate fire alike whatever candidates follow |
| Intent.ResolveMessage | index.js:304-344 | the priority chain: greetings, then thanks, then bye, then the three commands, then a new task with the original text; no reply exactly when nothing fires and there is no text |
| Intent.ThresholdIsStrict | index.js:313-321 | a greetings confidence of exactly 0.8 falls through to the text rules; 0.81 greets |
| Intent.HelpQuickReplyTitlesAreCommands | index.js:326-335 | the HELP quick-reply titles, sent back as text, are the `view all tasks` and `create task` commands |
| Intent.CommandsIgnoreCase | index.js:326-335 | texts with the same lower-case form get the same canned reply |
| Postback.ResolvePostback | index.js:358-379 | TASK_LIST lists, CREATE_TASK prompts, DELETE_TASK deletes with no id, any payload containing DELETE deletes `split('_')[1]`, everything else is UNKNOWN |
| Postback.DeletePayloadRoundTrip | index.js:368-373 | `"DELETE_" + id` resolves to the deletion of `id` for every id without '_' other than "TASK" |
| Postback.TaskIdRoundTrip | index.js:227 | the delete button of every id the store hands out deletes exactly that id |
| Postback.DeleteAnywhere | index.js:369-371 | DELETE need not be a prefix, and the id is only the second '_'-separated piece |
| Postback.DeleteWithoutSeparator | index.js:369-372 | a payload that mentions DELETE but has no '_' deletes with no id |
| Store.OfSender | index.js:238 | the query keeps exactly the sender's documents |
| Store.Removed | index.js:293-299 | removal keeps exactly the documents with another id; with no id, all of them |
| Store.OfSenderAppend | index.js:238 | a new document shows up last, and only in its own sender's query |
| Store.RemovedSnoc | index.js:293-299 | removal keeps the survivors in store order: a document appended last survives, last, exactly when it lacks the removed id |
| Store.RemovedMissing | index.js:293-300 | removing an id no document has changes nothing |
| Store.RemovedAppend | index.js:293-299 | removing the id of a document appended last drops it and treats the earlier ones as if it were not there |
| Store.RemovedWellFormed | index.js:293-299 | removal keeps ids well formed and distinct |
| Store.AppendWellFormed | index.js:196-210 | the new document's id differs from every stored id, and the collection stays well formed |
| Store.TaskStore.Save | index.js:196-210 | the id is taken from the counter, which always advances; the document is appended only when the save succeeds |
| Store.TaskStore.FindByIdAndRemove | index.js:294-299 | the collection becomes the removal of the id when the store succeeds, else stays; the counter is kept |
| Render.Listing | index.js:241-284 | zero tasks give the no-tasks text; one gives a button template with its delete button; two or more give a compact list with one element per task, in order |
| Render.RenderTaskList | index.js:262-284 | the loop that builds the elements returns exactly the listing |
| Render.SingleListingDeletesItsTask | index.js:244-261 | the single-task button deletes exactly that task |
| Conversation.AfterMessage | index.js:304-346 | exactly one send to the sender; only a new task changes the store and the counter; the canned reply is the one named |
| Conversation.AfterPostback | index.js:349-384 | at most one send; only deletion payloads change the store; a deletion always confirms; TASK_LIST sends the sender's listing when the find succeeds; a deletion whose write fails leaves the collection as it was |
| Conversation.AfterEvent | index.js:146-150 | an event with neither part changes nothing; a message always sends |
| Conversation.MessageWinsOverPostback | index.js:146-150 | when an event carries a message, its postback is ignored: the event is handled as if it had none |
| Conversation.CreatesExactlyOneTask | index.js:336-339 | free text adds exactly one record with the sender, the typed text and the clock, under a fresh id that the reply carries, last in the sender's listing |
| Conversation.ReplyDespiteFailedSave | index.js:205-212 | when the save fails the creation reply is still sent and the store is unchanged |
| Conversation.DeleteRemovesOnlyTarget | index.js:368-373 | a deletion postback removes the named id, whoever owns it, and nothing else |
| Conversation.DeleteMissingIsHarmless | index.js:293-300 | deleting an absent id, or with no id, only sends the confirmation |
| Conversation.CreateThenDelete | index.js:212-232 | pressing the new task's delete button gives back the collection as it was before the creation |
| Conversation.ListAfterDelete | index.js:293-300 | after a deletion, the sender's listing no longer shows that id |
| Conversation.NonDeletingPostbacks | index.js:358-366 | TASK_LIST, CREATE_TASK and payloads without DELETE leave the store as it was |
| Conversation.EventKeepsConsistent | index.js:146-150 | every event keeps task ids well formed and distinct |
| Webhook.RunEntries | index.js:135-151 | the batch aborts exactly when some entry has an empty `messaging`; at most one send per entry |
| Webhook.PostWebhook | index.js:128-160 | only page subscriptions are processed; 200 EVENT_RECEIVED exactly when every entry has an event; 404 when the object is not page, 500 when a page batch aborts; a page delivery leaves the world the batch produced |
| Webhook.VerifyWebhook | index.js:163-184 | no response without a mode and a token; 200 with the challenge exactly when the mode is subscribe and the token matches; otherwise 403 |
| Webhook.OnlyConfiguredTokenVerifies | index.js:171-183 | the handshake succeeds only with mode subscribe and a configured, non-empty token |
| Webhook.AbortIsFinal | index.js:135-141 | once an entry throws, later entries change nothing |
| Webhook.OnlyFirstEventCounts | index.js:137 | only `messaging[0]` of each entry matters |
| Webhook.BatchKeepsConsistent | index.js:135-151 | a whole batch keeps task ids well formed and distinct |
| Bot.Bot.CallSendAPI | index.js:387-394 | appends one message for the recipient to what has been sent |
| Bot.Bot.CreateNewTask | index.js:192-233 | saves the task under the next id and returns the creation reply for that id |
| Bot.Bot.DeleteTask | index.js:293-301 | removes the id when the store succeeds, and always returns the confirmation |
| Bot.Bot.ViewAllTasks | index.js:235-291 | sends the listing of the sender's tasks when the find succeeds; otherwise nothing happens |
| Bot.Bot.HandleMessage | index.js:304-346 | performs exactly the message transition |
| Bot.Bot.HandlePostback | index.js:349-384 | performs exactly the postback transition |
| Bot.Bot.HandleEvent | index.js:146-150 | performs exactly the routing transition for one event |
| Bot.Bot.HandleWebhook | index.js:128-160 | the loop over entries performs exactly the delivery: the same world and the same HTTP reply |

## Left out

- HTTP plumbing is not modelled: Express and body-parser, `app.listen`, and `GET /` (index.js:4-53).
- The administrative endpoints `/task/create`, `/task/all` and `/task/get` (index.js:56-100) and `routes/task.js` are not modelled. They are thin wrappers over save and find.
- The Mongoose connection and schema (index.js:21-45) and `models/task.js` are reduced to the `TaskDoc` record.
- MongoDB ObjectIds are not modelled. An id is the hexadecimal numeral of a per-store counter. It keeps the properties that matter here: it is fresh, it is non-empty and it has no '_'. It does not keep the ObjectId format: a hand-written payload such as `DELETE_0` names the model's first record and removes it, where the driver would reject `"0"` as an ObjectId and no real record carries that id.
- The order of `find` results is taken to be insertion order. It is the store's natural order, which the code does not ask for.
- `callSendAPI`'s outbound HTTP request, the access token and the send result are not modelled. A send is recorded as the recipient and message handed over.
- Callbacks are treated as synchronous, in call order: `save`, `find`, `findByIdAndRemove` and the send. Interleavings across events are not modelled, and neither is a listing sent after later entries' replies.
- Console logging is not modelled. That includes the inverted `if (!err)` message in `deleteTask`.
- The clock and `toDateString` are parameters: `Env.now` and `dateString`.
- `Text.ToLower`: exact only for characters whose lower-case form is an ASCII letter ('A'..'Z' and the Kelvin sign). All other characters are kept unchanged. That cannot change which of the three commands a text matches. It can differ from JavaScript for other characters, for example U+0130, which lower-cases to two characters.
- Removal with no id (`deleteTask()` for DELETE_TASK, or a DELETE payload without '_') is modelled as removing nothing. It is an assumption: `findByIdAndRemove(undefined)` is decided by the Mongoose driver, whose code is not part of this model, and `index.js` does not show its effect.
- The driver's rejection of an id that is not a well-formed ObjectId is not modelled. The model keeps only that an id no record carries removes nothing (`Store.RemovedMissing`). Because model ids are counter numerals, a payload whose id part is a hex numeral names a model record even where the driver would reject it (see the ObjectId line above).
- Of the ways a malformed delivery can throw, only an empty `messaging` array is modelled. Its effect is that later entries are skipped and the reply is a 500. The body Express sends with that 500 is not modelled.
- A missing `entry` array, a missing `sender`, a non-string `payload` and repeated query parameters, which arrive as arrays, are not modelled.
- Message fields other than `text` and `nlp` are not modelled: attachments and quick-reply payloads. The handler does not read them.
