/**
 * The dispatcher as the running process has it: handlers that assign `response`
 * branch by branch, write to the task store, and hand replies to the Send API.
 * Each handler is proved to perform exactly the transition that the
 * Conversation and Webhook modules define.
 */
module Bot {

  import opened Wrappers
  import opened TaskIds
  import opened Catalog
  import opened Intent
  import opened Postback
  import opened Store
  import opened Render
  import opened Conversation
  import opened Webhook

  class Bot {
    const store: TaskStore
    /** `Date.prototype.toDateString`. */
    const dateString: Timestamp -> string
    /** Everything handed to `callSendAPI`, in call order. */
    var sent: seq<Outgoing>

    ghost predicate Valid()
      reads this, store
    {
      store.Valid()
    }

    ghost function Snapshot(): World
      reads this, store
    {
      World(store.docs, store.serial, sent)
    }

    constructor (dateString: Timestamp -> string)
      ensures Valid() && fresh(store) && this.dateString == dateString
      ensures Snapshot() == World([], 0, [])
    {
      this.dateString := dateString;
      store := new TaskStore();
      sent := [];
    }

    /** `callSendAPI(recipient, message)`. */
    method CallSendAPI(recipient: string, message: Option<Payload>)
      modifies this
      ensures sent == old(sent) + [Outgoing(recipient, message)]
    {
      sent := sent + [Outgoing(recipient, message)];
    }

    /** `createNewTask(sender, task)`: saves the task and returns the reply naming its id. */
    method CreateNewTask(sender: string, task: string, env: Env) returns (response: Payload)
      requires Valid()
      modifies store
      ensures Valid() && store.serial == old(store.serial) + 1
      ensures response == CreatedReply(IdOf(old(store.serial)))
      ensures store.docs == if env.writeOk then old(store.docs) + [TaskDoc(IdOf(old(store.serial)), sender, task, env.now)]
                            else old(store.docs)
    {
      var id := store.Save(sender, task, env.now, env.writeOk);
      response := CreatedReply(id);
    }

    /** `deleteTask(tid)`: removes the task and confirms, whatever the outcome. */
    method DeleteTask(tid: Option<string>, env: Env) returns (response: Payload)
      requires Valid()
      modifies store
      ensures Valid() && store.serial == old(store.serial)
      ensures store.docs == if env.writeOk then Removed(old(store.docs), tid) else old(store.docs)
      ensures response == DeletedReply
    {
      store.FindByIdAndRemove(tid, env.writeOk);
      response := DeletedReply;
    }

    /** `viewAllTasks(sender)`: finds the sender's tasks and sends their listing; a
        failed find sends nothing. */
    method ViewAllTasks(sender: string, env: Env)
      requires Valid()
      modifies this
      ensures Valid()
      ensures Snapshot() == if env.readOk
                            then old(Snapshot()).(sent := old(sent) + [Outgoing(sender, Some(Listing(OfSender(store.docs, sender), dateString)))])
                            else old(Snapshot())
    {
      if !env.readOk {
        return;
      }
      var tasks := OfSender(store.docs, sender);
      var response := RenderTaskList(tasks, dateString);
      CallSendAPI(sender, Some(response));
    }

    /** `handleMessage(sender, message)`. */
    method HandleMessage(sender: string, m: Message, env: Env)
      requires Valid()
      modifies this, store
      ensures Valid() && Snapshot() == AfterMessage(old(Snapshot()), sender, m, env)
    {
      var response: Option<Payload> := None;
      match ResolveMessage(m) {
        case Reply(name) =>
          response := Some(Response(name));
        case NewTask(task) =>
          var created := CreateNewTask(sender, task, env);
          response := Some(created);
        case NoReply =>
      }
      CallSendAPI(sender, response);
    }

    /** `handlePostback(sender, postback)`. */
    method HandlePostback(sender: string, payload: string, env: Env)
      requires Valid()
      modifies this, store
      ensures Valid() && Snapshot() == AfterPostback(old(Snapshot()), sender, payload, env, dateString)
    {
      var response: Option<Payload> := None;
      match ResolvePostback(payload) {
        case ListTasks =>
          ViewAllTasks(sender, env);
        case PromptCreate =>
          response := Some(Response(CreateTask));
        case Delete(tid) =>
          var deleted := DeleteTask(tid, env);
          response := Some(deleted);
        case Unrecognized =>
          response := Some(Response(Unknown));
      }
      if response.Some? {
        CallSendAPI(sender, response);
      }
    }

    /** The routing of one `messaging` event. */
    method HandleEvent(ev: Event, env: Env)
      requires Valid()
      modifies this, store
      ensures Valid() && Snapshot() == AfterEvent(old(Snapshot()), ev, env, dateString)
    {
      if ev.message.Some? {
        HandleMessage(ev.sender, ev.message.value, env);
      } else if ev.postback.Some? {
        HandlePostback(ev.sender, ev.postback.value.payload, env);
      }
    }

    /** `POST /webhook`: each entry in turn, through its first event. */
    method HandleWebhook(body: Body, envAt: nat -> Env) returns (reply: HttpReply)
      requires Valid()
      modifies this, store
      ensures Valid()
      ensures Delivery(Snapshot(), reply) == PostWebhook(old(Snapshot()), body, envAt, dateString)
    {
      if body.objectType != "page" {
        reply := Respond(404, Some("Not Found"));
        return;
      }
      var i := 0;
      while i < |body.entry|
        invariant 0 <= i <= |body.entry|
        invariant Valid()
        invariant RunEntries(old(Snapshot()), body.entry[..i], envAt, dateString) == Completed(Snapshot())
      {
        var entry := body.entry[i];
        assert body.entry[..i + 1][..i] == body.entry[..i];
        if entry.messaging == [] {
          AbortIsFinal(old(Snapshot()), body.entry, i + 1, envAt, dateString);
          reply := Respond(500, None);
          return;
        }
        HandleEvent(entry.messaging[0], envAt(i));
        i := i + 1;
      }
      assert body.entry[..i] == body.entry;
      reply := Respond(200, Some("EVENT_RECEIVED"));
    }
  }
}
