/**
 * The conversation dispatcher as a transition on the observable world: the task
 * collection, the id counter and the messages handed to the Send API. Each
 * inbound event is decided by the resolvers and then applied.
 */
module Conversation {

  import opened Wrappers
  import opened TaskIds
  import opened Catalog
  import opened Intent
  import opened Postback
  import opened Store
  import opened Render

  /** One `callSendAPI(recipient, message)`; `None` is an `undefined` message. */
  datatype Outgoing = Outgoing(recipient: string, message: Option<Payload>)

  /** What the environment decides for one event: the clock, and whether the store's
      writes (save, remove) and reads (find) succeed. */
  datatype Env = Env(now: Timestamp, writeOk: bool, readOk: bool)

  datatype World = World(docs: seq<TaskDoc>, serial: nat, sent: seq<Outgoing>)

  /** The postback of a message event carries its payload string. */
  datatype PostbackEvent = PostbackEvent(payload: string)

  /** One `messaging` event: the sender PSID and a message and/or a postback. */
  datatype Event = Event(sender: string, message: Option<Message>, postback: Option<PostbackEvent>)

  ghost predicate Consistent(w: World)
  {
    WellFormed(w.docs, w.serial)
  }

  /** `handleMessage(sender, m)`, including the task it creates and the one send it always makes. */
  function AfterMessage(w: World, sender: string, m: Message, env: Env): (w': World)
    ensures |w'.sent| == |w.sent| + 1 && w'.sent[..|w.sent|] == w.sent
    ensures w'.sent[|w.sent|].recipient == sender
    ensures w'.sent[|w.sent|].message.None? <==> ResolveMessage(m) == NoReply
    ensures !ResolveMessage(m).NewTask? ==> w'.docs == w.docs && w'.serial == w.serial
    ensures ResolveMessage(m).NewTask? ==> w'.serial == w.serial + 1 && |w'.docs| <= |w.docs| + 1
    ensures ResolveMessage(m).Reply? ==> w'.sent[|w.sent|].message == Some(Response(ResolveMessage(m).name))
  {
    match ResolveMessage(m)
    case Reply(name) => w.(sent := w.sent + [Outgoing(sender, Some(Response(name)))])
    case NoReply => w.(sent := w.sent + [Outgoing(sender, None)])
    case NewTask(task) =>
      var id := IdOf(w.serial);
      World(if env.writeOk then w.docs + [TaskDoc(id, sender, task, env.now)] else w.docs,
            w.serial + 1,
            w.sent + [Outgoing(sender, Some(CreatedReply(id)))])
  }

  /** `handlePostback(sender, {payload: p})`, with `viewAllTasks` for TASK_LIST. */
  function AfterPostback(w: World, sender: string, p: string, env: Env, dateString: Timestamp -> string): (w': World)
    ensures w'.serial == w.serial
    ensures |w.sent| <= |w'.sent| <= |w.sent| + 1 && w'.sent[..|w.sent|] == w.sent
    ensures |w'.sent| > |w.sent| ==> w'.sent[|w.sent|].recipient == sender && w'.sent[|w.sent|].message.Some?
    ensures !ResolvePostback(p).Delete? ==> w'.docs == w.docs
    ensures ResolvePostback(p).Delete? ==> w'.sent == w.sent + [Outgoing(sender, Some(DeletedReply))]
    ensures ResolvePostback(p).Delete? && !env.writeOk ==> w'.docs == w.docs
    ensures |w'.sent| == |w.sent| <==> ResolvePostback(p) == ListTasks && !env.readOk
    ensures ResolvePostback(p) == ListTasks && env.readOk ==>
              w'.sent == w.sent + [Outgoing(sender, Some(Listing(OfSender(w.docs, sender), dateString)))]
    ensures ResolvePostback(p) == PromptCreate ==> w'.sent == w.sent + [Outgoing(sender, Some(Response(CreateTask)))]
    ensures ResolvePostback(p) == Unrecognized ==> w'.sent == w.sent + [Outgoing(sender, Some(Response(Unknown)))]
  {
    match ResolvePostback(p)
    case ListTasks =>
      if env.readOk
      then w.(sent := w.sent + [Outgoing(sender, Some(Listing(OfSender(w.docs, sender), dateString)))])
      else w
    case PromptCreate => w.(sent := w.sent + [Outgoing(sender, Some(Response(CreateTask)))])
    case Delete(tid) =>
      w.(docs := if env.writeOk then Removed(w.docs, tid) else w.docs,
         sent := w.sent + [Outgoing(sender, Some(DeletedReply))])
    case Unrecognized => w.(sent := w.sent + [Outgoing(sender, Some(Response(Unknown)))])
  }

  /** The routing of one event: a message takes precedence over a postback; an event
      with neither is ignored. */
  function AfterEvent(w: World, ev: Event, env: Env, dateString: Timestamp -> string): (w': World)
    ensures ev.message.None? && ev.postback.None? ==> w' == w
    ensures ev.message.Some? ==> |w'.sent| == |w.sent| + 1
    ensures |w.sent| <= |w'.sent| <= |w.sent| + 1 && w'.sent[..|w.sent|] == w.sent
  {
    if ev.message.Some? then AfterMessage(w, ev.sender, ev.message.value, env)
    else if ev.postback.Some? then AfterPostback(w, ev.sender, ev.postback.value.payload, env, dateString)
    else w
  }

  /** When an event carries a message, its postback is never looked at. */
  lemma MessageWinsOverPostback(w: World, ev: Event, env: Env, dateString: Timestamp -> string)
    requires ev.message.Some?
    ensures AfterEvent(w, ev, env, dateString) == AfterEvent(w, ev.(postback := None), env, dateString)
  {
  }

  /** A new task: exactly one record with the sender, the text as typed and the clock,
      under a fresh id, which the reply's delete button carries. */
  lemma CreatesExactlyOneTask(w: World, sender: string, m: Message, env: Env)
    requires Consistent(w) && ResolveMessage(m).NewTask? && env.writeOk
    ensures var w' := AfterMessage(w, sender, m, env);
            var id := IdOf(w.serial);
            && w'.docs == w.docs + [TaskDoc(id, sender, m.text.value, env.now)]
            && (forall i :: 0 <= i < |w.docs| ==> w.docs[i].id != id)
            && w'.sent[|w.sent|].message == Some(CreatedReply(id))
            && OfSender(w'.docs, sender) == OfSender(w.docs, sender) + [TaskDoc(id, sender, m.text.value, env.now)]
  {
    var id := IdOf(w.serial);
    AppendWellFormed(w.docs, w.serial, sender, m.text.value, env.now);
    OfSenderAppend(w.docs, TaskDoc(id, sender, m.text.value, env.now), sender);
  }

  /** The create reply is sent even when the save fails; then only the counter moves. */
  lemma ReplyDespiteFailedSave(w: World, sender: string, m: Message, env: Env)
    requires ResolveMessage(m).NewTask? && !env.writeOk
    ensures AfterMessage(w, sender, m, env).docs == w.docs
    ensures AfterMessage(w, sender, m, env).sent == w.sent + [Outgoing(sender, Some(CreatedReply(IdOf(w.serial))))]
  {
  }

  /** A deletion postback removes the named task, whoever it belongs to, and nothing else. */
  lemma DeleteRemovesOnlyTarget(w: World, sender: string, p: string, env: Env, dateString: Timestamp -> string, id: string)
    requires ResolvePostback(p) == Delete(Some(id)) && env.writeOk
    ensures forall d :: d in AfterPostback(w, sender, p, env, dateString).docs <==> d in w.docs && d.id != id
  {
  }

  /** Deleting an id no task has changes nothing but still confirms. */
  lemma DeleteMissingIsHarmless(w: World, sender: string, p: string, env: Env, dateString: Timestamp -> string)
    requires ResolvePostback(p).Delete?
    requires var t := ResolvePostback(p).target; t.Some? ==> forall i :: 0 <= i < |w.docs| ==> w.docs[i].id != t.value
    ensures AfterPostback(w, sender, p, env, dateString) == w.(sent := w.sent + [Outgoing(sender, Some(DeletedReply))])
  {
    var t := ResolvePostback(p).target;
    if t.Some? {
      RemovedMissing(w.docs, t.value);
    }
  }

  /** Create, then press the new task's delete button: the task is gone again and
      every other record is back as it was. */
  lemma CreateThenDelete(w: World, sender: string, m: Message, env: Env, env2: Env, dateString: Timestamp -> string)
    requires Consistent(w) && ResolveMessage(m).NewTask? && env.writeOk && env2.writeOk
    ensures var w1 := AfterMessage(w, sender, m, env);
            var button := w1.sent[|w.sent|].message.value.buttons[1];
            AfterPostback(w1, sender, button.payload, env2, dateString).docs == w.docs
  {
    var id := IdOf(w.serial);
    var w1 := AfterMessage(w, sender, m, env);
    CreatesExactlyOneTask(w, sender, m, env);
    TaskIdRoundTrip(id);
    var d := TaskDoc(id, sender, m.text.value, env.now);
    RemovedMissing(w.docs, id);
    RemovedAppend(w.docs, d);
  }

  /** After a deletion, the sender's listing no longer shows the deleted task. */
  lemma ListAfterDelete(w: World, sender: string, p: string, env: Env, dateString: Timestamp -> string, id: string)
    requires ResolvePostback(p) == Delete(Some(id)) && env.writeOk
    ensures var w' := AfterPostback(w, sender, p, env, dateString);
            forall d :: d in OfSender(w'.docs, sender) ==> d.id != id
  {
  }

  /** The fixed postbacks and unrecognised payloads never touch the collection. */
  lemma NonDeletingPostbacks(w: World, sender: string, p: string, env: Env, dateString: Timestamp -> string)
    requires p == TaskListPayload || p == CreateTaskPayload || !MentionsDelete(p)
    ensures AfterPostback(w, sender, p, env, dateString).docs == w.docs
  {
  }

  /** Every event keeps the collection well formed. */
  lemma EventKeepsConsistent(w: World, ev: Event, env: Env, dateString: Timestamp -> string)
    requires Consistent(w)
    ensures Consistent(AfterEvent(w, ev, env, dateString))
  {
    if ev.message.Some? {
      var m := ev.message.value;
      if ResolveMessage(m).NewTask? {
        AppendWellFormed(w.docs, w.serial, ev.sender, m.text.value, env.now);
      }
    } else if ev.postback.Some? {
      var a := ResolvePostback(ev.postback.value.payload);
      if a.Delete? {
        RemovedWellFormed(w.docs, a.target, w.serial);
      }
    }
  }
}
