/**
 * The two webhook endpoints as decision functions: `POST /webhook` routes a batch
 * of entries to the dispatcher, `GET /webhook` answers the subscription handshake.
 */
module Webhook {

  import opened Wrappers
  import opened Store
  import opened Conversation

  /** One entry of a delivery; only `messaging[0]` is read. */
  datatype Entry = Entry(messaging: seq<Event>)

  /** The JSON body of `POST /webhook`; `objectType` is its `object` field. */
  datatype Body = Body(objectType: string, entry: seq<Entry>)

  /** The HTTP answer, or none at all. */
  datatype HttpReply = NoResponse | Respond(status: nat, body: Option<string>)

  /** Where a batch ends: after all entries, or at an entry whose handling threw. */
  datatype Batch = Completed(world: World) | Aborted(world: World)

  datatype Delivery = Delivery(world: World, reply: HttpReply)

  /** `body.entry.forEach(...)`: entry k is handled through its first event, under
      `envAt(k)`. An entry with an empty `messaging` array makes `webhook_event.sender`
      throw, which ends the loop with the entries before it handled. */
  function RunEntries(w: World, entries: seq<Entry>, envAt: nat -> Env, dateString: Timestamp -> string): (b: Batch)
    ensures b.Aborted? <==> exists k :: 0 <= k < |entries| && entries[k].messaging == []
    ensures |w.sent| <= |b.world.sent| <= |w.sent| + |entries| && b.world.sent[..|w.sent|] == w.sent
    decreases |entries|
  {
    if entries == [] then Completed(w)
    else
      var n := |entries| - 1;
      var prefix := entries[..n];
      assert forall k :: 0 <= k < n ==> prefix[k] == entries[k];
      assert (exists k :: 0 <= k < |entries| && entries[k].messaging == []) <==>
             (exists k :: 0 <= k < n && prefix[k].messaging == []) || entries[n].messaging == [];
      var r := RunEntries(w, prefix, envAt, dateString);
      if r.Aborted? then r
      else if entries[n].messaging == [] then Aborted(r.world)
      else Completed(AfterEvent(r.world, entries[n].messaging[0], envAt(n), dateString))
  }

  /** `POST /webhook`: only page subscriptions are processed; they are acknowledged with
      200 EVENT_RECEIVED unless an entry threw (500); anything else gets 404. */
  function PostWebhook(w: World, body: Body, envAt: nat -> Env, dateString: Timestamp -> string): (d: Delivery)
    ensures body.objectType != "page" ==> d == Delivery(w, Respond(404, Some("Not Found")))
    ensures d.reply == Respond(200, Some("EVENT_RECEIVED")) <==>
              body.objectType == "page" && forall k :: 0 <= k < |body.entry| ==> body.entry[k].messaging != []
    ensures d.reply.Respond? && d.reply.status in {200, 404, 500}
    ensures body.objectType == "page" ==>
              d.world == RunEntries(w, body.entry, envAt, dateString).world &&
              (d.reply == Respond(500, None) <==> RunEntries(w, body.entry, envAt, dateString).Aborted?)
  {
    if body.objectType != "page" then Delivery(w, Respond(404, Some("Not Found")))
    else
      match RunEntries(w, body.entry, envAt, dateString)
      case Completed(w') => Delivery(w', Respond(200, Some("EVENT_RECEIVED")))
      case Aborted(w') => Delivery(w', Respond(500, None))
  }

  /** A query parameter is truthy: present and not empty. */
  predicate Truthy(o: Option<string>)
  {
    o.Some? && o.value != ""
  }

  /** `GET /webhook` with `hub.mode`, `hub.verify_token`, `hub.challenge`, against the
      configured `VERIFY_TOKEN` (which may be unset). */
  function VerifyWebhook(mode: Option<string>, token: Option<string>, challenge: Option<string>,
                         verifyToken: Option<string>): (r: HttpReply)
    ensures r == NoResponse <==> !Truthy(mode) || !Truthy(token)
    ensures r == Respond(200, challenge) <==>
              Truthy(mode) && Truthy(token) && mode.value == "subscribe" && token == verifyToken
    ensures r == NoResponse || r == Respond(200, challenge) || r == Respond(403, Some("Forbidden"))
  {
    if Truthy(mode) && Truthy(token) then
      if mode.value == "subscribe" && token == verifyToken then Respond(200, challenge)
      else Respond(403, Some("Forbidden"))
    else NoResponse
  }

  /** The handshake succeeds only against a configured, non-empty token: an unset
      VERIFY_TOKEN can never be matched. */
  lemma OnlyConfiguredTokenVerifies(mode: Option<string>, token: Option<string>, challenge: Option<string>,
                                    verifyToken: Option<string>)
    requires VerifyWebhook(mode, token, challenge, verifyToken).Respond?
    requires VerifyWebhook(mode, token, challenge, verifyToken).status == 200
    ensures mode == Some("subscribe") && verifyToken.Some? && verifyToken.value != "" && token == verifyToken
  {
  }

  /** Once an entry has thrown, the later entries change nothing. */
  lemma {:induction false} AbortIsFinal(w: World, entries: seq<Entry>, k: nat, envAt: nat -> Env,
                                        dateString: Timestamp -> string)
    requires k <= |entries| && RunEntries(w, entries[..k], envAt, dateString).Aborted?
    ensures RunEntries(w, entries, envAt, dateString) == RunEntries(w, entries[..k], envAt, dateString)
    decreases |entries|
  {
    if k < |entries| {
      var n := |entries| - 1;
      assert entries[..n][..k] == entries[..k];
      AbortIsFinal(w, entries[..n], k, envAt, dateString);
    } else {
      assert entries[..k] == entries;
    }
  }

  /** Only the first event of each entry matters: two batches that agree on it are
      handled alike. */
  lemma {:induction false} OnlyFirstEventCounts(w: World, es: seq<Entry>, es': seq<Entry>, envAt: nat -> Env,
                                                dateString: Timestamp -> string)
    requires |es| == |es'|
    requires forall k :: 0 <= k < |es| ==> (es[k].messaging == []) == (es'[k].messaging == [])
    requires forall k :: 0 <= k < |es| && es[k].messaging != [] ==> es[k].messaging[0] == es'[k].messaging[0]
    ensures RunEntries(w, es, envAt, dateString) == RunEntries(w, es', envAt, dateString)
    decreases |es|
  {
    if es != [] {
      var n := |es| - 1;
      OnlyFirstEventCounts(w, es[..n], es'[..n], envAt, dateString);
    }
  }

  /** A batch keeps the collection well formed, whether it completes or aborts. */
  lemma {:induction false} BatchKeepsConsistent(w: World, es: seq<Entry>, envAt: nat -> Env,
                                                dateString: Timestamp -> string)
    requires Consistent(w)
    ensures Consistent(RunEntries(w, es, envAt, dateString).world)
    decreases |es|
  {
    if es != [] {
      var n := |es| - 1;
      BatchKeepsConsistent(w, es[..n], envAt, dateString);
      var b := RunEntries(w, es[..n], envAt, dateString);
      if b.Completed? && es[n].messaging != [] {
        EventKeepsConsistent(b.world, es[n].messaging[0], envAt(n), dateString);
      }
    }
  }
}
