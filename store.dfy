/**
 * The task collection: documents `{_id, sender_psid, task, dt}` in the store's
 * natural (insertion) order, with the filter and removal queries the bot issues.
 */
module Store {

  import opened Wrappers
  import opened TaskIds

  /** A creation time, as the milliseconds since the epoch a `Date` holds. */
  type Timestamp = int

  /** One task document. */
  datatype TaskDoc = TaskDoc(id: string, sender: string, task: string, dt: Timestamp)

  /** Every id is a well-formed id issued below the counter `serial`, and no id occurs twice. */
  ghost predicate WellFormed(docs: seq<TaskDoc>, serial: nat)
  {
    && (forall i :: 0 <= i < |docs| ==> IsId(docs[i].id) && HexValue(docs[i].id) < serial)
    && (forall i, j :: 0 <= i < j < |docs| ==> docs[i].id != docs[j].id)
  }

  /** `find({ sender_psid: sender })`: the sender's documents, in store order. */
  function OfSender(docs: seq<TaskDoc>, sender: string): (r: seq<TaskDoc>)
    ensures forall d :: d in r <==> d in docs && d.sender == sender
    ensures |r| <= |docs|
  {
    if docs == [] then []
    else (if docs[0].sender == sender then [docs[0]] else []) + OfSender(docs[1..], sender)
  }

  /** `findByIdAndRemove(tid)`: the documents whose id is not `tid`; with no id, nothing is removed. */
  function Removed(docs: seq<TaskDoc>, tid: Option<string>): (r: seq<TaskDoc>)
    ensures forall d :: d in r <==> d in docs && (tid.None? || d.id != tid.value)
    ensures |r| <= |docs|
    ensures tid.None? ==> r == docs
  {
    if tid.None? || docs == [] then docs
    else (if docs[0].id != tid.value then [docs[0]] else []) + Removed(docs[1..], tid)
  }

  /** A new document answers the query of its own sender only, and comes last. */
  lemma {:induction false} OfSenderAppend(docs: seq<TaskDoc>, d: TaskDoc, sender: string)
    ensures OfSender(docs + [d], sender) == OfSender(docs, sender) + (if d.sender == sender then [d] else [])
  {
    if docs != [] {
      OfSenderAppend(docs[1..], d, sender);
      assert (docs + [d])[1..] == docs[1..] + [d];
    }
  }

  /** Removing an id that no document has leaves the collection as it was. */
  lemma {:induction false} RemovedMissing(docs: seq<TaskDoc>, id: string)
    requires forall i :: 0 <= i < |docs| ==> docs[i].id != id
    ensures Removed(docs, Some(id)) == docs
  {
    if docs != [] {
      RemovedMissing(docs[1..], id);
      assert docs == [docs[0]] + docs[1..];
    }
  }

  lemma AppendAssoc<T>(a: seq<T>, b: seq<T>, c: seq<T>)
    ensures a + (b + c) == (a + b) + c
  {
  }

  /** Removal looks at the first document and goes on with the rest. */
  lemma RemovedCons(x: TaskDoc, rest: seq<TaskDoc>, tid: Option<string>)
    requires tid.Some?
    ensures Removed([x] + rest, tid) == (if x.id != tid.value then [x] else []) + Removed(rest, tid)
  {
    assert ([x] + rest)[1..] == rest;
  }

  /** Removal keeps the survivors in store order: a document appended last survives, at
      the end, exactly when it does not carry the removed id. */
  lemma {:induction false} RemovedSnoc(docs: seq<TaskDoc>, d: TaskDoc, tid: Option<string>)
    ensures Removed(docs + [d], tid) == Removed(docs, tid) + (if tid.None? || d.id != tid.value then [d] else [])
  {
    if tid.Some? {
      var last := if d.id != tid.value then [d] else [];
      if docs == [] {
        RemovedCons(d, [], tid);
        assert [d] + [] == [d];
        assert Removed(docs + [d], tid) == last;
      } else {
        var rest := docs[1..];
        assert docs + [d] == [docs[0]] + (rest + [d]);
        RemovedCons(docs[0], rest + [d], tid);
        RemovedSnoc(rest, d, tid);
        var tail := Removed(rest, tid);
        if docs[0].id != tid.value {
          assert Removed(docs, tid) == [docs[0]] + tail;
          AppendAssoc([docs[0]], tail, last);
        } else {
          assert Removed(docs, tid) == tail;
          assert [] + (tail + last) == tail + last;
        }
      }
    }
  }

  /** Removing the id of the last document drops it and treats the others as without it. */
  lemma {:induction false} RemovedAppend(docs: seq<TaskDoc>, d: TaskDoc)
    ensures Removed(docs + [d], Some(d.id)) == Removed(docs, Some(d.id))
  {
    if docs != [] {
      RemovedAppend(docs[1..], d);
      assert (docs + [d])[1..] == docs[1..] + [d];
    }
  }

  /** Removal keeps the collection well formed. */
  lemma {:induction false} RemovedWellFormed(docs: seq<TaskDoc>, tid: Option<string>, serial: nat)
    requires WellFormed(docs, serial)
    ensures WellFormed(Removed(docs, tid), serial)
  {
    if tid.Some? && docs != [] {
      RemovedWellFormed(docs[1..], tid, serial);
      var tail := Removed(docs[1..], tid);
      forall j | 0 <= j < |tail|
        ensures tail[j].id != docs[0].id
      {
        assert tail[j] in docs[1..];
      }
    }
  }

  /** The document created at counter value `serial` keeps the collection well formed. */
  lemma AppendWellFormed(docs: seq<TaskDoc>, serial: nat, sender: string, task: string, now: Timestamp)
    requires WellFormed(docs, serial)
    ensures forall i :: 0 <= i < |docs| ==> docs[i].id != IdOf(serial)
    ensures WellFormed(docs + [TaskDoc(IdOf(serial), sender, task, now)], serial + 1)
  {
    HexRoundTrip(serial);
  }

  /** The collection as the bot's process sees it. */
  class TaskStore {
    var docs: seq<TaskDoc>
    var serial: nat

    ghost predicate Valid()
      reads this
    {
      WellFormed(docs, serial)
    }

    constructor ()
      ensures Valid() && docs == [] && serial == 0
    {
      docs := [];
      serial := 0;
    }

    /** `new TaskModel({...})` followed by `save`. The id exists once the document is
        built, so the counter advances even when the save fails (`saved` is false). */
    method Save(sender: string, task: string, now: Timestamp, saved: bool) returns (id: string)
      requires Valid()
      modifies this
      ensures Valid()
      ensures id == IdOf(old(serial)) && serial == old(serial) + 1
      ensures forall i :: 0 <= i < |old(docs)| ==> old(docs)[i].id != id
      ensures docs == if saved then old(docs) + [TaskDoc(id, sender, task, now)] else old(docs)
    {
      id := IdOf(serial);
      AppendWellFormed(docs, serial, sender, task, now);
      if saved {
        docs := docs + [TaskDoc(id, sender, task, now)];
      }
      serial := serial + 1;
    }

    /** `findByIdAndRemove(tid)`; when the store fails (`removed` is false) nothing changes. */
    method FindByIdAndRemove(tid: Option<string>, removed: bool)
      requires Valid()
      modifies this
      ensures Valid() && serial == old(serial)
      ensures docs == if removed then Removed(old(docs), tid) else old(docs)
    {
      if removed {
        RemovedWellFormed(docs, tid, serial);
        docs := Removed(docs, tid);
      }
    }
  }
}
