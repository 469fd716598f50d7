/**
 * Postback resolution (`handlePostback`): a `switch` on the payload string with
 * three fixed cases, then "contains DELETE" parsed as `DELETE_<id>` by `split('_')[1]`,
 * then the UNKNOWN reply.
 */
module Postback {

  import opened Wrappers
  import opened Text
  import opened TaskIds
  import opened Catalog

  /** What a postback asks for. `Delete(None)` is a removal with no id. */
  datatype PostbackAction = ListTasks | PromptCreate | Delete(target: Option<string>) | Unrecognized

  /** `payload.indexOf('DELETE') !== -1`. */
  predicate MentionsDelete(p: string)
  {
    IndexOf(p, "DELETE") != -1
  }

  /** The decision `handlePostback` takes for payload `p`. */
  function ResolvePostback(p: string): (a: PostbackAction)
    ensures a == ListTasks <==> p == TaskListPayload
    ensures a == PromptCreate <==> p == CreateTaskPayload
    ensures a.Delete? <==> MentionsDelete(p)
    ensures p == DeleteTaskPayload ==> a == Delete(None)
    ensures a.Delete? && p != DeleteTaskPayload ==> a.target == SegmentAt(Split(p, '_'), 1)
    ensures a == Unrecognized <==> p != TaskListPayload && p != CreateTaskPayload && !MentionsDelete(p)
  {
    if p == TaskListPayload then NoDeleteWithoutD(p); ListTasks
    else if p == CreateTaskPayload then NoDeleteWithoutD(p); PromptCreate
    else if p == DeleteTaskPayload then Delete(None)
    else if MentionsDelete(p) then Delete(SegmentAt(Split(p, '_'), 1))
    else Unrecognized
  }

  /** A string without the letter 'D' does not mention DELETE. */
  lemma NoDeleteWithoutD(s: string)
    requires 'D' !in s
    ensures !MentionsDelete(s)
  {
    forall i | OccursAt(s, "DELETE", i)
      ensures false
    {
      OccursAtHead(s, "DELETE", i);
    }
  }

  /** The delete payload built for an id without '_' (other than "TASK") resolves to
      the deletion of exactly that id. */
  lemma {:induction false} DeletePayloadRoundTrip(id: string)
    requires '_' !in id && id != "TASK"
    ensures ResolvePostback(DeletePayload(id)) == Delete(Some(id))
  {
    var p := DeletePayload(id);
    assert OccursAt(p, "DELETE", 0) by { assert p[0..6] == "DELETE"; }
    assert p == Join(["DELETE", id], '_') by {
      assert ["DELETE", id][1..] == [id];
    }
    SplitJoin(["DELETE", id], '_');
    assert p[0] == 'D';
    assert p[7..] == id && DeleteTaskPayload[7..] == "TASK";
  }

  /** Every id the store hands out survives the trip through its delete button. */
  lemma TaskIdRoundTrip(id: string)
    requires IsId(id)
    ensures ResolvePostback(DeletePayload(id)) == Delete(Some(id))
  {
    assert IsHexDigit(id[0]) && !IsHexDigit("TASK"[0]);
    DeletePayloadRoundTrip(id);
  }

  /** "DELETE" may stand anywhere in the payload, and the id is the text between the
      first and the second '_'. */
  lemma DeleteAnywhere()
    ensures ResolvePostback("UNDELETE_abc_de") == Delete(Some("abc"))
  {
    var p := "UNDELETE_abc_de";
    assert OccursAt(p, "DELETE", 2) by { assert p[2..8] == "DELETE"; }
    assert p == Join(["UNDELETE", "abc", "de"], '_') by {
      assert ["UNDELETE", "abc", "de"][1..] == ["abc", "de"];
      assert ["abc", "de"][1..] == ["de"];
    }
    SplitJoin(["UNDELETE", "abc", "de"], '_');
  }

  /** A payload that mentions DELETE but has no '_' names no task. */
  lemma {:induction false} DeleteWithoutSeparator(p: string)
    requires MentionsDelete(p) && '_' !in p
    ensures ResolvePostback(p) == Delete(None)
  {
    assert Join([p], '_') == p;
    SplitJoin([p], '_');
  }
}
