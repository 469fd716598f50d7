/**
 * The list-rendering policy of `viewAllTasks`: no tasks give a text, one task a
 * button template with its delete button, two or more a compact list template.
 */
module Render {

  import opened Wrappers
  import opened TaskIds
  import opened Catalog
  import opened Store
  import opened Postback

  const NoTasksText: string := "Yay! You have no tasks."

  /** One list element: title the task text, subtitle its date string, and its id. */
  function ElementOf(d: TaskDoc, dateString: Timestamp -> string): Element
  {
    Element(d.task, dateString(d.dt), d.id)
  }

  /** The reply listing `tasks`; `dateString` stands for `Date.prototype.toDateString`. */
  function Listing(tasks: seq<TaskDoc>, dateString: Timestamp -> string): (r: Payload)
    ensures |tasks| == 0 ==> r == TextMessage(NoTasksText, [])
    ensures |tasks| == 1 ==> r == ButtonTemplate(tasks[0].task, [DeleteButton(tasks[0].id)])
    ensures |tasks| >= 2 ==>
              && r.ListTemplate? && r.topElementStyle == "compact" && |r.elements| == |tasks|
              && forall i :: 0 <= i < |tasks| ==> r.elements[i] == ElementOf(tasks[i], dateString)
  {
    if |tasks| == 0 then TextMessage(NoTasksText, [])
    else if |tasks| == 1 then ButtonTemplate(tasks[0].task, [DeleteButton(tasks[0].id)])
    else ListTemplate("compact", seq(|tasks|, i requires 0 <= i < |tasks| => ElementOf(tasks[i], dateString)))
  }

  /** The rendering step of `viewAllTasks`, building the element list one task at a time. */
  method RenderTaskList(tasks: seq<TaskDoc>, dateString: Timestamp -> string) returns (response: Payload)
    ensures response == Listing(tasks, dateString)
  {
    if |tasks| == 0 {
      response := TextMessage(NoTasksText, []);
    } else if |tasks| == 1 {
      response := ButtonTemplate(tasks[0].task, [DeleteButton(tasks[0].id)]);
    } else {
      var taskList: seq<Element> := [];
      var i := 0;
      while i < |tasks|
        invariant 0 <= i <= |tasks|
        invariant |taskList| == i
        invariant forall k :: 0 <= k < i ==> taskList[k] == ElementOf(tasks[k], dateString)
      {
        taskList := taskList + [ElementOf(tasks[i], dateString)];
        i := i + 1;
      }
      response := ListTemplate("compact", taskList);
    }
  }

  /** The delete button of a single listed task deletes exactly that task. */
  lemma SingleListingDeletesItsTask(task: TaskDoc, dateString: Timestamp -> string)
    requires IsId(task.id)
    ensures Listing([task], dateString).buttons[0].payload == DeletePayload(task.id)
    ensures ResolvePostback(Listing([task], dateString).buttons[0].payload) == Delete(Some(task.id))
  {
    TaskIdRoundTrip(task.id);
  }
}
