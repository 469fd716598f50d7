/**
 * Reply payloads of the Messenger Send API and the fixed table of canned replies
 * (`RESPONSES`), together with the replies the task operations build.
 */
module Catalog {

  /** A quick reply of content type "text". */
  datatype QuickReply = QuickReply(title: string, payload: string)

  /** A button of type "postback". */
  datatype Button = Button(title: string, payload: string)

  /** One element of a list template: the task text, its creation date and its id. */
  datatype Element = Element(title: string, subtitle: string, id: string)

  /** Exactly one kind of message per payload. */
  datatype Payload =
    | TextMessage(text: string, quickReplies: seq<QuickReply>)
    | ButtonTemplate(text: string, buttons: seq<Button>)
    | ListTemplate(topElementStyle: string, elements: seq<Element>)

  /** The keys of the `RESPONSES` table. */
  datatype ResponseName = Bye | CreateTask | Greeting | Help | TaskList | Thanks | Unknown

  /** Postback payloads the bot puts on its buttons and quick replies. */
  const TaskListPayload: string := "TASK_LIST"
  const CreateTaskPayload: string := "CREATE_TASK"
  const DeleteTaskPayload: string := "DELETE_TASK"

  /** The quick replies of HELP; their titles are also the text commands they stand for. */
  const HelpQuickReplies: seq<QuickReply> :=
    [QuickReply("View All Tasks", TaskListPayload), QuickReply("Create Task", CreateTaskPayload)]

  /** The text of `RESPONSES[name]`. */
  function ResponseText(name: ResponseName): string
  {
    match name
    case Bye => "Hope to see you again soon!"
    case CreateTask => "What would you like to add to the list?"
    case Greeting => "Hi there! What would you like to do? Type help if you need any assistance."
    case Help => "Here are some things you can do: create a task and remove/complete a task. Click one of the buttons below to get started!"
    case TaskList => "List all the tasks here"
    case Thanks => "No problem! Let me know if you need anything else."
    case Unknown => "I'm sorry, I can't recognize that command. Please try again or type help for further assistance."
  }

  /** `RESPONSES[name]`. Every entry is plain text; only HELP carries quick replies. */
  function Response(name: ResponseName): (r: Payload)
    ensures r.TextMessage? && r.text == ResponseText(name)
    ensures name == Help ==> r.quickReplies == HelpQuickReplies
    ensures r.quickReplies != [] <==> name == Help
  {
    TextMessage(ResponseText(name), if name == Help then HelpQuickReplies else [])
  }

  /** The postback payload that asks for the deletion of task `id`. */
  function DeletePayload(id: string): string
  {
    "DELETE_" + id
  }

  /** The "Delete Task" button for task `id`. */
  function DeleteButton(id: string): Button
  {
    Button("Delete Task", DeletePayload(id))
  }

  /** The reply to a created task: a button template offering the listing and the deletion of the new task. */
  function CreatedReply(id: string): (r: Payload)
    ensures r.ButtonTemplate? && |r.buttons| == 2
    ensures r.buttons[0].payload == TaskListPayload && r.buttons[1] == DeleteButton(id)
  {
    ButtonTemplate("Your task has been created!",
                   [Button("View All Tasks", TaskListPayload), DeleteButton(id)])
  }

  /** The reply of every deletion. */
  const DeletedReply: Payload := TextMessage("Your task has been deleted.", [])
}
