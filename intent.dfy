/**
 * Intent resolution for an inbound message (`handleMessage`): a first-match-wins
 * chain of NLP entities (greetings, thanks, bye), then the exact text commands
 * compared case-insensitively, then "add this text as a task".
 */
module Intent {

  import opened Wrappers
  import opened Text
  import opened Nlp
  import opened Catalog

  /** The fields of a message event the dispatcher reads. */
  datatype Message = Message(text: Option<string>, nlp: Option<Annotation>)

  /** What a message asks for: a canned reply, a new task with the given text, or nothing. */
  datatype MessageAction = Reply(name: ResponseName) | NewTask(task: string) | NoReply

  /** `received_message.text` is truthy: present and not the empty string. */
  predicate HasText(m: Message)
  {
    m.text.Some? && m.text.value != ""
  }

  /** One of the three NLP rules fires. */
  predicate NlpFires(m: Message)
  {
    Fires(m.nlp, "greetings") || Fires(m.nlp, "thanks") || Fires(m.nlp, "bye")
  }

  /** The lower-cased text is exactly the command `cmd`, and no NLP rule fires first. */
  predicate IsCommand(m: Message, cmd: string)
  {
    !NlpFires(m) && HasText(m) && ToLower(m.text.value) == cmd
  }

  /** The `switch` on the lower-cased text: the three text commands. */
  function Command(lowered: string): Option<ResponseName>
  {
    if lowered == "help" then Some(Help)
    else if lowered == "create task" then Some(CreateTask)
    else if lowered == "view all tasks" then Some(TaskList)
    else None
  }

  /** The decision `handleMessage` takes for message `m`. */
  function ResolveMessage(m: Message): (a: MessageAction)
    ensures a == Reply(Greeting) <==> Fires(m.nlp, "greetings")
    ensures a == Reply(Thanks) <==> !Fires(m.nlp, "greetings") && Fires(m.nlp, "thanks")
    ensures a == Reply(Bye) <==> !Fires(m.nlp, "greetings") && !Fires(m.nlp, "thanks") && Fires(m.nlp, "bye")
    ensures a == Reply(Help) <==> IsCommand(m, "help")
    ensures a == Reply(CreateTask) <==> IsCommand(m, "create task")
    ensures a == Reply(TaskList) <==> IsCommand(m, "view all tasks")
    ensures a.NewTask? <==>
              !NlpFires(m) && HasText(m) && !IsCommand(m, "help") && !IsCommand(m, "create task")
              && !IsCommand(m, "view all tasks")
    ensures a.NewTask? ==> a.task == m.text.value
    ensures a == NoReply <==> !NlpFires(m) && !HasText(m)
    ensures a != Reply(Unknown)
  {
    if Fires(m.nlp, "greetings") then Reply(Greeting)
    else if Fires(m.nlp, "thanks") then Reply(Thanks)
    else if Fires(m.nlp, "bye") then Reply(Bye)
    else if HasText(m) then
      match Command(ToLower(m.text.value))
      case Some(name) => Reply(name)
      case None => NewTask(m.text.value)
    else NoReply
  }

  /** A message whose first greetings candidate has confidence exactly 0.8 does not
      greet: it falls through to the text rules; at 0.81 it greets. */
  lemma ThresholdIsStrict(text: string)
    requires text != "" && Command(ToLower(text)).None?
    ensures ResolveMessage(Message(Some(text), Some(Annotation(Some(map["greetings" := [Entity(0.8)]]))))) == NewTask(text)
    ensures ResolveMessage(Message(Some(text), Some(Annotation(Some(map["greetings" := [Entity(0.81)]]))))) == Reply(Greeting)
  {
  }

  /** Tapping a HELP quick reply sends its title as message text, which the text
      commands recognise: "View All Tasks" gives the canned TASK_LIST text and
      "Create Task" gives the creation prompt. */
  lemma HelpQuickReplyTitlesAreCommands(nlp: Option<Annotation>)
    requires !NlpFires(Message(None, nlp))
    ensures ResolveMessage(Message(Some(HelpQuickReplies[0].title), nlp)) == Reply(TaskList)
    ensures ResolveMessage(Message(Some(HelpQuickReplies[1].title), nlp)) == Reply(CreateTask)
  {
    var list := Message(Some(HelpQuickReplies[0].title), nlp);
    LowerViewAllTasks();
    assert IsCommand(list, "view all tasks");
    var create := Message(Some(HelpQuickReplies[1].title), nlp);
    LowerCreateTask();
    assert IsCommand(create, "create task");
  }

  lemma LowerViewAllTasks()
    ensures ToLower("View All Tasks") == "view all tasks"
  {
    LowerMatches("View All Tasks", "view all tasks");
  }

  lemma LowerCreateTask()
    ensures ToLower("Create Task") == "create task"
  {
    LowerMatches("Create Task", "create task");
  }

  /** The text commands ignore case: two texts with the same lower-case form lead to
      the same canned reply. */
  lemma CommandsIgnoreCase(m: Message, t: string)
    requires HasText(m) && t != "" && ToLower(t) == ToLower(m.text.value)
    requires ResolveMessage(m).Reply?
    ensures ResolveMessage(m.(text := Some(t))) == ResolveMessage(m)
  {
  }
}
