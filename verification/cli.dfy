/**
 * The pure parts of the interactive menu: the input validators, the
 * "press Enter to keep" fallback of the edit prompts, choosing a task of the
 * current project, and keeping the selected project id meaningful.
 */
module Cli {
  import opened Common
  import opened Models
  import opened Text
  import Storage
  import Services

  /** One constructor per message the prompts reject an input with. */
  datatype InputError =
    | EmptyInput
    | TooLong(maxLength: int)
    | UnknownProject
    | UnknownTaskInProject
    | UnknownStatusChoice

  /** `validate_not_empty`: the empty string is refused, anything else passes unchanged. */
  function ValidateNotEmpty(text: string): (r: Result<string, InputError>)
    ensures r.Ok? <==> text != []
    ensures r.Ok? ==> r.value == text
    ensures r.Err? ==> r.error == EmptyInput
  {
    if text == [] then Err(EmptyInput) else Ok(text)
  }

  /** `validate_length`: not empty, then at most `maxLength` characters. */
  function ValidateLength(text: string, maxLength: int): (r: Result<string, InputError>)
    ensures r.Ok? <==> 0 < |text| <= maxLength
    ensures r.Ok? ==> r.value == text
    ensures r.Err? ==> r.error == (if text == [] then EmptyInput else TooLong(maxLength))
  {
    match ValidateNotEmpty(text)
    case Err(e) => Err(e)
    case Ok(t) => if |t| > maxLength then Err(TooLong(maxLength)) else Ok(t)
  }

  /**
   * The prompts accept exactly what the services accept: a name, title or
   * description that passes its prompt never fails the service's length check.
   */
  lemma PromptsMatchServiceBounds(text: string)
    ensures ValidateLength(text, 30).Ok? <==> Services.LengthIn(text, Services.MaxNameLength)
    ensures ValidateLength(text, 30).Ok? <==> Services.LengthIn(text, Services.MaxTitleLength)
    ensures ValidateLength(text, 150).Ok? <==> Services.LengthIn(text, Services.MaxDescriptionLength)
  {
  }

  /** A prompt with a validator: the line typed is stripped before the validator sees it. */
  function ReadField(raw: string, maxLength: int): (r: Result<string, InputError>)
    ensures r.Ok? ==> r.value == Strip(raw) && IsStripped(r.value) && 0 < |r.value| <= maxLength
    ensures r == Err(EmptyInput) <==> AllSpace(raw)
    ensures r.Ok? <==> 0 < |Strip(raw)| <= maxLength
  {
    StripEmptyIff(raw);
    ValidateLength(Strip(raw), maxLength)
  }

  /**
   * An edit prompt: `validate_length(x or current, ...)`, where an empty
   * (stripped) line stands for the current value.
   */
  function EditField(raw: string, current: string, maxLength: int): (r: Result<string, InputError>)
    ensures Strip(raw) != [] ==> r == ReadField(raw, maxLength)
  {
    var typed := Strip(raw);
    ValidateLength(if typed == [] then current else typed, maxLength)
  }

  /** Pressing Enter, or typing only white space, keeps a valid current value. */
  lemma {:induction false} EnterKeepsCurrent(raw: string, current: string, maxLength: int)
    requires AllSpace(raw)
    requires 0 < |current| <= maxLength
    ensures EditField(raw, current, maxLength) == Ok(current)
  {
    StripEmptyIff(raw);
  }

  /** `validate_status_choice`: "1", "2", "3" name the three statuses; nothing else does. */
  function ValidateStatusChoice(choice: string): (r: Result<TaskStatus, InputError>)
    ensures r.Ok? <==> choice == "1" || choice == "2" || choice == "3"
    ensures r.Err? ==> r.error == UnknownStatusChoice
  {
    if choice == "1" then Ok(Todo)
    else if choice == "2" then Ok(Doing)
    else if choice == "3" then Ok(Done)
    else Err(UnknownStatusChoice)
  }

  /** The menu key printed for each status. */
  function StatusMenuKey(st: TaskStatus): (key: string)
    ensures ValidateStatusChoice(key) == Ok(st)
  {
    match st
    case Todo => "1"
    case Doing => "2"
    case Done => "3"
  }

  /** Each status is chosen by its own menu key, and an accepted key is that status's key. */
  lemma StatusChoiceRoundTrip(st: TaskStatus, choice: string)
    ensures ValidateStatusChoice(StatusMenuKey(st)) == Ok(st)
    ensures ValidateStatusChoice(choice).Ok? ==> StatusMenuKey(ValidateStatusChoice(choice).value) == choice
  {
  }

  /** The nested `validate_project_choice` / `validate_project_id`: an id that names a stored project. */
  function ValidateProjectChoice(s: Storage.Store, projectId: int): (r: Result<int, InputError>)
    ensures r.Ok? <==> projectId in s.projects
    ensures r.Ok? ==> r.value == projectId
  {
    match Storage.GetProjectById(s, projectId)
    case None => Err(UnknownProject)
    case Some(_) => Ok(projectId)
  }

  /** The nested `validate_task_id`: a stored task that belongs to the current project. */
  function ValidateTaskChoice(s: Storage.Store, current: Option<int>, taskId: int): (r: Result<int, InputError>)
    ensures r.Ok? <==> taskId in s.tasks && current == Some(s.tasks[taskId].projectId)
    ensures r.Ok? ==> r.value == taskId
  {
    match Storage.GetTaskById(s, taskId)
    case None => Err(UnknownTaskInProject)
    case Some(t) => if current != Some(t.projectId) then Err(UnknownTaskInProject) else Ok(taskId)
  }

  // ---------------------------------------------------------------------------
  // The selected project

  /** The menu's state: the store and the id of the project the user works in. */
  datatype CliState = CliState(store: Storage.Store, current: Option<int>)

  /** The selected project, when there is one, is stored. */
  ghost predicate CurrentValid(st: CliState) {
    st.current.Some? ==> st.current.value in st.store.projects
  }

  /**
   * `handle_project_deletion` once an existing id was chosen: on confirmation
   * the project goes and, if it was the selected one, the selection is cleared.
   */
  function DeleteProjectFromMenu(st: CliState, projectId: int, confirmed: bool): (st': CliState)
    ensures !confirmed || projectId !in st.store.projects ==> st' == st
    ensures confirmed && projectId in st.store.projects ==>
      && st'.store == Services.DeleteProject(st.store, projectId).store
      && projectId !in st'.store.projects
      && st'.current != Some(projectId)
    ensures st'.current != st.current ==> st.current == Some(projectId) && st'.current == None
    ensures CurrentValid(st) ==> CurrentValid(st')
  {
    if !confirmed then st
    else
      var r := Services.DeleteProject(st.store, projectId);
      match r.result
      case Err(_) => st
      case Ok(success) =>
        if success && st.current == Some(projectId) then CliState(r.store, None)
        else CliState(r.store, st.current)
  }

  /**
   * `display_task_menu`'s guard: the task menu opens only on a stored selected
   * project; a selection whose project has gone is cleared.
   */
  function OpenTaskMenu(st: CliState): (r: (bool, CliState))
    ensures r.0 <==> st.current.Some? && st.current.value in st.store.projects
    ensures r.1.store == st.store
    ensures r.1.current != st.current ==> r.1.current == None
    ensures CurrentValid(r.1)
  {
    match st.current
    case None => (false, st)
    case Some(pid) =>
      match Storage.GetProjectById(st.store, pid)
      case None => (false, st.(current := None))
      case Some(_) => (true, st)
  }
}
