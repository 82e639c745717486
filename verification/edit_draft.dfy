/** Inline editing of one record: the draft copy of its fields, the input
    handlers that update it, and the save button that sends it to
    `update_todo` and hides the editor again. */
module EditDraft {
  import opened MachineInt
  import opened Types
  import Calendar
  import ServerTodo

  /** An input event of one of the three edit fields, with the field's new value. */
  datatype Input = TitleInput(value: string) | DescriptionInput(value: string) | DueDateInput(value: string)

  /** The row's edit state: the draft and whether the editor is hidden. */
  datatype Editor = Editor(draft: UpdateForm, hidden: bool)

  /** The arguments the save button dispatches to `update_todo`. */
  datatype UpdateArgs = UpdateArgs(id: I32, title: string, description: string, dueDate: string)

  /** A row starts with the editor hidden and the draft a copy of the record. */
  function OpenRow(todo: Todo): (e: Editor)
    ensures e.hidden
    ensures e.draft.title == todo.title && e.draft.description == todo.description
    ensures e.draft.dueDate == todo.dueDate
  {
    Editor(UpdateForm(todo.title, todo.description, todo.dueDate), true)
  }

  /** A click on the record's text reveals the editor; the draft is kept. */
  function Reveal(e: Editor): (r: Editor)
    ensures !r.hidden && r.draft == e.draft
  {
    e.(hidden := false)
  }

  /** The input handlers: an empty title or due date is ignored, the
      description takes any value, and the other fields never change. */
  function ApplyInput(form: UpdateForm, input: Input): UpdateForm {
    match input
    case TitleInput(v) => if v != "" then form.(title := v) else form
    case DescriptionInput(v) => form.(description := v)
    case DueDateInput(v) => if v != "" then form.(dueDate := v) else form
  }

  /** The draft after a sequence of inputs. */
  function ApplyInputs(form: UpdateForm, inputs: seq<Input>): UpdateForm
    decreases |inputs|
  {
    if |inputs| == 0 then form
    else ApplyInputs(ApplyInput(form, inputs[0]), inputs[1..])
  }

  /** What one input does to each field. */
  lemma InputEffects(form: UpdateForm, v: string)
    ensures ApplyInput(form, TitleInput(v)) == if v == "" then form else form.(title := v)
    ensures ApplyInput(form, DueDateInput(v)) == if v == "" then form else form.(dueDate := v)
    ensures ApplyInput(form, DescriptionInput(v)) == form.(description := v)
  {
  }

  /** The fields the server requires stay non-empty under any inputs. */
  predicate HasRequiredFields(form: UpdateForm) {
    form.title != "" && form.dueDate != ""
  }

  lemma {:induction false} InputsKeepRequiredFields(form: UpdateForm, inputs: seq<Input>)
    requires HasRequiredFields(form)
    ensures HasRequiredFields(ApplyInputs(form, inputs))
    decreases |inputs|
  {
    if |inputs| > 0 {
      InputsKeepRequiredFields(ApplyInput(form, inputs[0]), inputs[1..]);
    }
  }

  /** The draft's title is the record's own or one of the non-empty
      titles typed. */
  lemma {:induction false} TitleComesFromInputs(form: UpdateForm, inputs: seq<Input>)
    ensures var t := ApplyInputs(form, inputs).title;
            t == form.title || exists i :: 0 <= i < |inputs| && inputs[i] == TitleInput(t) && t != ""
    decreases |inputs|
  {
    if |inputs| > 0 {
      var next := ApplyInput(form, inputs[0]);
      TitleComesFromInputs(next, inputs[1..]);
      var t := ApplyInputs(form, inputs).title;
      if t != next.title {
        var i :| 0 <= i < |inputs[1..]| && inputs[1..][i] == TitleInput(t) && t != "";
        assert inputs[i + 1] == TitleInput(t);
      } else if t != form.title {
        assert inputs[0] == TitleInput(t);
      }
    }
  }

  /** The save button: dispatch exactly the draft for the record `id` and
      hide the editor, keeping the draft. */
  function Save(e: Editor, id: I32): (r: (Editor, UpdateArgs))
    ensures r.0.hidden && r.0.draft == e.draft
    ensures r.1.id == id && r.1.title == e.draft.title
    ensures r.1.description == e.draft.description && r.1.dueDate == e.draft.dueDate
  {
    (e.(hidden := true), UpdateArgs(id, e.draft.title, e.draft.description, e.draft.dueDate))
  }

  /** An edit of a record with a title and a due date, whatever is typed,
      never trips `update_todo`'s empty-field checks. */
  lemma SavedEditPassesEmptyChecks(todo: Todo, inputs: seq<Input>, today: Calendar.Date)
    requires todo.title != "" && todo.dueDate != ""
    requires Calendar.IsValid(today)
    ensures var e := Reveal(OpenRow(todo));
            var args := Save(e.(draft := ApplyInputs(e.draft, inputs)), todo.id).1;
            var r := ServerTodo.UpdateTodo(args.id, args.title, args.description, args.dueDate, today);
            !(r.Err? && r.error.Args?)
  {
    InputsKeepRequiredFields(OpenRow(todo).draft, inputs);
  }
}
