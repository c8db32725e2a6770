/**
 * One row of the list (src/components/TaskRow.tsx): its local edit mode, and
 * the callbacks each user event sends to the screen. Events on an element
 * that is not rendered, or is disabled, in the current mode reach no handler
 * and change nothing.
 */
module Row {
  import opened Types
  import opened Text
  import opened TaskActions
  import opened Client
  import opened Constants
  import opened TaskHelpers

  /** A call the row makes into the screen that owns it. */
  datatype Callback =
    | TitleChange(id: string, title: string)
    | ToggleCompleted(id: string)
    | Save(id: string)
    | ConfirmDelete(id: string)

  /** What the screen passes to a row. */
  datatype Props = Props(task: Task, draftTitle: string, canSave: bool)

  /** The clickable parts of a row. */
  datatype Target = Checkbox | EditButton | SaveButton | DeleteButton | RowArea

  /**
   * A user event reaching the row: a click, a key in the title input, a
   * mouse press anywhere in the document, or new text in the title input.
   */
  datatype Event =
    | Click(target: Target)
    | KeyDown(key: string)
    | DocumentMouseDown(insideRow: bool)
    | TitleInput(value: string)

  /** The row's mode after an event, and the callbacks the event made, in order. */
  datatype Step = Step(editing: bool, emitted: seq<Callback>)

  /** Leaving edit mode without saving: the shown title goes back to the stored one. */
  function Cancel(props: Props): (r: Step)
    ensures !r.editing
    ensures props.draftTitle == props.task.title <==> r.emitted == []
  {
    var revert := if props.draftTitle != props.task.title then [TitleChange(props.task.id, props.task.title)] else [];
    Step(false, revert)
  }

  /**
   * The row's response to one event in mode `editing`. Every callback names
   * this row's task, and one event makes at most one callback.
   */
  function Handle(editing: bool, props: Props, ev: Event): (r: Step)
    ensures |r.emitted| <= 1
    ensures forall c :: c in r.emitted ==> c.id == props.task.id
  {
    var id := props.task.id;
    var idle := Step(editing, []);
    match ev
    case Click(Checkbox) => Step(editing, [ToggleCompleted(id)])
    case Click(EditButton) => if editing then idle else Step(true, [])
    case Click(SaveButton) => if editing && props.canSave then Step(false, [Save(id)]) else idle
    case Click(DeleteButton) => Step(editing, [ConfirmDelete(id)])
    case Click(RowArea) => if editing then idle else Step(editing, [ToggleCompleted(id)])
    case KeyDown(key) => if editing && key == "Escape" then Cancel(props) else idle
    case DocumentMouseDown(insideRow) => if editing && !insideRow then Cancel(props) else idle
    case TitleInput(value) => if editing then Step(editing, [TitleChange(id, value)]) else idle
  }

  /** How many of `cs` toggle completion. */
  function Toggles(cs: seq<Callback>): (n: nat)
    ensures n <= |cs|
    ensures n == 0 <==> forall c :: c in cs ==> !c.ToggleCompleted?
  {
    if cs == [] then 0
    else (if cs[0].ToggleCompleted? then 1 else 0) + Toggles(cs[1..])
  }

  // ------------------------------------------------------------ properties

  /** Edit mode is entered by the Edit button and by nothing else. */
  lemma OnlyEditButtonEnters(props: Props, ev: Event)
    ensures Handle(false, props, ev).editing <==> ev == Click(EditButton)
  {
  }

  /**
   * Edit mode is left exactly by Escape, by a press outside the row, or by an
   * enabled Save; leaving it either saves or reverts the shown title.
   */
  lemma LeavingEditMode(props: Props, ev: Event)
    ensures !Handle(true, props, ev).editing <==>
      ev == KeyDown("Escape") || ev == DocumentMouseDown(false) || (ev == Click(SaveButton) && props.canSave)
    ensures var r := Handle(true, props, ev);
      !r.editing ==>
        || r.emitted == [Save(props.task.id)]
        || r.emitted == [TitleChange(props.task.id, props.task.title)]
        || (r.emitted == [] && props.draftTitle == props.task.title)
  {
  }

  /** A press outside the row and the Escape key have the same effect in either mode. */
  lemma OutsidePressIsEscape(editing: bool, props: Props)
    ensures Handle(editing, props, DocumentMouseDown(false)) == Handle(editing, props, KeyDown("Escape"))
  {
  }

  /** A press inside the row, or anywhere while not editing, changes nothing. */
  lemma InertMouseDown(editing: bool, props: Props, insideRow: bool)
    requires insideRow || !editing
    ensures Handle(editing, props, DocumentMouseDown(insideRow)) == Step(editing, [])
  {
  }

  /** The disabled title input takes no keys and no text while not editing. */
  lemma DisabledInputInert(props: Props, key: string, value: string)
    ensures Handle(false, props, KeyDown(key)) == Step(false, [])
    ensures Handle(false, props, TitleInput(value)) == Step(false, [])
  {
  }

  /** A save is requested only from edit mode, only when allowed, and it ends edit mode. */
  lemma SaveGuard(editing: bool, props: Props, ev: Event)
    ensures Save(props.task.id) in Handle(editing, props, ev).emitted <==>
      editing && props.canSave && ev == Click(SaveButton)
    ensures Save(props.task.id) in Handle(editing, props, ev).emitted ==> !Handle(editing, props, ev).editing
  {
  }

  /**
   * Completion toggles once for a checkbox click in either mode and for a
   * click on the row itself while not editing; the buttons and the checkbox
   * stop the click there, so nothing else toggles.
   */
  lemma ToggleOnce(editing: bool, props: Props, ev: Event)
    ensures Toggles(Handle(editing, props, ev).emitted) ==
      if ev == Click(Checkbox) || (ev == Click(RowArea) && !editing) then 1 else 0
  {
    var r := Handle(editing, props, ev);
    if r.emitted != [] {
      assert r.emitted[1..] == [];
    }
  }

  /** Deletion is asked for by the Delete button only, and leaves the mode as it was. */
  lemma DeleteOnlyByButton(editing: bool, props: Props, ev: Event)
    ensures ConfirmDelete(props.task.id) in Handle(editing, props, ev).emitted <==> ev == Click(DeleteButton)
    ensures ev == Click(DeleteButton) ==> Handle(editing, props, ev).editing == editing
  {
  }

  // ------------------------------------------------ the row inside the screen

  /** The props the screen passes to the row of `task`; an enabled Save always has a valid draft to commit. */
  function RowProps(task: Task, drafts: Drafts): (p: Props)
    ensures p.task == task
    ensures p.draftTitle == ShownTitle(task, drafts)
    ensures p.canSave <==> CanSave(task, drafts)
    ensures p.canSave ==> task.id in drafts && IsValidTitle(Trim(drafts[task.id].title), MinTitle, MaxTitle)
  {
    CanSaveCommits(task, drafts);
    Props(task, ShownTitle(task, drafts), CanSave(task, drafts))
  }

  /** The draft record after the screen runs the draft callbacks `cs`; saving and deleting are other handlers. */
  function DraftsAfter(drafts: Drafts, cs: seq<Callback>): (r: Drafts)
    ensures drafts.Keys <= r.Keys
    decreases |cs|
  {
    if cs == [] then drafts
    else
      var next := match cs[0]
        case TitleChange(id, title) => WithDraftTitle(drafts, id, title)
        case ToggleCompleted(id) => WithToggledCompleted(drafts, id)
        case _ => drafts;
      DraftsAfter(next, cs[1..])
  }

  /**
   * Cancelling an edit shows the stored title again; a stored title without
   * surrounding blanks (as every title the screen saves is) then leaves
   * nothing to save.
   */
  lemma CancelRestoresTitle(task: Task, drafts: Drafts, ev: Event)
    requires ev == KeyDown("Escape") || ev == DocumentMouseDown(false)
    ensures var r := Handle(true, RowProps(task, drafts), ev);
      var after := DraftsAfter(drafts, r.emitted);
      && !r.editing
      && ShownTitle(task, after) == task.title
      && (Trim(task.title) == task.title ==> !CanSave(task, after))
  {
    var r := Handle(true, RowProps(task, drafts), ev);
    if r.emitted != [] {
      assert DraftsAfter(drafts, r.emitted) == WithDraftTitle(drafts, task.id, task.title);
    }
  }

  /** A checkbox click flips the row's effective completion exactly once, in either mode. */
  lemma CheckboxFlips(editing: bool, task: Task, drafts: Drafts)
    requires task.id in drafts
    ensures var r := Handle(editing, RowProps(task, drafts), Click(Checkbox));
      GetDraftCompleted(task, DraftsAfter(drafts, r.emitted)) == !GetDraftCompleted(task, drafts)
  {
    var r := Handle(editing, RowProps(task, drafts), Click(Checkbox));
    assert DraftsAfter(drafts, r.emitted) == WithToggledCompleted(drafts, task.id);
  }

  /** A title typed while editing becomes the shown title. */
  lemma TypingShows(task: Task, drafts: Drafts, value: string)
    ensures var r := Handle(true, RowProps(task, drafts), TitleInput(value));
      r.editing && ShownTitle(task, DraftsAfter(drafts, r.emitted)) == value
  {
    var r := Handle(true, RowProps(task, drafts), TitleInput(value));
    assert DraftsAfter(drafts, r.emitted) == WithDraftTitle(drafts, task.id, value);
  }

  // ------------------------------------------------------------- the widget

  /** A mounted row: its edit mode is local state, its props come from the screen. */
  class TaskRow {
    var isEditing: bool
    var props: Props

    /** A row mounts outside edit mode. */
    constructor (props: Props)
      ensures !isEditing && this.props == props
    {
      isEditing := false;
      this.props := props;
    }

    /** A re-render with new props keeps the edit mode. */
    method Rerender(props: Props)
      modifies this`props
      ensures this.props == props
    {
      this.props := props;
    }

    /** `handleStartEdit`. */
    method StartEdit()
      modifies this`isEditing
      ensures isEditing
    {
      isEditing := true;
    }

    /** `handleSave`: does nothing unless saving is allowed. */
    method HandleSave() returns (emitted: seq<Callback>)
      modifies this`isEditing
      ensures !props.canSave ==> emitted == [] && isEditing == old(isEditing)
      ensures props.canSave ==> emitted == [Save(props.task.id)] && !isEditing
    {
      if !props.canSave {
        return [];
      }
      emitted := [Save(props.task.id)];
      isEditing := false;
    }

    /** `handleRowClick`: toggles completion unless editing. */
    method HandleRowClick() returns (emitted: seq<Callback>)
      ensures emitted == if isEditing then [] else [ToggleCompleted(props.task.id)]
    {
      if isEditing {
        return [];
      }
      emitted := [ToggleCompleted(props.task.id)];
    }

    /** Leaves edit mode, reverting the shown title when it differs from the stored one. */
    method Revert() returns (emitted: seq<Callback>)
      modifies this`isEditing
      ensures Step(isEditing, emitted) == Cancel(props)
    {
      emitted := [];
      if props.draftTitle != props.task.title {
        emitted := [TitleChange(props.task.id, props.task.title)];
      }
      isEditing := false;
    }

    /** `handleKeyDown`: Escape cancels the edit; other keys are left to the input. */
    method HandleKeyDown(key: string) returns (emitted: seq<Callback>)
      modifies this`isEditing
      ensures key == "Escape" ==> Step(isEditing, emitted) == Cancel(props)
      ensures key != "Escape" ==> emitted == [] && isEditing == old(isEditing)
    {
      emitted := [];
      if key == "Escape" {
        emitted := Revert();
      }
    }

    /** `handleDocumentMouseDown`: a press outside the row cancels an edit in progress. */
    method HandleDocumentMouseDown(insideRow: bool) returns (emitted: seq<Callback>)
      modifies this`isEditing
      ensures Step(isEditing, emitted) == Handle(old(isEditing), props, DocumentMouseDown(insideRow))
    {
      if !isEditing {
        return [];
      }
      emitted := [];
      if !insideRow {
        emitted := Revert();
      }
    }

    /** Routes an event to the element that receives it in the current mode. */
    method Dispatch(ev: Event) returns (emitted: seq<Callback>)
      modifies this`isEditing
      ensures Step(isEditing, emitted) == Handle(old(isEditing), props, ev)
    {
      match ev {
        case Click(Checkbox) =>
          emitted := [ToggleCompleted(props.task.id)];
        case Click(EditButton) =>
          emitted := [];
          if !isEditing {
            StartEdit();
          }
        case Click(SaveButton) =>
          emitted := [];
          if isEditing {
            emitted := HandleSave();
          }
        case Click(DeleteButton) =>
          emitted := [ConfirmDelete(props.task.id)];
        case Click(RowArea) =>
          emitted := HandleRowClick();
        case KeyDown(key) =>
          emitted := [];
          if isEditing {
            emitted := HandleKeyDown(key);
          }
        case DocumentMouseDown(insideRow) =>
          emitted := HandleDocumentMouseDown(insideRow);
        case TitleInput(value) =>
          emitted := if isEditing then [TitleChange(props.task.id, value)] else [];
      }
    }
  }
}
