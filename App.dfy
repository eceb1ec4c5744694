/**
 * The state of the `App` component: the task list, the draft title typed in
 * the new-task box and the search text, with the handlers that update them.
 * Each handler is one atomic update of the state cells.
 */
module App {
  import opened Text
  import opened Seqs
  import opened Tasks

  class TaskList {
    var tasks: seq<Task>
    var draft: string
    var query: string

    /** No task has a blank title: blank drafts are refused at creation and no
        handler edits a title. */
    ghost predicate Valid()
      reads this
    {
      forall i :: 0 <= i < |tasks| ==> !IsBlank(tasks[i].title)
    }

    /** The three state cells start empty. */
    constructor ()
      ensures Valid()
      ensures tasks == [] && draft == [] && query == []
    {
      tasks, draft, query := [], [], [];
    }

    /** The new-task box's change handler stores the text as typed. */
    method SetDraft(text: string)
      modifies this`draft
      ensures draft == text
    {
      draft := text;
    }

    /** The search box's change handler stores the text as typed. */
    method SetQuery(text: string)
      modifies this`query
      ensures query == text
    {
      query := text;
    }

    /** `createTask`, with `now` standing for the clock reading. A draft that
        trims to "" changes nothing; otherwise the draft, untrimmed, becomes
        the title of a new task with id `now` and both flags off, appended
        at the end, and the draft is cleared. */
    method CreateTask(now: int)
      requires Valid()
      modifies this`tasks, this`draft
      ensures Valid()
      ensures (tasks, draft) == Created(old(tasks), old(draft), now)
    {
      CreatedKeepsTitles(tasks, draft, now);
      if Trim(draft) == [] {
        return;
      }
      tasks := tasks + [NewTask(now, draft)];
      draft := [];
    }

    /** `toggleTaskDone`: every task with id `id` has its `done` flag flipped. */
    method ToggleTaskDone(id: int)
      requires Valid()
      modifies this`tasks
      ensures Valid()
      ensures tasks == ToggleDone(old(tasks), id)
    {
      tasks := ToggleDone(tasks, id);
    }

    /** `toggleTaskPaused`: every task with id `id` has its `paused` flag
        flipped. */
    method ToggleTaskPaused(id: int)
      requires Valid()
      modifies this`tasks
      ensures Valid()
      ensures tasks == TogglePaused(old(tasks), id)
    {
      tasks := TogglePaused(tasks, id);
    }

    /** `deleteTask`: every task with id `id` is dropped. */
    method DeleteTask(id: int)
      requires Valid()
      modifies this`tasks
      ensures Valid()
      ensures tasks == Remove(old(tasks), id)
    {
      tasks := Remove(tasks, id);
    }

    /** `filteredTasks`: the tasks, in list order, whose lower-cased title
        includes the lower-cased search text, each with all its copies; all
        of them when the search text is empty. */
    function FilteredTasks(): (r: seq<Task>)
      reads this
      ensures IsSubseq(r, tasks)
      ensures forall t :: t in r <==> t in tasks && Matches(t, query)
      ensures forall t :: multiset(r)[t] == if Matches(t, query) then multiset(tasks)[t] else 0
      ensures query == [] ==> r == tasks
    {
      VisibleEmptyQuery(tasks);
      Visible(tasks, query)
    }
  }
}
