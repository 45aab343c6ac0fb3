/**
 * The task list view: date normalisation, the 30-day archive rule for done
 * tasks, the three-level sort, the pending counter, the request bodies sent
 * on create and update, and when the Create and Save buttons are enabled.
 * The browser clock is the parameter `now` (ms since the epoch) and
 * `new Date(text).getTime()` is the parameter `parse`, None for an invalid date.
 */
module TaskCard {

  import opened Wrappers
  import opened Strings
  import opened Sorting
  import opened TaskModel

  // ----- parseDate, addDays, isArchivedDone -----

  /** The text `parseDate` hands to `new Date`: a bare date gets midnight, otherwise the first space becomes "T". */
  function IsoText(d: string): string {
    if |d| == 10 then d + "T00:00:00" else ReplaceFirst(d, ' ', 'T')
  }

  /** `parseDate`: null and "" give null, anything else is parsed after normalisation. */
  function ParseDate(d: Option<string>, parse: string -> Option<int>): Option<int> {
    match d
    case None => None
    case Some(s) => if s == "" then None else parse(IsoText(s))
  }

  /** The three cases of `parseDate`. */
  lemma ParseDateSpec(d: Option<string>, parse: string -> Option<int>)
    ensures (d == None || d == Some("")) ==> ParseDate(d, parse) == None
    ensures d.Some? && |d.value| == 10 ==> ParseDate(d, parse) == parse(d.value + "T00:00:00")
    ensures d.Some? && d.value != "" && |d.value| != 10 ==>
      |IsoText(d.value)| == |d.value|
      && (forall i :: 0 <= i < |d.value| ==>
            IsoText(d.value)[i] == if IndexOf(d.value, ' ') == Some(i) then 'T' else d.value[i])
      && ParseDate(d, parse) == parse(IsoText(d.value))
  {
    if d.Some? && |d.value| != 10 {
      ReplaceFirstSpec(d.value, ' ', 'T');
    }
  }

  /** `addDays(d, n)`: n whole days later. */
  function AddDays(d: int, n: int): int {
    d + n * DayMs
  }

  /** `isArchivedDone`: a done task whose due date is more than 30 days before now. */
  predicate IsArchivedDone(t: Task, now: int, parse: string -> Option<int>) {
    if t.status != Done then false
    else
      match ParseDate(t.dueDate, parse)
      case None => false
      case Some(due) => now > AddDays(due, 30)
  }

  /** Only done tasks with a parsable due date are archived, exactly when now is past due + 30 days. */
  lemma ArchiveRule(t: Task, now: int, parse: string -> Option<int>)
    ensures t.status != Done ==> !IsArchivedDone(t, now, parse)
    ensures ParseDate(t.dueDate, parse).None? ==> !IsArchivedDone(t, now, parse)
    ensures t.status == Done && ParseDate(t.dueDate, parse).Some? ==>
      (IsArchivedDone(t, now, parse) <==> now > ParseDate(t.dueDate, parse).value + 30 * DayMs)
  {
  }

  /** A done task due 31 days ago is hidden; one due 29 days ago is shown. */
  lemma ArchiveBoundary(t: Task, now: int, parse: string -> Option<int>)
    requires t.status == Done
    ensures ParseDate(t.dueDate, parse) == Some(now - 31 * DayMs) ==> IsArchivedDone(t, now, parse)
    ensures ParseDate(t.dueDate, parse) == Some(now - 29 * DayMs) ==> !IsArchivedDone(t, now, parse)
    ensures ParseDate(t.dueDate, parse) == Some(now - 30 * DayMs) ==> !IsArchivedDone(t, now, parse)
  {
  }

  // ----- STATUS_ORDER and the comparator -----

  /** `STATUS_ORDER`: in_progress 0, todo 1, done 2, blocked 3. */
  function Rank(s: Status): nat {
    match s
    case InProgress => 0
    case Todo => 1
    case Done => 2
    case Blocked => 3
  }

  /** The sort comparator: rank, then due time, dated before undated, then id when both are undated. */
  function Compare(a: Task, b: Task, parse: string -> Option<int>): int {
    var sa := Rank(a.status) - Rank(b.status);
    if sa != 0 then sa
    else
      var da := ParseDate(a.dueDate, parse);
      var db := ParseDate(b.dueDate, parse);
      if da.Some? && db.Some? then da.value - db.value
      else if da.Some? && db.None? then -1
      else if da.None? && db.Some? then 1
      else a.id - b.id
  }

  function TaskLe(parse: string -> Option<int>): (Task, Task) -> bool {
    (a: Task, b: Task) => Compare(a, b, parse) <= 0
  }

  /** The comparator is antisymmetric in sign, so it orders consistently. */
  lemma CompareFlip(a: Task, b: Task, parse: string -> Option<int>)
    ensures Compare(b, a, parse) == -Compare(a, b, parse)
  {
  }

  lemma CompareTrans(a: Task, b: Task, c: Task, parse: string -> Option<int>)
    requires Compare(a, b, parse) <= 0 && Compare(b, c, parse) <= 0
    ensures Compare(a, c, parse) <= 0
  {
  }

  /**
   * The comparator ties two tasks exactly when they share a rank and either
   * both have the same parsed due time or both are undated with the same id:
   * equal due dates are not broken by id.
   */
  lemma CompareTie(a: Task, b: Task, parse: string -> Option<int>)
    ensures Compare(a, b, parse) == 0 <==>
      var da, db := ParseDate(a.dueDate, parse), ParseDate(b.dueDate, parse);
      && Rank(a.status) == Rank(b.status)
      && ((da.Some? && db.Some? && da.value == db.value) || (da.None? && db.None? && a.id == b.id))
    ensures Compare(a, b, parse) == 0 <==> Tied(a, b, TaskLe(parse))
  {
    CompareFlip(a, b, parse);
  }

  /** The comparator is a total preorder, as JavaScript's `sort` needs. */
  lemma TaskLePreorder(parse: string -> Option<int>)
    ensures TotalPreorder(TaskLe(parse))
  {
    var le := TaskLe(parse);
    forall a, b ensures le(a, b) || le(b, a) {
      CompareFlip(a, b, parse);
    }
    forall a, b, c | le(a, b) && le(b, c) ensures le(a, c) {
      CompareTrans(a, b, c, parse);
    }
  }

  // ----- visibleTasks -----

  /** `tasks.filter(t => !isArchivedDone(t))`. */
  function Unarchived(tasks: seq<Task>, now: int, parse: string -> Option<int>): (r: seq<Task>)
    ensures |r| <= |tasks|
    ensures forall t :: t in r <==> t in tasks && !IsArchivedDone(t, now, parse)
    ensures forall t :: multiset(r)[t] == if IsArchivedDone(t, now, parse) then 0 else multiset(tasks)[t]
  {
    if tasks == [] then []
    else
      var rest := Unarchived(tasks[1..], now, parse);
      assert forall t :: t in tasks <==> t == tasks[0] || t in tasks[1..];
      assert tasks == [tasks[0]] + tasks[1..];
      if IsArchivedDone(tasks[0], now, parse) then rest else [tasks[0]] + rest
  }

  /** `visibleTasks`: the unarchived tasks, sorted with the comparator. */
  function VisibleTasks(tasks: seq<Task>, now: int, parse: string -> Option<int>): seq<Task> {
    Sort(Unarchived(tasks, now, parse), TaskLe(parse))
  }

  /**
   * The visible list is a sorted permutation of exactly the unarchived tasks:
   * each of them appears as often as in the input, an archived one never.
   */
  lemma VisibleTasksSpec(tasks: seq<Task>, now: int, parse: string -> Option<int>)
    ensures multiset(VisibleTasks(tasks, now, parse)) == multiset(Unarchived(tasks, now, parse))
    ensures forall t :: multiset(VisibleTasks(tasks, now, parse))[t] ==
                          if IsArchivedDone(t, now, parse) then 0 else multiset(tasks)[t]
    ensures forall t :: t in VisibleTasks(tasks, now, parse) <==> t in tasks && !IsArchivedDone(t, now, parse)
    ensures SortedBy(VisibleTasks(tasks, now, parse), TaskLe(parse))
  {
    TaskLePreorder(parse);
    SortSorted(Unarchived(tasks, now, parse), TaskLe(parse));
    SortLength(Unarchived(tasks, now, parse), TaskLe(parse));
  }

  /**
   * Tasks the comparator ties (same rank and same due time) keep the order
   * the filtered list gives them.
   */
  lemma VisibleTasksStable(tasks: seq<Task>, now: int, parse: string -> Option<int>, k: Task)
    ensures Ties(VisibleTasks(tasks, now, parse), k, TaskLe(parse)) == Ties(Unarchived(tasks, now, parse), k, TaskLe(parse))
  {
    TaskLePreorder(parse);
    SortStable(Unarchived(tasks, now, parse), k, TaskLe(parse));
  }

  /**
   * What a list sorted with the comparator looks like: ranks do not decrease;
   * within a rank dated tasks come first, by ascending due time, and undated
   * ones follow by ascending id.
   */
  lemma SortedOrder(s: seq<Task>, parse: string -> Option<int>, i: nat, j: nat)
    requires SortedBy(s, TaskLe(parse))
    requires i < j < |s|
    ensures Rank(s[i].status) <= Rank(s[j].status)
    ensures Rank(s[i].status) == Rank(s[j].status) ==>
      var di := ParseDate(s[i].dueDate, parse);
      var dj := ParseDate(s[j].dueDate, parse);
      && (dj.Some? ==> di.Some? && di.value <= dj.value)
      && (di.None? && dj.None? ==> s[i].id <= s[j].id)
  {
    assert TaskLe(parse)(s[i], s[j]);
  }

  // ----- pendingCount -----

  /** `tasks.filter(t => t.status !== 'done').length`. */
  function PendingCount(tasks: seq<Task>): nat {
    if tasks == [] then 0 else (if tasks[0].status != Done then 1 else 0) + PendingCount(tasks[1..])
  }

  /** The pending count never exceeds the list, and equals it exactly when no task is done. */
  lemma {:induction false} PendingCountSpec(tasks: seq<Task>)
    ensures PendingCount(tasks) <= |tasks|
    ensures PendingCount(tasks) == |tasks| <==> forall i :: 0 <= i < |tasks| ==> tasks[i].status != Done
    ensures PendingCount(tasks) == 0 <==> forall i :: 0 <= i < |tasks| ==> tasks[i].status == Done
    decreases |tasks|
  {
    if tasks != [] {
      PendingCountSpec(tasks[1..]);
      assert forall i :: 1 <= i < |tasks| ==> tasks[i] == tasks[1..][i - 1];
    }
  }

  /** The count adds up over the two halves of a list. */
  lemma {:induction false} PendingCountAppend(a: seq<Task>, b: seq<Task>)
    ensures PendingCount(a + b) == PendingCount(a) + PendingCount(b)
    decreases |a|
  {
    if a == [] {
      assert a + b == b;
    } else {
      assert (a + b)[1..] == a[1..] + b;
      PendingCountAppend(a[1..], b);
    }
  }

  // ----- request bodies and buttons -----

  /** The create form: every input is a string, the status a choice. */
  datatype Form = Form(title: string, description: string, due: string, status: Status, pic: string)

  /** The JSON body `createTask` posts; None stands for `null`. */
  datatype CreateBody = CreateBody(
    title: string, description: Option<string>, dueDate: Option<string>, status: Status, picLapangan: Option<string>)

  /** `x || null` for a string. */
  function OrNull(x: string): Option<string> {
    if x == "" then None else Some(x)
  }

  function CreatePayload(f: Form): CreateBody {
    CreateBody(f.title, OrNull(f.description), OrNull(f.due), f.status,
               if f.status == Done then OrNull(f.pic) else None)
  }

  /** Empty inputs are sent as null, and a PIC is sent only for a done task with a non-empty PIC. */
  lemma CreatePayloadSpec(f: Form)
    ensures CreatePayload(f).title == f.title && CreatePayload(f).status == f.status
    ensures CreatePayload(f).description == None <==> f.description == ""
    ensures CreatePayload(f).dueDate == None <==> f.due == ""
    ensures CreatePayload(f).picLapangan.Some? <==> f.status == Done && f.pic != ""
    ensures CreatePayload(f).picLapangan.Some? ==> CreatePayload(f).picLapangan.value == f.pic
  {
  }

  /** The JSON body `updateTask` sends. */
  datatype UpdateBody = UpdateBody(
    title: Option<string>, description: Option<string>, status: Status,
    dueDate: Option<string>, picLapangan: Option<string>)

  /** `(x && x.trim() !== '') ? x : null`. */
  function NonBlank(x: Option<string>): Option<string> {
    if x.Some? && Trim(x.value) != "" then x else None
  }

  function UpdatePayload(t: Task): UpdateBody {
    UpdateBody(Some(t.title), t.description, t.status, NonBlank(t.dueDate), NonBlank(t.picLapangan))
  }

  /** Blank or whitespace-only due dates and PICs are sent as null; others unchanged. */
  lemma UpdatePayloadSpec(t: Task)
    ensures UpdatePayload(t).dueDate.Some? <==> t.dueDate.Some? && exists i :: 0 <= i < |t.dueDate.value| && !IsSpace(t.dueDate.value[i])
    ensures UpdatePayload(t).picLapangan.Some? <==> t.picLapangan.Some? && exists i :: 0 <= i < |t.picLapangan.value| && !IsSpace(t.picLapangan.value[i])
    ensures UpdatePayload(t).dueDate.Some? ==> UpdatePayload(t).dueDate == t.dueDate
    ensures UpdatePayload(t).picLapangan.Some? ==> UpdatePayload(t).picLapangan == t.picLapangan
  {
    if t.dueDate.Some? {
      TrimSpec(t.dueDate.value);
    }
    if t.picLapangan.Some? {
      TrimSpec(t.picLapangan.value);
    }
  }

  /** The Create button: not while a create is running, and only with a non-blank title and a due date. */
  predicate CreateEnabled(creating: bool, f: Form) {
    !creating && Trim(f.title) != "" && f.due != ""
  }

  /** The Save button: disabled for a done task without a non-blank PIC. */
  predicate SaveEnabled(edit: Task) {
    !(edit.status == Done && !(edit.picLapangan.Some? && Trim(edit.picLapangan.value) != ""))
  }

  /** A saved done task always sends a PIC; an enabled create always sends a title and a due date. */
  lemma ButtonsGuardPayloads(edit: Task, creating: bool, f: Form)
    ensures SaveEnabled(edit) && edit.status == Done ==> UpdatePayload(edit).picLapangan.Some?
    ensures CreateEnabled(creating, f) ==> CreatePayload(f).title != "" && CreatePayload(f).dueDate.Some?
  {
  }
}
