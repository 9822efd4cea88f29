/** The reminders panel: today's reminders, each of which can be ticked off with an
    optimistic update that is rolled back when the server refuses, and a form that creates
    new ones. */
module Reminders {
  import opened Common
  import opened Text

  /** One reminder as the server sends it. The source's `type` field is called `kind` here. */
  datatype Reminder = Reminder(
    id: string,
    title: string,
    description: string,
    time: string,
    kind: string,
    priority: string,
    completed: bool)

  /** The contents of the "Add New Reminder" form, which is also what `createReminder` is sent. */
  datatype ReminderForm = ReminderForm(
    title: string,
    description: string,
    time: string,
    kind: string,
    priority: string)

  /** The arguments of one `updateReminderStatus(id, completed)` request. */
  datatype StatusUpdate = StatusUpdate(id: string, completed: bool)

  /** The form as it is first shown and as a successful create leaves it. */
  const DefaultReminderForm := ReminderForm("", "", "", "medication", "medium")

  /** `getPriorityColor`: the badge variant of a priority. */
  function PriorityVariant(priority: string): (v: string)
    ensures v == "destructive" <==> priority == "high"
    ensures v == "secondary" <==> priority == "low"
    ensures v == "default" <==> priority != "high" && priority != "low"
  {
    if priority == "high" then "destructive"
    else if priority == "medium" then "default"
    else if priority == "low" then "secondary"
    else "default"
  }

  /** Each id names at most one reminder. */
  predicate UniqueIds(rs: seq<Reminder>) {
    forall i, j :: 0 <= i < j < |rs| ==> rs[i].id != rs[j].id
  }

  /** The position of the first reminder with the given id, or `|rs|` when there is none. */
  function FirstIndexOf(rs: seq<Reminder>, id: string): (k: nat)
    ensures k <= |rs|
    ensures k < |rs| ==> rs[k].id == id
    ensures forall j :: 0 <= j < k ==> rs[j].id != id
  {
    if rs == [] then 0
    else if rs[0].id == id then 0
    else 1 + FirstIndexOf(rs[1..], id)
  }

  /** `reminders.find((r) => r.id === id)`: the first reminder with that id, if any. */
  function FindById(rs: seq<Reminder>, id: string): (r: Option<Reminder>)
    ensures r.None? <==> forall i :: 0 <= i < |rs| ==> rs[i].id != id
    ensures r.Some? ==> r.value.id == id && r.value in rs
    ensures r.Some? ==> exists k :: 0 <= k < |rs| && r.value == rs[k] &&
                                    forall j :: 0 <= j < k ==> rs[j].id != id
  {
    var k := FirstIndexOf(rs, id);
    if k < |rs| then Some(rs[k]) else None
  }

  /** `rs.map((r) => (r.id === id ? { ...r, completed: value } : r))`: every reminder with
      that id gets the flag `value`; nothing else changes, and the order is kept. */
  function SetCompleted(rs: seq<Reminder>, id: string, value: bool): (r: seq<Reminder>)
    ensures |r| == |rs|
    ensures forall i :: 0 <= i < |rs| ==>
      r[i] == if rs[i].id == id then rs[i].(completed := value) else rs[i]
  {
    if rs == [] then []
    else
      var head := if rs[0].id == id then rs[0].(completed := value) else rs[0];
      [head] + SetCompleted(rs[1..], id, value)
  }

  function IsDone(r: Reminder): bool {
    r.completed
  }

  function IsPending(r: Reminder): bool {
    !r.completed
  }

  /** `completedCount`: how many reminders are ticked off; never more than `totalCount`. */
  function CompletedCount(rs: seq<Reminder>): (n: nat)
    ensures n <= |rs|
  {
    |Filter(rs, IsDone)|
  }

  /** The "Remaining" badge, `totalCount - completedCount`: the number of reminders not yet
      ticked off, so never negative. */
  function RemainingCount(rs: seq<Reminder>): (n: nat)
    ensures n == |Filter(rs, IsPending)|
    ensures n + CompletedCount(rs) == |rs|
  {
    FilterComplement(rs, IsDone, IsPending);
    |rs| - CompletedCount(rs)
  }

  /** The "All reminders completed!" banner condition, `completedCount === totalCount &&
      totalCount > 0`: there is at least one reminder and every one is ticked off. */
  function ShowsAllDone(rs: seq<Reminder>): (b: bool)
    ensures b <==> |rs| > 0 && forall i :: 0 <= i < |rs| ==> rs[i].completed
  {
    FilterKeepsAll(rs, IsDone);
    CompletedCount(rs) == |rs| && |rs| > 0
  }

  /** A second update of the same id overrides the first. */
  lemma SetCompletedTwice(rs: seq<Reminder>, id: string, v: bool, w: bool)
    ensures SetCompleted(SetCompleted(rs, id, v), id, w) == SetCompleted(rs, id, w)
  {
    var t := SetCompleted(rs, id, v);
    assert forall i :: 0 <= i < |rs| ==> t[i].id == rs[i].id;
  }

  /** Setting a flag every reminder with that id already has changes nothing. */
  lemma SetCompletedAgreeing(rs: seq<Reminder>, id: string, v: bool)
    requires forall i :: 0 <= i < |rs| && rs[i].id == id ==> rs[i].completed == v
    ensures SetCompleted(rs, id, v) == rs
  {
    var t := SetCompleted(rs, id, v);
    assert forall i :: 0 <= i < |rs| ==> t[i] == rs[i];
  }

  /** Rolling back the optimistic toggle restores the list when ids are unique. */
  lemma ToggleThenRevertIsIdentity(rs: seq<Reminder>, id: string)
    requires UniqueIds(rs)
    requires FindById(rs, id).Some?
    ensures var old_ := FindById(rs, id).value.completed;
            SetCompleted(SetCompleted(rs, id, !old_), id, old_) == rs
  {
    var k := FirstIndexOf(rs, id);
    var b := rs[k].completed;
    SetCompletedTwice(rs, id, !b, b);
    assert forall i :: 0 <= i < |rs| && rs[i].id == id ==> i == k;
    SetCompletedAgreeing(rs, id, b);
  }

  /** Without unique ids the rollback restores only the reminders whose flag agreed with the
      first match: every other reminder, and every one with a different id, comes back. */
  lemma RevertRestoresAgreeing(rs: seq<Reminder>, id: string)
    requires FindById(rs, id).Some?
    ensures var old_ := FindById(rs, id).value.completed;
            var back := SetCompleted(SetCompleted(rs, id, !old_), id, old_);
            |back| == |rs| &&
            forall i :: 0 <= i < |rs| ==>
              (back[i] == rs[i] <==> rs[i].id != id || rs[i].completed == old_)
  {
  }

  /** A concrete case: two reminders sharing an id with different flags are both left with
      the first one's flag after a failed toggle. */
  lemma RevertWithDuplicateIds()
    ensures var rs := [Reminder("r", "a", "", "08:00", "meal", "low", false),
                       Reminder("r", "b", "", "09:00", "meal", "low", true)];
            SetCompleted(SetCompleted(rs, "r", true), "r", false) != rs
  {
    var rs := [Reminder("r", "a", "", "08:00", "meal", "low", false),
               Reminder("r", "b", "", "09:00", "meal", "low", true)];
    assert SetCompleted(SetCompleted(rs, "r", true), "r", false)[1].completed == false;
  }

  /** With unique ids the optimistic toggle flips exactly one reminder's flag, the one with
      the id, and leaves every other reminder as it was. */
  lemma ToggleFlipsExactlyOne(rs: seq<Reminder>, id: string)
    requires UniqueIds(rs)
    requires FindById(rs, id).Some?
    ensures var t := SetCompleted(rs, id, !FindById(rs, id).value.completed);
            |t| == |rs| &&
            exists k :: 0 <= k < |rs| && rs[k].id == id &&
              t[k] == rs[k].(completed := !rs[k].completed) &&
              forall i :: 0 <= i < |rs| && i != k ==> t[i] == rs[i]
  {
    var k := FirstIndexOf(rs, id);
    var t := SetCompleted(rs, id, !rs[k].completed);
    assert forall i :: 0 <= i < |rs| && i != k ==> rs[i].id != id;
    assert t[k] == rs[k].(completed := !rs[k].completed);
  }

  /** A list with no reminder of that id is left as it is. */
  lemma {:induction false} SetCompletedAbsent(rs: seq<Reminder>, id: string, value: bool)
    requires forall i :: 0 <= i < |rs| ==> rs[i].id != id
    ensures SetCompleted(rs, id, value) == rs
  {
    if rs != [] {
      SetCompletedAbsent(rs[1..], id, value);
      assert rs == [rs[0]] + rs[1..];
    }
  }

  lemma CompletedCountCons(r: Reminder, rs: seq<Reminder>)
    ensures CompletedCount([r] + rs) == (if r.completed then 1 else 0) + CompletedCount(rs)
  {
    assert ([r] + rs)[1..] == rs;
  }

  lemma UniqueIdsTail(rs: seq<Reminder>)
    requires rs != [] && UniqueIds(rs)
    ensures UniqueIds(rs[1..])
    ensures forall i :: 0 <= i < |rs[1..]| ==> rs[1..][i].id != rs[0].id
  {
    var tail := rs[1..];
    forall i | 0 <= i < |tail| ensures tail[i] == rs[i + 1] {
    }
  }

  /** Setting the flag of the reminder with a unique id changes the "Done" count by the
      difference between the new flag and the old one. */
  lemma {:induction false} SetCompletedCount(rs: seq<Reminder>, id: string, value: bool)
    requires UniqueIds(rs)
    requires FirstIndexOf(rs, id) < |rs|
    ensures var k := FirstIndexOf(rs, id);
            CompletedCount(SetCompleted(rs, id, value)) + (if rs[k].completed then 1 else 0) ==
              CompletedCount(rs) + (if value then 1 else 0)
  {
    var tail := rs[1..];
    var head := if rs[0].id == id then rs[0].(completed := value) else rs[0];
    assert SetCompleted(rs, id, value) == [head] + SetCompleted(tail, id, value);
    CompletedCountCons(head, SetCompleted(tail, id, value));
    CompletedCountCons(rs[0], tail);
    assert rs == [rs[0]] + tail;
    UniqueIdsTail(rs);
    if rs[0].id == id {
      SetCompletedAbsent(tail, id, value);
    } else {
      assert tail[FirstIndexOf(tail, id)] == rs[FirstIndexOf(rs, id)];
      SetCompletedCount(tail, id, value);
    }
  }

  /** With unique ids a toggle moves the "Done" count by exactly one, up when the reminder
      was open and down when it was done. */
  lemma ToggleMovesCountByOne(rs: seq<Reminder>, id: string)
    requires UniqueIds(rs)
    requires FindById(rs, id).Some?
    ensures var was := FindById(rs, id).value.completed;
            CompletedCount(SetCompleted(rs, id, !was)) ==
              if was then CompletedCount(rs) - 1 else CompletedCount(rs) + 1
  {
    SetCompletedCount(rs, id, !FindById(rs, id).value.completed);
  }

  /** The panel's state: the `reminders` list, the add form and its flags. */
  class RemindersPanel {
    var reminders: seq<Reminder>
    var form: ReminderForm
    var showAddForm: bool
    var creating: bool

    constructor ()
      ensures reminders == [] && form == DefaultReminderForm
      ensures !showAddForm && !creating
    {
      reminders := [];
      form := DefaultReminderForm;
      showAddForm := false;
      creating := false;
    }

    /** The "Add Reminder" button is disabled while a create is in flight and whenever the
        title or the time holds nothing but whitespace. */
    function SubmitDisabled(): (b: bool)
      reads this
      ensures b <==> creating ||
                     (forall i :: 0 <= i < |form.title| ==> IsWhitespace(form.title[i])) ||
                     (forall i :: 0 <= i < |form.time| ==> IsWhitespace(form.time[i]))
    {
      BlankIffAllWhitespace(form.title);
      BlankIffAllWhitespace(form.time);
      creating || IsBlank(form.title) || IsBlank(form.time)
    }

    /** `handleToggleComplete(id)`. An unknown id changes nothing and sends nothing.
        Otherwise the matching reminders get the flipped flag at once, the update is sent,
        and a refusal or an exception puts the original flag back. */
    method ToggleComplete(id: string, reply: Reply<()>) returns (request: Option<StatusUpdate>)
      modifies this
      ensures form == old(form) && showAddForm == old(showAddForm) && creating == old(creating)
      ensures request.None? <==> FindById(old(reminders), id).None?
      ensures request.None? ==> reminders == old(reminders)
      ensures request.Some? ==>
        var was := FindById(old(reminders), id).value.completed;
        request.value == StatusUpdate(id, !was) &&
        reminders == if reply.Ok? then SetCompleted(old(reminders), id, !was)
                     else SetCompleted(SetCompleted(old(reminders), id, !was), id, was)
      ensures request.Some? && !reply.Ok? && UniqueIds(old(reminders)) ==>
        reminders == old(reminders)
    {
      var found := FindById(reminders, id);
      if found.None? {
        return None;
      }
      var newStatus := !found.value.completed;
      if UniqueIds(reminders) {
        ToggleThenRevertIsIdentity(reminders, id);
      }
      reminders := SetCompleted(reminders, id, newStatus);
      request := Some(StatusUpdate(id, newStatus));
      if !reply.Ok? {
        reminders := SetCompleted(reminders, id, !newStatus);
      }
    }

    /** `handleCreateReminder`. A blank title or time refuses the create: no request, no
        change. Otherwise the form is sent; on success the returned reminder is appended at
        the end (no sorting), the form is reset and closed; on a refusal or an exception
        the list and the form are kept. */
    method CreateReminder(reply: Reply<Reminder>) returns (request: Option<ReminderForm>)
      modifies this
      ensures request.None? <==> IsBlank(old(form).title) || IsBlank(old(form).time)
      ensures request.None? ==>
        reminders == old(reminders) && form == old(form) &&
        showAddForm == old(showAddForm) && creating == old(creating)
      ensures request.Some? ==> request.value == old(form) && !creating
      ensures request.Some? && reply.Ok? ==>
        reminders == old(reminders) + [reply.value] &&
        form == DefaultReminderForm && !showAddForm
      ensures request.Some? && !reply.Ok? ==>
        reminders == old(reminders) && form == old(form) && showAddForm == old(showAddForm)
    {
      if IsBlank(form.title) || IsBlank(form.time) {
        return None;
      }
      creating := true;
      request := Some(form);
      if reply.Ok? {
        reminders := reminders + [reply.value];
        form := DefaultReminderForm;
        showAddForm := false;
      }
      creating := false;
    }
  }
}
