/** The daily journal: the activities logged for one date, kept in order of their time of
    day, a form that adds a new entry, and the summary counters shown below the list. */
module Journal {
  import opened Common
  import opened Text

  /** One journal entry as the server sends it. `time` is the "HH:MM" string of the time
      input; `mood` may be missing; the source's `type` field is called `kind` here. */
  datatype JournalEntry = JournalEntry(
    id: string,
    activity: string,
    description: string,
    time: string,
    kind: string,
    mood: Option<string>,
    location: string)

  /** The contents of the "Add New Journal Entry" form. */
  datatype EntryForm = EntryForm(
    activity: string,
    description: string,
    time: string,
    kind: string,
    mood: string,
    location: string)

  /** What `createJournalEntry` is sent: the form's fields plus the selected date. */
  datatype EntryRequest = EntryRequest(form: EntryForm, date: string)

  /** The form as it is first shown and as a successful create leaves it. */
  const DefaultEntryForm := EntryForm("", "", "", "social", "neutral", "")

  /** The activity types the form offers, each with its own badge colour. */
  const KnownKinds: seq<string> :=
    ["social", "health", "entertainment", "meal", "exercise", "call", "visit"]

  const NeutralMoodColor := "bg-gray-100 text-gray-800 border-gray-200"
  const DefaultTypeColor := "bg-gray-100 text-gray-800"

  /** `getMoodColor`: green for happy, red for sad, gray for neutral, missing or unknown. */
  function MoodColor(mood: Option<string>): (c: string)
    ensures c == NeutralMoodColor <==> mood != Some("happy") && mood != Some("sad")
  {
    match mood
    case Some("happy") => "bg-green-100 text-green-800 border-green-200"
    case Some("sad") => "bg-red-100 text-red-800 border-red-200"
    case _ => NeutralMoodColor
  }

  /** `getMoodEmoji`: a smiling, a pensive or a neutral face. */
  function MoodEmoji(mood: Option<string>): (e: string)
    ensures e == "\U{1F610}" <==> mood != Some("happy") && mood != Some("sad")
  {
    match mood
    case Some("happy") => "\U{1F60A}"
    case Some("sad") => "\U{1F614}"
    case _ => "\U{1F610}"
  }

  /** A missing mood is shown exactly like the "neutral" one. */
  lemma MissingMoodLooksNeutral()
    ensures MoodColor(None) == MoodColor(Some("neutral")) == NeutralMoodColor
    ensures MoodEmoji(None) == MoodEmoji(Some("neutral")) == "\U{1F610}"
  {
  }

  /** `getTypeColor`: every type has a colour; anything but the seven known ones is gray. */
  function TypeColor(kind: string): (c: string)
    ensures c == DefaultTypeColor <==> kind !in KnownKinds
  {
    match kind
    case "social" => "bg-blue-100 text-blue-800"
    case "health" => "bg-red-100 text-red-800"
    case "entertainment" => "bg-purple-100 text-purple-800"
    case "meal" => "bg-orange-100 text-orange-800"
    case "exercise" => "bg-green-100 text-green-800"
    case "call" => "bg-indigo-100 text-indigo-800"
    case "visit" => "bg-pink-100 text-pink-800"
    case _ => DefaultTypeColor
  }

  /** The seven known types get seven different colours. */
  lemma KnownKindsHaveDistinctColors()
    ensures forall i, j :: 0 <= i < j < |KnownKinds| ==>
      TypeColor(KnownKinds[i]) != TypeColor(KnownKinds[j])
  {
  }

  function IsSocial(e: JournalEntry): bool {
    e.kind == "social" || e.kind == "call" || e.kind == "visit"
  }

  function IsMeal(e: JournalEntry): bool {
    e.kind == "meal"
  }

  function IsHappy(e: JournalEntry): bool {
    e.mood == Some("happy")
  }

  /** The "Social" summary counter. */
  function SocialCount(es: seq<JournalEntry>): (n: nat)
    ensures n <= |es|
  {
    |Filter(es, IsSocial)|
  }

  /** The "Meals" summary counter. */
  function MealCount(es: seq<JournalEntry>): (n: nat)
    ensures n <= |es|
  {
    |Filter(es, IsMeal)|
  }

  /** The "Happy" summary counter, also shown as the "Happy Moments" badge. */
  function HappyCount(es: seq<JournalEntry>): (n: nat)
    ensures n <= |es|
  {
    |Filter(es, IsHappy)|
  }

  /** The number of entries of one type, counted one by one. */
  function KindCount(es: seq<JournalEntry>, kind: string): nat {
    if es == [] then 0
    else (if es[0].kind == kind then 1 else 0) + KindCount(es[1..], kind)
  }

  /** "Social" counts the social, the call and the visit entries together. */
  lemma {:induction false} SocialCountSplits(es: seq<JournalEntry>)
    ensures SocialCount(es) == KindCount(es, "social") + KindCount(es, "call") + KindCount(es, "visit")
  {
    if es != [] {
      SocialCountSplits(es[1..]);
    }
  }

  /** "Meals" counts exactly the meal entries. */
  lemma {:induction false} MealCountIsKindCount(es: seq<JournalEntry>)
    ensures MealCount(es) == KindCount(es, "meal")
  {
    if es != [] {
      MealCountIsKindCount(es[1..]);
    }
  }

  /** Non-decreasing order of `time`, compared as strings. */
  predicate SortedByTime(es: seq<JournalEntry>) {
    forall i, j :: 0 <= i < j < |es| ==> LexLe(es[i].time, es[j].time)
  }

  /** Places `e` into a list sorted by time, after every entry whose time is not later than
      its own; the result holds the same entries plus `e`. */
  function InsertByTime(e: JournalEntry, es: seq<JournalEntry>): (r: seq<JournalEntry>)
    ensures multiset(r) == multiset(es) + multiset{e}
    ensures |r| == |es| + 1
  {
    if es == [] then [e]
    else if LexLe(es[0].time, e.time) then
      assert es == [es[0]] + es[1..];
      [es[0]] + InsertByTime(e, es[1..])
    else [e] + es
  }

  /** The position of the first entry whose time is later than `e`'s, or `|es|` when
      there is none. */
  function FirstLater(e: JournalEntry, es: seq<JournalEntry>): (k: nat)
    ensures k <= |es|
    ensures forall j :: 0 <= j < k ==> LexLe(es[j].time, e.time)
    ensures k < |es| ==> !LexLe(es[k].time, e.time)
  {
    if es == [] || !LexLe(es[0].time, e.time) then 0 else 1 + FirstLater(e, es[1..])
  }

  /** Where the insertion puts `e`: after the leading entries not later than it (equal
      times included), and before the first later one; the other entries keep their order. */
  lemma {:induction false} InsertByTimePosition(e: JournalEntry, es: seq<JournalEntry>)
    ensures var k := FirstLater(e, es);
            InsertByTime(e, es) == es[..k] + [e] + es[k..]
  {
    if es != [] && LexLe(es[0].time, e.time) {
      var tail := es[1..];
      InsertByTimePosition(e, tail);
      var k := FirstLater(e, tail);
      assert FirstLater(e, es) == k + 1;
      assert InsertByTime(e, es) == [es[0]] + InsertByTime(e, tail);
      ConsSplit(es, k, e);
    } else {
      assert FirstLater(e, es) == 0;
      assert es[..0] + [e] + es[0..] == [e] + es;
    }
  }

  /** Splitting a non-empty sequence after its head and then at `k` is splitting it at `k + 1`. */
  lemma ConsSplit<T>(s: seq<T>, k: nat, e: T)
    requires s != [] && k < |s|
    ensures [s[0]] + (s[1..][..k] + [e] + s[1..][k..]) == s[..k + 1] + [e] + s[k + 1..]
  {
    assert s[..k + 1] == [s[0]] + s[1..][..k];
    assert s[k + 1..] == s[1..][k..];
  }

  /** Inserting into a sorted list keeps it sorted. */
  lemma {:induction false} InsertKeepsSorted(e: JournalEntry, es: seq<JournalEntry>)
    requires SortedByTime(es)
    ensures SortedByTime(InsertByTime(e, es))
  {
    if es == [] {
    } else if LexLe(es[0].time, e.time) {
      var tail := es[1..];
      var rest := InsertByTime(e, tail);
      InsertKeepsSorted(e, tail);
      forall x | x in rest ensures LexLe(es[0].time, x.time) {
        assert x in multiset(rest);
        if x != e {
          assert x in multiset(tail);
          var j :| 0 <= j < |tail| && tail[j] == x;
          assert tail[j] == es[j + 1];
        }
      }
      HeadBelowAll(es[0], rest);
    } else {
      LexLeTotal(e.time, es[0].time);
      forall x | x in es ensures LexLe(e.time, x.time) {
        var j :| 0 <= j < |es| && es[j] == x;
        if j > 0 {
          LexLeTransitive(e.time, es[0].time, es[j].time);
        }
      }
      HeadBelowAll(e, es);
    }
  }

  /** Prepending an entry no later than everything after it keeps a list sorted. */
  lemma HeadBelowAll(h: JournalEntry, rest: seq<JournalEntry>)
    requires forall x :: x in rest ==> LexLe(h.time, x.time)
    requires SortedByTime(rest)
    ensures SortedByTime([h] + rest)
  {
    var r := [h] + rest;
    forall i, j | 0 <= i < j < |r| ensures LexLe(r[i].time, r[j].time) {
      if i == 0 {
        assert r[j] in rest;
      } else {
        assert r[i] == rest[i - 1] && r[j] == rest[j - 1];
      }
    }
  }

  /** `[...list].sort((a, b) => a.time.localeCompare(b.time))`, taken as a stable sort on
      the code-point order of the time strings. */
  function SortByTime(es: seq<JournalEntry>): (r: seq<JournalEntry>)
    ensures SortedByTime(r)
    ensures multiset(r) == multiset(es)
    ensures |r| == |es|
  {
    if es == [] then []
    else
      var n := |es| - 1;
      assert es == es[..n] + [es[n]];
      InsertKeepsSorted(es[n], SortByTime(es[..n]));
      InsertByTime(es[n], SortByTime(es[..n]))
  }

  /** An entry no earlier than every entry of the list goes to the end. */
  lemma {:induction false} InsertLastIsAppend(e: JournalEntry, es: seq<JournalEntry>)
    requires forall j :: 0 <= j < |es| ==> LexLe(es[j].time, e.time)
    ensures InsertByTime(e, es) == es + [e]
  {
    if es != [] {
      var tail := es[1..];
      forall j | 0 <= j < |tail| ensures LexLe(tail[j].time, e.time) {
        assert tail[j] == es[j + 1];
      }
      InsertLastIsAppend(e, tail);
      assert es == [es[0]] + tail;
    }
  }

  /** A prefix of a list in time order is in time order. */
  lemma SortedPrefix(es: seq<JournalEntry>, n: nat)
    requires SortedByTime(es) && n <= |es|
    ensures SortedByTime(es[..n])
  {
    var p := es[..n];
    forall i, j | 0 <= i < j < |p| ensures LexLe(p[i].time, p[j].time) {
      assert p[i] == es[i] && p[j] == es[j];
    }
  }

  /** Sorting a list that is already in time order leaves it as it is, equal times
      included: the sort does not reorder entries it has no reason to move. */
  lemma {:induction false} SortSortedIsIdentity(es: seq<JournalEntry>)
    requires SortedByTime(es)
    ensures SortByTime(es) == es
  {
    if es != [] {
      var n := |es| - 1;
      var init := es[..n];
      SortedPrefix(es, n);
      SortSortedIsIdentity(init);
      forall j | 0 <= j < |init| ensures LexLe(init[j].time, es[n].time) {
        assert init[j] == es[j];
      }
      InsertLastIsAppend(es[n], init);
      assert SortByTime(es) == InsertByTime(es[n], SortByTime(init));
      assert es == init + [es[n]];
    }
  }

  /** When the list is already in time order, a create amounts to inserting the new entry
      after every entry whose time is not later than its own. */
  lemma CreateIntoSortedInserts(es: seq<JournalEntry>, e: JournalEntry)
    requires SortedByTime(es)
    ensures SortByTime(es + [e]) == InsertByTime(e, es)
    ensures SortByTime(es + [e]) == es[..FirstLater(e, es)] + [e] + es[FirstLater(e, es)..]
  {
    var all := es + [e];
    assert all[..|all| - 1] == es;
    SortSortedIsIdentity(es);
    InsertByTimePosition(e, es);
  }

  /** The panel's state: the entries of the selected date, the add form and its flags. */
  class JournalPanel {
    var entries: seq<JournalEntry>
    var selectedDate: string
    var showAddForm: bool
    var form: EntryForm
    var creating: bool

    /** The panel opens on `today`, the date part of the current time. */
    constructor (today: string)
      ensures entries == [] && selectedDate == today
      ensures !showAddForm && form == DefaultEntryForm && !creating
    {
      entries := [];
      selectedDate := today;
      showAddForm := false;
      form := DefaultEntryForm;
      creating := false;
    }

    /** The "Add Entry" button is disabled while a create is in flight and whenever the
        activity or the time holds nothing but whitespace. */
    function SubmitDisabled(): (b: bool)
      reads this
      ensures b <==> creating ||
                     (forall i :: 0 <= i < |form.activity| ==> IsWhitespace(form.activity[i])) ||
                     (forall i :: 0 <= i < |form.time| ==> IsWhitespace(form.time[i]))
    {
      BlankIffAllWhitespace(form.activity);
      BlankIffAllWhitespace(form.time);
      creating || IsBlank(form.activity) || IsBlank(form.time)
    }

    /** `handleCreateEntry`. A blank activity or time refuses the create: no request, no
        change. Otherwise the form is sent with the selected date; on success the returned
        entry joins the list, the whole list is sorted by time, and the form is reset and
        closed; on a refusal or an exception the list and the form are kept. */
    method CreateEntry(reply: Reply<JournalEntry>) returns (request: Option<EntryRequest>)
      modifies this
      ensures selectedDate == old(selectedDate)
      ensures request.None? <==> IsBlank(old(form).activity) || IsBlank(old(form).time)
      ensures request.None? ==>
        entries == old(entries) && form == old(form) &&
        showAddForm == old(showAddForm) && creating == old(creating)
      ensures request.Some? ==> request.value == EntryRequest(old(form), selectedDate) && !creating
      ensures request.Some? && reply.Ok? ==>
        entries == SortByTime(old(entries) + [reply.value]) &&
        form == DefaultEntryForm && !showAddForm
      ensures request.Some? && reply.Ok? ==>
        SortedByTime(entries) && multiset(entries) == multiset(old(entries) + [reply.value]) &&
        |entries| == |old(entries)| + 1
      ensures request.Some? && !reply.Ok? ==>
        entries == old(entries) && form == old(form) && showAddForm == old(showAddForm)
    {
      if IsBlank(form.activity) || IsBlank(form.time) {
        request := None;
      } else {
        creating := true;
        request := Some(EntryRequest(form, selectedDate));
        if reply.Ok? {
          entries := SortByTime(entries + [reply.value]);
          form := DefaultEntryForm;
          showAddForm := false;
        }
        creating := false;
      }
    }
  }
}
