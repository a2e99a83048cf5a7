/** The activities admin page (`src/pages/admin/ActivitiesManager.tsx`): the
    form, its hydration, the achievement lists (appended untrimmed, removed
    with `splice`), the nullable end date, the required-field check and the
    dialog handlers. */
module ActivitiesManager {
  import opened Common
  import opened I18n

  /** A row of the `activities` table; nullable columns are options. */
  datatype Activity = Activity(
    id: string,
    titleEn: string,
    titleVi: string,
    organizationEn: string,
    organizationVi: string,
    roleEn: Option<string>,
    roleVi: Option<string>,
    descriptionEn: Option<string>,
    descriptionVi: Option<string>,
    startDate: string,
    endDate: Option<string>,
    imageUrl: Option<string>,
    achievementsEn: Option<seq<string>>,
    achievementsVi: Option<seq<string>>,
    published: Option<bool>,
    featured: Option<bool>,
    displayOrder: Option<int>)

  /** The form state; unlike the other pages it keeps the end date and the
      two flags nullable. */
  datatype ActivityForm = ActivityForm(
    titleEn: string,
    titleVi: string,
    organizationEn: string,
    organizationVi: string,
    roleEn: string,
    roleVi: string,
    descriptionEn: string,
    descriptionVi: string,
    startDate: string,
    endDate: Option<string>,
    imageUrl: string,
    achievementsEn: seq<string>,
    achievementsVi: seq<string>,
    published: Option<bool>,
    featured: Option<bool>,
    displayOrder: int)

  function DefaultActivityForm(): ActivityForm {
    ActivityForm("", "", "", "", "", "", "", "", "", None, "", [], [], Some(false), Some(false), 0)
  }

  /** The form `handleEdit` fills in: the required columns are copied;
      role, description, image and achievements default to `""` and `[]`
      when null; the end date and the two flags are copied as they are,
      null included; the display order defaults to 0. */
  function HydrateActivityForm(a: Activity): (f: ActivityForm)
    ensures f.titleEn == a.titleEn && f.titleVi == a.titleVi
    ensures f.organizationEn == a.organizationEn && f.organizationVi == a.organizationVi
    ensures f.startDate == a.startDate
    ensures f.endDate == a.endDate && f.published == a.published && f.featured == a.featured
    ensures f.roleEn == (if a.roleEn.Some? then a.roleEn.value else "")
    ensures f.roleVi == (if a.roleVi.Some? then a.roleVi.value else "")
    ensures f.descriptionEn == (if a.descriptionEn.Some? then a.descriptionEn.value else "")
    ensures f.descriptionVi == (if a.descriptionVi.Some? then a.descriptionVi.value else "")
    ensures f.imageUrl == (if a.imageUrl.Some? then a.imageUrl.value else "")
    ensures f.achievementsEn == (if a.achievementsEn.Some? then a.achievementsEn.value else [])
    ensures f.achievementsVi == (if a.achievementsVi.Some? then a.achievementsVi.value else [])
    ensures f.displayOrder == (if a.displayOrder.Some? then a.displayOrder.value else 0)
  {
    ActivityForm(a.titleEn, a.titleVi, a.organizationEn, a.organizationVi,
                 a.roleEn.GetOr(""), a.roleVi.GetOr(""),
                 a.descriptionEn.GetOr(""), a.descriptionVi.GetOr(""),
                 a.startDate, a.endDate, a.imageUrl.GetOr(""),
                 a.achievementsEn.GetOr([]), a.achievementsVi.GetOr([]),
                 a.published, a.featured, NumberOr(a.displayOrder, 0))
  }

  /** A null flag survives hydration as null, where the default form holds
      `false`. */
  lemma NullFlagsStayNull(a: Activity)
    requires a.published.None?
    ensures HydrateActivityForm(a).published.None?
    ensures HydrateActivityForm(a).published != DefaultActivityForm().published
  {
  }

  /** The end-date input: `value || null`. */
  function EndDateInput(value: string): (r: Option<string>)
    ensures r != Some("")
    ensures value != "" ==> r == Some(value)
  {
    if value == "" then None else Some(value)
  }

  /** The input shows `end_date || ''`, and typing it back gives the same
      end date, except that a stored `""` comes back as null. */
  lemma EndDateRoundTrip(endDate: Option<string>)
    ensures endDate != Some("") ==> EndDateInput(endDate.GetOr("")) == endDate
    ensures endDate == Some("") ==> EndDateInput(endDate.GetOr("")) == None
  {
  }

  /** The two flag columns a row's switches control. */
  datatype FlagColumn = PublishedColumn | FeaturedColumn

  function Flag(a: Activity, c: FlagColumn): Option<bool> {
    match c
    case PublishedColumn => a.published
    case FeaturedColumn => a.featured
  }

  /** The row once `togglePublished` or `toggleFeatured` has stored `value`. */
  function SetFlag(a: Activity, c: FlagColumn, value: bool): (b: Activity)
    ensures Flag(b, c) == Some(value)
    ensures forall o: FlagColumn :: o != c ==> Flag(b, o) == Flag(a, o)
    ensures b.(published := a.published, featured := a.featured) == a
  {
    match c
    case PublishedColumn => a.(published := Some(value))
    case FeaturedColumn => a.(featured := Some(value))
  }

  /** A click on a row's switch: the switch shows `flag || false`, reports
      the opposite through `onCheckedChange`, and the page sends that value
      as the new flag, the same request as the other pages' buttons. */
  function SwitchClick(a: Activity, c: FlagColumn): (checked: bool)
    ensures checked == ToggleRequest(Flag(a, c))
  {
    !Flag(a, c).GetOr(false)
  }

  /** One click flips what the switch shows; a second click gives back the
      row, except that a null flag comes back as `false`. */
  lemma {:induction false} SwitchClickTwice(a: Activity, c: FlagColumn)
    ensures var b := SetFlag(a, c, SwitchClick(a, c));
      && Flag(b, c).GetOr(false) == !Flag(a, c).GetOr(false)
      && SetFlag(b, c, SwitchClick(b, c)) == (if Flag(a, c).None? then SetFlag(a, c, false) else a)
  {
    match c
    case PublishedColumn =>
    case FeaturedColumn =>
  }

  function Achievements(f: ActivityForm, lang: Language): seq<string> {
    match lang
    case En => f.achievementsEn
    case Vi => f.achievementsVi
  }

  /** `{ ...f, [key]: list }` for the achievements field of `lang`. */
  function WithAchievements(f: ActivityForm, lang: Language, list: seq<string>): (g: ActivityForm)
    ensures Achievements(g, lang) == list
    ensures forall other: Language :: other != lang ==> Achievements(g, other) == Achievements(f, other)
    ensures g.(achievementsEn := f.achievementsEn, achievementsVi := f.achievementsVi) == f
  {
    match lang
    case En => f.(achievementsEn := list)
    case Vi => f.(achievementsVi := list)
  }

  /** `addAchievement`'s list update: a blank input is ignored, but a
      non-blank one is appended as typed, surrounding blanks included. */
  function AppendUntrimmed(list: seq<string>, input: string): (r: seq<string>)
    ensures IsBlank(input) ==> r == list
    ensures !IsBlank(input) ==> r == list + [input]
  {
    if IsBlank(input) then list else list + [input]
  }

  /** Where the projects and experiences pages store `" x"` as `"x"`, this
      page keeps the leading blank. */
  lemma {:induction false} UntrimmedDiffersFromTrimmed(list: seq<string>, input: string)
    requires !IsBlank(input) && IsWhitespace(input[0])
    ensures AppendUntrimmed(list, input) != AppendTrimmed(list, input)
  {
    var r := AppendTrimmed(list, input);
    assert r[|list|] == Trim(input);
    assert AppendUntrimmed(list, input)[|list|] == input;
  }

  /** Where `splice(index, 1)` starts: a negative index counts from the end
      (clamped at 0), a large one is clamped to the length. */
  function SpliceStart(len: nat, index: int): (start: nat)
    ensures start <= len
  {
    if index < 0 then (if len + index < 0 then 0 else len + index)
    else if index > len then len
    else index
  }

  /** The list `splice(index, 1)` leaves. */
  function SplicedOne<T>(s: seq<T>, index: int): (r: seq<T>)
    ensures SpliceStart(|s|, index) < |s| ==> |r| == |s| - 1
    ensures SpliceStart(|s|, index) == |s| ==> r == s
  {
    var start := SpliceStart(|s|, index);
    if start < |s| then s[..start] + s[start + 1..] else s
  }

  /** For an index in range `splice` and the index filter of the other
      pages agree; for a negative index in range from the end they do not:
      `splice` removes an element counted from the end, the filter removes
      nothing. */
  lemma SpliceAgainstFilter<T>(s: seq<T>, index: int)
    ensures 0 <= index < |s| ==> SplicedOne(s, index) == WithoutIndex(s, index)
    ensures -|s| <= index < 0 ==>
      SplicedOne(s, index) == WithoutIndex(s, |s| + index) && WithoutIndex(s, index) == s &&
      SplicedOne(s, index) != WithoutIndex(s, index)
    ensures index >= |s| ==> SplicedOne(s, index) == s == WithoutIndex(s, index)
  {
  }

  /** A list that agrees with `orig` before `start` and with `orig` one
      place further on from `start` is `orig` without its element `start`. */
  lemma {:induction false} ShiftedIsRemoved(r: seq<string>, orig: seq<string>, start: nat)
    requires start < |orig| && |r| == |orig| - 1
    requires forall k :: 0 <= k < start ==> r[k] == orig[k]
    requires forall k :: start <= k < |r| ==> r[k] == orig[k + 1]
    ensures r == orig[..start] + orig[start + 1..]
  {
    var expected := orig[..start] + orig[start + 1..];
    forall k | 0 <= k < |r| ensures r[k] == expected[k] {
      if k < start {
        assert expected[k] == orig[k];
      } else {
        assert expected[k] == orig[k + 1];
      }
    }
  }

  /** `splice(start, 1)` in place: every element after `start` moves one
      place left, and the array minus its last slot is the result. */
  method ShiftLeft(a: array<string>, start: nat)
    requires start < a.Length
    modifies a
    ensures a[..a.Length - 1] == old(a[..start]) + old(a[start + 1..])
  {
    ghost var orig := a[..];
    var i := start;
    while i < a.Length - 1
      invariant start <= i <= a.Length - 1
      invariant forall k :: 0 <= k < start ==> a[k] == orig[k]
      invariant forall k :: start <= k < i ==> a[k] == orig[k + 1]
      invariant forall k :: i <= k < a.Length ==> a[k] == orig[k]
    {
      a[i] := a[i + 1];
      i := i + 1;
    }
    ShiftedIsRemoved(a[..a.Length - 1], orig, start);
  }

  /** `removeAchievement`'s list update: copy the list into a fresh array,
      then `splice(index, 1)` it in place. */
  method SpliceOne(list: seq<string>, index: int) returns (r: seq<string>)
    ensures r == SplicedOne(list, index)
  {
    var a := new string[|list|](i requires 0 <= i < |list| => list[i]);
    assert a[..] == list;
    var start := SpliceStart(a.Length, index);
    if start == a.Length {
      return a[..];
    }
    ShiftLeft(a, start);
    r := a[..a.Length - 1];
  }

  /** The fields an activity cannot be saved without. */
  predicate ActivityFormComplete(f: ActivityForm) {
    f.titleEn != "" && f.titleVi != "" && f.organizationEn != "" && f.organizationVi != "" && f.startDate != ""
  }

  datatype SaveRequest = UpdateActivity(id: string, updates: ActivityForm) | CreateActivity(activity: ActivityForm)

  datatype SubmitOutcome = Rejected | SaveFailed(request: SaveRequest) | Saved(request: SaveRequest)

  class ActivityEditor {
    var isDialogOpen: bool
    var editingId: Option<string>
    var form: ActivityForm
    var newAchievementEn: string
    var newAchievementVi: string

    constructor ()
      ensures !isDialogOpen && editingId.None? && form == DefaultActivityForm()
      ensures newAchievementEn == "" && newAchievementVi == ""
    {
      isDialogOpen := false;
      editingId := None;
      form := DefaultActivityForm();
      newAchievementEn, newAchievementVi := "", "";
    }

    function NewAchievement(lang: Language): string
      reads this
    {
      match lang
      case En => newAchievementEn
      case Vi => newAchievementVi
    }

    /** `handleEdit(activity)`: the achievement inputs are left as they are. */
    method HandleEdit(a: Activity)
      modifies this
      ensures isDialogOpen && editingId == Some(a.id) && form == HydrateActivityForm(a)
      ensures newAchievementEn == old(newAchievementEn) && newAchievementVi == old(newAchievementVi)
    {
      editingId := Some(a.id);
      form := HydrateActivityForm(a);
      isDialogOpen := true;
    }

    /** `resetForm` */
    method ResetForm()
      modifies this
      ensures editingId.None? && form == DefaultActivityForm()
      ensures newAchievementEn == "" && newAchievementVi == ""
      ensures isDialogOpen == old(isDialogOpen)
    {
      editingId := None;
      form := DefaultActivityForm();
      newAchievementEn, newAchievementVi := "", "";
    }

    /** The Add button, the Cancel button and the dialog's `onOpenChange`
        only set `isDialogOpen`: nothing is reset, so Add after an abandoned
        edit reopens that activity's form. */
    method SetDialogOpen(open: bool)
      modifies this
      ensures isDialogOpen == open && editingId == old(editingId) && form == old(form)
      ensures newAchievementEn == old(newAchievementEn) && newAchievementVi == old(newAchievementVi)
    {
      isDialogOpen := open;
    }

    /** `addAchievement(lang)` */
    method AddAchievement(lang: Language)
      modifies this
      ensures form == WithAchievements(old(form), lang,
                        AppendUntrimmed(Achievements(old(form), lang), old(NewAchievement(lang))))
      ensures NewAchievement(lang) == if IsBlank(old(NewAchievement(lang))) then old(NewAchievement(lang)) else ""
      ensures forall other: Language :: other != lang ==> NewAchievement(other) == old(NewAchievement(other))
      ensures isDialogOpen == old(isDialogOpen) && editingId == old(editingId)
    {
      var value := NewAchievement(lang);
      if IsBlank(value) {
        return;
      }
      form := WithAchievements(form, lang, AppendUntrimmed(Achievements(form, lang), value));
      if lang == En {
        newAchievementEn := "";
      } else {
        newAchievementVi := "";
      }
    }

    /** `removeAchievement(lang, index)` */
    method RemoveAchievement(lang: Language, index: int)
      modifies this
      ensures form == WithAchievements(old(form), lang, SplicedOne(Achievements(old(form), lang), index))
      ensures newAchievementEn == old(newAchievementEn) && newAchievementVi == old(newAchievementVi)
      ensures isDialogOpen == old(isDialogOpen) && editingId == old(editingId)
    {
      var achievements := SpliceOne(Achievements(form, lang), index);
      form := WithAchievements(form, lang, achievements);
    }

    /** The end-date input. */
    method OnEndDateChange(value: string)
      modifies this
      ensures form == old(form).(endDate := EndDateInput(value))
      ensures newAchievementEn == old(newAchievementEn) && newAchievementVi == old(newAchievementVi)
      ensures isDialogOpen == old(isDialogOpen) && editingId == old(editingId)
    {
      form := form.(endDate := EndDateInput(value));
    }

    /** `handleSubmit`; `saveOk` is false when the create or update throws. */
    method HandleSubmit(saveOk: bool) returns (outcome: SubmitOutcome)
      modifies this
      ensures !ActivityFormComplete(old(form)) ==> outcome == Rejected
      ensures ActivityFormComplete(old(form)) ==>
        (outcome != Rejected &&
         outcome.request == (if old(editingId).Some? then UpdateActivity(old(editingId).value, old(form))
                             else CreateActivity(old(form))) &&
         (outcome.Saved? <==> saveOk))
      ensures outcome.Saved? ==>
        !isDialogOpen && editingId.None? && form == DefaultActivityForm() &&
        newAchievementEn == "" && newAchievementVi == ""
      ensures !outcome.Saved? ==>
        isDialogOpen == old(isDialogOpen) && editingId == old(editingId) && form == old(form) &&
        newAchievementEn == old(newAchievementEn) && newAchievementVi == old(newAchievementVi)
    {
      if !ActivityFormComplete(form) {
        return Rejected;
      }
      var request := if editingId.Some? then UpdateActivity(editingId.value, form) else CreateActivity(form);
      if !saveOk {
        return SaveFailed(request);
      }
      isDialogOpen := false;
      ResetForm();
      outcome := Saved(request);
    }
  }

  /** Editing an activity, cancelling, then pressing Add and saving sends an
      update of the abandoned activity, not a create. */
  method AddAfterCancelUpdates(a: Activity) returns (outcome: SubmitOutcome)
    requires ActivityFormComplete(HydrateActivityForm(a))
    ensures outcome == Saved(UpdateActivity(a.id, HydrateActivityForm(a)))
  {
    var editor := new ActivityEditor();
    editor.HandleEdit(a);
    editor.SetDialogOpen(false);
    editor.SetDialogOpen(true);
    outcome := editor.HandleSubmit(true);
  }
}
