/** The experiences admin page (`src/pages/admin/ExperiencesManager.tsx`):
    the form, the two per-language achievement lists, the "current
    position" switch, the required-field check and the dialog handlers. */
module ExperiencesManager {
  import opened Common
  import opened I18n

  /** A row of the `experiences` table; nullable columns are options. */
  datatype Experience = Experience(
    id: string,
    titleEn: string,
    titleVi: string,
    companyEn: string,
    companyVi: string,
    location: Option<string>,
    descriptionEn: Option<string>,
    descriptionVi: Option<string>,
    startDate: string,
    endDate: Option<string>,
    isCurrent: Option<bool>,
    achievementsEn: Option<seq<string>>,
    achievementsVi: Option<seq<string>>,
    imageUrl: Option<string>,
    published: Option<bool>,
    displayOrder: Option<int>)

  datatype ExperienceForm = ExperienceForm(
    titleEn: string,
    titleVi: string,
    companyEn: string,
    companyVi: string,
    location: string,
    descriptionEn: string,
    descriptionVi: string,
    startDate: string,
    endDate: string,
    isCurrent: bool,
    achievementsEn: seq<string>,
    achievementsVi: seq<string>,
    imageUrl: string,
    published: bool,
    displayOrder: int)

  function DefaultExperienceForm(): ExperienceForm {
    ExperienceForm("", "", "", "", "", "", "", "", "", false, [], [], "", false, 0)
  }

  /** The form `handleOpenDialog(experience)` fills in. */
  function HydrateExperienceForm(e: Experience): ExperienceForm {
    ExperienceForm(e.titleEn, e.titleVi, e.companyEn, e.companyVi,
                   e.location.GetOr(""), e.descriptionEn.GetOr(""), e.descriptionVi.GetOr(""),
                   e.startDate, e.endDate.GetOr(""), e.isCurrent.GetOr(false),
                   e.achievementsEn.GetOr([]), e.achievementsVi.GetOr([]),
                   e.imageUrl.GetOr(""), e.published.GetOr(false), NumberOr(e.displayOrder, 0))
  }

  /** Opening an experience copies its required columns and each optional
      column that is present; a null optional column takes the default
      form's value. */
  lemma HydrateDefaults(e: Experience)
    ensures var f := HydrateExperienceForm(e); var d := DefaultExperienceForm();
      && f.titleEn == e.titleEn && f.titleVi == e.titleVi
      && f.companyEn == e.companyEn && f.companyVi == e.companyVi && f.startDate == e.startDate
      && f.location == (if e.location.Some? then e.location.value else d.location)
      && f.descriptionEn == (if e.descriptionEn.Some? then e.descriptionEn.value else d.descriptionEn)
      && f.descriptionVi == (if e.descriptionVi.Some? then e.descriptionVi.value else d.descriptionVi)
      && f.endDate == (if e.endDate.Some? then e.endDate.value else d.endDate)
      && f.isCurrent == (if e.isCurrent.Some? then e.isCurrent.value else d.isCurrent)
      && f.achievementsEn == (if e.achievementsEn.Some? then e.achievementsEn.value else d.achievementsEn)
      && f.achievementsVi == (if e.achievementsVi.Some? then e.achievementsVi.value else d.achievementsVi)
      && f.imageUrl == (if e.imageUrl.Some? then e.imageUrl.value else d.imageUrl)
      && f.published == (if e.published.Some? then e.published.value else d.published)
      && f.displayOrder == (if e.displayOrder.Some? then e.displayOrder.value else d.displayOrder)
  {
  }

  /** The achievements list of one language. */
  function Achievements(f: ExperienceForm, lang: Language): seq<string> {
    match lang
    case En => f.achievementsEn
    case Vi => f.achievementsVi
  }

  /** `{ ...f, [field]: list }` for the achievements field of `lang`. */
  function WithAchievements(f: ExperienceForm, lang: Language, list: seq<string>): (g: ExperienceForm)
    ensures Achievements(g, lang) == list
    ensures forall other: Language :: other != lang ==> Achievements(g, other) == Achievements(f, other)
    ensures g.(achievementsEn := f.achievementsEn, achievementsVi := f.achievementsVi) == f
  {
    match lang
    case En => f.(achievementsEn := list)
    case Vi => f.(achievementsVi := list)
  }

  /** The "current position" switch: turning it on blanks the end date,
      turning it off leaves the end date as it is. */
  function SetCurrent(f: ExperienceForm, checked: bool): (g: ExperienceForm)
    ensures g.isCurrent == checked
    ensures checked ==> g.endDate == ""
    ensures !checked ==> g.endDate == f.endDate
    ensures g.(isCurrent := f.isCurrent, endDate := f.endDate) == f
  {
    f.(isCurrent := checked, endDate := if checked then "" else f.endDate)
  }

  /** Turning the switch on and off again loses the end date: it is not
      restored. */
  lemma SwitchOnThenOffClearsEndDate(f: ExperienceForm)
    ensures SetCurrent(SetCurrent(f, true), false) == f.(isCurrent := false, endDate := "")
  {
  }

  /** The fields an experience cannot be saved without. */
  predicate ExperienceFormComplete(f: ExperienceForm) {
    f.titleEn != "" && f.titleVi != "" && f.companyEn != "" && f.companyVi != "" && f.startDate != ""
  }

  datatype SaveRequest = UpdateExperience(id: string, updates: ExperienceForm) | CreateExperience(experience: ExperienceForm)

  datatype SubmitOutcome = Rejected | SaveFailed(request: SaveRequest) | Saved(request: SaveRequest)

  class ExperienceEditor {
    var isDialogOpen: bool
    var editingExperience: Option<Experience>
    var form: ExperienceForm
    var achievementInputEn: string
    var achievementInputVi: string

    constructor ()
      ensures !isDialogOpen && editingExperience.None? && form == DefaultExperienceForm()
      ensures achievementInputEn == "" && achievementInputVi == ""
    {
      isDialogOpen := false;
      editingExperience := None;
      form := DefaultExperienceForm();
      achievementInputEn, achievementInputVi := "", "";
    }

    /** The achievement input of one language. */
    function AchievementInput(lang: Language): string
      reads this
    {
      match lang
      case En => achievementInputEn
      case Vi => achievementInputVi
    }

    /** `handleOpenDialog(experience?)`: both achievement inputs are cleared. */
    method HandleOpenDialog(experience: Option<Experience>)
      modifies this
      ensures isDialogOpen && editingExperience == experience
      ensures experience.Some? ==> form == HydrateExperienceForm(experience.value)
      ensures experience.None? ==> form == DefaultExperienceForm()
      ensures achievementInputEn == "" && achievementInputVi == ""
    {
      editingExperience := experience;
      if experience.Some? {
        form := HydrateExperienceForm(experience.value);
      } else {
        form := DefaultExperienceForm();
      }
      achievementInputEn, achievementInputVi := "", "";
      isDialogOpen := true;
    }

    /** `handleCloseDialog`: the achievement inputs are left as they are. */
    method HandleCloseDialog()
      modifies this
      ensures !isDialogOpen && editingExperience.None? && form == DefaultExperienceForm()
      ensures achievementInputEn == old(achievementInputEn) && achievementInputVi == old(achievementInputVi)
    {
      isDialogOpen := false;
      editingExperience := None;
      form := DefaultExperienceForm();
    }

    /** The dialog's `onOpenChange` is `setIsDialogOpen`: dismissing the
        dialog keeps the form and the experience being edited. */
    method HandleOpenChange(open: bool)
      modifies this
      ensures isDialogOpen == open && editingExperience == old(editingExperience) && form == old(form)
      ensures achievementInputEn == old(achievementInputEn) && achievementInputVi == old(achievementInputVi)
    {
      isDialogOpen := open;
    }

    /** `addAchievement(lang)` */
    method AddAchievement(lang: Language)
      modifies this
      ensures form == WithAchievements(old(form), lang,
                        AppendTrimmed(Achievements(old(form), lang), old(AchievementInput(lang))))
      ensures AchievementInput(lang) == if IsBlank(old(AchievementInput(lang))) then old(AchievementInput(lang)) else ""
      ensures forall other: Language :: other != lang ==> AchievementInput(other) == old(AchievementInput(other))
      ensures isDialogOpen == old(isDialogOpen) && editingExperience == old(editingExperience)
    {
      var input := AchievementInput(lang);
      if IsBlank(input) {
        return;
      }
      form := WithAchievements(form, lang, AppendTrimmed(Achievements(form, lang), input));
      if lang == En {
        achievementInputEn := "";
      } else {
        achievementInputVi := "";
      }
    }

    /** `removeAchievement(lang, index)` */
    method RemoveAchievement(lang: Language, index: int)
      modifies this
      ensures form == WithAchievements(old(form), lang, WithoutIndex(Achievements(old(form), lang), index))
      ensures achievementInputEn == old(achievementInputEn) && achievementInputVi == old(achievementInputVi)
      ensures isDialogOpen == old(isDialogOpen) && editingExperience == old(editingExperience)
    {
      form := WithAchievements(form, lang, WithoutIndex(Achievements(form, lang), index));
    }

    /** The "current position" switch. */
    method OnIsCurrentChange(checked: bool)
      modifies this
      ensures form == SetCurrent(old(form), checked)
      ensures achievementInputEn == old(achievementInputEn) && achievementInputVi == old(achievementInputVi)
      ensures isDialogOpen == old(isDialogOpen) && editingExperience == old(editingExperience)
    {
      form := SetCurrent(form, checked);
    }

    /** The display-order input: `parseInt(value) || 0`. */
    method OnDisplayOrderChange(parsed: Option<int>)
      modifies this
      ensures form == old(form).(displayOrder := NumberOr(parsed, 0))
      ensures achievementInputEn == old(achievementInputEn) && achievementInputVi == old(achievementInputVi)
      ensures isDialogOpen == old(isDialogOpen) && editingExperience == old(editingExperience)
    {
      form := form.(displayOrder := NumberOr(parsed, 0));
    }

    /** `handleSubmit`; `saveOk` is false when the create or update throws. */
    method HandleSubmit(saveOk: bool) returns (outcome: SubmitOutcome)
      modifies this
      ensures !ExperienceFormComplete(old(form)) ==> outcome == Rejected
      ensures ExperienceFormComplete(old(form)) ==>
        (outcome != Rejected &&
         outcome.request == (if old(editingExperience).Some? then UpdateExperience(old(editingExperience).value.id, old(form))
                             else CreateExperience(old(form))) &&
         (outcome.Saved? <==> saveOk))
      ensures outcome.Saved? ==> !isDialogOpen && editingExperience.None? && form == DefaultExperienceForm()
      ensures !outcome.Saved? ==>
        isDialogOpen == old(isDialogOpen) && editingExperience == old(editingExperience) && form == old(form)
      ensures achievementInputEn == old(achievementInputEn) && achievementInputVi == old(achievementInputVi)
    {
      if !ExperienceFormComplete(form) {
        return Rejected;
      }
      var request := if editingExperience.Some? then UpdateExperience(editingExperience.value.id, form)
                     else CreateExperience(form);
      if !saveOk {
        return SaveFailed(request);
      }
      HandleCloseDialog();
      outcome := Saved(request);
    }
  }
}
