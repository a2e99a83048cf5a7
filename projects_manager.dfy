/** The projects admin page (`src/pages/admin/ProjectsManager.tsx`): the
    form state, its hydration from a stored project, the gallery and tag
    lists, the required-field check and the publish/feature toggles. */
module ProjectsManager {
  import opened Common

  /** A row of the `projects` table; nullable columns are options. */
  datatype Project = Project(
    id: string,
    titleEn: string,
    titleVi: string,
    slug: string,
    descriptionEn: Option<string>,
    descriptionVi: Option<string>,
    problemEn: Option<string>,
    problemVi: Option<string>,
    actionEn: Option<string>,
    actionVi: Option<string>,
    resultEn: Option<string>,
    resultVi: Option<string>,
    imageUrl: Option<string>,
    galleryUrls: Option<seq<string>>,
    tags: Option<seq<string>>,
    projectUrl: Option<string>,
    projectDate: Option<string>,
    published: Option<bool>,
    featured: Option<bool>,
    displayOrder: Option<int>)

  /** The form state `formData`. */
  datatype ProjectForm = ProjectForm(
    titleEn: string,
    titleVi: string,
    slug: string,
    descriptionEn: string,
    descriptionVi: string,
    problemEn: string,
    problemVi: string,
    actionEn: string,
    actionVi: string,
    resultEn: string,
    resultVi: string,
    imageUrl: string,
    galleryUrls: seq<string>,
    tags: seq<string>,
    projectUrl: string,
    projectDate: string,
    published: bool,
    featured: bool,
    displayOrder: int)

  function DefaultProjectForm(): ProjectForm {
    ProjectForm("", "", "", "", "", "", "", "", "", "", "", "", [], [], "", "", false, false, 0)
  }

  /** The form the effect on `editingProject` builds: every nullable column
      read with `|| ''`, `|| []`, `|| false` or `|| 0`. */
  function HydrateProjectForm(p: Project): ProjectForm {
    ProjectForm(p.titleEn, p.titleVi, p.slug,
                p.descriptionEn.GetOr(""), p.descriptionVi.GetOr(""),
                p.problemEn.GetOr(""), p.problemVi.GetOr(""),
                p.actionEn.GetOr(""), p.actionVi.GetOr(""),
                p.resultEn.GetOr(""), p.resultVi.GetOr(""),
                p.imageUrl.GetOr(""), p.galleryUrls.GetOr([]), p.tags.GetOr([]),
                p.projectUrl.GetOr(""), p.projectDate.GetOr(""),
                p.published.GetOr(false), p.featured.GetOr(false),
                NumberOr(p.displayOrder, 0))
  }

  /** The row an update with `updates: formData` leaves behind: every
      column is written from the form, none is left null, and opening the
      row again gives back exactly the form that was saved. */
  function ApplyForm(p: Project, f: ProjectForm): (q: Project)
    ensures q.id == p.id
    ensures NoNulls(q)
    ensures HydrateProjectForm(q) == f
  {
    Project(p.id, f.titleEn, f.titleVi, f.slug,
            Some(f.descriptionEn), Some(f.descriptionVi),
            Some(f.problemEn), Some(f.problemVi),
            Some(f.actionEn), Some(f.actionVi),
            Some(f.resultEn), Some(f.resultVi),
            Some(f.imageUrl), Some(f.galleryUrls), Some(f.tags),
            Some(f.projectUrl), Some(f.projectDate),
            Some(f.published), Some(f.featured), Some(f.displayOrder))
  }

  /** No nullable column of the project is null. */
  predicate NoNulls(p: Project) {
    && p.descriptionEn.Some? && p.descriptionVi.Some? && p.problemEn.Some? && p.problemVi.Some?
    && p.actionEn.Some? && p.actionVi.Some? && p.resultEn.Some? && p.resultVi.Some?
    && p.imageUrl.Some? && p.galleryUrls.Some? && p.tags.Some?
    && p.projectUrl.Some? && p.projectDate.Some?
    && p.published.Some? && p.featured.Some? && p.displayOrder.Some?
  }

  /** Opening a project and saving it untouched writes back exactly what was
      stored, as long as nothing in it was null. */
  lemma EditWithoutChangeKeepsRow(p: Project)
    requires NoNulls(p)
    ensures ApplyForm(p, HydrateProjectForm(p)) == p
  {
  }

  /** ... and null columns come back as the form's defaults. */
  lemma NullsBecomeDefaults(p: Project)
    requires p.descriptionEn.None? && p.galleryUrls.None? && p.published.None? && p.displayOrder.None?
    ensures var q := ApplyForm(p, HydrateProjectForm(p));
      && q.descriptionEn == Some("") && q.galleryUrls == Some([])
      && q.published == Some(false) && q.displayOrder == Some(0)
  {
  }

  /** A project whose every nullable column is null hydrates to the default
      form with its three required columns filled in. */
  lemma AllNullHydratesToDefaults(p: Project)
    requires p.descriptionEn.None? && p.descriptionVi.None? && p.problemEn.None?
    requires p.problemVi.None? && p.actionEn.None? && p.actionVi.None? && p.resultEn.None?
    requires p.resultVi.None? && p.imageUrl.None? && p.galleryUrls.None? && p.tags.None?
    requires p.projectUrl.None? && p.projectDate.None? && p.published.None? && p.featured.None?
    requires p.displayOrder.None?
    ensures HydrateProjectForm(p) == DefaultProjectForm().(titleEn := p.titleEn, titleVi := p.titleVi, slug := p.slug)
  {
  }

  /** The fields a project cannot be saved without. */
  predicate ProjectFormComplete(f: ProjectForm) {
    f.titleEn != "" && f.titleVi != "" && f.slug != ""
  }

  /** Removing the entry just added restores the list. */
  lemma {:induction false} RemoveAppended(list: seq<string>, input: string)
    requires !IsBlank(input)
    ensures WithoutIndex(AppendTrimmed(list, input), |list|) == list
  {
    var r := AppendTrimmed(list, input);
    assert r[..|list|] == list;
  }

  /** The backend call a save makes. */
  datatype SaveRequest = UpdateProject(id: string, updates: ProjectForm) | CreateProject(project: ProjectForm)

  datatype SubmitOutcome = Rejected | SaveFailed(request: SaveRequest) | Saved(request: SaveRequest)

  class ProjectEditor {
    var isDialogOpen: bool
    var editingProject: Option<Project>
    var form: ProjectForm
    var galleryInput: string
    var tagInput: string

    constructor ()
      ensures !isDialogOpen && editingProject.None? && form == DefaultProjectForm()
      ensures galleryInput == "" && tagInput == ""
    {
      isDialogOpen := false;
      editingProject := None;
      form := DefaultProjectForm();
      galleryInput, tagInput := "", "";
    }

    /** `resetForm` */
    method ResetForm()
      modifies this
      ensures form == DefaultProjectForm() && galleryInput == "" && tagInput == ""
      ensures isDialogOpen == old(isDialogOpen) && editingProject == old(editingProject)
    {
      form := DefaultProjectForm();
      galleryInput, tagInput := "", "";
    }

    /** `setEditingProject(p)` followed by the effect that watches it: the
        effect runs only when the value changes, hydrating the form from a
        project or resetting it for `null`. */
    method SetEditingProject(p: Option<Project>)
      modifies this
      ensures editingProject == p
      ensures p == old(editingProject) ==>
        form == old(form) && galleryInput == old(galleryInput) && tagInput == old(tagInput)
      ensures p != old(editingProject) && p.Some? ==>
        form == HydrateProjectForm(p.value) && galleryInput == old(galleryInput) && tagInput == old(tagInput)
      ensures p != old(editingProject) && p.None? ==>
        form == DefaultProjectForm() && galleryInput == "" && tagInput == ""
      ensures isDialogOpen == old(isDialogOpen)
    {
      if p != editingProject {
        editingProject := p;
        if p.Some? {
          form := HydrateProjectForm(p.value);
        } else {
          ResetForm();
        }
      }
    }

    /** `handleEdit(project)` */
    method HandleEdit(p: Project)
      modifies this
      ensures isDialogOpen && editingProject == Some(p)
      ensures old(editingProject) != Some(p) ==> form == HydrateProjectForm(p)
      ensures old(editingProject) == Some(p) ==> form == old(form)
      ensures galleryInput == old(galleryInput) && tagInput == old(tagInput)
    {
      SetEditingProject(Some(p));
      isDialogOpen := true;
    }

    /** The dialog's `onOpenChange`: opening (the Add button) only opens;
        closing clears the project being edited and resets the form. */
    method HandleOpenChange(open: bool)
      modifies this
      ensures isDialogOpen == open
      ensures open ==> editingProject == old(editingProject) && form == old(form) &&
                       galleryInput == old(galleryInput) && tagInput == old(tagInput)
      ensures !open ==> editingProject.None? && form == DefaultProjectForm() &&
                        galleryInput == "" && tagInput == ""
    {
      isDialogOpen := open;
      if !open {
        SetEditingProject(None);
        ResetForm();
      }
    }

    /** The Cancel button only hides the dialog: the project being edited and
        the form stay, and the next Add opens on them. */
    method HandleCancel()
      modifies this
      ensures !isDialogOpen && editingProject == old(editingProject) && form == old(form)
      ensures galleryInput == old(galleryInput) && tagInput == old(tagInput)
    {
      isDialogOpen := false;
    }

    /** `addGalleryUrl` */
    method AddGalleryUrl()
      modifies this
      ensures form == old(form).(galleryUrls := AppendTrimmed(old(form).galleryUrls, old(galleryInput)))
      ensures galleryInput == if IsBlank(old(galleryInput)) then old(galleryInput) else ""
      ensures tagInput == old(tagInput) && isDialogOpen == old(isDialogOpen) && editingProject == old(editingProject)
    {
      if !IsBlank(galleryInput) {
        form := form.(galleryUrls := AppendTrimmed(form.galleryUrls, galleryInput));
        galleryInput := "";
      }
    }

    /** `removeGalleryUrl(index)` */
    method RemoveGalleryUrl(index: int)
      modifies this
      ensures form == old(form).(galleryUrls := WithoutIndex(old(form).galleryUrls, index))
      ensures galleryInput == old(galleryInput) && tagInput == old(tagInput)
      ensures isDialogOpen == old(isDialogOpen) && editingProject == old(editingProject)
    {
      form := form.(galleryUrls := WithoutIndex(form.galleryUrls, index));
    }

    /** `addTag`: duplicates are not rejected. */
    method AddTag()
      modifies this
      ensures form == old(form).(tags := AppendTrimmed(old(form).tags, old(tagInput)))
      ensures tagInput == if IsBlank(old(tagInput)) then old(tagInput) else ""
      ensures galleryInput == old(galleryInput) && isDialogOpen == old(isDialogOpen) && editingProject == old(editingProject)
    {
      if !IsBlank(tagInput) {
        form := form.(tags := AppendTrimmed(form.tags, tagInput));
        tagInput := "";
      }
    }

    /** `removeTag(index)` */
    method RemoveTag(index: int)
      modifies this
      ensures form == old(form).(tags := WithoutIndex(old(form).tags, index))
      ensures galleryInput == old(galleryInput) && tagInput == old(tagInput)
      ensures isDialogOpen == old(isDialogOpen) && editingProject == old(editingProject)
    {
      form := form.(tags := WithoutIndex(form.tags, index));
    }

    /** The display-order input: `parseInt(value) || 0`. */
    method OnDisplayOrderChange(parsed: Option<int>)
      modifies this
      ensures form == old(form).(displayOrder := NumberOr(parsed, 0))
      ensures galleryInput == old(galleryInput) && tagInput == old(tagInput)
      ensures isDialogOpen == old(isDialogOpen) && editingProject == old(editingProject)
    {
      form := form.(displayOrder := NumberOr(parsed, 0));
    }

    /** `handleSubmit`; `saveOk` is false when the create or update throws. */
    method HandleSubmit(saveOk: bool) returns (outcome: SubmitOutcome)
      modifies this
      ensures !ProjectFormComplete(old(form)) ==> outcome == Rejected
      ensures ProjectFormComplete(old(form)) ==>
        (outcome != Rejected &&
         outcome.request == (if old(editingProject).Some? then UpdateProject(old(editingProject).value.id, old(form))
                             else CreateProject(old(form))) &&
         (outcome.Saved? <==> saveOk))
      ensures outcome.Saved? ==>
        !isDialogOpen && editingProject.None? && form == DefaultProjectForm() &&
        galleryInput == "" && tagInput == ""
      ensures !outcome.Saved? ==>
        isDialogOpen == old(isDialogOpen) && editingProject == old(editingProject) &&
        form == old(form) && galleryInput == old(galleryInput) && tagInput == old(tagInput)
    {
      if !ProjectFormComplete(form) {
        return Rejected;
      }
      var request := if editingProject.Some? then UpdateProject(editingProject.value.id, form) else CreateProject(form);
      if !saveOk {
        return SaveFailed(request);
      }
      isDialogOpen := false;
      SetEditingProject(None);
      ResetForm();
      outcome := Saved(request);
    }
  }
}
