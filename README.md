# Portfolio admin core, modelled in Dafny

This project models the logic core of a bilingual (English/Vietnamese)
portfolio site whose admin pages edit projects, experiences, activities,
blog posts, media and footer settings stored in a hosted Postgres backend.
It covers:

- the bilingual field resolvers and the language store (`I18n`);
- the blog access arithmetic and payloads: pagination range, `hasMore`,
  the view counter, the publish toggle, the post/tag link rows (`Blog`);
- the blog admin page: slug generation, tag selection, delete-then-insert
  re-linking of a post's tags, required-field checks and the dialog
  handlers (`BlogManager`);
- the projects, experiences and activities admin pages: form hydration and
  reset, the add/remove list handlers (trimmed append and index filter, or
  untrimmed append and in-place `splice`), the "current position" switch,
  the nullable end date, required-field checks and the save flow
  (`ProjectsManager`, `ExperiencesManager`, `ActivitiesManager`);
- the media library's filter and search, and the upload handlers of the
  library page and of the upload field, with their size ceiling, stored
  extension and video test (`MediaLibrary`, `MediaUpload`, with the shared
  `Storage` steps);
- the settings page: the settings object built from fetched rows, the
  per-key edit, and the sequential upserts that stop at the first error
  (`SettingsManager`);
- the login page's admin check on mount and its login decision flow
  (`Login`).

`Common` holds what several pages share: nullable values, the JavaScript
string operations the pages call (`trim` with the full JavaScript white-space
set, ASCII `toLowerCase`, `includes`, `startsWith`), the two list-filter
idioms, the toggle request of the publish/feature buttons and
`parseInt(x) || d`.

Backend calls are not modelled as network I/O. What a call answers (an
error or not, the returned rows, the id of a created row, the role-check
boolean) is a parameter of the method that makes it. The tables a page
writes (`blog_posts`, `blog_post_tags`, `settings`, the `portfolio-media`
bucket) are objects whose methods change them in place. Page state
(`formData`, dialog flags, list inputs) is a class per page whose handler
methods update its fields.

Behaviours the model keeps, although a reader might not expect them:

- `getBilingualContent` uses `||`, so an empty string falls back to English
  as `null` does.
- `togglePublished` stamps `published_at` on every publish, not only on the
  first one.
- The activities page appends achievements untrimmed and removes them with
  `splice`, which counts a negative index from the end.
- `getPublishedPosts` reports `hasMore` as line 27 computes it, so a last
  page that is exactly full still says there is more (see "## Findings").
- `getPostBySlug` returns the post whether or not its view update goes
  through.

## Model

| member | source | states |
|---|---|---|
| I18n.LanguageStore.constructor | src/lib/i18n.ts:14 | the language starts as English |
| I18n.LanguageStore.SetLanguage | src/lib/i18n.ts:15 | after `setLanguage(l)` the current language is `l` |
| I18n.GetBilingualContent | src/lib/i18n.ts:24-31 | a non-empty requested column is returned as is; otherwise a non-empty English column; otherwise `""` (never null) |
| I18n.GetBilingualArray | src/lib/i18n.ts:34-41 | a present list, even an empty one, is returned as is; only a null or missing column falls back to English, then to `[]` |
| I18n.KeysDiffer | src/lib/i18n.ts:29 | the English and Vietnamese columns of a field are different keys |
| I18n.EnglishIsEnglishColumn | src/lib/i18n.ts:29-30 | in English the result is the English column, or `""` when it is null, missing or empty |
| I18n.ContentSource | src/lib/i18n.ts:30 | a non-empty result is the value of one of the two named columns; the result is empty exactly when neither holds a non-empty string |
| I18n.ContentReadsOnlyItsColumns | src/lib/i18n.ts:29-30 | records that agree on the two named columns resolve to the same text |
| I18n.ArrayReadsOnlyItsColumns | src/lib/i18n.ts:39-40 | records that agree on the two named columns resolve to the same list |
| I18n.ContentAgreesWithNullishWithoutEmptyStrings | src/lib/i18n.ts:30 | `||` agrees with a null-coalescing reference resolver whenever neither column holds `""` |
| I18n.EmptyVietnameseFallsBack | src/lib/i18n.ts:30 | an empty Vietnamese text shows the English text, where null-coalescing would show nothing |
| I18n.EmptyListDoesNotFallBack | src/lib/i18n.ts:40 | an empty Vietnamese list is shown as the empty list; English is not consulted |
| Blog.PageRange | src/lib/supabase/blog.ts:16-17 | the range spans exactly `limit` rows and ends just before `page * limit` |
| Blog.PagesAreContiguous | src/lib/supabase/blog.ts:16-17 | the next page starts right after this page ends: no gap, no overlap |
| Blog.Slice | src/lib/supabase/blog.ts:24 | the rows served for a range are the rows at the range's indices, in order, at most the range's size, none when the range starts past the end |
| Blog.PageRangeNonNegative | src/lib/supabase/blog.ts:16-17 | for pages and limits from 1 the range is a non-empty range of indices from 0 |
| Blog.PageSlice | src/lib/supabase/blog.ts:16-24 | a page never holds more than `limit` rows |
| Blog.HasMoreAsWrittenIff | src/lib/supabase/blog.ts:27 | the flag as written holds exactly when the count is non-zero and `page * limit <= count`, equality included |
| Blog.HasMoreAsWrittenAtExactFill | src/lib/supabase/blog.ts:27 | with exactly `page * limit` rows the flag as written is true although the next page is empty |
| Blog.HasMoreIffNextPageNonEmpty | src/lib/supabase/blog.ts:27 | the corrected flag holds exactly when the next page has rows |
| Blog.GetPublishedPosts | src/lib/supabase/blog.ts:15-28 | a query error gives no page; otherwise at most `limit` posts, a null or zero count gives count 0 and no more pages, a count is passed on, and `hasMore` holds exactly when the count is non-zero and `page * limit <= count`, which agrees with "the next page has rows" except when the rows exactly fill this page |
| Blog.HasMoreAsWritten | src/lib/supabase/blog.ts:27 | the flag line 27 computes; `HasMoreAsWrittenIff` and `HasMoreAsWrittenAtExactFill` state what it means |
| Blog.HasMore | src/lib/supabase/blog.ts:27 | the corrected flag, `to + 1 < count`; `HasMoreIffNextPageNonEmpty` proves it says whether the next page has rows |
| Blog.NextViews | src/lib/supabase/blog.ts:59 | the new view count is the old one plus one, and 1 when it was null |
| Blog.Apply | src/lib/supabase/blog.ts:118-128 | each column the payload names takes the payload's value; every other column keeps its old value |
| Blog.TogglePublishedPayload | src/lib/supabase/blog.ts:141-146 | the payload writes the flag, a timestamp when publishing and null when unpublishing, and nothing else |
| Blog.ToggleTouchesOnlyPublication | src/lib/supabase/blog.ts:141-146 | applied to a post, the toggle sets the flag and the timestamp and leaves every other column unchanged |
| Blog.RepublishRestamps | src/lib/supabase/blog.ts:144 | publishing an already published post replaces its timestamp |
| Blog.ToggleTwice | src/lib/supabase/blog.ts:141-146 | two toggles from the table restore the flag and every other column; the timestamp is the second toggle's, or null |
| Blog.LinkRows | src/lib/supabase/blog.ts:195-196 | one link per tag id, in input order, each carrying the post id |
| Blog.TagIdsOfAppend | src/pages/admin/BlogManager.tsx:58-64 | reading a post's tag ids back distributes over concatenated link tables |
| Blog.LinkRowsRoundTrip | src/lib/supabase/blog.ts:195-196 | reading back the links written for a post gives exactly its tag ids, in order |
| Blog.LinkRowsOtherPost | src/lib/supabase/blog.ts:195-196 | the links written for a post carry no tag for any other post |
| Blog.TagIdsOf | src/pages/admin/BlogManager.tsx:58-64 | the tag ids of a post's links, in row order; `LinkRowsRoundTrip`, `TagIdsOfAppend` and `WithoutPostTagIds` state how writes and deletes change it |
| Blog.PostsByTag | src/lib/supabase/blog.ts:184-192 | the result holds at most one post per link |
| Blog.PostsByTagMembership | src/lib/supabase/blog.ts:184-192 | a post is in the result exactly when some link with the tag points at it and the server returned it |
| Blog.GetPostsByTag | src/lib/supabase/blog.ts:184-192 | a reported error gives no result; otherwise at most one post per link, and a post is in the result exactly when some link with the tag points at it |
| Blog.PostsTable.constructor | src/lib/supabase/blog.ts:45-64 | the table starts with the given rows |
| Blog.PostsTable.GetPostBySlug | src/lib/supabase/blog.ts:45-64 | succeeds exactly when the read reports no error and one published post has the slug, and then returns that row as read; its view count is written as the old one plus one when the uninspected update goes through, and left alone when it fails; when the read fails the table is unchanged |
| Blog.PostsTable.UpdatePost | src/lib/supabase/blog.ts:118-128 | when the call goes through, a known id has the payload applied and the new row returned; an unknown id or a reported error fails and changes nothing |
| Blog.PostsTable.TogglePublished | src/lib/supabase/blog.ts:141-146 | when the call goes through, the row gets the new flag and the matching timestamp; an unknown id or a reported error changes nothing |
| Blog.FetchTwice | src/lib/supabase/blog.ts:56-61 | two fetches of the same published post both return it and add one view per view update that goes through (two, one or none), a null count starting from 0 |
| Blog.PostTagTable.constructor | src/lib/supabase/blog.ts:194-203 | the link table starts with the given links |
| Blog.PostTagTable.DeleteByPost | src/pages/admin/BlogManager.tsx:161-164 | a successful delete removes exactly the post's links; a failed one changes nothing |
| Blog.PostTagTable.Insert | src/pages/admin/BlogManager.tsx:169-171 | a successful insert appends the rows; a failed one changes nothing |
| Blog.PostTagTable.LinkPostToTags | src/lib/supabase/blog.ts:195-203 | on success the links of `LinkRows` are appended; on error the table is unchanged and the failure is reported |
| Blog.WithoutPost | src/pages/admin/BlogManager.tsx:161-164 | deleting never adds links |
| Blog.WithoutPostTagIds | src/pages/admin/BlogManager.tsx:161-164 | after the delete the post has no tags and every other post keeps its own, in order |
| BlogManager.StripDisallowed | src/pages/admin/BlogManager.tsx:73 | keeps only `[\w\s-]` characters; on lower-cased text only slug characters and white space remain; text already made of them is unchanged |
| BlogManager.DashSpaces | src/pages/admin/BlogManager.tsx:74 | the result has no white space; slug characters and white space give only slug characters; text without white space is unchanged; leading white space becomes `-` |
| BlogManager.SquashHyphens | src/pages/admin/BlogManager.tsx:75 | the result never has two hyphens in a row and keeps the absence of white space and the slug alphabet |
| BlogManager.TrimIsNoOp | src/pages/admin/BlogManager.tsx:73-76 | the final `trim` removes nothing: white space has already become `-` |
| BlogManager.SquashIdentity | src/pages/admin/BlogManager.tsx:75 | text without a doubled hyphen is left unchanged by the squash |
| BlogManager.GenerateSlugIsSlug | src/pages/admin/BlogManager.tsx:70-77 | any title gives lower-case ASCII letters, digits, `_` and `-` only, with no two hyphens in a row |
| BlogManager.SlugFixedPoint | src/pages/admin/BlogManager.tsx:70-77 | a slug is its own slug |
| BlogManager.GenerateSlugIdempotent | src/pages/admin/BlogManager.tsx:70-77 | generating a slug twice gives the slug generated once |
| BlogManager.LeadingSpaceBecomesHyphen | src/pages/admin/BlogManager.tsx:73-76 | a title that starts with white space gives a slug that starts with `-` |
| BlogManager.SpacedTitleDashes | src/pages/admin/BlogManager.tsx:74 | the white-space step turns `" a "` into `"-a-"` |
| BlogManager.SpacedTitleExample | src/pages/admin/BlogManager.tsx:70-77 | the slug of `" a "` is `"-a-"`, not `"a"` |
| BlogManager.GenerateSlug | src/pages/admin/BlogManager.tsx:70-77 | the four steps in order; `GenerateSlugIsSlug`, `GenerateSlugIdempotent` and `SlugFixedPoint` state what the result is |
| BlogManager.Untrimmed | src/pages/admin/BlogManager.tsx:72-75 | the slug before its final `trim`; `TrimIsNoOp` proves the `trim` removes nothing from it |
| BlogManager.ToggleTag | src/pages/admin/BlogManager.tsx:196-202 | the id is selected afterwards exactly when it was not before; other ids stay and nothing else enters; an absent id goes at the end |
| BlogManager.ToggleTwiceRestores | src/pages/admin/BlogManager.tsx:196-202 | toggling an unselected id twice restores the selection |
| BlogManager.ToggleKeepsOrder | src/pages/admin/BlogManager.tsx:199 | removing a selected id keeps the other ids in their order |
| BlogManager.RelinkedTagIds | src/pages/admin/BlogManager.tsx:158-176 | both calls succeeding leave the post exactly the selection, in order (none when it is empty); only the delete succeeding leaves it none; only the insert succeeding adds the selection to its old tags; other posts never change |
| BlogManager.Relinked | src/pages/admin/BlogManager.tsx:158-176 | the link table after the delete and the insert, each applied only when it goes through; `RelinkedTagIds` states what the post's tags become |
| BlogManager.PostFormComplete | src/pages/admin/BlogManager.tsx:130 | both titles, the slug and both contents are required |
| BlogManager.TagFormComplete | src/pages/admin/BlogManager.tsx:205 | both tag names and the tag slug are required |
| BlogManager.HydratePostForm | src/pages/admin/BlogManager.tsx:82-97 | required columns are copied; nullable ones become `""` or `false`; a stored non-zero reading time is copied, and a null or zero one becomes 5, so it is never 0 |
| BlogManager.BlogEditor.constructor | src/pages/admin/BlogManager.tsx:27-48 | dialogs closed, nothing edited, nothing selected, the default form and an empty tag form |
| BlogManager.BlogEditor.HandleOpenDialog | src/pages/admin/BlogManager.tsx:79-119 | opens the dialog; an existing post fills the form and keeps the selection; a new post gets the default form and an empty selection |
| BlogManager.BlogEditor.FetchPostTags | src/pages/admin/BlogManager.tsx:50-68 | when editing and the query succeeds, the selection becomes the post's linked tag ids in row order; otherwise it is unchanged |
| BlogManager.BlogEditor.HandleCloseDialog | src/pages/admin/BlogManager.tsx:121-125 | closes the dialog, clears the edited post and the selection, keeps the form |
| BlogManager.BlogEditor.OnTitleEnChange | src/pages/admin/BlogManager.tsx:304-310 | the slug follows the English title only for a new post; when editing it is left alone |
| BlogManager.BlogEditor.OnReadingTimeChange | src/pages/admin/BlogManager.tsx:453 | the reading time becomes the parsed number, or 5 for `NaN` or 0 |
| BlogManager.BlogEditor.OnToggleTag | src/pages/admin/BlogManager.tsx:196-202 | the selection becomes its toggle; nothing else changes |
| BlogManager.BlogEditor.UpdatePostTags | src/pages/admin/BlogManager.tsx:158-176 | the link table ends as the delete-then-insert of the selection, with each call's outcome applied |
| BlogManager.BlogEditor.HandleSubmit | src/pages/admin/BlogManager.tsx:127-156 | an incomplete form makes no call and changes nothing; otherwise an update of the edited post or a create of the form is requested; a failed save leaves everything; a saved post (the edited post's own id on update, the new id on create) is re-linked to the selection and the dialog closes |
| BlogManager.BlogEditor.HandleTogglePublished | src/pages/admin/BlogManager.tsx:188-194 | when the update goes through, the row's flag becomes the negation of the shown flag, null counting as off, its `published_at` the time when publishing and null when unpublishing, and no other column or row changes; a caught error leaves the table as it was |
| BlogManager.BlogEditor.HandleCreateTag | src/pages/admin/BlogManager.tsx:204-217 | a call is made exactly when all three tag fields are filled; a created tag clears the tag form and closes its dialog; otherwise nothing changes |
| ProjectsManager.ApplyForm | src/pages/admin/ProjectsManager.tsx:115-119 | an update keeps the row's id, writes every column from the form so that none is null, and opening the row again gives back exactly the form that was saved |
| ProjectsManager.EditWithoutChangeKeepsRow | src/pages/admin/ProjectsManager.tsx:52-78 | opening a project without nulls and saving it untouched writes back the same row |
| ProjectsManager.NullsBecomeDefaults | src/pages/admin/ProjectsManager.tsx:52-78 | null columns are written back as `""`, `[]`, `false` and `0` |
| ProjectsManager.AllNullHydratesToDefaults | src/pages/admin/ProjectsManager.tsx:52-104 | a project whose nullable columns are all null hydrates to the reset form with its title and slug |
| ProjectsManager.HydrateProjectForm | src/pages/admin/ProjectsManager.tsx:52-78 | the form of a stored project; `ApplyForm`, `EditWithoutChangeKeepsRow` and `AllNullHydratesToDefaults` state how it relates to the row |
| ProjectsManager.ProjectFormComplete | src/pages/admin/ProjectsManager.tsx:109 | both titles and the slug are required |
| ProjectsManager.RemoveAppended | src/pages/admin/ProjectsManager.tsx:160-175 | removing the entry just added restores the list |
| ProjectsManager.ProjectEditor.constructor | src/pages/admin/ProjectsManager.tsx:26-50 | dialog closed, nothing edited, the default form and empty inputs |
| ProjectsManager.ProjectEditor.ResetForm | src/pages/admin/ProjectsManager.tsx:80-104 | the form and both inputs return to their defaults; dialog and edited project are unchanged |
| ProjectsManager.ProjectEditor.SetEditingProject | src/pages/admin/ProjectsManager.tsx:52-78 | a changed project hydrates the form; a change to null resets the form and both inputs; an unchanged value does nothing |
| ProjectsManager.ProjectEditor.HandleEdit | src/pages/admin/ProjectsManager.tsx:131-134 | opens the dialog on the project, with the form hydrated from it when it was not already the one edited |
| ProjectsManager.ProjectEditor.HandleOpenChange | src/pages/admin/ProjectsManager.tsx:214-220 | opening changes nothing else; closing clears the edited project and resets the form and inputs |
| ProjectsManager.ProjectEditor.HandleCancel | src/pages/admin/ProjectsManager.tsx:496 | Cancel only hides the dialog; the edited project and the form stay |
| ProjectsManager.ProjectEditor.AddGalleryUrl | src/pages/admin/ProjectsManager.tsx:160-168 | a blank input is ignored; otherwise the trimmed URL is appended and the input cleared |
| ProjectsManager.ProjectEditor.RemoveGalleryUrl | src/pages/admin/ProjectsManager.tsx:170-175 | only the entry at the index is removed, in order; an index out of range changes nothing |
| ProjectsManager.ProjectEditor.AddTag | src/pages/admin/ProjectsManager.tsx:177-185 | a blank input is ignored; otherwise the trimmed tag is appended, duplicates included, and the input cleared |
| ProjectsManager.ProjectEditor.RemoveTag | src/pages/admin/ProjectsManager.tsx:187-192 | only the tag at the index is removed, in order; an index out of range changes nothing |
| ProjectsManager.ProjectEditor.OnDisplayOrderChange | src/pages/admin/ProjectsManager.tsx:464 | the display order becomes the parsed number, or 0 for `NaN` |
| ProjectsManager.ProjectEditor.HandleSubmit | src/pages/admin/ProjectsManager.tsx:106-129 | no call without both titles and the slug; otherwise an update or a create is requested; success closes the dialog, clears the edited project and resets the form; failure changes nothing |
| ExperiencesManager.HydrateDefaults | src/pages/admin/ExperiencesManager.tsx:47-66 | the five required columns are copied; each of the ten optional columns is copied when present and takes the default form's value when null |
| ExperiencesManager.HydrateExperienceForm | src/pages/admin/ExperiencesManager.tsx:47-66 | the form of a stored experience; `HydrateDefaults` states every field of it |
| ExperiencesManager.ExperienceFormComplete | src/pages/admin/ExperiencesManager.tsx:117 | both titles, both companies and the start date are required |
| ExperiencesManager.WithAchievements | src/pages/admin/ExperiencesManager.tsx:159-163 | only the chosen language's list changes |
| ExperiencesManager.SetCurrent | src/pages/admin/ExperiencesManager.tsx:286 | switching on blanks the end date; switching off keeps it; nothing else changes |
| ExperiencesManager.SwitchOnThenOffClearsEndDate | src/pages/admin/ExperiencesManager.tsx:286 | switching on and off again loses the end date |
| ExperiencesManager.ExperienceEditor.constructor | src/pages/admin/ExperiencesManager.tsx:24-45 | dialog closed, nothing edited, the default form and empty inputs |
| ExperiencesManager.ExperienceEditor.HandleOpenDialog | src/pages/admin/ExperiencesManager.tsx:47-90 | opens the dialog on the hydrated or default form and clears both achievement inputs |
| ExperiencesManager.ExperienceEditor.HandleCloseDialog | src/pages/admin/ExperiencesManager.tsx:92-112 | closes the dialog, clears the edited experience, restores the default form; the inputs stay |
| ExperiencesManager.ExperienceEditor.HandleOpenChange | src/pages/admin/ExperiencesManager.tsx:191 | dismissing the dialog only changes the open flag |
| ExperiencesManager.ExperienceEditor.AddAchievement | src/pages/admin/ExperiencesManager.tsx:155-170 | a blank input is ignored; otherwise that language's trimmed input is appended to that language's list only and that input cleared |
| ExperiencesManager.ExperienceEditor.RemoveAchievement | src/pages/admin/ExperiencesManager.tsx:172-178 | only index `i` of that language's list is removed, in order; the other list is untouched |
| ExperiencesManager.ExperienceEditor.OnIsCurrentChange | src/pages/admin/ExperiencesManager.tsx:286 | the form takes the switch's rule for the end date |
| ExperiencesManager.ExperienceEditor.OnDisplayOrderChange | src/pages/admin/ExperiencesManager.tsx:386 | the display order becomes the parsed number, or 0 for `NaN` |
| ExperiencesManager.ExperienceEditor.HandleSubmit | src/pages/admin/ExperiencesManager.tsx:114-135 | no call unless both titles, both companies and the start date are filled; otherwise an update or a create is requested; success closes and resets; failure changes nothing |
| ActivitiesManager.HydrateActivityForm | src/pages/admin/ActivitiesManager.tsx:68-89 | titles, organizations and start date are copied; end date and both flags are copied as they are, null included; role, description, image and achievements are copied when present and default to `""` and `[]`; the display order defaults to 0 |
| ActivitiesManager.ActivityFormComplete | src/pages/admin/ActivitiesManager.tsx:100 | both titles, both organizations and the start date are required |
| ActivitiesManager.NullFlagsStayNull | src/pages/admin/ActivitiesManager.tsx:84 | a null published flag stays null in the form, unlike the default form's `false` |
| ActivitiesManager.EndDateInput | src/pages/admin/ActivitiesManager.tsx:381 | an empty end-date input is stored as null, never as `""` |
| ActivitiesManager.EndDateRoundTrip | src/pages/admin/ActivitiesManager.tsx:380-381 | showing the end date and typing it back gives it again, except that `""` comes back as null |
| ActivitiesManager.SetFlag | src/pages/admin/ActivitiesManager.tsx:224-233 | storing a switch's value sets that flag column and leaves the other flag and every other column alone |
| ActivitiesManager.SwitchClick | src/pages/admin/ActivitiesManager.tsx:220-233 | the value a click sends is the negation of what the switch shows, the same request as the other pages' toggle buttons |
| ActivitiesManager.SwitchClickTwice | src/pages/admin/ActivitiesManager.tsx:220-233 | one click flips what the switch shows; a second click gives back the row, except that a null flag comes back as `false` |
| ActivitiesManager.WithAchievements | src/pages/admin/ActivitiesManager.tsx:149-153 | only the chosen language's list changes |
| ActivitiesManager.AppendUntrimmed | src/pages/admin/ActivitiesManager.tsx:145-153 | a blank input is ignored; otherwise the input is appended as typed |
| ActivitiesManager.UntrimmedDiffersFromTrimmed | src/pages/admin/ActivitiesManager.tsx:152 | an input with a leading blank is stored differently here than by the trimming pages |
| ActivitiesManager.SpliceStart | src/pages/admin/ActivitiesManager.tsx:165 | the start `splice` uses always lies within the list |
| ActivitiesManager.SplicedOne | src/pages/admin/ActivitiesManager.tsx:164-165 | a start inside the list shortens it by exactly one; a start at the end leaves it unchanged |
| ActivitiesManager.SpliceAgainstFilter | src/pages/admin/ActivitiesManager.tsx:165 | in range, `splice` and the index filter agree; a negative index removes an element counted from the end where the filter removes nothing |
| ActivitiesManager.ShiftedIsRemoved | src/pages/admin/ActivitiesManager.tsx:165 | a list that matches the original before `start` and one place on from it is the original without element `start` |
| ActivitiesManager.ShiftLeft | src/pages/admin/ActivitiesManager.tsx:165 | shifting the array in place leaves, before its last slot, the original without element `start` |
| ActivitiesManager.SpliceOne | src/pages/admin/ActivitiesManager.tsx:164-165 | copying the list into an array and splicing it gives the list `splice(index, 1)` leaves |
| ActivitiesManager.ActivityEditor.constructor | src/pages/admin/ActivitiesManager.tsx:44-66 | dialog closed, nothing edited, the default form and empty inputs |
| ActivitiesManager.ActivityEditor.HandleEdit | src/pages/admin/ActivitiesManager.tsx:68-89 | opens the dialog on the activity's id and its hydrated form; the achievement inputs stay |
| ActivitiesManager.ActivityEditor.ResetForm | src/pages/admin/ActivitiesManager.tsx:121-143 | clears the edited id and restores every field and both achievement inputs |
| ActivitiesManager.ActivityEditor.SetDialogOpen | src/pages/admin/ActivitiesManager.tsx:187 | the Add button, Cancel and dismissing only set the open flag |
| ActivitiesManager.ActivityEditor.AddAchievement | src/pages/admin/ActivitiesManager.tsx:145-160 | a blank input is ignored; otherwise that language's untrimmed input is appended to that language's list only and that input cleared |
| ActivitiesManager.ActivityEditor.RemoveAchievement | src/pages/admin/ActivitiesManager.tsx:162-167 | that language's list becomes what `splice(index, 1)` leaves; the other list is untouched |
| ActivitiesManager.ActivityEditor.OnEndDateChange | src/pages/admin/ActivitiesManager.tsx:381 | the end date becomes the input, or null when it is empty |
| ActivitiesManager.ActivityEditor.HandleSubmit | src/pages/admin/ActivitiesManager.tsx:97-119 | no call unless both titles, both organizations and the start date are filled; otherwise an update of the edited id or a create is requested; success closes and resets; failure changes nothing |
| ActivitiesManager.AddAfterCancelUpdates | src/pages/admin/ActivitiesManager.tsx:187 | editing, cancelling, then Add and save sends an update of the abandoned activity, not a create |
| MediaLibrary.FilteredMedia | src/pages/admin/MediaLibrary.tsx:34-41 | the result is never longer than the list |
| MediaLibrary.MatchesFilter | src/pages/admin/MediaLibrary.tsx:35 | `all`, or a type that starts with the filter; `NullTypeOnlyUnderAll` states the null case |
| MediaLibrary.MatchesSearch | src/pages/admin/MediaLibrary.tsx:36-39 | an empty query, or the query in the file name or either alt text ignoring ASCII case; `SearchIgnoresQueryCase` and `FilenameOccurrenceMatches` state its properties |
| MediaLibrary.FilteredMediaAppend | src/pages/admin/MediaLibrary.tsx:34-41 | filtering distributes over concatenation, so the list's order is kept |
| MediaLibrary.FilteredMediaMembership | src/pages/admin/MediaLibrary.tsx:34-41 | an item is shown exactly when it is in the list and passes both the type filter and the search |
| MediaLibrary.ShowAllIsIdentity | src/pages/admin/MediaLibrary.tsx:35-36 | filter `all` with an empty query shows the whole list |
| MediaLibrary.NullTypeOnlyUnderAll | src/pages/admin/MediaLibrary.tsx:35 | an item without a type shows only under `all`; under `image` the type must start with `image` |
| MediaLibrary.ToLowerIdempotent | src/pages/admin/MediaLibrary.tsx:37-39 | lower-casing twice is lower-casing once |
| MediaLibrary.SearchIgnoresQueryCase | src/pages/admin/MediaLibrary.tsx:37-39 | the search gives the same answer for a query and its lower-case form |
| MediaLibrary.FilenameOccurrenceMatches | src/pages/admin/MediaLibrary.tsx:37 | a file name containing the query anywhere, ignoring case, matches |
| MediaLibrary.MediaLibraryPage.constructor | src/pages/admin/MediaLibrary.tsx:27 | not uploading, nothing recorded |
| MediaLibrary.MediaLibraryPage.CreateRecord | src/pages/admin/MediaLibrary.tsx:74-79 | a successful insert records the new row; a failed one records nothing |
| MediaLibrary.MediaLibraryPage.HandleUpload | src/pages/admin/MediaLibrary.tsx:43-90 | no file, or a file over 10 MB, touches nothing; otherwise the file is stored under a path with its extension, the row is recorded only after a successful upload, and `uploading` is false on every path |
| MediaLibrary.OrphanedUpload | src/pages/admin/MediaLibrary.tsx:62-79 | a failed record after a successful upload leaves the file in the bucket with no row for it |
| MediaUpload.ContainsSuffix | src/components/admin/MediaUpload.tsx:73 | a text contains whatever it ends with |
| MediaUpload.LooksLikeVideo | src/components/admin/MediaUpload.tsx:73 | a substring test for `.mp4`, `.webm` or `.mov`; the video lemmas below state what it detects and what it wrongly detects |
| MediaUpload.VideoSuffixDetected | src/components/admin/MediaUpload.tsx:73 | a URL ending in `.mp4`, `.webm` or `.mov` is seen as a video |
| MediaUpload.VideoPathDetected | src/components/admin/MediaUpload.tsx:41-58 | a stored path with a video extension is seen as a video, whatever prefix the public URL puts before it |
| MediaUpload.VideoExtensionDetected | src/components/admin/MediaUpload.tsx:41-58 | an uploaded file whose name has a video extension is previewed as a video |
| MediaUpload.SubstringFalsePositive | src/components/admin/MediaUpload.tsx:73 | the test is a substring test: `a.movie.png` is seen as a video although its extension is `png` |
| MediaUpload.InitialPreview | src/components/admin/MediaUpload.tsx:25 | the preview starts as the value when it is non-empty, and never as `""` |
| MediaUpload.UploadResult | src/components/admin/MediaUpload.tsx:27-58 | the outcome of the upload handler as a value; `UploadGuards` states its guards |
| MediaUpload.UploadGuards | src/components/admin/MediaUpload.tsx:27-66 | only a present file within the ceiling with a successful upload is stored, under its own extension and with the public URL; a file over the ceiling is always rejected |
| MediaUpload.MediaUploadField.constructor | src/components/admin/MediaUpload.tsx:17-25 | the ceiling is `maxSizeMB`, 10 by default; the preview is the initial one; nothing uploading or reported |
| MediaUpload.MediaUploadField.HandleUpload | src/components/admin/MediaUpload.tsx:27-66 | the outcome is that of the guards; on success the bucket gains the path and the preview and the reported value are the same public URL; otherwise nothing changes; `uploading` is false afterwards |
| MediaUpload.MediaUploadField.HandleRemove | src/components/admin/MediaUpload.tsx:68-71 | the preview becomes null and `""` is reported |
| Storage.TenMegabyteBoundary | src/pages/admin/MediaLibrary.tsx:49 | exactly 10 485 760 bytes pass the 10 MB ceiling and one byte more does not |
| Storage.ExceedsLimit | src/components/admin/MediaUpload.tsx:33 | a file is refused when its size is over `maxMB` mebibytes; `TenMegabyteBoundary` fixes the boundary |
| Storage.FileExtension | src/pages/admin/MediaLibrary.tsx:57 | the extension has no dot and is no longer than the name |
| Storage.ExtensionIsSuffix | src/pages/admin/MediaLibrary.tsx:57 | the extension is what the name ends with, and a dot stands before it unless it is the whole name |
| Storage.NoDotWholeName | src/pages/admin/MediaLibrary.tsx:57 | a name without a dot is its own extension |
| Storage.ExtensionRoundTrip | src/pages/admin/MediaLibrary.tsx:57-58 | the extension of `base.ext` is `ext` when `ext` has no dot |
| Storage.StoragePath | src/pages/admin/MediaLibrary.tsx:57-59 | the stored path keeps the file's extension |
| Storage.Bucket.constructor | src/pages/admin/MediaLibrary.tsx:62-64 | the bucket starts empty |
| Storage.Bucket.Upload | src/pages/admin/MediaLibrary.tsx:62-66 | a successful upload adds the path; a failed one adds nothing |
| SettingsManager.Keys | src/pages/admin/SettingsManager.tsx:52 | the keys are the entries' keys, in entry order |
| SettingsManager.LookupFindsEntry | src/pages/admin/SettingsManager.tsx:45 | a key has a value exactly when it is a key of the object, and the value is the one stored with it |
| SettingsManager.Put | src/pages/admin/SettingsManager.tsx:44-46 | the key gets the value and every other key keeps its own |
| SettingsManager.PutKeys | src/pages/admin/SettingsManager.tsx:44-46 | an existing key keeps its place; a new key goes last |
| SettingsManager.PutKeepsKeysDistinct | src/pages/admin/SettingsManager.tsx:44-46 | setting a key never duplicates a key |
| SettingsManager.BuildSettings | src/pages/admin/SettingsManager.tsx:33-36 | the object the `forEach` builds from the rows; the three `BuildSettings` lemmas state its keys and values |
| SettingsManager.BuildSettingsDistinct | src/pages/admin/SettingsManager.tsx:33-36 | the loaded object never has a key twice |
| SettingsManager.BuildSettingsHasKey | src/pages/admin/SettingsManager.tsx:33-38 | a key is in the loaded object exactly when some returned row carries it; the others are absent, not `""` |
| SettingsManager.BuildSettingsLastRowWins | src/pages/admin/SettingsManager.tsx:34-35 | each key holds `value_en || ''` of the last row that carries it |
| SettingsManager.Payloads | src/pages/admin/SettingsManager.tsx:52-56 | one payload per entry, in entry order, with the key, the value and `Footer setting: <key>`; `value_vi` is never sent |
| SettingsManager.Upserted | src/pages/admin/SettingsManager.tsx:59-61 | one upsert on `key`: the row is replaced or inserted, keeping an existing `value_vi` |
| SettingsManager.ApplyUpserts | src/pages/admin/SettingsManager.tsx:58-64 | the upserts in order; `UpsertsFrame`, `UpsertsStoreEachPayload` and `SaveStoresSettings` state their effect |
| SettingsManager.ApplyUpsertsStep | src/pages/admin/SettingsManager.tsx:58-64 | the upserts of a prefix one longer are those of the prefix followed by one more |
| SettingsManager.UpsertsFrame | src/pages/admin/SettingsManager.tsx:61 | upserts that never name a key leave its row as it was, or absent |
| SettingsManager.UpsertsStoreEachPayload | src/pages/admin/SettingsManager.tsx:61 | after upserts with distinct keys each key's row holds its payload's value and description and keeps the `value_vi` it had |
| SettingsManager.SaveStoresSettings | src/pages/admin/SettingsManager.tsx:52-64 | saving an object stores each entry's value and description under its key and touches no other row |
| SettingsManager.SettingsTable.constructor | src/pages/admin/SettingsManager.tsx:61 | the table starts with the given rows |
| SettingsManager.SettingsTable.Upsert | src/pages/admin/SettingsManager.tsx:59-61 | a successful upsert replaces or inserts the key's row, keeping an existing `value_vi`; a failed one changes nothing |
| SettingsManager.Attempted | src/pages/admin/SettingsManager.tsx:58-64 | fewer upserts than payloads are applied exactly when one of them fails |
| SettingsManager.SettingsPage.constructor | src/pages/admin/SettingsManager.tsx:13-18 | the object starts with the four footer keys, all empty |
| SettingsManager.SettingsPage.LoadSettings | src/pages/admin/SettingsManager.tsx:24-42 | a failed query leaves the object; otherwise it is replaced by the object built from the returned rows, in row order (none for null data) |
| SettingsManager.SettingsPage.HandleInputChange | src/pages/admin/SettingsManager.tsx:44-46 | only the given key changes |
| SettingsManager.SettingsPage.HandleSubmit | src/pages/admin/SettingsManager.tsx:48-70 | the upserts run in entry order up to the first failing one; those before it stay applied, none after it is made, and the failure's index is reported |
| SettingsManager.SuccessfulSaveStoresAll | src/pages/admin/SettingsManager.tsx:52-64 | a save without failure stores every entry's value under its key and leaves every other row alone |
| SettingsManager.LoadThenSave | src/pages/admin/SettingsManager.tsx:24-64 | loading then saving writes for each returned key the value of its last row, and does not create a key no row carried |
| Login.ErrorText | src/pages/admin/Login.tsx:62-63 | the error toast is never empty: the message, or `Login failed` when there is none |
| Login.LoginDecision | src/pages/admin/Login.tsx:33-67 | where the login ends, as a value; the five lemmas below state its cases |
| Login.NavigatesOnlyForAdmins | src/pages/admin/Login.tsx:45-60 | the login navigates exactly when sign-in succeeded with a user and the role check answered true |
| Login.SignInErrorStops | src/pages/admin/Login.tsx:38-63 | a sign-in error shows its message, with no role check, no sign-out and no navigation |
| Login.SignsOutOnlyNonAdmins | src/pages/admin/Login.tsx:53-57 | the user is signed out exactly when the role check answered false |
| Login.RoleErrorKeepsSession | src/pages/admin/Login.tsx:51-63 | a role-check error is reported but neither signs out nor navigates |
| Login.RoleQueryIsOwnAdmin | src/pages/admin/Login.tsx:45-49 | a role check is made exactly when a user signed in, and asks for role `admin` for that user's own id |
| Login.MountNavigates | src/pages/admin/Login.tsx:19-31 | on mount, navigation happens exactly when a session exists and the role check answered true; a role-check error stays on the page |
| Login.LoginPage.constructor | src/pages/admin/Login.tsx:9-13 | not loading, not navigated, nothing asked or shown, with the given session |
| Login.LoginPage.CheckAdminAccess | src/pages/admin/Login.tsx:19-31 | with a session, one role query for its user; navigation as `MountNavigates` says; nothing else changes |
| Login.LoginPage.HandleLogin | src/pages/admin/Login.tsx:33-67 | the role queries, navigation, toasts and session follow the login decision; `loading` is false on every path |
| Login.NonAdminEndsSignedOut | src/pages/admin/Login.tsx:53-57 | a user without the role ends signed out, not navigated and not loading, after one role query for that user |
| Common.LowerChar | src/pages/admin/MediaLibrary.tsx:37 | an ASCII capital maps to its small letter; every other character is unchanged |
| Common.ToLower | src/pages/admin/BlogManager.tsx:72 | lower-casing keeps the length and maps each character on its own |
| Common.SkipLeading | src/pages/admin/ProjectsManager.tsx:161 | the index of the first character that is not white space from a start |
| Common.SkipTrailing | src/pages/admin/ProjectsManager.tsx:161 | the index just after the last character that is not white space in a range |
| Common.Trim | src/pages/admin/ProjectsManager.tsx:161 | the trimmed text is no longer and neither begins nor ends with white space |
| Common.TrimSpec | src/pages/admin/ProjectsManager.tsx:161 | the trimmed text sits in the original with only white space before and after it |
| Common.BlankIffAllWhitespace | src/pages/admin/ExperiencesManager.tsx:157 | `!input.trim()` holds exactly when the input is all white space |
| Common.TrimIdempotent | src/pages/admin/ProjectsManager.tsx:161-164 | trimming twice is trimming once |
| Common.TrimNoWhitespace | src/pages/admin/BlogManager.tsx:76 | a text without white space is its own trim |
| Common.ContainsIffOccurs | src/components/admin/MediaUpload.tsx:73 | `includes` holds exactly when the needle occurs at some position |
| Common.WithoutIndex | src/pages/admin/ProjectsManager.tsx:173 | an index in range removes exactly that element, in order; any other index leaves the list unchanged |
| Common.RemoveAll | src/pages/admin/BlogManager.tsx:199 | the value is gone, every other element stays, nothing new enters; an absent value leaves the list unchanged |
| Common.RemoveAllAppend | src/pages/admin/BlogManager.tsx:199 | removing a value distributes over concatenation, so the rest keep their order |
| Common.AppendTrimmed | src/pages/admin/ProjectsManager.tsx:160-168 | a blank input leaves the list; otherwise the non-empty trimmed input goes at the end with the earlier entries unchanged |
| Common.ToggleRequest | src/pages/admin/ProjectsManager.tsx:144-158 | the value sent is true exactly when the flag is not already true, null counting as off |
| Common.PressTwice | src/pages/admin/ProjectsManager.tsx:550-557 | a press that goes through flips the flag the table shows; two presses give back a stored flag and turn a null one into `false` |
| Common.NumberOr | src/pages/admin/ProjectsManager.tsx:464 | the result is the parsed number when it is a non-zero number, otherwise the default |

## Left out

- Rendering: JSX, routing, the dashboard, navigation and footer components, date formatting for display.
- The backend client and network I/O. For every modelled call, what it answers (a reported error, the rows, a created id, the role answer) is a parameter, as is the outcome of the view update the code does not inspect; server-side filtering, ordering and `.in(...)` key selection are assumed already applied to the rows passed in.
- Concurrency: the read-then-write view counter and the two steps of tag re-linking are modelled sequentially.
- The access modules other than the blog module, the query hooks, `ProfileManager.tsx` and the generated table types (used only as field lists).
- Floating point: `formatFileSize`, and the activities display-order input, whose `parseInt` has no fallback and can store `NaN`.
- Randomness, clocks and browser facilities: the random and time part of upload names is the `stem` parameter, `new Date().toISOString()` is the `now` parameter, and `window.confirm`, the clipboard, `setTimeout` and persisting the language to local storage are left out.
- Full Unicode: `toLowerCase` is modelled on ASCII letters only, so a non-ASCII capital is kept as it is. `\w` is ASCII, as it is in a regular expression without the `u` flag. The white-space set of `\s` and `trim` is modelled in full.
- Toast and console messages, apart from the login page's toasts. This includes the settings save's error text.
- The sign-out call's own result on the login page, which the code does not inspect.
- Delete handlers and the `getFeaturedPosts`, `searchPosts`, `getPostsByCategory`, `getAllPosts`, `createPost`, `deletePost`, tag and unlink calls of the blog module: each is one backend call with no logic of its own.
- The effect on `editingProject` runs when React sees a new value; the model runs it when the value differs, so re-selecting an equal but distinct project object is not distinguished.
- Settings keys that are array indices, which JavaScript orders before other keys; the footer keys are never such keys.
- MediaUpload.MediaUploadField.IsVideo: stated as a predicate without its own contract; the video lemmas above state what it detects.
- MediaLibrary.FilteredMedia: its own contract only bounds the length; membership and order are stated by `FilteredMediaMembership` and `FilteredMediaAppend`.

## Findings

| source | as written | input that shows it | evidently intended | confidence | as-written member | corrected member |
|---|---|---|---|---|---|---|
| src/lib/supabase/blog.ts:27 | `hasMore: count ? to < count : false`, true when `page * limit <= count` | page 1, limit 10, count 10: `to` is 9, `9 < 10` holds, yet page 2 is empty | another page exists exactly when `page * limit < count` | not executed | Blog.HasMoreAsWrittenAtExactFill | Blog.HasMoreIffNextPageNonEmpty |
