# RTN Global admin dashboard: the rules behind the admin screens

This project models, in Dafny, the handler-level rules of the RTN Global
admin dashboard, a React application, and proves properties of them. Each
modelled rule is either a small computation over strings and lists or a
change to a component's state.

- **Blog content tab** (`ContentTab`).
  - The editor's HTML has every `<...>` tag replaced by a space and is split
    on runs of whitespace. The non-empty pieces are the words.
  - The read time is the word count divided by 225, rounded up.
  - A featured image over 5 MiB (`5 * 1024 * 1024` bytes, `BlogImage`) raises
    an alert and is not stored.
  - Removing the image clears the image, its preview and its alt text.
- **Blog create/edit screen** (`CreateBlog`), sharing `Slug` and `TagList`
  with the **basic-details tab** (`BasicDetailsTab`).
  - The slug rule is
    `toLowerCase().replace(/[^a-z0-9]+/g, '-').replace(/^-|-$/g, '')`.
  - The slug is generated from the title only for a new post with a
    non-empty title and an empty slug.
  - The tag list acts as a set of trimmed, non-blank tags. Enter acts as the
    Add button.
  - The category list is the predefined categories followed by the fetched
    ones, duplicates dropped in first-occurrence order.
  - Saving sends a create or an update depending on the route's blog id.
- **Subscription plans** (`SubscriptionPlans`).
  - Toggling a billing cycle never empties the list.
  - Features are added trimmed and removed with `splice(index, 1)`.
  - Field edits are by input name; a dotted name sets one nested price.
  - The six-rule validator fills an errors object field by field and gates
    saving. Saving updates the selected plan or creates a new one.
  - The plan table applies a case-insensitive search filter, then a page
    slice.
  - The yearly-discount badge shows a rounded percentage. Prices are integer
    cents.
- **Job postings** (`JobManagement`).
  - The three list fields can append a blank row, remove a row at an index,
    or set a row at an index.
  - On submit, blank rows are dropped and falsy salary bounds become `null`.
  - Editing a stored posting fills in defaults for the form.
  - A Yup schema gates submitting; the postings table has a search filter.
- **Applications** (`Jobs`).
  - A search predicate filters applications.
  - The status-change dispatch is two-phase for "Interview": choosing it
    opens a dialog, and submitting the dialog sends the request.
  - The query URL is built with `+=`, and the initial tab depends on the
    `jobId` query parameter.
- **Route guard** (`ProtectedRoute`): the four-way decision between loading,
  redirect to login, failure and rendering the children.

`Wrappers`, `Strings` and `Seqs` hold the shared vocabulary:

- `Option`, for JavaScript `null` and `undefined`;
- `trim`, `toLowerCase`, `includes` and decimal rendering;
- `filter`, `[...new Set(..)]`, `splice(start, 1)` (through an array loop)
  and assignment into a copied array.

Each state-holding component is a class whose methods change the
fields the handler sets. A server call becomes the request value the method
returns or parameters carrying the server's answer. Browser values
(`URL.createObjectURL`, the front-end URL) are parameters.

## Model

| member | source | states |
|---|---|---|
| Strings.Trim | src/components/blog/CreateBlog.jsx:140-141 | `trim()` leaves no whitespace at either end |
| Strings.TrimSlice | src/components/blog/CreateBlog.jsx:140-141 | the trimmed text is a slice of the input, and only whitespace lies outside it |
| Strings.TrimEmptyIffBlank | src/components/admin/SubscriptionPlans.jsx:228-229 | `!s.trim()` holds exactly when every character of `s` is whitespace |
| Strings.TrimIdempotent | src/components/blog/CreateBlog.jsx:140-141 | trimming an already trimmed tag or feature changes nothing |
| Strings.LowerStr | src/components/admin/SubscriptionPlans.jsx:283-284 | `toLowerCase` keeps the length and lowers each character |
| Strings.LowerStrIdempotent | src/components/admin/SubscriptionPlans.jsx:283-284 | lowering a lowered string changes nothing |
| Strings.IndexOf | src/components/blog/createBlogTabs/ContentTab.jsx:146 | the result is the first index of the character, or the length when it is absent |
| Strings.IndexOfAfter | src/components/admin/SubscriptionPlans.jsx:160-161 | the first occurrence after a prefix without the character is at the prefix's length |
| Strings.ContainsIffOccurs | src/components/admin/SubscriptionPlans.jsx:283-284 | `includes` holds exactly when the needle occurs at some index |
| Strings.ContainsEmpty | src/components/admin/SubscriptionPlans.jsx:282-285 | the empty search text is contained in every field |
| Strings.NatToString | src/components/admin/Jobs.jsx:96 | the rendering is a non-empty string of digits with no leading zero |
| Strings.ParseNatToString | src/components/admin/Jobs.jsx:96 | the digits rendered for a number read back as that number |
| Seqs.Filter | src/components/blog/CreateBlog.jsx:147 | the result is no longer than the input and keeps only input elements that pass the test |
| Seqs.FilterCount | src/components/blog/CreateBlog.jsx:147 | a value passing the test is kept as often as it occurs, any other value is dropped entirely |
| Seqs.FilterKeeps | src/components/admin/SubscriptionPlans.jsx:282-285 | every input element that passes the test is in the result |
| Seqs.FilterIsSubsequence | src/components/blog/CreateBlog.jsx:147 | the kept elements keep their relative order |
| Seqs.FilterAppend | src/components/admin/JobManagement.jsx:157-159 | filtering a concatenation filters each part |
| Seqs.FilterAll | src/components/admin/JobManagement.jsx:157-159 | a test passed by every element keeps the whole list |
| Seqs.NoDupAppend | src/components/admin/SubscriptionPlans.jsx:197 | appending an absent value to a list without duplicates leaves it without duplicates |
| Seqs.FilterNoDup | src/components/admin/SubscriptionPlans.jsx:191 | filtering a list without duplicates leaves it without duplicates |
| Seqs.NoDupCount | src/components/admin/SubscriptionPlans.jsx:191 | in a list without duplicates each value occurs at most once |
| Seqs.DedupAfterSpec | src/components/blog/CreateBlog.jsx:74 | inserting into a set keeps what it held first, adds no duplicate, and holds exactly the values of both |
| Seqs.DedupAfterAppend | src/components/blog/CreateBlog.jsx:74 | inserting `a` and then `b` is inserting `a + b` |
| Seqs.DedupAfterFresh | src/components/blog/CreateBlog.jsx:74 | inserting only new values appends them unchanged |
| Seqs.DedupAfterSplit | src/components/blog/CreateBlog.jsx:74 | after a fixed prefix, only the values not in the prefix are added, in first-occurrence order |
| Seqs.DedupPrefix | src/components/blog/CreateBlog.jsx:74 | deduplicating a duplicate-free prefix followed by more values keeps the prefix and adds the new values once each |
| Seqs.SpliceStart | src/components/admin/SubscriptionPlans.jsx:218 | the slot `splice` starts at always lies within the array or at its end |
| Seqs.SplicedAt | src/components/admin/SubscriptionPlans.jsx:217-218 | splicing at a valid index removes exactly that element and keeps the others in order; past the end it removes nothing |
| Seqs.SpliceOne | src/components/admin/SubscriptionPlans.jsx:217-218 | copying the array and shifting its tail left over the removed slot gives the spliced list |
| Seqs.AssignAt | src/components/admin/JobManagement.jsx:194-195 | the copy has the same length and differs only at the index, which holds the new value |
| ContentTab.StripTags | src/components/blog/createBlogTabs/ContentTab.jsx:146 | the result is no longer than the content, holds only its characters or spaces, and no `<` is left before a `>` |
| ContentTab.TagBecomesSpace | src/components/blog/createBlogTabs/ContentTab.jsx:146 | a tag without `>` inside becomes exactly one space, whatever follows |
| ContentTab.SplitWs | src/components/blog/createBlogTabs/ContentTab.jsx:148 | `split(/\s+/)` yields at least one piece |
| ContentTab.SplitWsSpec | src/components/blog/createBlogTabs/ContentTab.jsx:148 | no piece holds whitespace, and the pieces with one separator between each two fit in the text |
| ContentTab.TextKept | src/components/blog/createBlogTabs/ContentTab.jsx:146 | text before any `<` passes through unchanged and the rest is stripped on its own |
| ContentTab.UnclosedKept | src/components/blog/createBlogTabs/ContentTab.jsx:146 | content without `>` holds no tag and is left as it is |
| ContentTab.SplitKeepsText | src/components/blog/createBlogTabs/ContentTab.jsx:148 | the pieces joined together are exactly the text's non-whitespace characters, in order |
| ContentTab.ConcatNonEmpty | src/components/blog/createBlogTabs/ContentTab.jsx:148 | dropping empty pieces loses no character |
| ContentTab.WordsKeepText | src/components/blog/createBlogTabs/ContentTab.jsx:148 | the counted words joined together are exactly the text's non-whitespace characters, in order |
| ContentTab.WordCount | src/components/blog/createBlogTabs/ContentTab.jsx:148 | the number of counted words is the number of positions where a non-whitespace character starts the text or follows whitespace |
| ContentTab.ContentWordCount | src/components/blog/createBlogTabs/ContentTab.jsx:143-153 | the stored word count of truthy content is the number of word starts in its tag-stripped text, and falsy content counts 0 |
| ContentTab.ContentMetrics | src/components/blog/createBlogTabs/ContentTab.jsx:143-158 | the word count is the number of words, the read time is the least number of minutes at 225 words a minute that covers them, and falsy content gives 0 and 0 |
| ContentTab.ReadTimeBounds | src/components/blog/createBlogTabs/ContentTab.jsx:152 | no words exactly when no read time, and 1 to 225 words read in exactly one minute |
| ContentTab.NonEmptyPiecesBound | src/components/blog/createBlogTabs/ContentTab.jsx:148 | there are no more non-empty pieces than characters |
| ContentTab.WordsAreTokens | src/components/blog/createBlogTabs/ContentTab.jsx:148 | counted words are non-empty and whitespace-free, and never more than the content's characters |
| ContentTab.StripParagraph | src/components/blog/createBlogTabs/ContentTab.jsx:146 | `<p></p>` becomes two spaces |
| ContentTab.MarkupOnlyCountsNothing | src/components/blog/createBlogTabs/ContentTab.jsx:146-153 | `<p></p>` counts 0 words and 0 minutes |
| ContentTab.StripBreak | src/components/blog/createBlogTabs/ContentTab.jsx:146 | `a<br>b` becomes `a b` |
| ContentTab.TagSeparatesWords | src/components/blog/createBlogTabs/ContentTab.jsx:146-153 | `a<br>b` counts 2 words and 1 minute |
| ContentTab.ContentEditor.constructor | src/components/blog/createBlogTabs/ContentTab.jsx:143-158 | the stored metrics start as those of the initial content, with no image |
| ContentTab.ContentEditor.ChangeContent | src/components/blog/createBlogTabs/ContentTab.jsx:143-158 | after an edit and its effect the stored word count and read time are those of the new content |
| ContentTab.ContentEditor.HandleImageChange | src/components/blog/createBlogTabs/ContentTab.jsx:124-134 | the alert fires exactly for a file over 5 MiB; such a file or no file leaves image and preview as they were, any other file is stored with its object URL |
| ContentTab.ContentEditor.RemoveImage | src/components/blog/createBlogTabs/ContentTab.jsx:136-140 | image, preview and alt text are all cleared, the metrics stay consistent |
| Slug.SkipRun | src/components/blog/CreateBlog.jsx:94 | drops exactly the maximal leading run of characters outside `[a-z0-9]` |
| Slug.Hyphenate | src/components/blog/CreateBlog.jsx:94 | the result holds only `[a-z0-9-]` with no `--`, is empty exactly when the input is, and starts with a hyphen exactly when the input starts outside `[a-z0-9]` |
| Slug.Slugify | src/components/blog/CreateBlog.jsx:92-95 | every slug holds only `[a-z0-9-]`, has no `--` and no hyphen at either end |
| Slug.TrimHyphensSlug | src/components/blog/CreateBlog.jsx:94 | dropping one hyphen at each end of a hyphenated string leaves a well-formed slug |
| Slug.SkipRunKeepsAlnum | src/components/blog/CreateBlog.jsx:94 | skipping a run of other characters loses no letter or digit |
| Slug.HyphenateKeepsAlnum | src/components/blog/CreateBlog.jsx:94 | replacing runs by hyphens keeps the letters and digits, in order |
| Slug.RunHyphen | src/components/blog/CreateBlog.jsx:94 | a whole non-empty run of characters outside `[a-z0-9]` becomes exactly one hyphen |
| Slug.HyphenateAppend | src/components/blog/CreateBlog.jsx:94 | the replacement of two pieces that do not split a run is the two replacements joined |
| Slug.HyphenateSeparator | src/components/blog/CreateBlog.jsx:94 | a word of `[a-z0-9]`, then a run of other characters, then the rest become the word, one hyphen and the replaced rest |
| Slug.TrimHyphensKeepsAlnum | src/components/blog/CreateBlog.jsx:94 | trimming the end hyphens keeps the letters and digits, in order |
| Slug.SlugifyKeepsAlnum | src/components/blog/CreateBlog.jsx:92-95 | the slug holds exactly the letters and digits of the lower-cased title, in order |
| Slug.HyphenateFixed | src/components/blog/CreateBlog.jsx:94 | the run replacement leaves a string already of that shape unchanged |
| Slug.LowerFixed | src/components/blog/CreateBlog.jsx:93 | lowering leaves `[a-z0-9-]` unchanged |
| Slug.SlugFixed | src/components/blog/CreateBlog.jsx:415 | a finished slug is its own slug |
| Slug.SlugifyIdempotent | src/components/blog/CreateBlog.jsx:92-95 | normalising twice is normalising once, so the field sanitiser keeps a generated slug |
| Slug.SlugifyAlnumTitle | src/components/blog/CreateBlog.jsx:92-95 | a lower-case alphanumeric title is its own slug |
| Slug.SlugifyNoAlnumTitle | src/components/blog/CreateBlog.jsx:92-95 | a title without letters or digits has the empty slug |
| Slug.SlugifyWord | src/components/blog/CreateBlog.jsx:92-95 | a word whose lowered characters are letters and digits slugs to its lower-case form |
| Slug.SlugifySeparator | src/components/blog/CreateBlog.jsx:92-95 | between two words each maximal run of other characters becomes exactly one hyphen, and the rest is slugged on its own |
| Slug.SlugifyLeadingRun | src/components/blog/CreateBlog.jsx:92-95 | a run of other characters before the first letter or digit leaves no trace |
| Slug.SlugifyTrailingRun | src/components/blog/CreateBlog.jsx:92-95 | a run of other characters after the last letter or digit leaves no trace |
| Slug.SlugifyHelloWorld | src/components/blog/CreateBlog.jsx:92-95 | `hello world` becomes `hello-world` |
| TagList.AddTagSpec | src/components/blog/CreateBlog.jsx:139-144 | the input is taken exactly when it is not blank and its trimmed text is not a tag; then the trimmed text is appended and the box cleared, otherwise nothing changes |
| TagList.AddTagKeepsValid | src/components/blog/createBlogTabs/BasicDetailsTab.jsx:40-45 | adding keeps the tags free of duplicates and of blank entries |
| TagList.RemoveTagSpec | src/components/blog/createBlogTabs/BasicDetailsTab.jsx:47-49 | the tag is gone, every other tag keeps its number of occurrences and its order, and valid tags stay valid |
| TagList.EnterIsAdd | src/components/blog/createBlogTabs/BasicDetailsTab.jsx:51-56 | Enter does what the Add button does, other keys change nothing, and valid tags stay valid |
| CreateBlog.CategoriesDistinct | src/components/blog/CreateBlog.jsx:32-44 | the predefined categories have no duplicates |
| CreateBlog.MergeCategoriesSpec | src/components/blog/CreateBlog.jsx:74 | the merge is the predefined list followed by the new fetched categories once each in first-occurrence order, has no duplicates and holds exactly both inputs |
| CreateBlog.SlugEffectSpec | src/components/blog/CreateBlog.jsx:90-98 | the slug changes only for a non-empty title, no id and an empty slug; a set slug is never overwritten; when it fires the slug is the title's; a second run changes nothing; slugs stay well formed |
| CreateBlog.SaveTarget | src/components/blog/CreateBlog.jsx:178-190 | an update of `/api/blogs/<id>` exactly when the id is truthy, otherwise a create at `/api/blogs` |
| CreateBlog.BlogForm.constructor | src/components/blog/CreateBlog.jsx:50-64 | empty title, slug, tags and image; the category list is the predefined one |
| CreateBlog.BlogForm.ReceiveCategories | src/components/blog/CreateBlog.jsx:68-79 | a successful fetch stores the merge, a failed one keeps the predefined list |
| CreateBlog.BlogForm.ChangeTitle | src/components/blog/CreateBlog.jsx:389 | the title is set and the slug effect runs; tags stay valid, the slug well formed and the effect settled |
| CreateBlog.BlogForm.ChangeSlug | src/components/blog/CreateBlog.jsx:415 | the sanitised text is stored and the slug effect runs on it |
| CreateBlog.BlogForm.HandleAddTag | src/components/blog/CreateBlog.jsx:139-144 | tags and input become `AddTag` of the old ones, and the tags stay valid |
| CreateBlog.BlogForm.HandleRemoveTag | src/components/blog/CreateBlog.jsx:146-148 | the tags become the old ones without that tag, and stay valid |
| CreateBlog.BlogForm.HandleTagInputKeyDown | src/components/blog/CreateBlog.jsx:150-155 | the default is prevented exactly for Enter, which adds the tag |
| CreateBlog.BlogForm.HandleImageChange | src/components/blog/CreateBlog.jsx:122-132 | an oversized file sets the error message and keeps image and preview; any other file is stored with its object URL; no file changes nothing |
| CreateBlog.BlogForm.RemoveImage | src/components/blog/CreateBlog.jsx:134-137 | image and preview are cleared |
| BasicDetailsTab.BasicDetails.HandleAddTag | src/components/blog/createBlogTabs/BasicDetailsTab.jsx:40-45 | on any tag list, tags and input become `AddTag` of the old ones; valid tags stay valid |
| BasicDetailsTab.BasicDetails.HandleRemoveTag | src/components/blog/createBlogTabs/BasicDetailsTab.jsx:47-49 | on any tag list, the tags become the old ones without that tag, which is absent afterwards; valid tags stay valid |
| BasicDetailsTab.BasicDetails.HandleTagInputKeyDown | src/components/blog/createBlogTabs/BasicDetailsTab.jsx:51-56 | on any tag list, the default is prevented exactly for Enter, which adds the tag; valid tags stay valid |
| BasicDetailsTab.BasicDetails.ChangeSlug | src/components/blog/createBlogTabs/BasicDetailsTab.jsx:142 | the stored slug is well formed and sanitising it again changes nothing |
| SubscriptionPlans.ToggleCycleSpec | src/components/admin/SubscriptionPlans.jsx:185-204 | on a list without duplicates the toggle appends an absent cycle, removes a present one when another remains, keeps the only one, and leaves a non-empty list without duplicates |
| SubscriptionPlans.ToggleCycleNeedsNoDup | src/components/admin/SubscriptionPlans.jsx:188-194 | a list holding one cycle twice is emptied by the toggle, so the guard relies on the list having no duplicates |
| SubscriptionPlans.AddFeatureSpec | src/components/admin/SubscriptionPlans.jsx:206-214 | non-blank input is appended trimmed and the box cleared; blank input changes nothing |
| SubscriptionPlans.SplitDotted | src/components/admin/SubscriptionPlans.jsx:161 | the parent is the text before the first dot |
| SubscriptionPlans.SplitDottedAt | src/components/admin/SubscriptionPlans.jsx:161 | a name with one dot splits into its two sides |
| SubscriptionPlans.SplitDottedJoin | src/components/admin/SubscriptionPlans.jsx:160-161 | `parent.child` with no other dot contains a dot and splits back into parent and child |
| SubscriptionPlans.ApplyInputFrame | src/components/admin/SubscriptionPlans.jsx:157-175 | a dotted name changes only the named price; an undotted one leaves prices, features and billing cycles alone |
| SubscriptionPlans.PriceInput | src/components/admin/SubscriptionPlans.jsx:160-168 | `price.monthly` sets the monthly price, `price.yearly` the yearly one, and the other field is kept |
| SubscriptionPlans.Flag | src/components/admin/SubscriptionPlans.jsx:228 | a failed rule adds its own field with its own message and no other entry |
| SubscriptionPlans.CollectErrors | src/components/admin/SubscriptionPlans.jsx:226-236 | each field has an entry exactly when its rule fails, with that rule's message |
| SubscriptionPlans.FormErrors | src/components/admin/SubscriptionPlans.jsx:225-240 | name and description fail when blank, prices and tier when not positive, features when empty; no error exactly when all six rules hold |
| SubscriptionPlans.FilterPlansSpec | src/components/admin/SubscriptionPlans.jsx:282-285 | exactly the plans whose name or description contains the search ignoring case are kept, as often as before and in order; an empty search keeps all |
| SubscriptionPlans.PageSlice | src/components/admin/SubscriptionPlans.jsx:362 | at most a page of rows, as many as remain from `page * rowsPerPage`, each the row at that offset |
| SubscriptionPlans.PageSliceCovers | src/components/admin/SubscriptionPlans.jsx:362 | with a positive page size every row appears on page `i / rowsPerPage` at position `i % rowsPerPage` |
| SubscriptionPlans.YearlyDiscountSpec | src/components/admin/SubscriptionPlans.jsx:287-293 | 0 unless twelve monthly payments and the yearly price are positive; otherwise the percentage saved rounded to the nearest integer, at most 100; a positive discount means yearly is below twelve monthly payments |
| SubscriptionPlans.PlanEditor.constructor | src/components/admin/SubscriptionPlans.jsx:55-82 | the initial form, page 0, ten rows per page, no errors |
| SubscriptionPlans.PlanEditor.HandleChangePage | src/components/admin/SubscriptionPlans.jsx:101-103 | the page is the new page |
| SubscriptionPlans.PlanEditor.HandleChangeRowsPerPage | src/components/admin/SubscriptionPlans.jsx:105-108 | a new page size starts again at page 0, so the first rows are shown |
| SubscriptionPlans.PlanEditor.OpenAddDialog | src/components/admin/SubscriptionPlans.jsx:110-129 | no plan selected, the empty form, no errors |
| SubscriptionPlans.PlanEditor.OpenEditDialog | src/components/admin/SubscriptionPlans.jsx:131-150 | the plan is selected, the form is a copy of it, no errors |
| SubscriptionPlans.PlanEditor.HandleInputChange | src/components/admin/SubscriptionPlans.jsx:157-175 | the form becomes `ApplyInput` of the old form |
| SubscriptionPlans.PlanEditor.HandleSwitchChange | src/components/admin/SubscriptionPlans.jsx:177-183 | the named switch takes the new value and nothing else changes |
| SubscriptionPlans.PlanEditor.HandleBillingCycleChange | src/components/admin/SubscriptionPlans.jsx:185-204 | only the billing cycles change, by the toggle, and a list without duplicates stays non-empty and without duplicates |
| SubscriptionPlans.PlanEditor.AddFeatureClick | src/components/admin/SubscriptionPlans.jsx:206-214 | features and input become `AddFeature` of the old ones and nothing else in the form changes |
| SubscriptionPlans.PlanEditor.RemoveFeature | src/components/admin/SubscriptionPlans.jsx:216-223 | the features become the spliced list and nothing else changes |
| SubscriptionPlans.PlanEditor.ValidateForm | src/components/admin/SubscriptionPlans.jsx:225-240 | the stored errors name exactly the failed rules with their messages, and the result is true exactly when there are none |
| SubscriptionPlans.PlanEditor.HandleSavePlan | src/components/admin/SubscriptionPlans.jsx:225-254 | the stored errors name exactly the failed rules with their messages and are empty exactly when the form is valid; a request is sent exactly then: an update of the selected plan's path, otherwise a create |
| JobManagement.WithList | src/components/admin/JobManagement.jsx:184 | `setFieldValue` replaces the named list and leaves every other field alone |
| JobManagement.CleanListSpec | src/components/admin/JobManagement.jsx:157-159 | a list keeps exactly its non-blank entries, as often as before and in order, and a list without blanks is kept whole |
| JobManagement.CleanupSpec | src/components/admin/JobManagement.jsx:154-165 | all three lists are cleaned, a salary bound becomes `null` exactly when it is blank or 0 and otherwise its number, and every other field is kept |
| JobManagement.ListOrBlankRow | src/components/admin/JobManagement.jsx:212-214 | never empty: a non-empty list is kept, an empty or missing one becomes one blank row |
| JobManagement.PrepareEditSpec | src/components/admin/JobManagement.jsx:210-221 | every list shows a row, empty or missing lists become `['']`, and currency and display flag default to USD and false |
| JobManagement.EditThenSave | src/components/admin/JobManagement.jsx:210-221 | saving an opened posting unchanged sends its non-blank list entries, and its minimum salary unless that was missing or zero, when it is `null` |
| JobManagement.BlankRowCleans | src/components/admin/JobManagement.jsx:212-214 | the blank row added for an empty list is removed again on submit |
| JobManagement.JobSchemaValidSpec | src/components/admin/JobManagement.jsx:111-129 | the schema holds exactly when the six required texts are non-empty and the description has at least 100 characters |
| JobManagement.InitialValuesRejected | src/components/admin/JobManagement.jsx:132-150 | the initial form fails the schema, the description with "Description is required" |
| JobManagement.FilterJobsSpec | src/components/admin/JobManagement.jsx:267-271 | exactly the postings whose title, department or location contains the search ignoring case are kept, each as often as before, in order; an empty search keeps all |
| JobManagement.JobEditor.constructor | src/components/admin/JobManagement.jsx:132-150 | the initial values, not in edit mode |
| JobManagement.JobEditor.HandleCreateClick | src/components/admin/JobManagement.jsx:199-203 | the form is reset and edit mode is off |
| JobManagement.JobEditor.HandleEditClick | src/components/admin/JobManagement.jsx:205-225 | the posting is selected, edit mode is on, the form is its prepared values and every list shows a row |
| JobManagement.JobEditor.HandleAddArrayField | src/components/admin/JobManagement.jsx:183-185 | exactly one blank entry is appended to the named list and nothing else changes |
| JobManagement.JobEditor.HandleRemoveArrayField | src/components/admin/JobManagement.jsx:187-191 | under the button's guard of two rows or more, the named list becomes its spliced copy and every list still shows a row |
| JobManagement.JobEditor.HandleArrayFieldChange | src/components/admin/JobManagement.jsx:193-197 | only the entry at the index changes, the length stays and the other lists are unchanged |
| JobManagement.JobEditor.Submit | src/components/admin/JobManagement.jsx:152-173 | a request is sent exactly when the schema holds: the cleaned values, to the selected posting's path in edit mode, otherwise a create |
| Jobs.FilterApplicationsSpec | src/components/admin/Jobs.jsx:193-198 | exactly the matching applications are kept, each as often as before, in order; an empty search keeps all |
| Jobs.FindByIdSpec | src/components/admin/Jobs.jsx:126 | nothing is found exactly when no application has the id, otherwise the first that has it is found |
| Jobs.ApplicationsUrlSpec | src/components/admin/Jobs.jsx:96-100 | the URL carries page + 1, the limit and the status, and `&jobId=` last exactly when a job id is given |
| Jobs.InitialTab | src/components/admin/Jobs.jsx:69 | the tab is 0 exactly when a job id is given, 1 otherwise |
| Jobs.ApplicationsScreen.constructor | src/components/admin/Jobs.jsx:56-122 | page 0, ten rows, status "all", no selection, closed dialog, empty interview details, the initial tab |
| Jobs.ApplicationsScreen.ApplicationsRequest | src/components/admin/Jobs.jsx:77-100 | applications are requested exactly on tab 0, with the query URL |
| Jobs.ApplicationsScreen.HandleTabChange | src/components/admin/Jobs.jsx:176-178 | the tab is the new tab |
| Jobs.ApplicationsScreen.HandleStatusChange | src/components/admin/Jobs.jsx:124-141 | "Interview" sends nothing, selects the application and opens the dialog; any other status is sent at once with only the status |
| Jobs.ApplicationsScreen.HandleInterviewSubmit | src/components/admin/Jobs.jsx:143-157 | with an application selected the interview status and details are sent; success closes the dialog and clears date, time and notes, otherwise nothing changes |
| ProtectedRoute.Decide | src/components/common/ProtectedRoute.jsx:4-20 | the outcome is loading exactly while loading; unauthenticated always redirects to login; an authenticated non-admin user on an admin route is redirected to login; a missing user on an admin route fails; children render exactly when authenticated and not admin-only or an admin |
| ProtectedRoute.UserIrrelevantOffAdminRoutes | src/components/common/ProtectedRoute.jsx:15-17 | outside admin-only routes the user record does not affect the outcome |

## Left out

- Rendering, styling, dialogs' open flags other than the interview dialog, snackbars and navigation after saving are UI and are not modelled.
- Network calls are not made: each save or status handler returns the request it would send (path and body), and the server's success or failure is a parameter where it changes state (`Jobs.ApplicationsScreen.HandleInterviewSubmit`). Fetching plans, jobs, applications, the job name and a blog for editing (`fetchBlog`) is not modelled, and neither are the delete dialogs.
- `URL.createObjectURL` and the configured front-end URL are parameters (`objectUrl`, `frontendUrl`); `window.location.href` navigation is the returned `RedirectToLogin` value.
- The Quill editor integration (`imageHandler`, alt-text enforcement), the blog description, content, category and featured fields, the custom-category field, the settings tab and the job details view are not modelled; they hold no rule beyond setting a field.
- `toLowerCase` lowers ASCII letters only, and `trim` and `\s` cover the ASCII whitespace characters (space, tab, line feed, carriage return, vertical tab, form feed); Unicode case mapping and Unicode spaces are not modelled.
- Prices are integer cents and the discount is computed on integers with `Math.round` as `floor(x + 1/2)`; floating point and the `toFixed(2)` display are not modelled.
- SubscriptionPlans.ApplyInput: the input's value arrives already read as text or as an integer (`InputValue`), so JavaScript's string-to-number coercion is not modelled; a name that is not a field of the form, a dotted name other than `price.monthly`/`price.yearly`, or a value of the wrong kind leaves the form unchanged, whereas the JavaScript would add or overwrite a property.
- SubscriptionPlans.PlanEditor.HandleSwitchChange: only the three switches on the form are modelled; any other name leaves the form unchanged, whereas the JavaScript would add that property.
- SubscriptionPlans.FormErrors: the errors object is a map keyed by an enumeration of the six fields; `ErrorKey` gives each field's JavaScript key (`name`, `price.monthly`, …).
- SubscriptionPlans.PlanEditor.HandleChangeRowsPerPage: the new page size is taken as an already parsed natural number; `parseInt` of the select's text is not modelled.
- JobManagement.JobEditor.HandleArrayFieldChange: requires the index to be a row of the list, as it always is for a row on screen; assigning past the end, which in JavaScript would lengthen the array with holes, is not modelled.
- JobManagement: Formik and Yup are not modelled beyond the schema's predicate and messages; an empty string counts as a missing required value, and the salary bounds entered in the form are either blank or a whole number (`SalaryEntry`), of which 0 is falsy and stored as `null` like a blank; a fractional amount such as 1234.5, which a number input delivers and `Number(...)` keeps, is not representable. The job table's status filter, view and featured toggle are not modelled.
- JobManagement.JobSchemaValid: the description's minimum of 100 (src/components/admin/JobManagement.jsx:117), here and in `SchemaError` and `JobSchemaValidSpec`, counts characters, that is Unicode scalar values, while JavaScript's `.length` counts UTF-16 code units; a description of 50 characters outside the Basic Multilingual Plane, such as emoji, is 100 units long and accepted by the source but rejected by the model.
- JobManagement.PrepareEdit and JobManagement.JobEditor.Submit: the posting's other stored fields, which the source spreads into the form with `...job` and into the request body with `...values` (src/components/admin/JobManagement.jsx:154-156, 210-211), are not carried; the model keeps only the form's fields.
- ProtectedRoute.Decide: reading `user.role` of a missing user on an admin-only route throws a `TypeError`; the model returns the outcome `Fails` instead of modelling the exception.
- Jobs.ApplicationsScreen.HandleInterviewSubmit: with no application selected, reading its id throws inside the `try`; the error is caught, so the model sends nothing and changes nothing.
- The table of contents, accessibility audit, autosave and table-menu features have no code in the modelled files and are not modelled.
