# Post form: slug derivation, slug synchronisation and field validation

This project models the post-authoring form of a blogging front end
(`src/components/post-form/PostForm.jsx`). It proves properties of that model.

- **`slugTransform`** (module `Slug`, built on module `JsText`) turns a title into a URL slug.
  - It is a total function on any JavaScript value.
  - A non-string or an empty string gives `""`.
  - Otherwise the string is trimmed and lower-cased. Then one anchored replacement `^[a-zA-Z\d\s]+` → `-` runs, then the per-character replacement `\s` → `-`.
  - Whitespace is the exact ECMAScript `\s`/`trim` set. Lower-casing covers ASCII letters only.
- **Slug synchronisation** (module `PostForm`, functions `Step` and `Run` over a `Draft` record; module `FormObject`, class `Form` with methods that update its fields).
  - A change reported under the name `title` re-derives the slug from the title and validates it.
  - A keystroke in the slug box stores the transform of what was typed.
  - No other change touches the slug.
- **Defaults and validation** (module `PostForm`).
  - The `useForm` default values use JavaScript `||`. The slug has no default.
  - Each registered rule is one function. `Valid` states that every rule passes.
- **Submission wiring.** The form passes `handleSubmit` itself as `onSubmit`, so no validation runs and `submit` is never called (see Findings). The corrected wiring, `handleSubmit(submit)`, is modelled as `OnSubmit`.

Three facts about the code's behaviour stand out, and the model states each of them:

- Only the leading run of letters, digits and whitespace collapses to one hyphen. So `"  My First Post!  "` becomes `"-!"`, and any title made only of letters, digits and spaces, with at least one letter or digit, becomes `"-"`.
- Each remaining whitespace character becomes its own hyphen. Runs of whitespace are not merged: `"a, b  c"` becomes `"-,-b--c"`.
- There is no latch that keeps a slug typed by hand. The next title change overwrites it.

## Model

| member | source | states |
|---|---|---|
| JsText.LeadingWhitespace | src/components/post-form/PostForm.jsx:61 | the count is the length of the maximal whitespace prefix: every character before it is whitespace, the one at it is not |
| JsText.TrailingWhitespace | src/components/post-form/PostForm.jsx:61 | the count is the length of the maximal whitespace suffix |
| JsText.TrimStart | src/components/post-form/PostForm.jsx:61 | the result starts with a non-whitespace character, everything it drops from the front is whitespace, it is empty exactly for all-whitespace input, and it is the input itself when that starts with a non-whitespace character |
| JsText.TrimStartIsSuffix | src/components/post-form/PostForm.jsx:61 | what the start trim keeps is exactly the input's suffix after the dropped whitespace |
| JsText.TrimEnd | src/components/post-form/PostForm.jsx:61 | the result is a prefix of the input ending in a non-whitespace character, everything it drops from the back is whitespace, and it is empty exactly for all-whitespace input |
| JsText.Trim | src/components/post-form/PostForm.jsx:61 | `trim`: the result neither starts nor ends with whitespace, is empty exactly when the input is all whitespace, is never longer, and is the input itself when that has no whitespace at its ends |
| JsText.TrimIsInfix | src/components/post-form/PostForm.jsx:61 | the trimmed text is the infix of the input starting after its leading whitespace, and everything before and after that infix is whitespace; with `Trim`'s own contract this pins `trim` down uniquely |
| JsText.LowerChar | src/components/post-form/PostForm.jsx:62 | an upper-case ASCII letter maps to its lower-case letter; every other character is unchanged; the result is never upper case |
| JsText.ToLower | src/components/post-form/PostForm.jsx:62 | `toLowerCase` keeps the length, lower-cases character by character, and leaves text without upper-case letters unchanged |
| JsText.LeadingRunLength | src/components/post-form/PostForm.jsx:63 | the length of the maximal prefix inside `[a-zA-Z\d\s]` |
| JsText.ReplaceLeadingRun | src/components/post-form/PostForm.jsx:63 | the anchored replacement never lengthens, empties only the empty string, leaves a result that does not start inside the class, adds no upper-case letter, and changes nothing when the text does not start inside the class |
| JsText.ReplaceLeadingRunShape | src/components/post-form/PostForm.jsx:63 | when the text starts inside the class, the maximal leading run is replaced by exactly one `-`, once, and the rest follows unchanged |
| JsText.ReplaceWhitespace | src/components/post-form/PostForm.jsx:64 | the global `\s` replacement keeps the length, turns each whitespace character into one `-`, and keeps every other character |
| JsText.ReplaceWhitespaceLeavesNone | src/components/post-form/PostForm.jsx:64 | no whitespace is left after the replacement |
| Slug.Prepared | src/components/post-form/PostForm.jsx:60-62 | the prepared text has the trimmed text's length, and each of its characters is the lower-cased character of the trimmed text at that position; so it is never longer, is empty exactly for all-whitespace input, and has no upper-case letter |
| Slug.SlugEmptyIff | src/components/post-form/PostForm.jsx:58-68 | the slug is `""` exactly for a non-string, the empty string or an all-whitespace string |
| Slug.SlugNoWhitespace | src/components/post-form/PostForm.jsx:58-68 | the slug never contains whitespace |
| Slug.SlugNoUpper | src/components/post-form/PostForm.jsx:58-68 | the slug never contains an upper-case letter |
| Slug.SlugNotLonger | src/components/post-form/PostForm.jsx:58-68 | the slug of a string is never longer than the string |
| Slug.SlugFirstChar | src/components/post-form/PostForm.jsx:58-68 | a non-empty slug never starts with a letter, a digit or whitespace |
| Slug.SlugOfNonEmpty | src/components/post-form/PostForm.jsx:59-65 | a non-empty string goes through the trim, lower-case and replace chain |
| Slug.SlugOfPrepared | src/components/post-form/PostForm.jsx:60-64 | the slug of a non-empty string is the two replacements applied to `toLowerCase(trim(s))` |
| Slug.PreparedFixed | src/components/post-form/PostForm.jsx:60-62 | text without whitespace or upper-case letters survives trimming and lower-casing unchanged |
| Slug.ReplacedFixed | src/components/post-form/PostForm.jsx:60-64 | such text, when it does not start inside `[a-zA-Z\d\s]`, survives the whole chain unchanged |
| Slug.FixedPointOf | src/components/post-form/PostForm.jsx:58-68 | every non-empty text without whitespace or upper-case letters that does not start inside `[a-zA-Z\d\s]` is kept by the transform |
| Slug.SlugIdempotent | src/components/post-form/PostForm.jsx:58-68 | `slugTransform(slugTransform(v)) == slugTransform(v)` for every value |
| Slug.SlugOfLeadingRun | src/components/post-form/PostForm.jsx:60-64 | when the trimmed input starts with a class run of length k > 0, the slug is `-` followed by the lower-cased rest with each whitespace character turned into `-`; with k = 0 no hyphen is prepended |
| Slug.PlainTitleCollapses | src/components/post-form/PostForm.jsx:60-64 | every title made only of letters, digits and whitespace, not all whitespace, gives the slug `"-"` |
| SlugExamples.SlugOfMyFirstPost | src/components/post-form/PostForm.jsx:58-68 | `"  My First Post!  "` gives `"-!"` |
| SlugExamples.SlugOfCommaTitle | src/components/post-form/PostForm.jsx:58-68 | `"a, b  c"` gives `"-,-b--c"`: whitespace is replaced per character, not per run |
| SlugExamples.TrimOfMyFirstPost | src/components/post-form/PostForm.jsx:61 | trimming `"  My First Post!  "` gives `"My First Post!"` |
| PostForm.OrElse | src/components/post-form/PostForm.jsx:12-14 | JavaScript's logical or on strings: the value when non-empty, otherwise the fallback |
| PostForm.OptionValue | src/components/post-form/PostForm.jsx:130 | every choice of the status drop-down is one of `active` and `inactive` |
| PostForm.TitleRule | src/components/post-form/PostForm.jsx:90-96 | the title passes exactly when it has at least 3 characters; an empty title fails `required` with its message, a shorter one fails `minLength` with its message |
| PostForm.SlugRule | src/components/post-form/PostForm.jsx:103-105 | the slug passes exactly when non-empty, and otherwise fails `required` with its message |
| PostForm.ImageRule | src/components/post-form/PostForm.jsx:118 | the image passes exactly when a post is edited or a file is chosen |
| PostForm.StatusRule | src/components/post-form/PostForm.jsx:133 | the status passes exactly when non-empty |
| PostForm.ValidIff | src/components/post-form/PostForm.jsx:90-133 | the draft is valid exactly when the title has at least 3 characters, the slug and the status are non-empty, and a file is chosen or a post is edited |
| PostForm.CreateWithoutImageInvalid | src/components/post-form/PostForm.jsx:118 | creating a post without a file never validates, and the image field reports `required` |
| PostForm.DefaultsInvalid | src/components/post-form/PostForm.jsx:10-16 | the values a form mounts with never validate, because the slug has no default; the default status is never empty |
| PostForm.TitleInputRederivesSlug | src/components/post-form/PostForm.jsx:71-75 | a title change stores the title, sets the slug to its transform, validates the slug, and changes nothing else |
| PostForm.SlugInputStoresTransform | src/components/post-form/PostForm.jsx:106-108 | a keystroke in the slug box stores the transform of the typed text, validates it, and changes nothing else |
| PostForm.OtherEventsKeepSlug | src/components/post-form/PostForm.jsx:71-75 | content, status and image changes store their own value only and leave title, slug and slug error alone |
| PostForm.NoOverrideLatch | src/components/post-form/PostForm.jsx:70-80 | after a hand-typed slug, the next title change overwrites it with the title's transform |
| PostForm.SingleSlugInput | src/components/post-form/PostForm.jsx:106-108 | one slug keystroke from any draft leaves the transform of the typed text as slug |
| PostForm.ManualSlugLost | src/components/post-form/PostForm.jsx:70-80 | concretely, the typed slug `!custom` is kept, then lost to `-` when the title is set to `Hello` |
| PostForm.DefaultsConsistent | src/components/post-form/PostForm.jsx:10-16 | the mount values satisfy the form invariant (slug a fixed point, status set, slug error current) |
| PostForm.SetSlugConsistent | src/components/post-form/PostForm.jsx:73 | `setValue('slug', slugTransform(v), { shouldValidate: true })` establishes the invariant |
| PostForm.StepConsistent | src/components/post-form/PostForm.jsx:70-80 | every user action preserves the invariant |
| PostForm.RunConsistent | src/components/post-form/PostForm.jsx:70-80 | every sequence of user actions preserves the invariant |
| PostForm.ReachableConsistent | src/components/post-form/PostForm.jsx:70-80 | after any sequence of actions from mount, the stored slug is a fixed point of the transform and the status is set |
| PostForm.ValidAfterTitle | src/components/post-form/PostForm.jsx:71-75 | after a title change the draft is valid exactly when the title has at least 3 characters and is not all whitespace, the status is set, and a file is chosen or a post is edited |
| PostForm.OnSubmitAsWritten | src/components/post-form/PostForm.jsx:84 | with `onSubmit={handleSubmit}` a submit press validates nothing and reaches no `submit` call |
| PostForm.SubmitNeverReached | src/components/post-form/PostForm.jsx:84 | for every draft, the form as written neither submits nor blocks on a failed rule |
| PostForm.FirstError | src/components/post-form/PostForm.jsx:90-133 | for an invalid draft, names a field whose rule fails |
| PostForm.OnSubmit | src/components/post-form/PostForm.jsx:84 | with `handleSubmit(submit)`, `submit` is called exactly when the draft is valid, with the draft's values; otherwise a failing field is reported |
| PostForm.SubmitDiscrepancy | src/components/post-form/PostForm.jsx:84 | on a draft that passes every rule (title `Hello`, slug `-`, status `active`, one file, a new post), the corrected wiring submits it and the form as written does not |
| PostForm.CreateWithoutImageBlocked | src/components/post-form/PostForm.jsx:118 | with the corrected wiring, creating a post without a file is blocked before `submit` |
| FormObject.Form.constructor | src/components/post-form/PostForm.jsx:10-16 | mounting sets the fields to the default values, and `editing` records whether a post was passed |
| FormObject.Form.SetSlugValue | src/components/post-form/PostForm.jsx:73 | `setValue` stores the transform as slug and its validation result, and keeps every other field |
| FormObject.Form.OnWatch | src/components/post-form/PostForm.jsx:71-75 | the watch callback updates the object exactly as `WatchCallback` does |
| FormObject.Form.OnSlugInput | src/components/post-form/PostForm.jsx:106-108 | the slug box's handler updates the object exactly as `SetSlug` does |
| FormObject.Form.Dispatch | src/components/post-form/PostForm.jsx:70-80 | one action updates the object exactly as `Step` does, and preserves the form invariant |
| FormObject.Form.Validate | src/components/post-form/PostForm.jsx:90-133 | the rules pass exactly when the title has at least 3 characters, the slug and the status are non-empty, and a file is chosen or a post is edited |

## Left out

- `submit` (lines 21-55) is not modelled. It is asynchronous network work against a backend SDK: uploading, deleting, creating and updating posts, followed by navigation and logging. Only the point where it would be called is modelled, as `OnSubmit`'s `Submitted` outcome.
- Rendering is not modelled: the JSX layout, the rich-text editor, and the preview image from `getfilePreview` (line 123) are UI and a foreign call.
- The form library's internals are abstracted to "store the value, then notify the watch subscription under the field's name". This covers when validation runs, the `unsubscribe` on unmount (line 78), and error display.
- The order of `onInput` and the library's own change handler on the slug box is not modelled. The model takes the stored slug to be the transformed value that `setValue` writes.
- `src/main.jsx` is not part of this model. It holds a static route table and a DOM render done by the router library.
- An existing post's `slug` is not read into the form. The field has no default, so the model starts it as `""`: both an undefined value and `""` fail `required`.
- Post attributes that the backend leaves unset are modelled as `""`. `||` treats both as falsy.
- JsText.LowerChar: lower-cases ASCII letters only, because Unicode case mapping (locale-independent `toLowerCase` over all of Unicode) is left out. Every property about upper-case letters, and idempotence, therefore holds for that domain only.
- JsText.ToLower: keeps the length only under the ASCII-only lower-casing. In JavaScript some characters lower-case to two code units: `"İ".toLowerCase()` is `"i̇"`.
- Slug.Prepared: "never longer than the input" holds only under the ASCII-only lower-casing, for the same reason.
- Slug.SlugNotLonger: holds only under the ASCII-only lower-casing. In JavaScript `slugTransform("İ")` is `"-\u0307"`, two code units long for a one-character title.
- PostForm.TitleRule: counts `minLength` in Dafny characters (Unicode scalar values), not JavaScript UTF-16 code units. A title with characters outside the Basic Multilingual Plane can have a different length.
- PostForm.ImageRule: models the chosen files as a sequence of names. The browser `FileList` object and the `accept` filter (line 117) are left out.
- PostForm.OnSubmitAsWritten: does not model the native browser form submission. Because no handler cancels the event, a browser may reload the page.

## Findings

| source | as written | input that shows it | evidently intended | confidence | as-written member | corrected member |
|---|---|---|---|---|---|---|
| src/components/post-form/PostForm.jsx:84 | `onSubmit={handleSubmit}` passes the library's `handleSubmit` itself. React then calls it with the submit event as its callback argument. It only returns a new handler, which nobody calls. | Any press of the submit button, for example on a valid draft with title `Hello`, slug `-`, status `active` and a chosen file: no rule runs and `submit` is never called. | `onSubmit={handleSubmit(submit)}`: validate every field, then call `submit` with the values only when all rules pass. | not executed | PostForm.OnSubmitAsWritten (with PostForm.SubmitNeverReached and PostForm.SubmitDiscrepancy) | PostForm.OnSubmit (with PostForm.CreateWithoutImageBlocked) |
