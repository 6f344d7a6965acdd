/** The post-authoring form: its draft state, the default values it mounts
    with, the validation rules registered on its fields, and the two handlers
    that keep the slug in step with the title. */
module PostForm {
  import opened JsText
  import opened Slug

  datatype Option<T> = None | Some(value: T)

  /** The stored post being edited, as far as the form reads it; an attribute
      the backend leaves unset is the empty string. */
  datatype Post = Post(title: string, content: string, status: string, slug: string, featuredImage: string)

  /** The names the form library reports to its watchers. */
  datatype Field = TitleField | ContentField | SlugField | ImageField | StatusField

  /** The entries of the status drop-down. */
  datatype StatusOption = Active | Inactive

  function OptionValue(o: StatusOption): (v: string)
    ensures v in StatusOptions
  {
    match o
    case Active => "active"
    case Inactive => "inactive"
  }

  const StatusOptions: seq<string> := ["active", "inactive"]

  /** A validation failure: which rule failed and the message shown. */
  datatype Error = Required(message: string) | MinLength(message: string)

  /** The form's values. `image` is the file input's list of chosen files;
      `slugError` is the slug field's error as last validated. */
  datatype Draft = Draft(
    title: string,
    content: string,
    status: string,
    slug: string,
    image: seq<string>,
    slugError: Option<Error>)

  /** What the user does to the form. */
  datatype Event =
    | TitleInput(title: string)
    | ContentInput(content: string)
    | StatusSelect(option: StatusOption)
    | ImageSelect(files: seq<string>)
    | SlugInput(typed: string)

  /** The field name a change event is reported under. */
  function NameOf(e: Event): Field {
    match e
    case TitleInput(_) => TitleField
    case ContentInput(_) => ContentField
    case StatusSelect(_) => StatusField
    case ImageSelect(_) => ImageField
    case SlugInput(_) => SlugField
  }

  /** JavaScript's `s || fallback` on a string: an empty string is falsy. */
  function OrElse(s: string, fallback: string): (r: string)
    ensures s != "" ==> r == s
    ensures s == "" ==> r == fallback
  {
    if s != "" then s else fallback
  }

  /** The values the form mounts with. The slug has no default, so it starts
      out empty even when an existing post is edited. */
  function Defaults(post: Option<Post>): Draft {
    match post
    case None => Draft("", "", "active", "", [], None)
    case Some(p) => Draft(OrElse(p.title, ""), OrElse(p.content, ""), OrElse(p.status, "active"), "", [], None)
  }

  // ---------------------------------------------------------------------
  // Validation rules, one per registered field

  const TitleRequired := "Title is required"
  const TitleTooShort := "Title must be at least 3 characters long"
  const SlugRequired := "Slug is required"

  /** `required` with a message, then `minLength: 3`. */
  function TitleRule(title: string): (err: Option<Error>)
    ensures err == None <==> |title| >= 3
    ensures title == "" ==> err == Some(Required(TitleRequired))
    ensures 0 < |title| < 3 ==> err == Some(MinLength(TitleTooShort))
  {
    if title == "" then Some(Required(TitleRequired))
    else if |title| < 3 then Some(MinLength(TitleTooShort))
    else None
  }

  function SlugRule(slug: string): (err: Option<Error>)
    ensures err == None <==> slug != ""
    ensures err != None ==> err == Some(Required(SlugRequired))
  {
    if slug == "" then Some(Required(SlugRequired)) else None
  }

  /** `required: !post`: a file must be chosen unless a post is edited. A
      `required: true` without a message reports the empty message. */
  function ImageRule(files: seq<string>, editing: bool): (err: Option<Error>)
    ensures err == None <==> editing || |files| > 0
  {
    if !editing && |files| == 0 then Some(Required("")) else None
  }

  function StatusRule(status: string): (err: Option<Error>)
    ensures err == None <==> status != ""
  {
    if status == "" then Some(Required("")) else None
  }

  /** The error, if any, the rules report for one field. */
  function FieldError(d: Draft, editing: bool, f: Field): Option<Error> {
    match f
    case TitleField => TitleRule(d.title)
    case ContentField => None
    case SlugField => SlugRule(d.slug)
    case ImageField => ImageRule(d.image, editing)
    case StatusField => StatusRule(d.status)
  }

  predicate Valid(d: Draft, editing: bool) {
    forall f :: FieldError(d, editing, f) == None
  }

  /** The draft passes validation exactly when the title has at least three
      characters, the slug is non-empty, a status is set, and a file is chosen
      or a post is being edited. */
  lemma ValidIff(d: Draft, editing: bool)
    ensures Valid(d, editing) <==>
      |d.title| >= 3 && d.slug != "" && d.status != "" && (editing || |d.image| > 0)
  {
    if Valid(d, editing) {
      assert FieldError(d, editing, TitleField) == None;
      assert FieldError(d, editing, SlugField) == None;
      assert FieldError(d, editing, ImageField) == None;
      assert FieldError(d, editing, StatusField) == None;
    }
  }

  /** Creating a post without choosing a file never passes validation. */
  lemma CreateWithoutImageInvalid(d: Draft)
    requires |d.image| == 0
    ensures !Valid(d, false)
    ensures FieldError(d, false, ImageField) == Some(Required(""))
  {
    assert FieldError(d, false, ImageField) != None;
  }

  /** Neither a fresh form nor a freshly mounted edit form passes validation:
      the slug has no default value. */
  lemma DefaultsInvalid(post: Option<Post>)
    ensures !Valid(Defaults(post), post.Some?)
    ensures FieldError(Defaults(post), post.Some?, SlugField) == Some(Required(SlugRequired))
    ensures Defaults(post).status != ""
  {
    assert FieldError(Defaults(post), post.Some?, SlugField) != None;
  }

  // ---------------------------------------------------------------------
  // Slug synchronisation

  /** `setValue('slug', slugTransform(v), { shouldValidate: true })`: store
      the derived slug and validate the slug field. */
  function SetSlug(d: Draft, v: string): Draft {
    var slug := SlugTransform(Str(v));
    d.(slug := slug, slugError := SlugRule(slug))
  }

  /** The watch subscription: a change reported under the name `title`
      re-derives the slug from the new title; any other name is ignored. */
  function WatchCallback(d: Draft, name: Field): Draft {
    if name == TitleField then SetSlug(d, d.title) else d
  }

  /** One user action: the form library stores the changed value and notifies
      the watch subscription under the field's name. A keystroke in the slug
      box stores the transform of what was typed instead. */
  function Step(d: Draft, e: Event): Draft {
    var stored :=
      match e
      case TitleInput(t) => d.(title := t)
      case ContentInput(c) => d.(content := c)
      case StatusSelect(o) => d.(status := OptionValue(o))
      case ImageSelect(files) => d.(image := files)
      case SlugInput(typed) => SetSlug(d, typed);
    WatchCallback(stored, NameOf(e))
  }

  function Run(d: Draft, events: seq<Event>): Draft
    decreases |events|
  {
    if events == [] then d else Run(Step(d, events[0]), events[1..])
  }

  /** A title change always overwrites the slug with the title's transform
      and validates it; nothing but title, slug and slug error changes. */
  lemma TitleInputRederivesSlug(d: Draft, t: string)
    ensures Step(d, TitleInput(t)).title == t
    ensures Step(d, TitleInput(t)).slug == SlugTransform(Str(t))
    ensures Step(d, TitleInput(t)).slugError == SlugRule(SlugTransform(Str(t)))
    ensures Step(d, TitleInput(t)).(title := d.title, slug := d.slug, slugError := d.slugError) == d
  {
  }

  /** A keystroke in the slug box stores the transform of the typed text;
      nothing but slug and slug error changes. */
  lemma SlugInputStoresTransform(d: Draft, typed: string)
    ensures Step(d, SlugInput(typed)).slug == SlugTransform(Str(typed))
    ensures Step(d, SlugInput(typed)).slugError == SlugRule(SlugTransform(Str(typed)))
    ensures Step(d, SlugInput(typed)).(slug := d.slug, slugError := d.slugError) == d
  {
    assert Step(d, SlugInput(typed)) == SetSlug(d, typed);
  }

  /** Changes to content, status or image leave slug and slug error alone
      and store the new value in their own field only. */
  lemma OtherEventsKeepSlug(d: Draft, e: Event)
    requires !e.TitleInput? && !e.SlugInput?
    ensures Step(d, e).slug == d.slug && Step(d, e).slugError == d.slugError
    ensures Step(d, e).title == d.title
    ensures e.ContentInput? ==> Step(d, e) == d.(content := e.content)
    ensures e.StatusSelect? ==> Step(d, e) == d.(status := OptionValue(e.option))
    ensures e.ImageSelect? ==> Step(d, e) == d.(image := e.files)
  {
  }

  /** There is no override latch: a slug typed by hand is replaced by the
      title's transform as soon as the title changes again. */
  lemma NoOverrideLatch(d: Draft, typed: string, t: string)
    ensures Run(d, [SlugInput(typed), TitleInput(t)]).slug == SlugTransform(Str(t))
  {
    var e := [SlugInput(typed), TitleInput(t)];
    assert e[1..] == [TitleInput(t)];
    assert Run(d, e) == Run(Step(d, SlugInput(typed)), [TitleInput(t)]);
  }

  /** Concretely: the hand-typed slug "!custom" is lost when the title is
      then set to "Hello". */
  lemma ManualSlugLost()
    ensures Run(Defaults(None), [SlugInput("!custom")]).slug == "!custom"
    ensures Run(Defaults(None), [SlugInput("!custom"), TitleInput("Hello")]).slug == "-"
  {
    var d := Defaults(None);
    CustomSlugKept();
    HelloCollapses();
    SingleSlugInput(d, "!custom");
    NoOverrideLatch(d, "!custom", "Hello");
  }

  /** A single keystroke in the slug box stores its transform. */
  lemma SingleSlugInput(d: Draft, typed: string)
    ensures Run(d, [SlugInput(typed)]).slug == SlugTransform(Str(typed))
  {
    assert [SlugInput(typed)][1..] == [];
    assert Run(d, [SlugInput(typed)]) == Step(d, SlugInput(typed));
    SlugInputStoresTransform(d, typed);
  }

  lemma CustomSlugKept()
    ensures SlugTransform(Str("!custom")) == "!custom"
  {
    CustomFacts("!custom");
    FixedPointOf("!custom");
  }

  // Proof scaffolding for CustomSlugKept: the literal's character facts,
  // kept apart so that the goal stays small.
  lemma CustomFacts(x: string)
    requires x == "!custom"
    ensures x != [] && NoWhitespace(x) && NoAsciiUpper(x) && !InLeadingClass(x[0])
  {
  }

  lemma HelloCollapses()
    ensures SlugTransform(Str("Hello")) == "-"
  {
    assert !AllWhitespace("Hello") by {
      assert !IsWhitespace("Hello"[0]);
    }
    PlainTitleCollapses("Hello");
  }

  /** What every reachable draft satisfies: the stored slug is a fixed point
      of the transform, a status is set, and a reported slug error is the
      slug rule's verdict on the current slug. */
  predicate Consistent(d: Draft) {
    IsFixedPoint(d.slug) && d.status != "" &&
    (d.slugError.Some? ==> d.slugError == SlugRule(d.slug))
  }

  lemma DefaultsConsistent(post: Option<Post>)
    ensures Consistent(Defaults(post))
  {
    assert SlugTransform(Str("")) == "";
  }

  lemma StepConsistent(d: Draft, e: Event)
    requires Consistent(d)
    ensures Consistent(Step(d, e))
  {
    match e
    case TitleInput(t) => SetSlugConsistent(d.(title := t), t);
    case SlugInput(typed) => SetSlugConsistent(d, typed);
    case _ =>
  }

  /** Storing a derived slug keeps the draft consistent. */
  lemma SetSlugConsistent(d: Draft, v: string)
    requires d.status != ""
    ensures Consistent(SetSlug(d, v))
  {
    SlugIdempotent(Str(v));
  }

  lemma {:induction false} RunConsistent(d: Draft, events: seq<Event>)
    requires Consistent(d)
    ensures Consistent(Run(d, events))
    decreases |events|
  {
    if events != [] {
      StepConsistent(d, events[0]);
      RunConsistent(Step(d, events[0]), events[1..]);
    }
  }

  /** From mount on, after any sequence of user actions, the stored slug is a
      value the transform leaves unchanged and the status is never empty. */
  lemma ReachableConsistent(post: Option<Post>, events: seq<Event>)
    ensures IsFixedPoint(Run(Defaults(post), events).slug)
    ensures Run(Defaults(post), events).status != ""
  {
    DefaultsConsistent(post);
    RunConsistent(Defaults(post), events);
  }

  /** After a title change the draft is valid exactly when the title has at
      least three characters, not all of them whitespace, and status and
      image rules hold: a title of three blanks passes its own rule but
      leaves the slug empty. */
  lemma ValidAfterTitle(d: Draft, t: string, editing: bool)
    ensures Valid(Step(d, TitleInput(t)), editing) <==>
      |t| >= 3 && !AllWhitespace(t) && d.status != "" && (editing || |d.image| > 0)
  {
    ValidIff(Step(d, TitleInput(t)), editing);
  }

  // ---------------------------------------------------------------------
  // Submission wiring

  /** What pressing the submit button leads to. */
  datatype Outcome =
    | HandlerDiscarded            // nothing validated, `submit` not called
    | Submitted(values: Draft)    // `submit(values)` called
    | Blocked(firstError: Field)  // validation failed, `submit` not called

  /** The form's `onSubmit={handleSubmit}`: the library's `handleSubmit`
      is handed the DOM event as its callback and returns a new handler,
      which nobody calls. */
  function OnSubmitAsWritten(d: Draft, editing: bool): (o: Outcome)
    ensures o == HandlerDiscarded
  {
    HandlerDiscarded
  }

  /** Whatever the draft holds, the form as written never validates on
      submit and never reaches `submit`. */
  lemma SubmitNeverReached(d: Draft, editing: bool)
    ensures !OnSubmitAsWritten(d, editing).Submitted?
    ensures !OnSubmitAsWritten(d, editing).Blocked?
  {
  }

  /** The first field, in registration order, that fails its rule. */
  function FirstError(d: Draft, editing: bool): (f: Field)
    requires !Valid(d, editing)
    ensures FieldError(d, editing, f) != None
  {
    if TitleRule(d.title) != None then TitleField
    else if SlugRule(d.slug) != None then SlugField
    else if ImageRule(d.image, editing) != None then ImageField
    else StatusField
  }

  /** `onSubmit={handleSubmit(submit)}`: validate every field, and call
      `submit` with the values only when all rules pass. */
  function OnSubmit(d: Draft, editing: bool): (o: Outcome)
    ensures o.Submitted? <==> Valid(d, editing)
    ensures o.Submitted? ==> o.values == d
    ensures o.Blocked? ==> FieldError(d, editing, o.firstError) != None
    ensures !o.HandlerDiscarded?
  {
    if Valid(d, editing) then Submitted(d) else Blocked(FirstError(d, editing))
  }

  /** With the handler wired, creating a post without a file is stopped by
      validation and `submit` (and with it every backend call) is not
      reached. */
  lemma CreateWithoutImageBlocked(d: Draft)
    requires |d.image| == 0
    ensures OnSubmit(d, false).Blocked?
  {
    CreateWithoutImageInvalid(d);
  }

  /** On a draft that passes every rule (title "Hello", the slug "-" that
      title derives, status "active", one chosen file, a new post), the
      corrected wiring submits it while the form as written does not. */
  lemma SubmitDiscrepancy()
    ensures var d := Draft("Hello", "", "active", "-", ["cover.png"], None);
      OnSubmit(d, false).Submitted? && !OnSubmitAsWritten(d, false).Submitted?
  {
    var d := Draft("Hello", "", "active", "-", ["cover.png"], None);
    ValidIff(d, false);
  }
}
