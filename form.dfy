/** The mounted form as the form library holds it: one object whose fields
    the change handlers, the watch subscription and `setValue` update. */
module FormObject {
  import opened JsText
  import opened Slug
  import opened PostForm

  /** The form library's state for one mounted form. */
  class Form {
    var title: string
    var content: string
    var status: string
    var slug: string
    var image: seq<string>
    var slugError: Option<Error>
    const editing: bool

    function Values(): Draft
      reads this
    {
      Draft(title, content, status, slug, image, slugError)
    }

    /** Mount: `useForm({ defaultValues })`, with `editing` meaning a post
        was passed in. */
    constructor (post: Option<Post>)
      ensures Values() == Defaults(post)
      ensures editing == post.Some?
    {
      var d := Defaults(post);
      title, content, status, slug, image, slugError := d.title, d.content, d.status, d.slug, d.image, d.slugError;
      editing := post.Some?;
    }

    /** `setValue('slug', slugTransform(v), { shouldValidate: true })`. */
    method SetSlugValue(v: string)
      modifies this
      ensures slug == SlugTransform(Str(v)) && slugError == SlugRule(slug)
      ensures title == old(title)
      ensures content == old(content)
      ensures status == old(status)
      ensures image == old(image)
    {
      var derived := SlugTransform(Str(v));
      slug, slugError := derived, SlugRule(derived);
    }

    /** The watch subscription's callback. */
    method OnWatch(name: Field)
      modifies this
      ensures Values() == WatchCallback(old(Values()), name)
    {
      if name == TitleField {
        SetSlugValue(title);
      }
    }

    /** The slug box's `onInput` handler. */
    method OnSlugInput(typed: string)
      modifies this
      ensures Values() == SetSlug(old(Values()), typed)
    {
      SetSlugValue(typed);
    }

    /** One user action: store the changed value, then notify the watch. */
    method Dispatch(e: Event)
      modifies this
      ensures Values() == Step(old(Values()), e)
      ensures Consistent(old(Values())) ==> Consistent(Values())
    {
      ghost var before := Values();
      if Consistent(before) {
        StepConsistent(before, e);
      }
      match e {
        case TitleInput(t) => title := t;
        case ContentInput(c) => content := c;
        case StatusSelect(o) => status := OptionValue(o);
        case ImageSelect(files) => image := files;
        case SlugInput(typed) => OnSlugInput(typed);
      }
      OnWatch(NameOf(e));
    }

    /** Evaluate the registered rules on the current values. */
    method Validate() returns (ok: bool)
      ensures ok <==> |title| >= 3 && slug != "" && status != "" && (editing || |image| > 0)
      ensures ok <==> Valid(Values(), editing)
    {
      ValidIff(Values(), editing);
      ok := TitleRule(title) == None && SlugRule(slug) == None &&
            ImageRule(image, editing) == None && StatusRule(status) == None;
    }
  }
}
