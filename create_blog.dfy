/**
 * The blog create/edit screen's own rules: the category list merged from the
 * predefined and fetched categories, the slug generated from the title, the
 * tag list, the featured-image gate, and whether saving creates or updates.
 */
module CreateBlog {
  import opened Wrappers
  import opened Strings
  import opened Seqs
  import opened Slug
  import opened TagList
  import opened BlogImage

  /** The predefined categories, in display order. */
  const Categories: seq<string> := [
    "Web Development", "Digital Marketing", "SEO", "Content Strategy",
    "Design", "Technology", "Business", "News", "Tutorials",
    "Case Studies", "Uncategorized"
  ]

  /** The message shown when the featured image is over the limit. */
  const ImageTooLarge := "Image size should be less than 5MB"

  lemma CategoriesDistinct()
    ensures NoDup(Categories)
  {
  }

  /** `[...new Set([...CATEGORIES, ...fetchedCategories])]`. */
  function MergeCategories(fetched: seq<string>): seq<string> {
    Dedup(Categories + fetched)
  }

  /**
   * The merged list is the predefined categories, in their order, followed
   * by the fetched categories that are new, each once, in the order of their
   * first occurrence; it has no duplicates and holds exactly the categories
   * of both lists.
   */
  lemma MergeCategoriesSpec(fetched: seq<string>)
    ensures MergeCategories(fetched) == Categories + Dedup(Filter(fetched, Absent(Categories)))
    ensures Categories <= MergeCategories(fetched)
    ensures NoDup(MergeCategories(fetched))
    ensures forall c :: c in MergeCategories(fetched) <==> c in Categories || c in fetched
  {
    CategoriesDistinct();
    DedupPrefix(Categories, fetched);
  }

  /** A route parameter counts only when present and non-empty. */
  predicate Truthy(id: Option<string>) {
    id.Some? && id.value != ""
  }

  /**
   * The effect on `[title, id, slug]`: a slug is generated from the title
   * only for a new post whose title is non-empty and whose slug is empty.
   */
  function SlugEffect(title: string, id: Option<string>, slug: string): string {
    if title != "" && !Truthy(id) && slug == "" then Slugify(title) else slug
  }

  /**
   * The effect changes the slug only when the title is non-empty, there is no
   * blog id and the slug is empty, so a slug already set is never
   * overwritten; when it fires the slug is the title's; and once it has run it
   * has nothing left to do, so its own update does not trigger it again.
   */
  lemma SlugEffectSpec(title: string, id: Option<string>, slug: string)
    ensures SlugEffect(title, id, slug) != slug ==> title != "" && !Truthy(id) && slug == ""
    ensures slug != "" ==> SlugEffect(title, id, slug) == slug
    ensures title != "" && !Truthy(id) && slug == "" ==> SlugEffect(title, id, slug) == Slugify(title)
    ensures SlugEffect(title, id, SlugEffect(title, id, slug)) == SlugEffect(title, id, slug)
    ensures IsSlug(slug) ==> IsSlug(SlugEffect(title, id, slug))
  {
  }

  /** The request the save button sends, before any I/O. */
  datatype SaveRequest = Create(path: string) | Update(path: string)

  /** Editing an existing post updates it; otherwise a new post is created. */
  function SaveTarget(id: Option<string>): (r: SaveRequest)
    ensures r.Update? <==> Truthy(id)
    ensures r.Update? ==> r.path == "/api/blogs/" + id.value
    ensures r.Create? ==> r.path == "/api/blogs"
  {
    if Truthy(id) then Update("/api/blogs/" + id.value) else Create("/api/blogs")
  }

  /** The screen's state fields that the modelled handlers touch. */
  class BlogForm {
    const id: Option<string>
    var title: string
    var slug: string
    var tags: seq<string>
    var tagInput: string
    var image: Option<ImageFile>
    var preview: string
    var error: string
    var allCategories: seq<string>

    /** Tags form a set of real tags, the slug is normalised and the slug
        effect has nothing left to do. */
    ghost predicate Valid()
      reads this
    {
      ValidTags(tags) && IsSlug(slug) && SlugEffect(title, id, slug) == slug
    }

    constructor (id: Option<string>)
      ensures Valid() && this.id == id
      ensures title == "" && slug == "" && tags == [] && tagInput == ""
      ensures image == None && preview == "" && error == ""
      ensures allCategories == Categories
    {
      this.id := id;
      title, slug, tags, tagInput := "", "", [], "";
      image, preview, error := None, "", "";
      allCategories := Categories;
    }

    /** The outcome of the category request: on failure the predefined list
        stays. */
    method ReceiveCategories(fetched: Option<seq<string>>)
      modifies this`allCategories
      ensures allCategories == if fetched.Some? then MergeCategories(fetched.value) else old(allCategories)
    {
      if fetched.Some? {
        allCategories := MergeCategories(fetched.value);
      }
    }

    /** The title field's `onChange`, followed by the slug effect. */
    method ChangeTitle(value: string)
      requires Valid()
      modifies this`title, this`slug
      ensures Valid() && title == value
      ensures slug == SlugEffect(value, id, old(slug))
    {
      title := value;
      slug := SlugEffect(title, id, slug);
    }

    /** The slug field's sanitising `onChange`, followed by the slug effect
        (clearing the field lets the title's slug come back). */
    method ChangeSlug(value: string)
      requires Valid()
      modifies this`slug
      ensures Valid()
      ensures slug == SlugEffect(title, id, Slugify(value))
    {
      slug := Slugify(value);
      slug := SlugEffect(title, id, slug);
    }

    /** `handleAddTag`. */
    method HandleAddTag()
      requires Valid()
      modifies this`tags, this`tagInput
      ensures Valid()
      ensures TagInput(tags, tagInput) == AddTag(old(TagInput(tags, tagInput)))
    {
      AddTagKeepsValid(TagInput(tags, tagInput));
      var t := Trim(tagInput);
      if t != "" && t !in tags {
        tags := tags + [t];
        tagInput := "";
      }
    }

    /** `handleRemoveTag`. */
    method HandleRemoveTag(tag: string)
      requires Valid()
      modifies this`tags
      ensures Valid()
      ensures tags == RemoveTag(old(tags), tag)
    {
      RemoveTagSpec(tags, tag);
      tags := RemoveTag(tags, tag);
    }

    /** `handleTagInputKeyDown`: Enter is taken over (the default is
        prevented) and adds the tag. */
    method HandleTagInputKeyDown(key: string) returns (prevented: bool)
      requires Valid()
      modifies this`tags, this`tagInput
      ensures Valid()
      ensures prevented <==> key == "Enter"
      ensures TagInput(tags, tagInput) == KeyDown(old(TagInput(tags, tagInput)), key)
    {
      prevented := key == "Enter";
      if prevented {
        HandleAddTag();
      }
    }

    /**
     * `handleImageChange`: no file changes nothing; a file over the limit
     * sets the error and keeps the image; otherwise the file and its object
     * URL (supplied by the browser) are stored.
     */
    method HandleImageChange(file: Option<ImageFile>, objectUrl: string)
      modifies this`image, this`preview, this`error
      ensures file.None? ==> image == old(image) && preview == old(preview) && error == old(error)
      ensures file.Some? && !WithinSizeLimit(file.value) ==>
        image == old(image) && preview == old(preview) && error == ImageTooLarge
      ensures file.Some? && WithinSizeLimit(file.value) ==>
        image == file && preview == objectUrl && error == old(error)
    {
      if file.Some? {
        if file.value.size > MaxImageBytes {
          error := ImageTooLarge;
          return;
        }
        image := file;
        preview := objectUrl;
      }
    }

    /** `removeImage`. */
    method RemoveImage()
      modifies this`image, this`preview
      ensures image == None && preview == ""
    {
      image := None;
      preview := "";
    }
  }
}
