/**
 * The basic-details tab of the blog editor. It edits the parent's `slug`,
 * `tags` and `tagInput` through setters, with the same tag rules and slug
 * sanitiser as the create/edit screen, both taken from TagList and Slug.
 */
module BasicDetailsTab {
  import opened Strings
  import opened Seqs
  import opened Slug
  import opened TagList

  class BasicDetails {
    var slug: string
    var tags: seq<string>
    var tagInput: string

    /** The tags form a set of real tags. The handlers run on whatever list
        the parent passes and keep this property when it holds. */
    ghost predicate Valid()
      reads this
    {
      ValidTags(tags)
    }

    constructor (slug: string, tags: seq<string>, tagInput: string)
      ensures this.slug == slug && this.tags == tags && this.tagInput == tagInput
    {
      this.slug, this.tags, this.tagInput := slug, tags, tagInput;
    }

    /** `handleAddTag`. */
    method HandleAddTag()
      modifies this`tags, this`tagInput
      ensures TagInput(tags, tagInput) == AddTag(old(TagInput(tags, tagInput)))
      ensures old(Valid()) ==> Valid()
    {
      if Valid() {
        AddTagKeepsValid(TagInput(tags, tagInput));
      }
      var t := Trim(tagInput);
      if t != "" && t !in tags {
        tags := tags + [t];
        tagInput := "";
      }
    }

    /** `handleRemoveTag`: every entry equal to the tag goes, the others keep
        their order. */
    method HandleRemoveTag(tag: string)
      modifies this`tags
      ensures tags == RemoveTag(old(tags), tag) && tag !in tags
      ensures old(Valid()) ==> Valid()
    {
      RemoveTagSpec(tags, tag);
      tags := RemoveTag(tags, tag);
    }

    /** `handleTagInputKeyDown`. */
    method HandleTagInputKeyDown(key: string) returns (prevented: bool)
      modifies this`tags, this`tagInput
      ensures old(Valid()) ==> Valid()
      ensures prevented <==> key == "Enter"
      ensures TagInput(tags, tagInput) == KeyDown(old(TagInput(tags, tagInput)), key)
    {
      prevented := key == "Enter";
      if prevented {
        HandleAddTag();
      }
    }

    /** The slug field's sanitising `onChange`: what it stores is a finished
        slug that sanitising again would not change. */
    method ChangeSlug(value: string)
      modifies this`slug
      ensures slug == Slugify(value)
      ensures IsSlug(slug) && Slugify(slug) == slug
    {
      slug := Slugify(value);
      SlugifyIdempotent(value);
    }
  }
}
