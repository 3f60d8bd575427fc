/**
 * The tag-list rules of the blog editor, written identically in both blog
 * forms: add the trimmed input unless it is blank or already present, remove
 * a tag by value, and let Enter act as the Add button.
 */
module TagList {
  import opened Strings
  import opened Seqs

  /** The tag chips and the text in the tag input box. */
  datatype TagInput = TagInput(tags: seq<string>, input: string)

  /** The list acts as a set of real tags: no duplicates, no blank entry. */
  predicate ValidTags(tags: seq<string>) {
    NoDup(tags) && forall k :: 0 <= k < |tags| ==> !IsBlank(tags[k])
  }

  /** `handleAddTag`. */
  function AddTag(st: TagInput): TagInput {
    var t := Trim(st.input);
    if t != "" && t !in st.tags then TagInput(st.tags + [t], "") else st
  }

  /** `handleRemoveTag`: `tags.filter(tag => tag !== tagToRemove)`. */
  function RemoveTag(tags: seq<string>, tag: string): seq<string> {
    Filter(tags, Other(tag))
  }

  /** `handleTagInputKeyDown`. */
  function KeyDown(st: TagInput, key: string): TagInput {
    if key == "Enter" then AddTag(st) else st
  }

  /**
   * The input is taken exactly when it is not blank and its trimmed text is
   * not a tag yet; then the trimmed text (itself trimmed and not blank) is
   * appended and the box is cleared. Otherwise tags and input stay as they
   * were.
   */
  lemma AddTagSpec(st: TagInput)
    ensures var t := Trim(st.input);
      if !IsBlank(st.input) && t !in st.tags then
        && AddTag(st) == TagInput(st.tags + [t], "")
        && Trim(t) == t && !IsBlank(t)
      else AddTag(st) == st
  {
    TrimEmptyIffBlank(st.input);
    TrimIdempotent(st.input);
    TrimEmptyIffBlank(Trim(st.input));
  }

  /** Adding keeps the list a set of non-blank tags. */
  lemma AddTagKeepsValid(st: TagInput)
    requires ValidTags(st.tags)
    ensures ValidTags(AddTag(st).tags)
  {
    var t := Trim(st.input);
    if t != "" && t !in st.tags {
      TrimEmptyIffBlank(t);
      TrimIdempotent(st.input);
      NoDupAppend(st.tags, t);
    }
  }

  /**
   * Removing deletes every entry equal to the tag and nothing else: the
   * others keep their number of occurrences and their order, and a valid
   * list stays valid.
   */
  lemma RemoveTagSpec(tags: seq<string>, tag: string)
    ensures tag !in RemoveTag(tags, tag)
    ensures forall t :: t != tag ==> multiset(RemoveTag(tags, tag))[t] == multiset(tags)[t]
    ensures SubsequenceOf(RemoveTag(tags, tag), tags)
    ensures ValidTags(tags) ==> ValidTags(RemoveTag(tags, tag))
  {
    var r := RemoveTag(tags, tag);
    forall t | t != tag ensures multiset(r)[t] == multiset(tags)[t] {
      FilterCount(tags, Other(tag), t);
    }
    FilterIsSubsequence(tags, Other(tag));
    if ValidTags(tags) {
      FilterNoDup(tags, Other(tag));
      assert forall k :: 0 <= k < |r| ==> r[k] in r;
    }
  }

  /** Enter behaves exactly like the Add button; any other key changes
      nothing; either way a valid list stays valid. */
  lemma EnterIsAdd(st: TagInput, key: string)
    ensures key == "Enter" ==> KeyDown(st, key) == AddTag(st)
    ensures key != "Enter" ==> KeyDown(st, key) == st
    ensures ValidTags(st.tags) ==> ValidTags(KeyDown(st, key).tags)
  {
    if ValidTags(st.tags) {
      AddTagKeepsValid(st);
    }
  }
}
