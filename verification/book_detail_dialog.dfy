/**
  The book detail dialog: the description preview, and the comments the
  user saves per book id while the dialog is mounted.
*/
module BookDetailDialog {
  import opened Types
  import opened JsStrings

  // ---------------------------------------------------------------- comments

  /** The comments map after saving `comment` for `bookId`. */
  function SaveComment(comments: map<string, string>, bookId: string, comment: string): (r: map<string, string>)
    ensures r.Keys == comments.Keys + {bookId}
    ensures r[bookId] == comment
    ensures forall k :: k in comments && k != bookId ==> r[k] == comments[k]
  {
    comments[bookId := comment]
  }

  /**
    "Save Comment" is enabled only when the trimmed comment is not empty,
    that is, when it has at least one character that `trim` would keep.
  */
  predicate SaveEnabled(comment: string): (enabled: bool)
    ensures enabled <==> exists i :: 0 <= i < |comment| && !IsWhitespace(comment[i])
  {
    TrimEmptyIffBlank(comment);
    Trim(comment) != ""
  }

  /** The saved comment the dialog shows for a book: only a non-empty one. */
  function ShownComment(comments: map<string, string>, bookId: string): (shown: Option<string>)
    ensures shown.Some? <==> bookId in comments && comments[bookId] != ""
    ensures shown.Some? ==> shown.value == comments[bookId]
  {
    if bookId in comments && comments[bookId] != "" then Some(comments[bookId]) else None
  }

  /** Saving twice for the same book keeps only the later comment. */
  lemma SaveTwiceKeepsLater(comments: map<string, string>, bookId: string, first: string, second: string)
    ensures SaveComment(SaveComment(comments, bookId, first), bookId, second) == SaveComment(comments, bookId, second)
  {
  }

  /** After an enabled save the dialog shows exactly the saved comment. */
  lemma SavedCommentIsShown(comments: map<string, string>, bookId: string, comment: string)
    requires SaveEnabled(comment)
    ensures ShownComment(SaveComment(comments, bookId, comment), bookId) == Some(comment)
  {
  }

  // ---------------------------------------------------------------- description

  const NoDescription := "No description available"

  const PreviewLength: nat := 100

  /** A description that JavaScript treats as truthy: present and not empty. */
  predicate HasDescription(description: Option<string>) {
    description.Some? && description.value != ""
  }

  function Min(a: nat, b: nat): nat {
    if a < b then a else b
  }

  /** The preview: the first 100 characters and "...", or the placeholder when there is no description. */
  function DescriptionPreview(description: Option<string>): (preview: string)
    ensures !HasDescription(description) ==> preview == NoDescription
    ensures HasDescription(description) ==>
      && |preview| == Min(|description.value|, PreviewLength) + 3
      && preview == description.value[..|preview| - 3] + "..."
  {
    if HasDescription(description) then
      description.value[..Min(|description.value|, PreviewLength)] + "..."
    else
      NoDescription
  }

  /** A description of at most 100 characters is shown whole, still followed by "...". */
  lemma ShortDescriptionShownWhole(description: string)
    requires description != "" && |description| <= PreviewLength
    ensures DescriptionPreview(Some(description)) == description + "..."
  {
  }

  /** "See more" is offered exactly when the preview is taken from the description. */
  lemma SeeMoreIffPreviewFromDescription(description: Option<string>)
    ensures HasDescription(description) <==> DescriptionPreview(description) != NoDescription
  {
    if HasDescription(description) {
      var preview := DescriptionPreview(description);
      assert preview[|preview| - 1] == '.';
      assert NoDescription[|NoDescription| - 1] == 'e';
    }
  }

  // ---------------------------------------------------------------- dialog state

  /** The dialog's state: saved comments, the comment being typed, the full-description popup. */
  class DialogState {
    var comments: map<string, string>
    var currentComment: string
    var isDescriptionOpen: bool

    constructor ()
      ensures comments == map[] && currentComment == "" && !isDescriptionOpen
    {
      comments := map[];
      currentComment := "";
      isDescriptionOpen := false;
    }

    /** Typing in the comment box. */
    method SetCurrentComment(text: string)
      modifies this
      ensures currentComment == text
      ensures comments == old(comments) && isDescriptionOpen == old(isDescriptionOpen)
    {
      currentComment := text;
    }

    /** "Save Comment": store the typed comment under the book's id and clear the box. */
    method HandleSaveComment(bookId: string)
      requires SaveEnabled(currentComment)
      modifies this
      ensures comments == SaveComment(old(comments), bookId, old(currentComment))
      ensures currentComment == ""
      ensures isDescriptionOpen == old(isDescriptionOpen)
    {
      comments := SaveComment(comments, bookId, currentComment);
      currentComment := "";
    }

    /** "See more...", offered only for a book with a description. */
    method OpenFullDescription(book: Book)
      requires HasDescription(book.volumeInfo.description)
      modifies this
      ensures isDescriptionOpen
      ensures comments == old(comments) && currentComment == old(currentComment)
    {
      isDescriptionOpen := true;
    }

    /** "Close" on the full description. */
    method CloseFullDescription()
      modifies this
      ensures !isDescriptionOpen
      ensures comments == old(comments) && currentComment == old(currentComment)
    {
      isDescriptionOpen := false;
    }
  }
}
