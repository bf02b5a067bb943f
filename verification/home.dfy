/**
  The home page's favorites: a list of book titles that the star button
  toggles. Absent titles are appended; present ones are removed.
*/
module Home {
  import opened Seqs

  /** No title occurs more than once. */
  ghost predicate NoDuplicates(favorites: seq<string>) {
    forall t :: multiset(favorites)[t] <= 1
  }

  /** The favorites after toggling `title`. */
  function Toggle(favorites: seq<string>, title: string): (r: seq<string>)
    ensures title in r <==> title !in favorites
    ensures forall t :: t != title ==> (t in r <==> t in favorites)
    ensures title !in favorites ==> |r| == |favorites| + 1 && r[..|favorites|] == favorites && r[|favorites|] == title
    ensures title in favorites ==> IsSubsequence(r, favorites)
    ensures title in favorites ==> forall t :: t != title ==> multiset(r)[t] == multiset(favorites)[t]
  {
    if title in favorites then Remove(favorites, title)
    else favorites + [title]
  }

  /** Toggling an absent title twice gives the original list back. */
  lemma ToggleTwiceRestores(favorites: seq<string>, title: string)
    requires title !in favorites
    ensures Toggle(Toggle(favorites, title), title) == favorites
  {
    RemoveAppended(favorites, title);
  }

  /** A toggle keeps a duplicate-free list duplicate-free. */
  lemma ToggleKeepsNoDuplicates(favorites: seq<string>, title: string)
    requires NoDuplicates(favorites)
    ensures NoDuplicates(Toggle(favorites, title))
  {
    if title !in favorites {
      assert multiset(favorites + [title]) == multiset(favorites) + multiset{title};
    }
  }

  /** On a duplicate-free list a toggle changes the count by exactly one. */
  lemma ToggleChangesCountByOne(favorites: seq<string>, title: string)
    requires NoDuplicates(favorites)
    ensures |Toggle(favorites, title)| == if title in favorites then |favorites| - 1 else |favorites| + 1
  {
    if title in favorites {
      assert multiset(favorites)[title] <= 1;
      RemovingSingleTitleShortensByOne(favorites, title);
    }
  }

  lemma RemovingSingleTitleShortensByOne(favorites: seq<string>, title: string)
    requires title in favorites && multiset(favorites)[title] <= 1
    ensures |Toggle(favorites, title)| == |favorites| - 1
  {
    RemoveLength(favorites, title);
  }

  /** The favorites after a series of toggles, first to last. */
  function ToggleAll(favorites: seq<string>, titles: seq<string>): seq<string>
    decreases |titles|
  {
    if titles == [] then favorites else ToggleAll(Toggle(favorites, titles[0]), titles[1..])
  }

  /** Whatever titles are toggled, a list that starts empty never holds a title twice. */
  lemma {:induction false} TogglesFromEmptyHaveNoDuplicates(titles: seq<string>)
    ensures NoDuplicates(ToggleAll([], titles))
  {
    TogglesKeepNoDuplicates([], titles);
  }

  lemma {:induction false} TogglesKeepNoDuplicates(favorites: seq<string>, titles: seq<string>)
    requires NoDuplicates(favorites)
    ensures NoDuplicates(ToggleAll(favorites, titles))
    decreases |titles|
  {
    if titles != [] {
      ToggleKeepsNoDuplicates(favorites, titles[0]);
      TogglesKeepNoDuplicates(Toggle(favorites, titles[0]), titles[1..]);
    }
  }

  /** The page's favorites state and the star button's handler. */
  class HomePage {
    var favorites: seq<string>

    ghost predicate Valid()
      reads this
    {
      NoDuplicates(favorites)
    }

    constructor ()
      ensures Valid() && favorites == []
    {
      favorites := [];
    }

    method HandleFavorite(title: string)
      requires Valid()
      modifies this
      ensures Valid()
      ensures favorites == Toggle(old(favorites), title)
    {
      ToggleKeepsNoDuplicates(favorites, title);
      favorites := Toggle(favorites, title);
    }
  }
}
