/**
 * The session-wide favorites store: an ordered list of job references that
 * starts empty and changes only by appending an entry or by dropping the
 * entry at a given position.
 */
module FavoritesContext {

  /** The reduced projection of a job that the store keeps. */
  datatype FavoriteJob = FavoriteJob(id: string, title: string, company: string)

  /**
   * The list that remains after filtering out every element whose position
   * equals `index`, visiting positions from the first to the last. `index`
   * is any number: a negative one (the -1 a failed search returns) or one
   * past the end matches no position.
   */
  function WithoutIndex<T>(s: seq<T>, index: int): (r: seq<T>)
    ensures |r| == if 0 <= index < |s| then |s| - 1 else |s|
  {
    if |s| == 0 then []
    else WithoutIndex(s[..|s| - 1], index) + (if |s| - 1 == index then [] else [s[|s| - 1]])
  }

  /** Filtering out a position inside the list removes exactly that entry. */
  lemma {:induction false} WithoutIndexInRange<T>(s: seq<T>, index: int)
    requires 0 <= index < |s|
    ensures WithoutIndex(s, index) == s[..index] + s[index + 1..]
  {
    var n := |s| - 1;
    if index == n {
      WithoutIndexOutOfRange(s[..n], index);
      assert s[..index] + s[index + 1..] == s[..n];
    } else {
      WithoutIndexInRange(s[..n], index);
      assert s[..n][..index] == s[..index];
      assert s[..n][index + 1..] + [s[n]] == s[index + 1..];
    }
  }

  /** Filtering out a position outside the list leaves it unchanged. */
  lemma {:induction false} WithoutIndexOutOfRange<T>(s: seq<T>, index: int)
    requires index < 0 || |s| <= index
    ensures WithoutIndex(s, index) == s
  {
    if |s| > 0 {
      var n := |s| - 1;
      WithoutIndexOutOfRange(s[..n], index);
      assert s[..n] + [s[n]] == s;
    }
  }

  /** Removing the position an append just filled gives back the old list. */
  lemma AddThenRemoveRestores(favorites: seq<FavoriteJob>, job: FavoriteJob)
    ensures WithoutIndex(favorites + [job], |favorites|) == favorites
  {
    WithoutIndexInRange(favorites + [job], |favorites|);
    assert (favorites + [job])[..|favorites|] == favorites;
  }

  /** The store's state cell, created empty when the provider mounts. */
  class FavoritesStore {
    var favorites: seq<FavoriteJob>

    constructor ()
      ensures favorites == []
    {
      favorites := [];
    }

    /** Appends `job`, whether or not an equal entry is already stored. */
    method AddFavorite(job: FavoriteJob)
      modifies this
      ensures favorites == old(favorites) + [job]
      ensures |favorites| == |old(favorites)| + 1 && favorites[|old(favorites)|] == job
    {
      favorites := favorites + [job];
    }

    /** Drops the entry at `index`; an index outside the list changes nothing. */
    method RemoveFavorite(index: int)
      modifies this
      ensures favorites == WithoutIndex(old(favorites), index)
      ensures 0 <= index < |old(favorites)| ==>
        favorites == old(favorites)[..index] + old(favorites)[index + 1..]
      ensures !(0 <= index < |old(favorites)|) ==> favorites == old(favorites)
    {
      if 0 <= index < |favorites| {
        WithoutIndexInRange(favorites, index);
      } else {
        WithoutIndexOutOfRange(favorites, index);
      }
      favorites := WithoutIndex(favorites, index);
    }
  }

  /** A client of the store: adding the same job twice keeps two equal entries. */
  method AddTwice(job: FavoriteJob) returns (store: FavoritesStore)
    ensures store.favorites == [job, job]
  {
    store := new FavoritesStore();
    store.AddFavorite(job);
    store.AddFavorite(job);
  }

  /** A client of the store: an append undone by removing its position. */
  method AddThenRemove(job: FavoriteJob, store: FavoritesStore)
    modifies store
    ensures store.favorites == old(store.favorites)
  {
    var n := |store.favorites|;
    store.AddFavorite(job);
    AddThenRemoveRestores(old(store.favorites), job);
    store.RemoveFavorite(n);
  }
}
