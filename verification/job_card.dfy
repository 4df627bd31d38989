/**
 * The job card's favorite toggle. A job counts as a favorite when some
 * stored entry has the same title and company; the id plays no part.
 * Toggling removes the first such entry, or appends the job's projection.
 */
module JobCard {
  import opened Wrappers
  import opened FavoritesContext

  /** The job a card displays. */
  datatype Job = Job(
    id: string,
    title: string,
    company: string,
    jobType: Option<string>,
    createdAt: string,
    description: string,
    tags: Option<seq<string>>)

  /** The `{id, title, company}` entry a toggle stores for `job`. */
  function ToFavorite(job: Job): FavoriteJob
  {
    FavoriteJob(job.id, job.title, job.company)
  }

  /** The match test both the membership check and the search use. */
  predicate SameListing(entry: FavoriteJob, job: Job)
  {
    entry.title == job.title && entry.company == job.company
  }

  /** Whether any stored entry matches `job`, scanning from the front. */
  function IsFavorite(favorites: seq<FavoriteJob>, job: Job): (b: bool)
    ensures b <==> exists k :: 0 <= k < |favorites| && SameListing(favorites[k], job)
  {
    |favorites| > 0 && (SameListing(favorites[0], job) || IsFavorite(favorites[1..], job))
  }

  /** The position of the first matching entry, or -1 when none matches. */
  function FindIndex(favorites: seq<FavoriteJob>, job: Job): (r: int)
    ensures -1 <= r < |favorites|
    ensures r == -1 <==> !IsFavorite(favorites, job)
    ensures 0 <= r ==> SameListing(favorites[r], job)
    ensures 0 <= r ==> forall k :: 0 <= k < r ==> !SameListing(favorites[k], job)
  {
    if |favorites| == 0 then -1
    else if SameListing(favorites[0], job) then 0
    else
      var i := FindIndex(favorites[1..], job);
      if i == -1 then -1 else i + 1
  }

  /** The list a toggle leaves behind: the specification of ToggleFavorite. */
  function Toggled(favorites: seq<FavoriteJob>, job: Job): (r: seq<FavoriteJob>)
    ensures IsFavorite(favorites, job) ==>
      var i := FindIndex(favorites, job);
      0 <= i < |favorites| && r == favorites[..i] + favorites[i + 1..]
    ensures !IsFavorite(favorites, job) ==>
      r == favorites + [ToFavorite(job)] && IsFavorite(r, job)
  {
    if IsFavorite(favorites, job) then
      var i := FindIndex(favorites, job);
      WithoutIndexInRange(favorites, i);
      WithoutIndex(favorites, i)
    else
      assert SameListing((favorites + [ToFavorite(job)])[|favorites|], job);
      favorites + [ToFavorite(job)]
  }

  /** The card's click handler, acting on the shared store. */
  method ToggleFavorite(store: FavoritesStore, job: Job)
    modifies store
    ensures store.favorites == Toggled(old(store.favorites), job)
    ensures IsFavorite(old(store.favorites), job) ==>
      |store.favorites| == |old(store.favorites)| - 1
    ensures !IsFavorite(old(store.favorites), job) ==>
      store.favorites == old(store.favorites) + [ToFavorite(job)]
  {
    var isFavorite := IsFavorite(store.favorites, job);
    if isFavorite {
      store.RemoveFavorite(FindIndex(store.favorites, job));
    } else {
      store.AddFavorite(ToFavorite(job));
    }
  }

  /** Membership depends on title and company only, never on the id. */
  lemma MembershipIgnoresId(favorites: seq<FavoriteJob>, job: Job, otherId: string)
    ensures IsFavorite(favorites, job) == IsFavorite(favorites, job.(id := otherId))
  {
  }

  /** An entry stored under another id still marks the job as a favorite. */
  lemma EntryWithOtherIdMatches(favorites: seq<FavoriteJob>, job: Job, otherId: string)
    requires FavoriteJob(otherId, job.title, job.company) in favorites
    ensures IsFavorite(favorites, job)
  {
  }

  /** Toggling a job that is not a favorite twice restores the list. */
  lemma ToggleTwiceRestores(favorites: seq<FavoriteJob>, job: Job)
    requires !IsFavorite(favorites, job)
    ensures Toggled(Toggled(favorites, job), job) == favorites
  {
  }

  /** With two matching entries, one toggle removes the earlier and keeps the job a favorite. */
  lemma ToggleKeepsLaterDuplicate(favorites: seq<FavoriteJob>, job: Job, j: int)
    requires 0 <= j < |favorites| && SameListing(favorites[j], job)
    requires exists k :: 0 <= k < j && SameListing(favorites[k], job)
    ensures FindIndex(favorites, job) < j
    ensures Toggled(favorites, job)[j - 1] == favorites[j]
    ensures IsFavorite(Toggled(favorites, job), job)
  {
    var r := Toggled(favorites, job);
    assert r[j - 1] == favorites[j];
    assert SameListing(r[j - 1], job);
  }
}
