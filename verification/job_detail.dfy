/**
 * The job detail page's favorite button. The page holds the fetched job in
 * a state cell that is null until loading finishes; the membership rule and
 * the toggle are the job card's.
 */
module JobDetail {
  import opened Wrappers
  import opened FavoritesContext
  import JobCard

  /** Reading a property of the null job throws a TypeError during render. */
  datatype RenderError = NullJobDereference

  /**
   * Membership exactly as the page computes it on every render, including the
   * first one, when the job is still null: the matcher reads the job's title
   * for the first stored entry, so the render throws as soon as the list is
   * non-empty, and only an empty list gets through without touching the job.
   */
  function IsFavoriteAsWritten(favorites: seq<FavoriteJob>, job: Option<JobCard.Job>): (r: Result<bool, RenderError>)
    ensures r.Failure? <==> job.None? && |favorites| > 0
    ensures job.Some? ==> r == Success(JobCard.IsFavorite(favorites, job.value))
  {
    if |favorites| == 0 then Success(false)
    else if job.None? then Failure(NullJobDereference)
    else Success(JobCard.IsFavorite(favorites, job.value))
  }

  /** The first render before the fetch completes fails once any favorite is stored. */
  lemma FirstRenderFailsWithFavorites(entry: FavoriteJob)
    ensures IsFavoriteAsWritten([entry], None) == Failure(NullJobDereference)
  {
  }

  /**
   * Membership with the null job read as "not a favorite": the same answer as
   * the page whenever the page does not throw, and defined on every state.
   */
  function IsFavorite(favorites: seq<FavoriteJob>, job: Option<JobCard.Job>): (b: bool)
    ensures job.None? ==> !b
    ensures job.Some? ==>
      (b <==> exists k :: 0 <= k < |favorites| && JobCard.SameListing(favorites[k], job.value))
    ensures IsFavoriteAsWritten(favorites, job).Success? ==> b == IsFavoriteAsWritten(favorites, job).value
  {
    job.Some? && JobCard.IsFavorite(favorites, job.value)
  }

  /**
   * The button's click handler. The button is only rendered once the job has
   * loaded, so the handler always sees a non-null job.
   */
  method ToggleFavorite(store: FavoritesStore, job: Option<JobCard.Job>)
    requires job.Some?
    modifies store
    ensures store.favorites == JobCard.Toggled(old(store.favorites), job.value)
    ensures !IsFavorite(old(store.favorites), job) ==>
      store.favorites == old(store.favorites) + [JobCard.ToFavorite(job.value)] &&
      IsFavorite(store.favorites, job)
    ensures IsFavorite(old(store.favorites), job) ==>
      |store.favorites| == |old(store.favorites)| - 1
  {
    var isFavorite := IsFavorite(store.favorites, job);
    if isFavorite {
      store.RemoveFavorite(JobCard.FindIndex(store.favorites, job.value));
    } else {
      store.AddFavorite(JobCard.ToFavorite(job.value));
    }
  }

  /** On the detail page too, toggling a non-favorite twice restores the list. */
  method ToggleTwice(store: FavoritesStore, job: Option<JobCard.Job>)
    requires job.Some? && !IsFavorite(store.favorites, job)
    modifies store
    ensures store.favorites == old(store.favorites)
  {
    JobCard.ToggleTwiceRestores(store.favorites, job.value);
    ToggleFavorite(store, job);
    ToggleFavorite(store, job);
  }
}
