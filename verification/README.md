# Job board: favorites and pagination, modelled in Dafny

This project models the two pieces of client-side state logic in a job-board web app.

- **Favorites store.** The session's favorites are an ordered list of `{id, title, company}` entries. The list starts empty. It changes only when an entry is appended (`addFavorite`) or when the entry at a position is filtered out (`removeFavorite`).
  - The job card and the job detail page share one toggle rule. A job is a favorite when some entry has the same title and company; the id is ignored.
  - Toggling a favorite removes the first matching entry, which is found with `findIndex`. Toggling any other job appends its `{id, title, company}` projection.
- **Page windows.** The jobs list and the applications list share the same arithmetic, so one generic module models both:
  - 8 items per page;
  - the window `slice((p-1)*8, p*8)`;
  - `totalPages = ceil(len/8)`.

  A page counter starts at 1 and moves only through the guarded Next and Previous handlers.

Modules:
- `Wrappers`: `Option` and `Result`.
- `FavoritesContext`: the `FavoriteJob` entry, the index filter `WithoutIndex`, and the `FavoritesStore` class whose `favorites` field is a `seq`.
- `JobCard`: the membership predicate, the `findIndex` search, the toggle specification `Toggled` and the `ToggleFavorite` method.
- `JobDetail`: the detail page's membership test on a job that is null until loaded, and its toggle handler.
- `Pagination`: the JavaScript `slice` semantics, the page window, the page count, the Next/Previous step and the `PagedList` class.

Three behaviours of the code are easy to assume otherwise. The model follows the code:
- `totalPages` is `Math.ceil(len / 8)`, which is **0** for an empty list, not a minimum of 1.
- `removeFavorite` with an index outside the list is a silent no-op, not an `OutOfRange` error.
- Next never moves past `totalPages`, and it is a no-op on an empty list.

## Model

| member | source | states |
|---|---|---|
| `FavoritesContext.WithoutIndex` | src/context/FavoritesContext.tsx:37-40 | The index filter drops exactly one element when the index is a position of the list, and none otherwise. |
| `FavoritesContext.WithoutIndexInRange` | src/context/FavoritesContext.tsx:40 | For `0 <= i < len`, removal yields `old[..i] + old[i+1..]`: one entry fewer, the rest in their order. |
| `FavoritesContext.WithoutIndexOutOfRange` | src/context/FavoritesContext.tsx:40 | A negative index (such as -1 from a failed search) or one at or past the end leaves the list unchanged. |
| `FavoritesContext.AddThenRemoveRestores` | src/context/FavoritesContext.tsx:29-40 | Appending a job and then removing position `old length` restores the original list. |
| `FavoritesContext.FavoritesStore.constructor` | src/context/FavoritesContext.tsx:27 | The store starts with no favorites. |
| `FavoritesContext.FavoritesStore.AddFavorite` | src/context/FavoritesContext.tsx:29-30 | The new list is `old + [job]`: one longer, `job` last, earlier entries unchanged and in order, and no de-duplication. |
| `FavoritesContext.FavoritesStore.RemoveFavorite` | src/context/FavoritesContext.tsx:37-46 | The new list is the index filter of the old one: the entry at an in-range index is cut out, and any other index is a no-op. |
| `FavoritesContext.AddTwice` | src/context/FavoritesContext.tsx:30 | Adding the same job twice to a fresh store leaves two equal entries. |
| `FavoritesContext.AddThenRemove` | src/context/FavoritesContext.tsx:29-46 | Through the store's methods, an add followed by removing the appended position leaves `favorites` as it was. |
| `JobCard.IsFavorite` | src/components/common/CustomCard.tsx:204-207 | The front-to-back `some` scan holds iff some stored entry has the job's title and company. |
| `JobCard.FindIndex` | src/components/common/CustomCard.tsx:212-216 | The search returns -1 iff the job is not a favorite. Otherwise it returns an in-range index that matches, with no match before it. |
| `JobCard.Toggled` | src/components/common/CustomCard.tsx:209-222 | For a favorite, the toggle removes the entry at the first match, and that index is always in range, so removal is never the no-op. For a non-favorite, it appends the `{id, title, company}` projection, and the job is then a favorite. |
| `JobCard.ToggleFavorite` | src/components/common/CustomCard.tsx:209-222 | The store's new list is `Toggled(old, job)`. A favorite's toggle shrinks the list by exactly one. A non-favorite's toggle appends its projection. |
| `JobCard.MembershipIgnoresId` | src/components/common/CustomCard.tsx:204-207 | Changing the job's id never changes whether it is a favorite. |
| `JobCard.EntryWithOtherIdMatches` | src/components/common/CustomCard.tsx:204-207 | A stored entry with the job's title and company but another id makes the job a favorite. |
| `JobCard.ToggleTwiceRestores` | src/components/common/CustomCard.tsx:209-222 | From a state where the job is not a favorite, toggling twice gives back the original list. |
| `JobCard.ToggleKeepsLaterDuplicate` | src/components/common/CustomCard.tsx:210-217 | When two entries match, one toggle removes the earlier one, moves the later one down by one place, and the job stays a favorite. |
| `JobDetail.IsFavoriteAsWritten` | src/pages/Landing/JobDetail.tsx:38-41 | As written, membership throws iff the job is still null and the list is non-empty. On a loaded job it is the title-and-company test. |
| `JobDetail.FirstRenderFailsWithFavorites` | src/pages/Landing/JobDetail.tsx:13-41 | Before the job loads, the render fails with one stored favorite. |
| `JobDetail.IsFavorite` | src/pages/Landing/JobDetail.tsx:38-41 | Corrected membership returns false for the null job and uses the title-and-company test for a loaded job. It agrees with the page wherever the page does not throw. |
| `JobDetail.ToggleFavorite` | src/pages/Landing/JobDetail.tsx:43-58 | The handler requires a loaded job. A non-favorite's toggle appends its projection and makes it a favorite. A favorite's toggle removes the first match and shrinks the list by one. |
| `JobDetail.ToggleTwice` | src/pages/Landing/JobDetail.tsx:43-58 | On the detail page, toggling a non-favorite twice leaves the store's list unchanged. |
| `Pagination.Slice` | src/pages/Landing/Jobs.tsx:39 | For non-negative bounds, `slice` is the sub-sequence between the bounds clipped to the length. It is empty when the end is not after the start. |
| `Pagination.WindowBounds` | src/pages/Landing/Jobs.tsx:37-38 | The first index is `(p-1)*8`, and the last index is exactly 8 past it. |
| `Pagination.Window` | src/pages/Landing/Jobs.tsx:36-39 | For `p >= 1` the window is `items[min(first,len)..min(last,len)]`. It never holds more than 8 items. |
| `Pagination.TotalPages` | src/pages/Landing/Jobs.tsx:42 | `8*(r-1) < len <= 8*r`, so `r = ceil(len/8)`, and `r == 0` iff the list is empty. |
| `Pagination.TotalPagesMonotone` | src/pages/Landing/Applied.tsx:38 | A longer list never has fewer pages. |
| `Pagination.PageNonEmptyIff` | src/pages/Landing/Jobs.tsx:37-42 | For `p >= 1`, page `p` is non-empty iff `p <= totalPages`. |
| `Pagination.FullPagesBeforeLast` | src/pages/Landing/Applied.tsx:31-38 | Every page before the last holds exactly 8 items. |
| `Pagination.PagesArePrefix` | src/pages/Landing/Applied.tsx:31-35 | The windows of pages `1..k`, joined in order, are the first `min(8k, len)` items. |
| `Pagination.PagesPartitionItems` | src/pages/Landing/Applied.tsx:33-38 | The windows of pages `1..totalPages`, joined in order, rebuild the list exactly. |
| `Pagination.Step` | src/pages/Landing/Jobs.tsx:44-54 | Next adds one iff `page < totalPages` and never goes past `max(page, totalPages)`. Previous subtracts one iff `page > 1` and never goes below `min(page, 1)`. Both keep a page in `[1, max(1, totalPages)]`. |
| `Pagination.RunStaysInRange` | src/pages/Landing/Applied.tsx:40-50 | From a page in `[1, max(1, totalPages)]`, any series of Next/Previous clicks stays in that range. |
| `Pagination.EmptyListStaysOnFirstPage` | src/pages/Landing/Applied.tsx:38-44 | With no items (`totalPages = 0`), any series of clicks keeps the counter at 1. |
| `Pagination.NextThenPrevious` | src/pages/Landing/Jobs.tsx:44-54 | When `page < totalPages`, Next followed by Previous returns to the page. |
| `Pagination.PagedList.CurrentItems` | src/pages/Landing/Jobs.tsx:39 | The rendered window holds at most 8 items, and it is non-empty iff the list is. |
| `Pagination.PagedList.constructor` | src/pages/Landing/Jobs.tsx:7-8 | A list page mounts with no items on page 1, which is in range. |
| `Pagination.PagedList.Load` | src/pages/Landing/Jobs.tsx:13-27 | The fetched list replaces the items and keeps the page number. The range invariant survives whenever the list does not shrink, as on the single load after mount. |
| `Pagination.PagedList.HandleNext` | src/pages/Landing/Jobs.tsx:44-48 | The page advances by one only when `page < totalPages`. The items are unchanged and the range invariant holds. |
| `Pagination.PagedList.HandlePrevious` | src/pages/Landing/Jobs.tsx:50-54 | The page goes back by one only when `page > 1`. The items are unchanged and the range invariant holds. |

## Left out

- Toasts and `alert` calls after adding or removing a favorite: these are fire-and-forget notifications that do not affect state.
- Fetching jobs, applications and a single job (the axios wrappers and the `useEffect` loaders with their loading and error flags): the model takes the fetched list as any `seq`, and `PagedList.Load` stands for the state update.
- The `Array.isArray(data) ? data : []` fallback for a non-array response: the fetched value is always a sequence here.
- Rendering: JSX, styling, links, icons, the header's favorites popover and the `disabled` attributes on the page buttons. The popover only calls `removeFavorite(index)` with a row's index, which `RemoveFavorite` covers.
- The `useFavorites` error thrown outside a provider: this is framework plumbing.
- `saveToFavorites` in src/pages/Landing/Jobs.tsx:29-34: it is dead code that refers to undefined names and is never called.
- The application form, its validation schema and submission: src/components/JobForm.tsx is not part of this model.
- Locale-dependent date formatting.
- `removeFavorite`'s index is a JavaScript number: the model uses integers and does not model fractional indices, which the callers never pass.
- React state batching: each handler reads the list as it was at render time, and the model applies each handler to the current store, which is the same when clicks are handled one render at a time.

## Findings

| source | as written | input that shows it | evidently intended | confidence | as-written member | corrected member |
|---|---|---|---|---|---|---|
| src/pages/Landing/JobDetail.tsx:38-41 | `isFavorite` reads `job.title` on every render, before the loading guard at line 60, while `job` starts as `null` (line 13). | At least one stored favorite, then opening a job detail page: the first render throws a TypeError before the fetch completes. | A job that has not loaded yet is not a favorite, so the membership test should not throw. | high (not executed) | `JobDetail.IsFavoriteAsWritten` (`JobDetail.FirstRenderFailsWithFavorites`) | `JobDetail.IsFavorite` |
