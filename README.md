# A verified model of the blog's post listing, query string and navigation rules

This project models the logic of a personal developer blog built with Next.js and
contentlayer. The rest of the site is rendering.

- **Content** (`content.dfy`): the computed `slug` and `url` of posts and snippets.
  One trailing `.mdx` is stripped from the source file name. The `/blogs/` or
  `/snippets/` prefix is then put in front.
- **Sorted posts** (`sorted_posts.dfy`): `getSortedPosts(n)`.
  - It sorts the shared `allPosts` array in place, newest first. The sort is stable.
  - It then slices the first `n` posts, with JavaScript `slice` semantics.
  - Finally it copies every field except `body`.
  - The in-place sort is an insertion sort on an `array<Post>`. It is proved to
    produce `SortByDate`, a reference definition. `SortByDate` is proved sorted,
    a permutation, stable and idempotent.
- **Unique tags** (`helpers.dfy`): `getUniqueTagsFromPosts`. The tags of all posts
  are flattened, then passed through an insertion-ordered `Set`.
- **Query string** (`search_params.dfy`): the `URLSearchParams` class of the WHATWG
  URL Standard (section 6.2). It is a class whose `list` of name-value pairs
  is changed by `append`, `set`, `delete(name)` and `delete(name, value)`.
- **Tag chips** (`filter_tags.dfy`): `activeTags`, the highlight rule, and
  `handleTagClick`, which appends or deletes a `tag` pair.
- **Search box** (`search.dfy`): `handleChange` sets or deletes `search` and then
  deletes every `tag`. Reset is `handleChange('')`.
- **Blog index page** (`blogs_page.dfy`): the search filter and the normalisation of
  the `tag` parameter. It also covers the tag filter, the tag chips, the "No posts
  found" message and the load-more button.
- **Navigation** (`nav_links.dfy`, `mobile_menu.dfy`):
  - The route table: Home `/`, Blogs `/blogs`, Snippets `/snippets`, About `/about`.
  - The active-link rule: exact for `/`, substring otherwise.
  - The mobile menu: a class with the `menuOpen` flag and the body's
    `overflow-hidden` class.
- **Playlist** (`songs.dfy`): the five demo songs and their zero-padded track numbers.

`wrappers.dfy`, `sequences.dfy` and `strings.dfy` hold shared definitions:
- `Option`;
- an order-preserving `Filter` and the ordered-subsequence relation;
- ASCII lower-casing, substring search and decimal numerals.

## Behaviour worth noting

- The tag chips keep first-occurrence order. `getUniqueTagsFromPosts` builds
  them through a JavaScript `Set`, which keeps insertion order, and
  Helpers.UniqueTags states that order.
- The two filters do not clear each other symmetrically. A search change
  deletes every `tag` pair. A tag click leaves `search` alone:
  FilterTags.TagClickKeepsOthers proves it keeps every pair but the clicked
  tag's. On the page the two filters compose as AND (BlogsPage.FilterPosts).
- The page filters posts that are already newest first. It calls
  `getSortedPosts()` itself, so BlogsPage.Render filters the sorted posts and
  BlogsPage.CardsNewestFirst proves the cards keep that order.

## Model

| member | source | states |
|---|---|---|
| Content.StripMdx | contentlayer.config.ts:42 | a name ending in `.mdx` is the result followed by `.mdx`; any other name is returned unchanged |
| Content.StripMdxRoundTrip | contentlayer.config.ts:42 | stripping `base + ".mdx"` gives back `base` for every base name |
| Content.StripMdxOnce | contentlayer.config.ts:42 | only one trailing extension is removed: `a.mdx.mdx` becomes `a.mdx` |
| Content.StripMdxKeepsInner | contentlayer.config.ts:42 | an `.mdx` that is not at the end stays |
| Content.Slug | contentlayer.config.ts:42 | the slug is the source file name, or that name with one trailing `.mdx` removed; it is always a prefix of the file name |
| Content.PostUrl | contentlayer.config.ts:46 | a post url is `/blogs/` followed by exactly the post's slug |
| Content.SnippetUrl | contentlayer.config.ts:84-88 | a snippet url is `/snippets/` followed by exactly the slug, which follows the post rule |
| Content.UrlsOfMdxFile | contentlayer.config.ts:40-47 | for a file `base.mdx`, the slug is `base`, the post url is `/blogs/base` and the snippet url is `/snippets/base` |
| SortedPosts.WithoutBody | lib/getSortedPosts.ts:17-30 | definition only (the field-by-field copy); SortedPosts.WithoutBodyKeepsFields states that it loses nothing but the body |
| SortedPosts.WithoutBodyKeepsFields | lib/getSortedPosts.ts:17-30 | the projection keeps every field: putting the body back gives the original post |
| SortedPosts.InsertPermutes | lib/getSortedPosts.ts:12-15 | inserting a post adds exactly that post to the multiset |
| SortedPosts.InsertSorted | lib/getSortedPosts.ts:13-15 | inserting into a newest-first sequence keeps it newest-first |
| SortedPosts.SortByDate | lib/getSortedPosts.ts:12-15 | the reference order keeps the length |
| SortedPosts.SortByDatePermutes | lib/getSortedPosts.ts:12-15 | the sort is a permutation of its input |
| SortedPosts.SortByDateSorted | lib/getSortedPosts.ts:13-15 | the sort's result has non-increasing `publishedAt` |
| SortedPosts.InsertionPointUnique | lib/getSortedPosts.ts:13-15 | the insertion point is the only split into newer-or-equal and strictly older posts |
| SortedPosts.SortedIsFixpoint | lib/getSortedPosts.ts:12-15 | sorting a sequence that is already newest-first returns it unchanged |
| SortedPosts.SortByDateIdempotent | lib/getSortedPosts.ts:12-15 | sorting twice is sorting once |
| SortedPosts.InsertStable | lib/getSortedPosts.ts:13-15 | an inserted post goes after every post of the same date |
| SortedPosts.SortByDateStable | lib/getSortedPosts.ts:13-15 | the sort is stable: posts of any one date keep their input order |
| SortedPosts.SliceEnd | lib/getSortedPosts.ts:16 | `slice(0, n ? n : length)`: absent or 0 gives all; a positive n gives min(n, length); a negative n drops the last abs(n) posts, leaving at least 0 |
| SortedPosts.SliceAndProject | lib/getSortedPosts.ts:16-30 | the result has the slice's length; element i is post i of the sorted input with only `body` dropped |
| SortedPosts.SortedPosts | lib/getSortedPosts.ts:11-31 | the result has the slice's length and non-increasing dates; element i is the i-th post of the sorted order without its body |
| SortedPosts.SecondCallSameResult | lib/getSortedPosts.ts:12-16 | a call on the array an earlier call left sorted returns the same posts |
| SortedPosts.SortInPlace | lib/getSortedPosts.ts:12-15 | sorts the array in place into the reference order `SortByDate` of its old contents |
| SortedPosts.ShiftOlder | lib/getSortedPosts.ts:13-15 | in a date-ordered prefix, moves the posts older than `x` one place right; every post left of the gap is not older than `x` and stays where it was |
| SortedPosts.InsertInPlace | lib/getSortedPosts.ts:13-15 | one pass places `a[i]` into the sorted prefix as `Insert` does and leaves the rest of the array alone |
| SortedPosts.GetSortedPosts | lib/getSortedPosts.ts:11-31 | leaves `allPosts` sorted in place and returns `SortedPosts` of its old contents |
| Helpers.FlattenMembers | lib/helpers.ts:4 | a tag is in the flattened list iff it is in one of the lists |
| Helpers.Distinct | lib/helpers.ts:5 | the Set round-trip has no duplicates, the same members and is no longer than its input |
| Helpers.DistinctOrder | lib/helpers.ts:5 | the Set keeps first-occurrence order |
| Helpers.AllTagsMembers | lib/helpers.ts:4 | a tag is in the flattened tags iff some post has it |
| Helpers.AllTags | lib/helpers.ts:4 | definition only (`map` then `flat`); its members are stated by Helpers.AllTagsMembers |
| Helpers.UniqueTags | lib/helpers.ts:3-7 | no duplicates; a tag is in the output iff some post has it; the order is first occurrence over the flattened tags; no longer than the flattened tags; no posts give no tags |
| SearchParams.ValuesNamed | components/FilterTags.tsx:17 | `getAll(name)`: a value is listed iff a pair (name, value) is present |
| SearchParams.ValuesNamedConcat | components/FilterTags.tsx:17 | `getAll` of a concatenation is the concatenation of the two results |
| SearchParams.WithoutName | components/Search.tsx:21-24 | `delete(name)` keeps exactly the pairs with another name, every copy of each, in order |
| SearchParams.WithoutPair | components/FilterTags.tsx:25-26 | `delete(name, value)` removes every copy of the pair (name, value) and keeps every copy of every other pair, in order |
| SearchParams.WithSetValues | components/Search.tsx:19 | after `set(name, value)` the only value of `name` is `value` |
| SearchParams.WithSetOthers | components/Search.tsx:19 | `set` changes nothing but the pairs named `name` and keeps the order of the rest |
| SearchParams.WithSetFixpoint | components/Search.tsx:19 | `set` to the value a name already has as its only value changes nothing |
| SearchParams.WithSet | components/Search.tsx:19 | `set` puts the pair in place of the first pair named `name`, leaving everything before it untouched and keeping that position as the first; with no such pair it appends the pair at the end |
| SearchParams.IndexOfName | components/Search.tsx:19 | the index is the first pair named `name`, or the list length when there is none |
| SearchParams.ValuesNamedWithoutOther | components/Search.tsx:24 | deleting one name leaves the values of another unchanged |
| SearchParams.WithoutNameIdempotent | components/Search.tsx:21-24 | deleting a name twice is deleting it once |
| SearchParams.WithoutNameCommute | components/Search.tsx:21-24 | deleting two names in either order gives the same list |
| SearchParams.WithoutPairAppended | components/FilterTags.tsx:23-26 | deleting a pair undoes appending it |
| SearchParams.URLSearchParams.constructor | components/FilterTags.tsx:21 | the object starts with the parsed pairs of the location |
| SearchParams.URLSearchParams.Append | components/FilterTags.tsx:23 | adds the pair at the end |
| SearchParams.URLSearchParams.Set | components/Search.tsx:19 | replaces the list by its `set` result |
| SearchParams.URLSearchParams.Delete | components/Search.tsx:21-24 | removes every pair of that name |
| SearchParams.URLSearchParams.DeleteValue | components/FilterTags.tsx:25-26 | removes every pair equal to (name, value) |
| FilterTags.ActiveTags | components/FilterTags.tsx:17 | a tag is active iff a `tag` pair with that value is in the query |
| FilterTags.HighlightedIffInQuery | components/FilterTags.tsx:41-43 | a chip is highlighted iff its tag is a `tag` value of the query |
| FilterTags.ChipHighlighted | components/FilterTags.tsx:41-43 | definition only (membership in `activeTags`); FilterTags.HighlightedIffInQuery relates it to the query |
| FilterTags.TagClicked | components/FilterTags.tsx:22-26 | definition only (append when inactive, delete the pair when active); FilterTags.TagClickFlips, TagClickKeepsOthers and TagClickTwiceRestores state what it does |
| FilterTags.HandleTagClick | components/FilterTags.tsx:19-30 | an inactive tag appends exactly one `tag` pair at the end; an active tag deletes every such pair; everything except that tag's pairs is untouched; with current `activeTags` this is `TagClicked` |
| FilterTags.TagClickFlips | components/FilterTags.tsx:22-26 | a click flips whether the tag is active |
| FilterTags.TagClickKeepsOthers | components/FilterTags.tsx:21-27 | a click keeps every other pair in order, and every other tag stays active or inactive |
| FilterTags.TagClickTwiceRestores | components/FilterTags.tsx:22-26 | clicking an inactive tag twice restores the query exactly |
| FilterTags.ActiveTagTwiceMovesToEnd | components/FilterTags.tsx:22-26 | clicking an active tag twice need not restore the query: the pair comes back at the end |
| Search.SearchChangedClearsTags | components/Search.tsx:24 | after a change no `tag` value remains |
| Search.SearchChangedSearchValue | components/Search.tsx:18-22 | after a change `search` has exactly the term as its only value, or no value for an empty term |
| Search.SearchChangedKeepsOthers | components/Search.tsx:17-25 | pairs named neither `search` nor `tag` are unchanged and keep their order |
| Search.HandleChange | components/Search.tsx:15-27 | the handler produces `SearchChanged`: no tags, the term as the only search value or none, other pairs unchanged |
| Search.HandleReset | components/Search.tsx:34 | reset gives exactly what `handleChange("")` gives: no search, no tags, other pairs unchanged |
| Search.SearchChangedIdempotent | components/Search.tsx:15-26 | applying the same term twice gives the same query as once |
| Search.SearchChanged | components/Search.tsx:17-24 | definition only (`set` or `delete` of `search`, then `delete` of `tag`); Search.SearchChangedClearsTags, SearchChangedSearchValue and SearchChangedKeepsOthers state what it does |
| BlogsPage.SearchFilter | app/blogs/page.tsx:32-38 | an absent or empty term returns the posts unchanged; otherwise a post is kept iff its lower-cased title contains the lower-cased term; the result is an ordered subsequence |
| BlogsPage.ActiveTags | app/blogs/page.tsx:40-43 | one tag string becomes a one-element list; an array is used as is; an absent tag stays absent |
| BlogsPage.TagFilter | app/blogs/page.tsx:45-47 | absent or empty active tags change nothing; otherwise a post is kept iff one of its tags is active; the result is an ordered subsequence |
| BlogsPage.FilterPosts | app/blogs/page.tsx:34-47 | the two filters compose as AND, and the result is an ordered subsequence of the posts |
| BlogsPage.ChipsAreAllTags | app/blogs/page.tsx:29-30 | the chips list every tag of every loaded post once, whatever the query |
| BlogsPage.ChipsIndependentOfQuery | app/blogs/page.tsx:29-30 | filtering never changes the offered chips |
| BlogsPage.NoPostsIffNoMatch | app/blogs/page.tsx:62-66 | "No posts found" shows iff no loaded post passes both filters |
| BlogsPage.LoadMoreIgnoresFilter | app/blogs/page.tsx:72 | the load-more button shows iff more than 15 posts are loaded |
| BlogsPage.CardsNewestFirst | app/blogs/page.tsx:29-47 | the cards stay newest first after filtering |
| BlogsPage.FilterTagsAreHighlightedChips | app/blogs/page.tsx:40-43 | the tags the page filters by are exactly the highlighted chips for the same query string |
| BlogsPage.FromQuery | app/blogs/page.tsx:24-27 | definition only: the model's assumption of how the framework fills `searchParams` (see Left out) |
| BlogsPage.Render | app/blogs/page.tsx:24-81 | definition only: the page's view; BlogsPage.ChipsAreAllTags, NoPostsIffNoMatch, LoadMoreIgnoresFilter and CardsNewestFirst state what it shows |
| NavLinks.RootActiveIffExact | components/NavLinks.tsx:16-17 | `/` is active iff the pathname is exactly `/` |
| NavLinks.IsActive | components/NavLinks.tsx:16-17 | a route is active iff the pathname is non-null and, for `/`, equals `/`, and for any other route, has the path occurring at some index |
| NavLinks.RoutesTable | components/NavLinks.tsx:6-11 | the four links are Home `/`, Blogs `/blogs`, Snippets `/snippets` and About `/about`, in that order; every path starts with `/` and only Home is the root |
| NavLinks.NullPathnameInactive | components/NavLinks.tsx:17 | a null pathname makes every route inactive |
| NavLinks.SectionActiveOnSubpage | components/NavLinks.tsx:16-17 | `/blogs` is active on `/blogs/x` and `/` is not |
| NavLinks.AboutMeMatches | components/NavLinks.tsx:16-17 | on `/blogs/about-me` the Blogs and About paths match and Snippets and Home do not |
| NavLinks.TwoRoutesActive | components/NavLinks.tsx:6-17 | on `/blogs/about-me` the active links are Blogs and About, in table order |
| MobileMenu.IsActive | components/MobileMenu.tsx:61-62 | the mobile rule is the desktop rule applied to the router's non-null pathname |
| MobileMenu.Menu.constructor | components/MobileMenu.tsx:49 | a new menu is closed and the body class is absent |
| MobileMenu.Menu.ToggleMenu | components/MobileMenu.tsx:56-59 | flips `menuOpen` and the body class, each on its own; keeps them in step when they were |
| MobileMenu.Menu.CloseMenu | components/MobileMenu.tsx:51-54 | always ends closed with the body class removed |
| MobileMenu.ToggleTwice | components/MobileMenu.tsx:56-59 | two toggles restore both flags |
| MobileMenu.CloseTwice | components/MobileMenu.tsx:51-54 | closing twice is closing once |
| MobileMenu.Replay | components/MobileMenu.tsx:49-59 | from a new menu, after any sequence of toggles and link-list clicks, the body class is present iff the menu is open |
| MobileMenu.CloseIdempotent | components/MobileMenu.tsx:51-54 | a click in the link list always closes, and a second one changes nothing |
| MobileMenu.ToggleTwiceCancels | components/MobileMenu.tsx:56-59 | two toggle presses cancel out |
| Songs.TrackNumber | components/AudioPlayer/songs.ts:3 | the track number is all digits and reads back as k; it is `0` and one digit for k < 10 and the plain numeral otherwise |
| Songs.Songs | components/AudioPlayer/songs.ts:1 | there are exactly five songs |
| Songs.SongForNumbered | components/AudioPlayer/songs.ts:2-6 | song k has exactly the plain numeral of k (digits only, no leading zero) after `Song Number ` and between the fixed parts of its `.mp3` URL, and that numeral reads back as k |
| Songs.SongsNumbered | components/AudioPlayer/songs.ts:1-7 | song i carries the one-digit numeral of i + 1 after `Song Number ` and in its `.mp3` file URL, and `0` followed by that digit as its track number |
| Songs.SongFor | components/AudioPlayer/songs.ts:2-6 | definition only: the song numbered k; Songs.SongForNumbered states its fields |
| Songs.FirstSong | components/AudioPlayer/songs.ts:1-7 | the first song is `Song Number 1`, track `01`, `SoundHelix-Song-1.mp3` |
| Songs.TenthTrackUnpadded | components/AudioPlayer/songs.ts:3 | from 10 on, the number is not padded |
| Strings.ContainsIff | app/blogs/page.tsx:36 | `includes` holds iff the term occurs at some index |
| Strings.NatToString | components/AudioPlayer/songs.ts:2-5 | a number prints as a non-empty string of digits that reads back as the number, with no leading zero from 10 on; it is one character iff the number is below 10 |
| Strings.Lower | app/blogs/page.tsx:36 | lower-casing keeps the length, turns each ASCII `A`-`Z` into its `a`-`z` letter, keeps every other character and leaves no `A`-`Z` |
| Strings.LowerIdempotent | app/blogs/page.tsx:36 | lower-casing twice is lower-casing once |
| Strings.Contains | app/blogs/page.tsx:36 | definition only (a scan for a start position); Strings.ContainsIff relates it to "occurs at some index" |

## Left out

- `publishedAt` is a date string parsed by `new Date` and compared by date-fns
  `compareDesc`. The model uses the integer timestamp the date denotes. Parsing,
  invalid dates and time zones are not modelled.
- `Array.prototype.sort`: the order it produces is modelled by `SortByDate`, the
  stable newest-first order, computed by an insertion sort. The engine's
  own algorithm is not modelled.
- SortedPosts.SliceEnd: `n` is an integer or absent. A fractional, `NaN` or
  infinite `n` is not modelled.
- Strings.Lower: `toLowerCase` is Unicode case mapping; the model maps only ASCII `A`-`Z`.
- Framework and browser calls are not modelled. `window.location.search` is a
  parameter of the handlers, already parsed into pairs. The handlers return the new
  pair list instead of calling `router.replace`. `startTransition`, the pending
  flag and `URLSearchParams` serialisation with percent-encoding are left out.
- The two-argument `delete` in components/FilterTags.tsx:25-26 is modelled with the
  standard semantics: only the pairs equal to (name, value) go. An engine
  without it would delete every `tag`, and that is not modelled.
- BlogsPage.FromQuery: how Next.js turns the query string into `searchParams` is
  framework behaviour. It is assumed to give the first `search` value, and `tag`
  as a string for one value and an array for several. A repeated `search`
  reaches the page as an array, where `toLowerCase` would throw; that case is not
  modelled.
- FilterTags.HandleTagClick: `activeTags` is what the component rendered with.
  If the location has changed since, the method still follows the stale list, as
  the source does. `TagClicked` describes only the up-to-date case.
- The mobile menu's body class is assumed absent when the menu mounts. Other
  code changing `document.body` is not modelled. React's batching of
  `setMenuOpen` is replaced by an immediate update.
- Navigation through the links themselves (`Link href`) is not modelled. Only the
  menu closing on a click in the link list is.
- `readingTime` (contentlayer.config.ts:50) and the MDX pipeline are external
  libraries and are not modelled. `timeToRead` and `body` are opaque strings.
- lib/getSnippets.ts is not part of this model.
- BlogCard rendering, metadata, the card grid and every other presentation
  component are not modelled. The `View` record keeps only what the page's
  conditions decide.
