# scopedash, modelled in Dafny

scopedash is a dashboard of TikTok creator statistics. A scraper returns one item per video,
each carrying its author's metadata. The refresh route (and a stand-alone Python fetch script)
turns those items into a dataset: one profile per author with that author's videos, and one flat
list of every video sorted by plays. The dashboard component and the page then derive what they
show from that dataset: grids of the most played videos, searched and sorted lists, and totals.
Beside it sit three small stateful parts: the server's channel registry, the add-channels route
that rewrites the list of tracked profiles in the refresh route's own source text, and an
in-memory persist route.

The model, one module per file:

- `common.dfy`: Option, Result, parsed JSON values, JavaScript truthiness, property reads on a
  parsed body.
- `sorting.dfy`: the stable descending sort that `Array.prototype.sort` and `list.sort` perform
  (one insertion sort, proved to be the only stable sort), `slice`, `map` and `reduce`.
- `text.dfy`: `trim`, `split`, `join`, `includes`, ASCII `toLowerCase`, deleting a character
  class, and first-occurrence search.
- `schema.dfy`: scraped items, videos, profiles and the dataset. A counter's type is a
  parameter: `int` after the route's `|| 0`, the raw JSON number after the script's `.get(k, 0)`.
- `grouping.dfy`: the grouping loop shared by both transforms, as a method proved against a
  functional specification, with the facts about that specification.
- `refresh_route.dfy`: `transformData`, the key selection, the flatten order and the save guard
  of `POST /api/refresh`, and the loop as written, where an author named after an inherited
  object property makes the route fail.
- `fetch_script.dfy`: the Python `transform_data` and how it differs from the route.
- `channel_registry.dfy`: the `ServerStorage` class.
- `add_channels.dfy`: `POST /api/add-channels`: validation, finding and parsing the
  `const PROFILES = [...]` declaration, the dedupe-append, and rendering it back with
  `String.prototype.replace` (including its `$` patterns).
- `persist_route.dfy`: the two module variables of the persist route, with POST and GET.
- `dashboard_view.dfy`: the `videoLists` memo and the totals of the dashboard component.
- `page_view.dfy`: the page's filtered and sorted list, the sort buttons, the channel box
  parser, the refresh rule and the metrics.

The scraper, the clock and the environment are parameters. Reading and writing files is left to
the caller: the add-channels handler receives the source text and returns the text it would
write.

Two behaviours of the code worth noting:
- The Python script defaults a counter to 0 only when the key is absent. A JSON null stays
  `None`, and a `None` play count makes the final sort raise when there are two or more videos.
- The route's transform is not total: see the first finding below.

## Model

| member | source | states |
|---|---|---|
| Grouping.GroupItems | dashboard/src/app/api/refresh/route.ts:122-161 | The loop over the items builds exactly one profile per author, in order of first appearance, and the list of every accepted item's video, in input order. |
| Grouping.Authors | dashboard/src/app/api/refresh/route.ts:124-130 | The author names that get a profile are distinct, and every item with an author name contributes its name. |
| Grouping.SkippedItem | dashboard/src/app/api/refresh/route.ts:123-126 | An item without a non-empty author name changes neither the profiles nor the video list. |
| Grouping.ProfileCreated | dashboard/src/app/api/refresh/route.ts:128-140 | An author seen for the first time gets a profile built from this item's metadata, holding just this item's video. |
| Grouping.ProfileGrows | dashboard/src/app/api/refresh/route.ts:159 | For a known author, the profile's fields stay as they were and the new video is appended at the end of its list. |
| Grouping.ProfileUnchanged | dashboard/src/app/api/refresh/route.ts:128-160 | The profiles of all other authors keep their fields and their videos. |
| Grouping.AcceptedItem | dashboard/src/app/api/refresh/route.ts:142-160 | An accepted item appends its one video to the flat list and to its author's profile, which is created when missing. |
| Grouping.ProfileFromFirstItem | dashboard/src/app/api/refresh/route.ts:128-140 | Each profile's fields come from the first item by its author. Its videos are all that author's videos in input order, not sorted. |
| Grouping.ProfileNames | dashboard/src/app/api/refresh/route.ts:128-130 | The j-th profile is named after the j-th distinct author. |
| Grouping.ProfilesPartitionVideos | dashboard/src/app/api/refresh/route.ts:159-160 | The profiles' videos, taken together, are exactly the flat list as a multiset. So the list lengths add up. |
| Grouping.GroupedTotals | dashboard/src/app/api/refresh/route.ts:159-160 | A per-video measure summed over the flat list equals the sum, over the profiles, of each profile's own sum. |
| Grouping.ProfilesWellFormed | dashboard/src/app/api/refresh/route.ts:128-159 | No two profiles share a name, and every video in a profile has that profile's name as its author. |
| Grouping.VideosInMembers | dashboard/src/app/api/refresh/route.ts:142-160 | A video is in the flat list exactly when it is built from some item that has an author name. |
| Grouping.NoVideosIffNoAuthorName | dashboard/src/app/api/refresh/route.ts:126 | The flat list is empty exactly when no item has an author name. |
| Grouping.NoProfilesIffNoVideos | dashboard/src/app/api/refresh/route.ts:128-160 | There is no profile exactly when there is no video. |
| Grouping.VideosInMap | execution/fetch_tiktok_data.py:92-107 | Building videos with the script's default and then reading null counters as 0 gives the videos built with the route's default. |
| Grouping.ProfilesOfMap | execution/fetch_tiktok_data.py:78-89 | The same holds for the profiles: same authors, same order, same fields once nulls read as 0. |
| RefreshRoute.TransformData | dashboard/src/app/api/refresh/route.ts:80-166 | `transformData` returns the grouping followed by the stable sort of the flat list by plays. Absent or null counters become 0. |
| RefreshRoute.TransformShape | dashboard/src/app/api/refresh/route.ts:116-163 | `profile_count` is 8 whatever was scraped. The flat list is non-increasing in plays and keeps input order among equal plays. It is a permutation of the profiles' videos. Profile names are distinct, and every video sits under its author's profile. |
| RefreshRoute.TransformVideos | dashboard/src/app/api/refresh/route.ts:142-157 | The flat list holds a video exactly when it comes from an item with an author name. Its counters are the item's, with absent or null ones read as 0. |
| RefreshRoute.TransformTotals | dashboard/src/app/api/refresh/route.ts:159-163 | Plays, likes or comments summed over the sorted flat list equal the sum of the per-profile sums. |
| RefreshRoute.ProfilesIffVideos | dashboard/src/app/api/refresh/route.ts:200 | The result has a profile exactly when it has a video, so either half of the save guard decides it. |
| RefreshRoute.BodyKeyWins | dashboard/src/app/api/refresh/route.ts:172-173 | A truthy `apiKey` in the request body is the key used, whatever the environment holds. |
| RefreshRoute.EnvKeyFallback | dashboard/src/app/api/refresh/route.ts:171-176 | Without a truthy body key (unparsable body, null body, or a falsy field), a key exists exactly when the environment holds a non-empty one, and then it is that one. |
| RefreshRoute.ScrapeAllFirst | dashboard/src/app/api/refresh/route.ts:190-194 | The flattened items are the first profile's items followed by the rest, in `PROFILES` order. |
| RefreshRoute.RefreshPost | dashboard/src/app/api/refresh/route.ts:169-229 | The answer is 400 exactly when no key is found. Otherwise the data is the transform of every profile's items, flattened in `PROFILES` order. |
| RefreshRoute.SaveGuardIffAuthoredItem | dashboard/src/app/api/refresh/route.ts:200 | The save guard holds exactly when some scraped item had an author name. |
| RefreshRoute.RefreshSavesIffAuthoredItem | dashboard/src/app/api/refresh/route.ts:197-203 | With a key, the route always answers with the dataset, and hands it to storage exactly when some scraped item had an author name. |
| RefreshRoute.GroupAsWrittenDiverges | dashboard/src/app/api/refresh/route.ts:128-159 | The loop as written throws exactly when some item's author is an inherited object property name. Otherwise it computes what the corrected loop computes. |
| RefreshRoute.InheritedNeverOwn | dashboard/src/app/api/refresh/route.ts:128 | When no author is an inherited property name, looking one up finds no profile. |
| RefreshRoute.RefreshPostAsWritten | dashboard/src/app/api/refresh/route.ts:169-243 | The handler as written answers 400 exactly when no key is found. |
| RefreshRoute.RefreshPostAsWrittenDiverges | dashboard/src/app/api/refresh/route.ts:169-243 | Given a key, the handler as written answers 500 exactly when some scraped author is an inherited property name; otherwise its answer is the corrected handler's. |
| RefreshRoute.ConstructorAuthorFails | dashboard/src/app/api/refresh/route.ts:230-243 | A scrape returning one video by the account "constructor" makes the handler as written answer 500. The corrected handler returns and saves that account's profile and video. |
| FetchScript.TransformPy | execution/fetch_tiktok_data.py:54-115 | `transform_data` groups like the route, with counters defaulted by `.get(k, 0)`, then sorts by play count descending. It raises when the sort compares a `None`. |
| FetchScript.NullPlaysIff | execution/fetch_tiktok_data.py:92-110 | Some video has a `None` play count exactly when some item with an author name has a null `playCount`. |
| FetchScript.PyFailsIff | execution/fetch_tiktok_data.py:113 | The script fails exactly when there are at least two videos and one of their items has a null play count. |
| FetchScript.PyAgreesWithRoute | execution/fetch_tiktok_data.py:54-115 | When the script succeeds, its profiles and videos are the route's, in the same order, once nulls read as 0. Its `profile_count` is 5 where the route's is 8. |
| ChannelRegistry.ServerStorage.constructor | dashboard/lib/server-storage.ts:4-14 | A new registry holds the nine default channels. |
| ChannelRegistry.ServerStorage.GetChannels | dashboard/lib/server-storage.ts:23-25 | Returns the list and changes nothing. |
| ChannelRegistry.ServerStorage.SetChannels | dashboard/lib/server-storage.ts:27-29 | The list becomes the given one. |
| ChannelRegistry.ServerStorage.AddChannels | dashboard/lib/server-storage.ts:31-41 | Returns the requested channels not in the list before the call, in request order, and the list becomes the old list followed by them. |
| ChannelRegistry.UnseenMembers | dashboard/lib/server-storage.ts:32-34 | A name is returned exactly when it was requested and is not already in the list. |
| ChannelRegistry.UnseenCounts | dashboard/lib/server-storage.ts:32-34 | A new name is returned as many times as it was requested; a known name never. |
| ChannelRegistry.UnseenAppend | dashboard/lib/server-storage.ts:32-34 | Filtering a concatenated request filters each part. |
| ChannelRegistry.UnseenOfNothing | dashboard/lib/server-storage.ts:32-34 | With an empty list the request comes back unchanged, so the filter only deletes and never reorders. |
| ChannelRegistry.NothingNewIff | dashboard/lib/server-storage.ts:36-40 | Nothing is returned, and so nothing is added, exactly when every requested name is already in the list. |
| ChannelRegistry.UnseenAfterAdding | dashboard/lib/server-storage.ts:32-38 | After the new names are added, the same request finds nothing new. |
| ChannelRegistry.RepeatsWithinOneCallKept | dashboard/lib/server-storage.ts:32-34 | A name repeated within one request is added twice. |
| ChannelRegistry.RegistryScenario | dashboard/lib/server-storage.ts:23-41 | A set list reads back as set; adding a request returns its unseen names; adding it again returns nothing. |
| PersistRoute.PostOutcome | dashboard/src/app/api/persist/route.ts:7-38 | POST stores exactly when the body parses and its `data` is truthy; then both variables are overwritten and the stored timestamp is returned. A falsy `data` gives 400; an unreadable or null body gives 500. A rejected POST leaves the state as it was. |
| PersistRoute.AcceptedStamp | dashboard/src/app/api/persist/route.ts:21 | After an accepted POST the stored timestamp is truthy: the body's own, or the time now. |
| PersistRoute.LastWriteWins | dashboard/src/app/api/persist/route.ts:40-53 | After any sequence of POSTs on the empty store, GET answers 404 when none was accepted. Otherwise it returns the data and timestamp of the last accepted one. |
| PersistRoute.PersistStore.constructor | dashboard/src/app/api/persist/route.ts:4-5 | Both variables start as null. |
| PersistRoute.PersistStore.Post | dashboard/src/app/api/persist/route.ts:7-38 | The new state and the response are those of the POST step on the old state. |
| PersistRoute.PersistStore.Get | dashboard/src/app/api/persist/route.ts:40-53 | Answers 404 on an empty store, otherwise the stored data and timestamp; it changes nothing. |
| PersistRoute.PersistScenario | dashboard/src/app/api/persist/route.ts:7-53 | A fresh store answers 404, still does after a rejected POST, and after an accepted POST returns what that POST sent. |
| AddChannels.FindProfilesIsLeftmostShortest | dashboard/src/app/api/add-channels/route.ts:29-35 | The declaration found starts at the first `const PROFILES = [` and ends at the first `];` after it. There is no match exactly when no `];` follows any prefix. |
| AddChannels.ListedIn | dashboard/src/app/api/add-channels/route.ts:29-42 | A source text declares a list of names exactly when the pattern matches it. |
| AddChannels.ParseProfilesPlain | dashboard/src/app/api/add-channels/route.ts:39-42 | Every parsed name is non-empty and holds neither a comma nor a quote character. |
| AddChannels.ExpandPlain | dashboard/src/app/api/add-channels/route.ts:63-66 | A replacement without `$` is inserted as it is. |
| AddChannels.ParseRender | dashboard/src/app/api/add-channels/route.ts:58-60 | Rendering names as quoted entries joined by `,\n    ` and parsing them back gives the names, for non-empty names without a comma or a quote. |
| AddChannels.FindAfterReplace | dashboard/src/app/api/add-channels/route.ts:63-66 | After the replacement, the pattern finds the new declaration at the same place and captures exactly the rendered list. |
| AddChannels.RewriteDeclares | dashboard/src/app/api/add-channels/route.ts:57-66 | The rewritten text declares exactly the given names, for plain names. |
| AddChannels.ShippedDeclarationParses | dashboard/src/app/api/add-channels/route.ts:37-42 | The refresh route's declaration, rendered as the handler renders it, parses back to its eight profiles. |
| AddChannels.AddChannelsPostSpec | dashboard/src/app/api/add-channels/route.ts:5-76 | The handler answers 400 without channels and 400 without a key. It answers 500 when the text has no declaration and 400 when every channel is declared. Otherwise it returns the unseen channels in request order, the total, and the text with the old names followed by them; that this text reads back as those names is WrittenFileListsUpdated. |
| AddChannels.AddedWhenUnseen | dashboard/src/app/api/add-channels/route.ts:45-76 | A request with a key and unseen channels is answered with exactly those channels and the updated count. |
| AddChannels.AddsUnlisted | dashboard/src/app/api/add-channels/route.ts:45-76 | Any single name the text does not list is accepted as one new channel. |
| AddChannels.WrittenFileListsUpdated | dashboard/src/app/api/add-channels/route.ts:57-76 | With plain names, the written text declares the old names followed by `newChannels`, and `totalChannels` is their number. |
| AddChannels.RewriteCommaName | dashboard/src/app/api/add-channels/route.ts:39-66 | A declaration rewritten with the name "a,b" last parses back with a and b as two names. |
| AddChannels.CommaNameMiscounted | dashboard/src/app/api/add-channels/route.ts:45-76 | The handler as written accepts "a,b" as one new channel and reports a total one above the old count. The text it writes declares two more names. |
| AddChannels.AddChannelsPostChecked | dashboard/src/app/api/add-channels/route.ts:10-22 | The corrected handler refuses with 400 exactly the requests naming a channel that is empty or holds a comma, a quote, `]` or `$`. These include every request naming a channel that cannot be written and read back. Every other request is handled as before. |
| AddChannels.CheckedWriteRoundTrip | dashboard/src/app/api/add-channels/route.ts:57-76 | With the check, the written text declares the old names followed by the new ones, the total counts them, and the text again declares only plain names. |
| DashboardView.TopOfIsFirstBest | dashboard/src/components/Dashboard.tsx:77-80 | A profile's best video is one of its videos with the most plays, and the first such in its list. |
| DashboardView.TopFromEachMembers | dashboard/src/components/Dashboard.tsx:77-83 | Every profile with videos contributes its best video, and nothing else is chosen. |
| DashboardView.UnusedMembers | dashboard/src/components/Dashboard.tsx:86-88 | A video is a padding candidate exactly when it is in the flat list and its id was not chosen. |
| DashboardView.PaddingLength | dashboard/src/components/Dashboard.tsx:85-92 | No padding when six or more were chosen. Otherwise the padding tops the grid up to six, or adds as many as there are candidates. |
| DashboardView.PaddingSpec | dashboard/src/components/Dashboard.tsx:85-92 | The padding holds only candidates, most played first, and none left out has more plays than one taken. |
| DashboardView.AllGridSpec | dashboard/src/components/Dashboard.tsx:94-96 | The "all" grid holds six videos, or every chosen and candidate video when there are fewer. It is non-increasing in plays, drawn from the chosen and padding videos, and none of those left out has more plays than one shown. |
| DashboardView.AllGridLength | dashboard/src/components/Dashboard.tsx:85-96 | The "all" grid holds six videos, or all the chosen and candidate videos when there are fewer. |
| DashboardView.AllGridKeepsTops | dashboard/src/components/Dashboard.tsx:77-96 | When at most six profiles have videos, every such profile's best video is in the "all" grid. |
| DashboardView.VideoLists | dashboard/src/components/Dashboard.tsx:69-111 | The memo returns no lists without data. Otherwise "all" gets the "all" grid, then each profile's name gets its top six. |
| DashboardView.ProfileGridsLast | dashboard/src/components/Dashboard.tsx:99-108 | The grid assigned last under a name is that profile's top six. |
| DashboardView.ProfileGridsKeep | dashboard/src/components/Dashboard.tsx:99-108 | A name no profile has keeps the grid it had before. |
| DashboardView.VideoListsShape | dashboard/src/components/Dashboard.tsx:69-111 | "all" maps to the "all" grid unless a profile is named "all". A profile's grid has min(6, its count) videos, most played first, from its own videos, and no video left out has more plays than one shown. |
| DashboardView.AllTotalsAddUp | dashboard/src/components/Dashboard.tsx:116-131 | On a refreshed dataset where no profile is named "all", each total shown for "all" is the sum of the totals shown for each profile. |
| PageView.FilterCounts | dashboard/src/app/page.tsx:47-50 | A video stays, as many times as it occurs, exactly when its description or author contains the query, ignoring case. |
| PageView.FilteredVideosSpec | dashboard/src/app/page.tsx:45-62 | The list shown is the selected list, searched, as a multiset. It is ordered on the chosen value, ascending exactly when chosen so, and keeps list order among equal values. |
| PageView.AscendingIsStableSort | dashboard/src/app/page.tsx:51-61 | Any arrangement that is ascending on the value and keeps list order among ties is the one shown. |
| PageView.Click | dashboard/src/app/page.tsx:185 | A click makes its key active. The direction becomes ascending exactly when that key was active and descending. |
| PageView.ClickTwice | dashboard/src/app/page.tsx:185 | Two clicks on the active key restore the state. Two clicks on another key leave it active and ascending. |
| PageView.ChannelRequest | dashboard/src/app/page.tsx:501-507 | The box sends a request only with at least one name. |
| PageView.ChannelRequestPlain | dashboard/src/app/page.tsx:502-505 | Every name sent is non-empty and holds neither a comma nor a line break. |
| PageView.NothingSentIffNoNames | dashboard/src/app/page.tsx:501-507 | Nothing is sent exactly when no name is left after splitting and cleaning, so the blank-box check is redundant. |
| PageView.CleanPlainHandle | dashboard/src/app/page.tsx:504 | A plain handle comes through cleaning unchanged, with or without one leading '@'. |
| PageView.ChannelRequestRoundTrip | dashboard/src/app/page.tsx:502-505 | Typing plain handles separated by commas sends exactly those handles. |
| PageView.PageReplacesIffRouteSaves | dashboard/src/app/page.tsx:664-681 | With a saved key, the page shows the route's dataset exactly when the route saved it, which is when some item had an author. Otherwise the data on screen stays. |
| PageView.NoKeyNoRequest | dashboard/src/app/page.tsx:655-660 | Without a saved key, the data stays and the user is asked for a key. |
| PageView.MetricsAddUp | dashboard/src/app/page.tsx:708-713 | The page's metrics are the dashboard's totals for "all". On refreshed data, each is the sum of the profiles' own totals. |
| Sorting.SortDescSpec | dashboard/src/app/api/refresh/route.ts:163 | The sort returns a permutation, non-increasing in the key, keeping input order among equal keys. |
| Sorting.StableSortIsSortDesc | dashboard/src/app/api/refresh/route.ts:163 | Any stable sort into non-increasing order gives the same result, so one sort models every runtime's. |
| Sorting.TopN | dashboard/src/components/Dashboard.tsx:102-104 | The first n of a stable sort number min(n, length). They are a sub-multiset of the input in non-increasing key order, and nothing left out ranks above anything taken. |
| Sorting.Take | dashboard/src/components/Dashboard.tsx:96 | `slice(0, n)` keeps the first min(n, length) elements. |
| Text.TrimSlice | dashboard/src/app/page.tsx:504 | `trim` keeps a slice of its input with only white space before and after it. |
| Text.SplitJoin | dashboard/src/app/page.tsx:503 | Splitting undoes a join on a separator that no piece contains. |
| Text.Includes | dashboard/src/app/page.tsx:49 | `includes` holds exactly when the query occurs somewhere in the text. |
| Text.IndexOfFirst | dashboard/src/app/api/add-channels/route.ts:29 | The search for a pattern finds its first occurrence. |

## Left out

- Scraping is a parameter: `fetchSingleProfile`, the ApifyClient calls and the `Promise.all` fan-out. Each profile's scrape is a function of the key and the profile name, and its failures are already turned into an empty list. So are the Python `fetch_data` and the script's `__main__`.
- Every file read and write: `public/data.json`, the script's `save_data`, and the add-channels source file. The handler receives the text and returns the text it would write, or None when reading throws.
- Storage (`storage.saveData`, the localStorage mirror and the Supabase client) is not part of this model. The refresh route reports whether it would save; save errors are swallowed by the route.
- Clocks are parameters (`new Date().toISOString()`, `datetime.now()`), and so is the environment key.
- Numbers are unbounded integers. Floating-point counters, sums beyond 2^53, NaN, and display formatting (`fmt`, `toFixed`, bar widths) are not modelled.
- The `topIds` engagement ranking on the page uses float ratios and `ceil(n * 0.1)`, so it is not modelled.
- PageView.FilteredVideosSpec: a video without `createTime` sorts with the value 0. In the source the comparator returns NaN for it, so the order depends on the engine's sort.
- JavaScript object keys: the profile record is a sequence in insertion order. Keys that look like array indices would come first in `Object.values`; that is not modelled.
- DashboardView.VideoLists: `lists` is a map, so a profile named `__proto__` is an ordinary entry. In the source, assigning that key changes the object's prototype instead.
- DashboardView.AllTotalsAddUp: stated only when no profile is named "all". Such a profile is reachable, since add-channels accepts the name "all". It collides with the selection key: its top six replace the "all" grid (Dashboard.tsx:102 overwrites the entry set at 96, as VideoListsShape states). Selecting it takes the 'all' branch at 116 and 126, so it shows the totals of every video rather than its own.
- AddChannels.AddChannelsPostChecked: the check refuses more than it must. A `]` ends the match only when `;` follows it (route.ts:29), and a `$` is special in the replacement only before `$`, `&`, a backquote or `'` (route.ts:63-66). So names such as "a]b" or "x$y" are refused, although they would be written and read back unchanged. Only "cannot be read back, so refused" is proved, not the converse.
- Text.ToLower: `toLowerCase` is modelled on ASCII letters only.
- Scraped items are typed. A non-string author name, a `null` `authorMeta` or `videoMeta` in the Python script (which would raise), and non-string elements of `channels` are not modelled.
- The refresh route's error messages, and the messages of the add-channels route, are modelled as kinds rather than strings. Likewise the alerts the page shows.
- The add-channel box after parsing (the request to the route, localStorage, the modal) is not modelled; the model stops at the names it would send.
- The presentation components, the embed-script loading with its retries, the debug, data and restore-backup routes, and the registry's singleton accessor are not part of this model.

## Findings

| source | as written | input that shows it | evidently intended | confidence | as-written member | corrected member |
|---|---|---|---|---|---|---|
| dashboard/src/app/api/refresh/route.ts:128 | `profiles` is an object literal, so `profiles[authorName]` also sees inherited properties. For such an author no profile is created, pushing onto `.videos` throws a TypeError, and the route answers 500. | A scrape returning one item whose `authorMeta.name` is "constructor" (or "toString", "__proto__", ...). | Every author gets its own profile, as for any other name. | not executed | RefreshRoute.GroupAsWrittenDiverges | RefreshRoute.RefreshPost |
| dashboard/src/app/api/add-channels/route.ts:45-60 | Requested names are written into the declaration unchecked. A name holding a comma is written as one entry but parsed back as two. | The request `channels: ["a,b"]` against a declaration of plain names: the response reports one new channel and a total of n + 1, but the written file declares n + 2 names. | Names that cannot be written and read back unchanged are refused, so the written file declares exactly what the response reports. The correction refuses every name with a comma, a quote, `]` or `$`, which covers them. | not executed | AddChannels.CommaNameMiscounted | AddChannels.CheckedWriteRoundTrip |
