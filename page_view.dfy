/** The dashboard page's own logic: the searched and sorted video list with its sort buttons,
    the add-channel box's parsing of what was typed, the rule that decides whether a refresh
    replaces the data on screen, and the metrics computed from the data. */
module PageView {
  import opened Common
  import opened Schema
  import opened Sorting
  import opened Text
  import RefreshRoute
  import DashboardView

  // ---------------------------------------------------------------------------------------
  // Search and sort

  datatype SortKey = ByViews | ByLikes | ByComments | ByDate

  /** The upload time, 0 when the video has none. */
  function CreatedAt(v: Video<int>): int
  {
    match v.createTime
    case Some(t) => t
    case None => 0
  }

  /** `getValue`: the number the list is sorted on. */
  function SortValue(field: SortKey, v: Video<int>): int
  {
    match field
    case ByViews => Plays(v)
    case ByLikes => Likes(v)
    case ByComments => CommentTotal(v)
    case ByDate => CreatedAt(v)
  }

  /** The key a stable descending sort uses for the comparator: `getValue(b) - getValue(a)`
      sorts on the value, highest first; `getValue(a) - getValue(b)` sorts on its negation. */
  function SortFn(field: SortKey, asc: bool): Video<int> -> int
  {
    if asc then (v: Video<int>) => -SortValue(field, v) else (v: Video<int>) => SortValue(field, v)
  }

  /** The search test on a lower-cased query: the description or the author contains it, both
      lower-cased; a video without a description is tested on its author alone. */
  predicate Matches(v: Video<int>, q: string)
  {
    (v.desc.Some? && Includes(ToLower(v.desc.value), q)) || Includes(ToLower(v.author), q)
  }

  /** The videos of vs that match q, in order. */
  function Filter(vs: seq<Video<int>>, q: string): (r: seq<Video<int>>)
    ensures |r| <= |vs|
  {
    if |vs| == 0 then [] else (if Matches(vs[0], q) then [vs[0]] else []) + Filter(vs[1..], q)
  }

  /** The list after the search box: unchanged for an empty query. */
  function Search(vs: seq<Video<int>>, query: string): seq<Video<int>>
  {
    if query == "" then vs else Filter(vs, ToLower(query))
  }

  /** `filteredVideos`: the selected profile's videos ("all" for every video), searched, then
      sorted on the chosen value in the chosen direction, ties in list order. */
  function FilteredVideos(d: Dataset<int>, active: string, query: string, field: SortKey, asc: bool): seq<Video<int>>
  {
    SortDesc(Search(DashboardView.Displayed(Some(d), active), query), SortFn(field, asc))
  }

  /** A video stays as often as it occurs exactly when it matches, and is dropped otherwise. */
  lemma {:induction false} FilterCounts(vs: seq<Video<int>>, q: string, v: Video<int>)
    ensures multiset(Filter(vs, q))[v] == if Matches(v, q) then multiset(vs)[v] else 0
  {
    if |vs| > 0 {
      FilterCounts(vs[1..], q, v);
      assert vs == [vs[0]] + vs[1..];
    }
  }

  /** Reading the negated key at -k picks the same elements as the key at k. */
  lemma {:induction false} KeyFilterNegated(s: seq<Video<int>>, field: SortKey, k: int)
    ensures KeyFilter(s, SortFn(field, true), -k) == KeyFilter(s, SortFn(field, false), k)
  {
    if |s| > 0 {
      KeyFilterNegated(s[1..], field, k);
    }
  }

  /** The list shown: exactly the videos of the selected list that match the query, each as
      often as there; ordered on the chosen value, ascending or descending as chosen; videos
      with equal values in the order the selected list has them. */
  lemma FilteredVideosSpec(d: Dataset<int>, active: string, query: string, field: SortKey, asc: bool)
    ensures var src := DashboardView.Displayed(Some(d), active);
      var r := FilteredVideos(d, active, query, field, asc);
      && (forall v :: multiset(r)[v] == if query == "" || Matches(v, ToLower(query)) then multiset(src)[v] else 0)
      && (!asc ==> forall i, j :: 0 <= i < j < |r| ==> SortValue(field, r[i]) >= SortValue(field, r[j]))
      && (asc ==> forall i, j :: 0 <= i < j < |r| ==> SortValue(field, r[i]) <= SortValue(field, r[j]))
      && (forall k :: KeyFilter(r, SortFn(field, false), k) == KeyFilter(Search(src, query), SortFn(field, false), k))
  {
    var src := DashboardView.Displayed(Some(d), active);
    var s := Search(src, query);
    var r := FilteredVideos(d, active, query, field, asc);
    SortDescSpec(s, SortFn(field, asc));
    forall v ensures multiset(r)[v] == if query == "" || Matches(v, ToLower(query)) then multiset(src)[v] else 0 {
      if query != "" {
        FilterCounts(src, ToLower(query), v);
      }
    }
    if asc {
      forall k ensures KeyFilter(r, SortFn(field, false), k) == KeyFilter(s, SortFn(field, false), k) {
        KeyFilterNegated(r, field, k);
        KeyFilterNegated(s, field, k);
      }
    }
  }

  /** The ascending order is the only one a stable sort can give: any arrangement of the list
      that is ascending on the value and keeps equal values in list order is the one shown. */
  lemma AscendingIsStableSort(s: seq<Video<int>>, r: seq<Video<int>>, field: SortKey)
    requires forall i, j :: 0 <= i < j < |r| ==> SortValue(field, r[i]) <= SortValue(field, r[j])
    requires forall k :: KeyFilter(r, SortFn(field, false), k) == KeyFilter(s, SortFn(field, false), k)
    ensures r == SortDesc(s, SortFn(field, true))
  {
    forall k ensures KeyFilter(r, SortFn(field, true), k) == KeyFilter(s, SortFn(field, true), k) {
      KeyFilterNegated(r, field, -k);
      KeyFilterNegated(s, field, -k);
    }
    StableSortIsSortDesc(s, r, SortFn(field, true));
  }

  /** The sort state the buttons change; the page starts on views, highest first. */
  datatype SortState = SortState(field: SortKey, asc: bool)

  const INITIAL_SORT: SortState := SortState(ByViews, false)

  /** A click on a sort button: the active key flips the direction, another key becomes the
      active one, highest first. */
  function Click(s: SortState, key: SortKey): (r: SortState)
    ensures r.field == key
    ensures r.asc <==> s.field == key && !s.asc
  {
    if s.field == key then SortState(key, !s.asc) else SortState(key, false)
  }

  /** Two clicks on the active key restore the order; two clicks on another key leave it
      active and ascending. */
  lemma ClickTwice(s: SortState, key: SortKey)
    ensures Click(Click(s, key), key) == if s.field == key then s else SortState(key, true)
  {
  }

  // ---------------------------------------------------------------------------------------
  // The add-channel box

  const CHANNEL_SEPARATORS: set<char> := {',', '\n'}

  /** `replace(/^@/, '')`: one leading '@' is dropped. */
  function StripAt(s: string): string
  {
    if |s| > 0 && s[0] == '@' then s[1..] else s
  }

  /** One typed entry, trimmed and without its '@'. */
  function CleanHandle(entry: string): string
  {
    StripAt(Trim(entry))
  }

  /** The channel names the box holds: split on commas and line breaks, cleaned, empty ones
      dropped. */
  function ChannelsOf(text: string): seq<string>
  {
    DropEmpty(Map(Split(text, CHANNEL_SEPARATORS), CleanHandle))
  }

  /** The names the box yields for the Add button, or None when it yields none: the box is
      blank, or nothing is left after cleaning. (The button also sends nothing without a saved
      key; that check is not part of this function.) */
  function ChannelRequest(text: string): (r: Option<seq<string>>)
    ensures r.Some? ==> |r.value| > 0
  {
    if Trim(text) == "" then None
    else
      var channels := ChannelsOf(text);
      if |channels| > 0 then Some(channels) else None
  }

  /** Cleaning an entry keeps only characters of the entry. */
  lemma CleanInside(entry: string, cs: set<char>)
    requires NoneIn(entry, cs)
    ensures NoneIn(CleanHandle(entry), cs)
  {
    TrimInside(entry, cs);
    var t := Trim(entry);
    if |t| > 0 && t[0] == '@' {
      forall h | 0 <= h < |t| - 1 ensures t[1..][h] !in cs {
        assert t[1..][h] == t[h + 1];
      }
    }
  }

  /** Every name sent is non-empty and holds neither separator. */
  lemma ChannelRequestPlain(text: string)
    ensures var r := ChannelRequest(text);
      r.Some? ==> forall i :: 0 <= i < |r.value| ==> r.value[i] != "" && NoneIn(r.value[i], CHANNEL_SEPARATORS)
  {
    var pieces := Split(text, CHANNEL_SEPARATORS);
    var m := Map(pieces, CleanHandle);
    forall i | 0 <= i < |m| ensures NoneIn(m[i], CHANNEL_SEPARATORS) {
      SplitPieces(text, CHANNEL_SEPARATORS);
      MapAt(pieces, CleanHandle, i);
      CleanInside(pieces[i], CHANNEL_SEPARATORS);
    }
    DropEmptyKeeps(m, CHANNEL_SEPARATORS);
  }

  /** Every piece of a blank text is blank. */
  lemma {:induction false} SplitBlank(s: string, seps: set<char>)
    requires AllSpace(s)
    ensures forall i :: 0 <= i < |Split(s, seps)| ==> AllSpace(Split(s, seps)[i])
  {
    if |s| > 0 {
      SplitBlank(s[1..], seps);
    }
  }

  /** Blank entries clean to nothing. */
  lemma {:induction false} BlankEntriesDropped(xs: seq<string>)
    requires forall i :: 0 <= i < |xs| ==> AllSpace(xs[i])
    ensures DropEmpty(Map(xs, CleanHandle)) == []
  {
    if |xs| > 0 {
      BlankEntriesDropped(xs[1..]);
      assert Map(xs, CleanHandle)[1..] == Map(xs[1..], CleanHandle);
      TrimEmptyIffAllSpace(xs[0]);
    }
  }

  /** The blank-box check only repeats the later one: nothing is sent exactly when no name is
      left after cleaning. */
  lemma NothingSentIffNoNames(text: string)
    ensures ChannelRequest(text).None? <==> ChannelsOf(text) == []
  {
    if Trim(text) == "" {
      TrimEmptyIffAllSpace(text);
      SplitBlank(text, CHANNEL_SEPARATORS);
      BlankEntriesDropped(Split(text, CHANNEL_SEPARATORS));
    }
  }

  /** A handle that is non-empty, has no white space at its ends, does not start with '@' and
      holds no separator. */
  predicate PlainHandle(n: string)
  {
    n != "" && NoEdgeSpace(n) && n[0] != '@' && NoneIn(n, CHANNEL_SEPARATORS)
  }

  /** A plain handle comes through cleaning unchanged, with or without a leading '@'. */
  lemma CleanPlainHandle(n: string)
    requires PlainHandle(n)
    ensures CleanHandle(n) == n && CleanHandle("@" + n) == n
  {
    TrimUnpadded(n);
    var a := "@" + n;
    assert NoEdgeSpace(a) by {
      assert a[0] == '@' && !IsSpace('@');
      assert a[|a| - 1] == n[|n| - 1];
    }
    TrimUnpadded(a);
    assert a[1..] == n;
  }

  /** Joining handles that start with a non-space character gives a text that is not blank. */
  lemma JoinNotBlank(names: seq<string>)
    requires |names| > 0 && PlainHandle(names[0])
    ensures Trim(Join(names, ",")) != ""
  {
    JoinHead(names, ",");
    TrimNotBlank(Join(names, ","));
  }

  /** Typing plain handles separated by commas sends exactly those handles. */
  lemma ChannelRequestRoundTrip(names: seq<string>)
    requires |names| > 0 && forall i :: 0 <= i < |names| ==> PlainHandle(names[i])
    ensures ChannelRequest(Join(names, ",")) == Some(names)
  {
    var text := Join(names, ",");
    JoinNotBlank(names);
    assert Split(text, CHANNEL_SEPARATORS) == names by {
      forall i | 0 <= i < |names| ensures NoneIn(names[i], CHANNEL_SEPARATORS) {
      }
      SplitJoin(names, ',', CHANNEL_SEPARATORS);
    }
    assert Map(names, CleanHandle) == names by {
      forall i | 0 <= i < |names| ensures CleanHandle(names[i]) == names[i] {
        CleanPlainHandle(names[i]);
      }
      MapElementwise(names, CleanHandle, names);
    }
    assert DropEmpty(names) == names by {
      DropEmptyNone(names);
    }
    assert ChannelsOf(text) == names;
  }

  // ---------------------------------------------------------------------------------------
  // Refreshing from the page

  /** What the user is told. */
  datatype RefreshOutcome =
    | NeedsKey            // no key saved: the settings panel opens, nothing is requested
    | Updated(count: nat) // the data on screen is replaced
    | NoNewVideos         // the route answered with an empty video list
    | RefreshFailed       // the route failed, or the request or its JSON threw

  /** The body the page posts: `{ apiKey: savedApiKey }`. */
  function RequestBody(key: string): Json
  {
    JObj([("apiKey", JStr(key))])
  }

  /** `handleRefresh`: the data on screen after the refresh and what the user is told, given
      the saved key and the route's answer (None when the request or its JSON threw). */
  function HandleRefresh(cur: Option<Dataset<int>>, savedKey: Option<string>, resp: Option<RefreshRoute.RefreshResponse>): (Option<Dataset<int>>, RefreshOutcome)
  {
    if savedKey.None? || savedKey.value == "" then (cur, NeedsKey)
    else if resp.None? then (cur, RefreshFailed)
    else
      match resp.value
      case Refreshed(d, _) =>
        if |d.allVideos| > 0 then (Some(d), Updated(|d.allVideos|)) else (cur, NoNewVideos)
      case _ => (cur, RefreshFailed)
  }

  /** Against the refresh route, a saved key always gets the route's dataset, and the page
      replaces its data exactly when the route stored that dataset, which is exactly when
      some scraped item had an author name; otherwise the data on screen stays. */
  lemma PageReplacesIffRouteSaves(cur: Option<Dataset<int>>, key: string, env: Option<string>,
                                  scrape: (Json, string) -> seq<RawItem>, now: string)
    requires key != ""
    ensures var r := RefreshRoute.RefreshPost(Some(RequestBody(key)), env, scrape, now);
      var (shown, outcome) := HandleRefresh(cur, Some(key), Some(r));
      var items := RefreshRoute.ScrapeAll(RefreshRoute.PROFILES, JStr(key), scrape);
      && r.Refreshed? && r.data == RefreshRoute.TransformSpec(items, now)
      && (outcome.Updated? <==> r.saved)
      && (r.saved <==> RefreshRoute.SomeAuthored(items))
      && (outcome.Updated? ==> shown == Some(r.data) && outcome.count == |r.data.allVideos|)
      && (!outcome.Updated? ==> shown == cur && outcome == NoNewVideos)
  {
    var body := Some(RequestBody(key));
    var fields := [("apiKey", JStr(key))];
    assert FieldValue(fields, "apiKey") == JStr(key);
    RefreshRoute.BodyKeyWins(fields, env);
    var items := RefreshRoute.ScrapeAll(RefreshRoute.PROFILES, JStr(key), scrape);
    RefreshRoute.RefreshSavesIffAuthoredItem(body, env, scrape, now);
    RefreshRoute.ProfilesIffVideos(items, now);
  }

  /** Without a saved key the page neither asks the route nor changes the data. */
  lemma NoKeyNoRequest(cur: Option<Dataset<int>>, resp: Option<RefreshRoute.RefreshResponse>)
    ensures HandleRefresh(cur, None, resp) == (cur, NeedsKey)
    ensures HandleRefresh(cur, Some(""), resp) == (cur, NeedsKey)
  {
  }

  // ---------------------------------------------------------------------------------------
  // Metrics

  /** `metrics`: plays, likes and comments summed over every video, fans over every profile;
      all zero without data. */
  function Metrics(data: Option<Dataset<int>>): DashboardView.Totals
  {
    var videos := if data.Some? then data.value.allVideos else [];
    var profiles := if data.Some? then data.value.profiles else [];
    DashboardView.Totals(Sum(videos, Plays), Sum(videos, Likes), Sum(videos, CommentTotal), Sum(profiles, Fans))
  }

  /** The page's metrics are the totals the dashboard shows for "all", and on refreshed data
      each is the sum of the profiles' own totals. */
  lemma MetricsAddUp(items: seq<RawItem>, now: string)
    ensures var d := RefreshRoute.TransformSpec(items, now);
      var m := Metrics(Some(d));
      && m == DashboardView.DashboardTotals(Some(d), "all")
      && m.views == Sum(d.profiles, (p: Profile<int>) => Sum(p.videos, Plays))
      && m.likes == Sum(d.profiles, (p: Profile<int>) => Sum(p.videos, Likes))
      && m.comments == Sum(d.profiles, (p: Profile<int>) => Sum(p.videos, CommentTotal))
  {
    RefreshRoute.TransformTotals(items, now, Plays);
    RefreshRoute.TransformTotals(items, now, Likes);
    RefreshRoute.TransformTotals(items, now, CommentTotal);
  }
}
