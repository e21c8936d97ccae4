/** The stand-alone fetch script's `transform_data`: the same grouping as the refresh route, but
    a counter is defaulted with `dict.get(key, 0)`, which replaces an absent value by 0 and keeps
    a JSON null as None, and the final `list.sort(key=playCount, reverse=True)` raises a TypeError
    when it has to compare None with anything. */
module FetchScript {
  import opened Common
  import opened Schema
  import opened Sorting
  import opened Grouping
  import RefreshRoute

  /** The profiles in the script's actor input, in order. */
  const PROFILES: seq<string> := [
    "matchupvault",
    "wrestler.trivia",
    "callthemoment",
    "street.slamdown",
    "ragequitguy"
  ]

  /** `d.get(key, 0)`: only an absent key is replaced; a null value stays None. */
  function GetOrZero(n: Num): Num
  {
    if n.Missing? then Int(0) else n
  }

  /** The sort key of a video whose play count is a number. */
  function PlayKey(v: Video<Num>): int
  {
    match v.stats.playCount
    case Int(i) => i
    case _ => 0
  }

  /** Some video has a None play count. */
  predicate SomeNullPlays(vs: seq<Video<Num>>)
  {
    exists i :: 0 <= i < |vs| && vs[i].stats.playCount.Null?
  }

  /** `transform_data(items)`: the dataset, or the TypeError the sort raises. CPython's sort
      returns at once for fewer than two elements; otherwise every element takes part in some
      comparison, and comparing None with a number or with None fails. */
  function TransformPySpec(items: seq<RawItem>, now: string): Result<Dataset<Num>, string>
  {
    var vs := VideosIn(items, GetOrZero);
    if |vs| >= 2 && SomeNullPlays(vs) then
      Err("TypeError: '<' not supported between instances of 'NoneType' and 'int'")
    else
      Ok(Dataset(now, |PROFILES|, ProfilesOf(items, GetOrZero), SortDesc(vs, PlayKey)))
  }

  /** The script's loop followed by the sort. */
  method TransformPy(items: seq<RawItem>, now: string) returns (r: Result<Dataset<Num>, string>)
    ensures r == TransformPySpec(items, now)
  {
    var profiles, allVideos := GroupItems(items, GetOrZero);
    if |allVideos| >= 2 && SomeNullPlays(allVideos) {
      r := Err("TypeError: '<' not supported between instances of 'NoneType' and 'int'");
    } else {
      r := Ok(Dataset(now, |PROFILES|, profiles, SortDesc(allVideos, PlayKey)));
    }
  }

  /** A video with a None play count comes from an item with an author name and a null play count. */
  lemma NullPlaysIff(items: seq<RawItem>)
    ensures SomeNullPlays(VideosIn(items, GetOrZero)) <==>
      exists i :: 0 <= i < |items| && AuthorKey(items[i]).Some? && items[i].playCount.Null?
  {
    var vs := VideosIn(items, GetOrZero);
    if SomeNullPlays(vs) {
      var j :| 0 <= j < |vs| && vs[j].stats.playCount.Null?;
      VideosInMembers(items, GetOrZero, vs[j]);
    }
    if exists i :: 0 <= i < |items| && AuthorKey(items[i]).Some? && items[i].playCount.Null? {
      var i :| 0 <= i < |items| && AuthorKey(items[i]).Some? && items[i].playCount.Null?;
      var v := ToVideo(items[i], AuthorKey(items[i]).value, GetOrZero);
      VideosInMembers(items, GetOrZero, v);
      var j :| 0 <= j < |vs| && vs[j] == v;
    }
  }

  /** The script fails exactly when at least two items have an author name and one of those
      has a null play count; a single video, or none, is never compared. */
  lemma PyFailsIff(items: seq<RawItem>, now: string)
    ensures TransformPySpec(items, now).Err? <==>
      |VideosIn(items, GetOrZero)| >= 2 &&
      exists i :: 0 <= i < |items| && AuthorKey(items[i]).Some? && items[i].playCount.Null?
  {
    var vs := VideosIn(items, GetOrZero);
    assert TransformPySpec(items, now).Err? <==> |vs| >= 2 && SomeNullPlays(vs);
    NullPlaysIff(items);
  }

  /** Whenever the script succeeds, its dataset is the refresh route's with each null counter read
      as 0, except that it counts its own five profiles: same profiles with the same fields in
      the same order, and the same videos in the same order. */
  lemma PyAgreesWithRoute(items: seq<RawItem>, now: string)
    requires TransformPySpec(items, now).Ok?
    ensures var py := TransformPySpec(items, now).value;
      var ts := RefreshRoute.TransformSpec(items, now);
      py.profileCount == 5 && ts.profileCount == 8 &&
      Map(py.profiles, (p: Profile<Num>) => MapProfile(p, RefreshRoute.OrZero)) == ts.profiles &&
      Map(py.allVideos, (v: Video<Num>) => MapVideo(v, RefreshRoute.OrZero)) == ts.allVideos
  {
    var f := (v: Video<Num>) => MapVideo(v, RefreshRoute.OrZero);
    ProfilesOfMap(items, GetOrZero, RefreshRoute.OrZero, RefreshRoute.OrZero);
    VideosInMap(items, GetOrZero, RefreshRoute.OrZero, RefreshRoute.OrZero);
    SortDescMap(VideosIn(items, GetOrZero), f, Plays, PlayKey);
  }
}
