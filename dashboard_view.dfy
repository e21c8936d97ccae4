/** The dashboard component's derived data: the grid lists it renders (a grid of six for "all",
    built from each profile's best video and padded from the flat list, and a top-six grid per
    profile) and the totals shown for the selected profile. */
module DashboardView {
  import opened Common
  import opened Schema
  import opened Sorting
  import opened Grouping
  import RefreshRoute

  /** The number of videos a grid shows. */
  const GRID: nat := 6

  /** A profile's best video: the head of a stable sort, by plays, of a copy of its videos. */
  function TopOf(p: Profile<int>): Video<int>
    requires |p.videos| > 0
  {
    SortDesc(p.videos, Plays)[0]
  }

  /** The best video of every profile that has videos, in profile order; profiles without
      videos contribute nothing. */
  function TopFromEach(ps: seq<Profile<int>>): (r: seq<Video<int>>)
    ensures |r| <= |ps|
  {
    if |ps| == 0 then []
    else
      var p := ps[|ps| - 1];
      TopFromEach(ps[..|ps| - 1]) + (if |p.videos| == 0 then [] else [TopOf(p)])
  }

  /** The set of ids of the chosen videos. A missing id is a member too, as undefined. */
  function IdsOf(vs: seq<Video<int>>): set<Option<string>>
  {
    set v | v in vs :: v.id
  }

  /** The videos of vs whose id is not in used, in order. */
  function Unused(vs: seq<Video<int>>, used: set<Option<string>>): seq<Video<int>>
  {
    if |vs| == 0 then []
    else
      var v := vs[|vs| - 1];
      Unused(vs[..|vs| - 1], used) + (if v.id in used then [] else [v])
  }

  /** The padding: when fewer than six were chosen, the most played of the flat list's videos
      whose ids were not chosen, as many as are missing. */
  function Padding(all: seq<Video<int>>, top: seq<Video<int>>): seq<Video<int>>
  {
    if |top| < GRID then Take(SortDesc(Unused(all, IdsOf(top)), Plays), GRID - |top|) else []
  }

  /** The "all" grid: the chosen and padding videos sorted by plays, cut to six. */
  function AllGrid(d: Dataset<int>): seq<Video<int>>
  {
    var top := TopFromEach(d.profiles);
    Take(SortDesc(top + Padding(d.allVideos, top), Plays), GRID)
  }

  /** A profile's grid: a stable sort of a copy of its videos by plays, cut to six. */
  function TopSix(vs: seq<Video<int>>): seq<Video<int>>
  {
    Take(SortDesc(vs, Plays), GRID)
  }

  /** The per-profile assignments made in profile order on top of m: a later profile with the
      same name overwrites an earlier one's grid, and a profile named "all" the "all" grid. */
  function ProfileGrids(m: map<string, seq<Video<int>>>, ps: seq<Profile<int>>): map<string, seq<Video<int>>>
  {
    if |ps| == 0 then m
    else
      var p := ps[|ps| - 1];
      ProfileGrids(m, ps[..|ps| - 1])[p.name := TopSix(p.videos)]
  }

  /** The lists the component computes: none without data. */
  function VideoListsSpec(data: Option<Dataset<int>>): map<string, seq<Video<int>>>
  {
    if data.None? then map[] else ProfileGrids(map["all" := AllGrid(data.value)], data.value.profiles)
  }

  /** The memoised computation: build the "all" list by pushing and sorting, then assign each
      profile's grid in turn. */
  method VideoLists(data: Option<Dataset<int>>) returns (lists: map<string, seq<Video<int>>>)
    ensures lists == VideoListsSpec(data)
  {
    if data.None? {
      return map[];
    }
    var d := data.value;
    var allTopVideos := TopFromEach(d.profiles);
    if |allTopVideos| >= GRID {
      assert allTopVideos + [] == allTopVideos;
    } else {
      var usedIds := IdsOf(allTopVideos);
      var remainingVideos := SortDesc(Unused(d.allVideos, usedIds), Plays);
      allTopVideos := allTopVideos + Take(remainingVideos, GRID - |allTopVideos|);
    }
    assert allTopVideos == TopFromEach(d.profiles) + Padding(d.allVideos, TopFromEach(d.profiles));
    allTopVideos := SortDesc(allTopVideos, Plays);
    lists := map["all" := Take(allTopVideos, GRID)];
    var i := 0;
    assert d.profiles[..0] == [];
    while i < |d.profiles|
      invariant 0 <= i <= |d.profiles|
      invariant lists == ProfileGrids(map["all" := AllGrid(d)], d.profiles[..i])
    {
      var p := d.profiles[i];
      lists := lists[p.name := TopSix(p.videos)];
      i := i + 1;
      assert d.profiles[..i][..i - 1] == d.profiles[..i - 1];
    }
    assert d.profiles[..|d.profiles|] == d.profiles;
  }

  // ---------------------------------------------------------------------------------------
  // What the grids hold

  /** A profile's best video is one of its videos, has the most plays among them, and is the
      first of those with that many plays. */
  lemma TopOfIsFirstBest(p: Profile<int>)
    requires |p.videos| > 0
    ensures TopOf(p) in p.videos
    ensures forall w :: w in p.videos ==> Plays(w) <= Plays(TopOf(p))
    ensures exists i :: 0 <= i < |p.videos| && p.videos[i] == TopOf(p) && (forall j :: 0 <= j < i ==> Plays(p.videos[j]) < Plays(TopOf(p)))
  {
    SortDescHeadMax(p.videos, Plays);
    SortDescHead(p.videos, Plays);
  }

  /** Every profile with videos contributes its best video, and nothing else is chosen. */
  lemma {:induction false} TopFromEachMembers(ps: seq<Profile<int>>)
    ensures forall j :: 0 <= j < |ps| && |ps[j].videos| > 0 ==> TopOf(ps[j]) in TopFromEach(ps)
    ensures forall v :: v in TopFromEach(ps) ==>
      exists j :: 0 <= j < |ps| && |ps[j].videos| > 0 && v == TopOf(ps[j])
  {
    if |ps| > 0 {
      var init := ps[..|ps| - 1];
      TopFromEachMembers(init);
      forall v | v in TopFromEach(ps)
        ensures exists j :: 0 <= j < |ps| && |ps[j].videos| > 0 && v == TopOf(ps[j])
      {
        if v in TopFromEach(init) {
          var j :| 0 <= j < |init| && |init[j].videos| > 0 && v == TopOf(init[j]);
          assert ps[j] == init[j];
        }
      }
      forall j | 0 <= j < |ps| && |ps[j].videos| > 0 ensures TopOf(ps[j]) in TopFromEach(ps) {
        if j < |init| {
          assert ps[j] == init[j];
        }
      }
    }
  }

  /** A video is unused exactly when it is in vs and its id is not in used. */
  lemma {:induction false} UnusedMembers(vs: seq<Video<int>>, used: set<Option<string>>, v: Video<int>)
    ensures v in Unused(vs, used) <==> v in vs && v.id !in used
  {
    if |vs| > 0 {
      var init := vs[..|vs| - 1];
      UnusedMembers(init, used, v);
      assert vs == init + [vs[|vs| - 1]];
    }
  }

  /** As many videos pad the grid as are missing from six, or as many as there are unchosen. */
  lemma PaddingLength(all: seq<Video<int>>, top: seq<Video<int>>)
    ensures |top| >= GRID ==> Padding(all, top) == []
    ensures |top| < GRID ==> |Padding(all, top)| == Min(GRID - |top|, |Unused(all, IdsOf(top))|)
  {
  }

  /** The padding holds only flat-list videos whose ids were not chosen, most played first, as
      many as are missing from six (or as there are), and no unchosen video it leaves out has
      more plays than one it takes. */
  lemma PaddingSpec(all: seq<Video<int>>, top: seq<Video<int>>)
    ensures var pad := Padding(all, top);
      var rest := Unused(all, IdsOf(top));
      && (|top| >= GRID ==> pad == [])
      && (|top| < GRID ==> |pad| == Min(GRID - |top|, |rest|))
      && SortedDesc(pad, Plays)
      && (forall v :: v in pad ==> v in all && v.id !in IdsOf(top))
      && (forall x, c :: x in multiset(rest) - multiset(pad) && c in pad ==> Plays(x) <= Plays(c))
  {
    var rest := Unused(all, IdsOf(top));
    if |top| < GRID {
      TopN(rest, Plays, GRID - |top|);
      var pad := Padding(all, top);
      forall v | v in pad ensures v in all && v.id !in IdsOf(top) {
        assert v in multiset(pad);
        UnusedMembers(all, IdsOf(top), v);
      }
    }
  }

  /** The "all" grid holds at most six videos, most played first: six when the chosen and the
      unchosen videos together number six or more, otherwise all of them; and nothing left out
      of it has more plays than something in it. */
  lemma AllGridSpec(d: Dataset<int>)
    ensures var top := TopFromEach(d.profiles);
      var pool := top + Padding(d.allVideos, top);
      var g := AllGrid(d);
      && |g| == Min(GRID, |top| + |Unused(d.allVideos, IdsOf(top))|)
      && SortedDesc(g, Plays)
      && multiset(g) <= multiset(pool)
      && (forall x, c :: x in multiset(pool) - multiset(g) && c in g ==> Plays(x) <= Plays(c))
  {
    var top := TopFromEach(d.profiles);
    var pool := top + Padding(d.allVideos, top);
    AllGridLength(d);
    assert AllGrid(d) == Take(SortDesc(pool, Plays), GRID);
    TopN(pool, Plays, GRID);
  }

  lemma AllGridLength(d: Dataset<int>)
    ensures var top := TopFromEach(d.profiles);
      |AllGrid(d)| == Min(GRID, |top| + |Unused(d.allVideos, IdsOf(top))|)
  {
    var top := TopFromEach(d.profiles);
    var pool := top + Padding(d.allVideos, top);
    var n := |Padding(d.allVideos, top)|;
    assert |pool| == |top| + n;
    PaddingLength(d.allVideos, top);
    MinPadded(|top|, n, |Unused(d.allVideos, IdsOf(top))|);
    assert AllGrid(d) == Take(SortDesc(pool, Plays), GRID);
  }

  /** Topping a count up to six with at most what is available. */
  lemma MinPadded(t: nat, n: nat, r: nat)
    requires t >= GRID ==> n == 0
    requires t < GRID ==> n == Min(GRID - t, r)
    ensures Min(GRID, t + n) == Min(GRID, t + r)
  {
  }

  /** When at most six profiles have videos, the "all" grid shows every such profile's best video. */
  lemma AllGridKeepsTops(d: Dataset<int>)
    requires |TopFromEach(d.profiles)| <= GRID
    ensures forall j :: 0 <= j < |d.profiles| && |d.profiles[j].videos| > 0 ==> TopOf(d.profiles[j]) in AllGrid(d)
  {
    var top := TopFromEach(d.profiles);
    var pool := top + Padding(d.allVideos, top);
    assert |pool| <= GRID by {
      PaddingSpec(d.allVideos, top);
    }
    var sorted := SortDesc(pool, Plays);
    assert AllGrid(d) == sorted;
    assert multiset(sorted) == multiset(pool) by {
      SortDescSpec(pool, Plays);
    }
    forall j | 0 <= j < |d.profiles| && |d.profiles[j].videos| > 0 ensures TopOf(d.profiles[j]) in sorted {
      assert TopOf(d.profiles[j]) in top by {
        TopFromEachMembers(d.profiles);
      }
      assert TopOf(d.profiles[j]) in multiset(sorted);
    }
  }

  /** The grid assigned last under a name is that profile's top six. */
  lemma {:induction false} ProfileGridsLast(m: map<string, seq<Video<int>>>, ps: seq<Profile<int>>, j: nat)
    requires j < |ps| && forall k :: j < k < |ps| ==> ps[k].name != ps[j].name
    ensures ps[j].name in ProfileGrids(m, ps) && ProfileGrids(m, ps)[ps[j].name] == TopSix(ps[j].videos)
  {
    if j < |ps| - 1 {
      ProfileGridsLast(m, ps[..|ps| - 1], j);
    }
  }

  /** A name no profile has keeps the grid it had before. */
  lemma {:induction false} ProfileGridsKeep(m: map<string, seq<Video<int>>>, ps: seq<Profile<int>>, name: string)
    requires forall k :: 0 <= k < |ps| ==> ps[k].name != name
    ensures name in ProfileGrids(m, ps) <==> name in m
    ensures name in m ==> ProfileGrids(m, ps)[name] == m[name]
  {
    if |ps| > 0 {
      ProfileGridsKeep(m, ps[..|ps| - 1], name);
    }
  }

  /** With data, "all" maps to the "all" grid unless a profile is named "all"; each profile's
      name maps to a top six of its videos: at most six, most played first, drawn from its
      videos, and none left out has more plays than one shown. */
  lemma VideoListsShape(d: Dataset<int>, j: nat)
    requires j < |d.profiles| && forall k :: j < k < |d.profiles| ==> d.profiles[k].name != d.profiles[j].name
    ensures (forall k :: 0 <= k < |d.profiles| ==> d.profiles[k].name != "all") ==>
      "all" in VideoListsSpec(Some(d)) && VideoListsSpec(Some(d))["all"] == AllGrid(d)
    ensures var p := d.profiles[j];
      p.name in VideoListsSpec(Some(d)) &&
      var g := VideoListsSpec(Some(d))[p.name];
      && |g| == Min(GRID, |p.videos|)
      && SortedDesc(g, Plays)
      && multiset(g) <= multiset(p.videos)
      && (forall x, c :: x in multiset(p.videos) - multiset(g) && c in g ==> Plays(x) <= Plays(c))
  {
    if forall k :: 0 <= k < |d.profiles| ==> d.profiles[k].name != "all" {
      ProfileGridsKeep(map["all" := AllGrid(d)], d.profiles, "all");
    }
    ProfileGridsLast(map["all" := AllGrid(d)], d.profiles, j);
    TopN(d.profiles[j].videos, Plays, GRID);
  }

  // ---------------------------------------------------------------------------------------
  // The totals above the grid

  datatype Totals = Totals(views: int, likes: int, comments: int, followers: int)

  /** The videos the totals are taken over: the flat list for "all", the selected profile's
      videos, or none when there is no data or no such profile. */
  function Displayed(data: Option<Dataset<int>>, sel: string): seq<Video<int>>
  {
    if data.Some? && sel == "all" then data.value.allVideos
    else if data.Some? && LookupProfile(data.value.profiles, sel).Some? then LookupProfile(data.value.profiles, sel).value.videos
    else []
  }

  /** Followers: every profile's fans for "all", the selected profile's fans, or 0. */
  function Followers(data: Option<Dataset<int>>, sel: string): int
  {
    if data.None? then 0
    else if sel == "all" then Sum(data.value.profiles, Fans)
    else if LookupProfile(data.value.profiles, sel).Some? then LookupProfile(data.value.profiles, sel).value.fans
    else 0
  }

  function DashboardTotals(data: Option<Dataset<int>>, sel: string): Totals
  {
    var vs := Displayed(data, sel);
    Totals(Sum(vs, Plays), Sum(vs, Likes), Sum(vs, CommentTotal), Followers(data, sel))
  }

  /** In a profile list with distinct names, looking up a profile's name finds that profile. */
  lemma LookupOwnName(ps: seq<Profile<int>>, j: nat)
    requires j < |ps| && forall a, b :: 0 <= a < b < |ps| ==> ps[a].name != ps[b].name
    ensures LookupProfile(ps, ps[j].name) == Some(ps[j])
  {
    var k := FindProfile(ps, ps[j].name);
    assert k.Some?;
  }

  /** On a refreshed dataset in which no author is called "all", every total shown for "all"
      is the sum of the totals shown for each profile. */
  lemma AllTotalsAddUp(items: seq<RawItem>, now: string)
    requires var d := RefreshRoute.TransformSpec(items, now);
      forall k :: 0 <= k < |d.profiles| ==> d.profiles[k].name != "all"
    ensures var d := RefreshRoute.TransformSpec(items, now);
      var all := DashboardTotals(Some(d), "all");
      && all.views == Sum(d.profiles, (p: Profile<int>) => DashboardTotals(Some(d), p.name).views)
      && all.likes == Sum(d.profiles, (p: Profile<int>) => DashboardTotals(Some(d), p.name).likes)
      && all.comments == Sum(d.profiles, (p: Profile<int>) => DashboardTotals(Some(d), p.name).comments)
      && all.followers == Sum(d.profiles, (p: Profile<int>) => DashboardTotals(Some(d), p.name).followers)
  {
    var d := RefreshRoute.TransformSpec(items, now);
    var ps := d.profiles;
    ProfilesWellFormed(items, RefreshRoute.OrZero);
    forall j | 0 <= j < |ps| ensures Displayed(Some(d), ps[j].name) == ps[j].videos && Followers(Some(d), ps[j].name) == ps[j].fans {
      LookupOwnName(ps, j);
    }
    RefreshRoute.TransformTotals(items, now, Plays);
    RefreshRoute.TransformTotals(items, now, Likes);
    RefreshRoute.TransformTotals(items, now, CommentTotal);
    SumCongruent(ps, (p: Profile<int>) => Sum(p.videos, Plays), (p: Profile<int>) => DashboardTotals(Some(d), p.name).views);
    SumCongruent(ps, (p: Profile<int>) => Sum(p.videos, Likes), (p: Profile<int>) => DashboardTotals(Some(d), p.name).likes);
    SumCongruent(ps, (p: Profile<int>) => Sum(p.videos, CommentTotal), (p: Profile<int>) => DashboardTotals(Some(d), p.name).comments);
    SumCongruent(ps, Fans, (p: Profile<int>) => DashboardTotals(Some(d), p.name).followers);
  }
}
