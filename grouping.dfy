/** The grouping loop shared by the refresh route's `transformData` and the fetch script's
    `transform_data`: skip items without an author name, create each author's profile from
    that author's first item, and push every accepted item's video onto its author's list and
    onto the global list. The two programs differ only in how a missing counter is defaulted,
    which is the parameter `def`.

    The loop is the method GroupItems; what it computes is specified by the functions
    VideosIn, Authors and ProfilesOf, which say directly which videos, which profiles, in
    which order and with which fields the result has. */
module Grouping {
  import opened Common
  import opened Schema
  import opened Sorting

  /** `item.authorMeta?.name` when it is a non-empty string; items without one are skipped. */
  function AuthorKey(x: RawItem): Option<string>
  {
    if x.authorMeta.Some? && x.authorMeta.value.name.Some? && x.authorMeta.value.name.value != ""
    then Some(x.authorMeta.value.name.value)
    else None
  }

  /** The video record built from an item, every counter passed through `def`. */
  function ToVideo<C>(x: RawItem, author: string, def: Num -> C): Video<C>
  {
    Video(x.id, x.text, x.createTime, x.createTimeISO,
      Stats(def(x.diggCount), def(x.shareCount), def(x.commentCount), def(x.playCount), def(x.collectCount)),
      x.webVideoUrl, x.coverUrl, author)
  }

  /** The profile record created from an item's author metadata, with no videos yet. */
  function NewProfile<C>(a: AuthorMeta, name: string, def: Num -> C): Profile<C>
  {
    Profile(name, a.nickName, a.avatar, a.signature, def(a.fans), def(a.following), def(a.heart), def(a.video), [])
  }

  /** The videos of the accepted items, in input order. */
  function VideosIn<C>(items: seq<RawItem>, def: Num -> C): seq<Video<C>>
  {
    if |items| == 0 then []
    else
      var x := items[|items| - 1];
      VideosIn(items[..|items| - 1], def) + (if AuthorKey(x).Some? then [ToVideo(x, AuthorKey(x).value, def)] else [])
  }

  /** The distinct author names, in order of first appearance. */
  function Authors(items: seq<RawItem>): (r: seq<string>)
    ensures forall i :: 0 <= i < |items| && AuthorKey(items[i]).Some? ==> AuthorKey(items[i]).value in r
    ensures forall i, j :: 0 <= i < j < |r| ==> r[i] != r[j]
  {
    if |items| == 0 then []
    else
      var init := Authors(items[..|items| - 1]);
      var x := items[|items| - 1];
      assert forall i :: 0 <= i < |items| - 1 ==> items[..|items| - 1][i] == items[i];
      if AuthorKey(x).Some? && AuthorKey(x).value !in init then init + [AuthorKey(x).value] else init
  }

  /** The videos of `vs` by author `a`, in their order in `vs`. */
  function ByAuthor<C>(vs: seq<Video<C>>, a: string): (r: seq<Video<C>>)
    ensures forall i :: 0 <= i < |r| ==> r[i].author == a
  {
    if |vs| == 0 then []
    else ByAuthor(vs[..|vs| - 1], a) + (if vs[|vs| - 1].author == a then [vs[|vs| - 1]] else [])
  }

  /** The position of the first item whose author is `a`. */
  function FirstIndex(items: seq<RawItem>, a: string): (r: nat)
    requires a in Authors(items)
    ensures r < |items| && AuthorKey(items[r]) == Some(a)
    ensures forall i :: 0 <= i < r ==> AuthorKey(items[i]) != Some(a)
  {
    var init := items[..|items| - 1];
    if a in Authors(init) then
      var r := FirstIndex(init, a);
      assert init[r] == items[r];
      r
    else
      assert forall i :: 0 <= i < |init| ==> init[i] == items[i];
      |items| - 1
  }

  /** Author a's profile: its fields from a's first item, its videos all of a's videos in input order. */
  function ProfileOf<C>(items: seq<RawItem>, a: string, def: Num -> C): Profile<C>
    requires a in Authors(items)
  {
    var first := items[FirstIndex(items, a)];
    NewProfile(first.authorMeta.value, a, def).(videos := ByAuthor(VideosIn(items, def), a))
  }

  /** One profile per author, in order of first appearance. */
  function ProfilesOf<C>(items: seq<RawItem>, def: Num -> C): seq<Profile<C>>
  {
    var authors := Authors(items);
    seq(|authors|, j requires 0 <= j < |authors| => ProfileOf(items, authors[j], def))
  }

  lemma AppendedPrefix(items: seq<RawItem>, x: RawItem)
    ensures (items + [x])[..|items|] == items
  {
  }

  /** The `for (const item of items)` loop: fills the profile record and the video list. */
  method GroupItems<C>(items: seq<RawItem>, def: Num -> C) returns (profiles: seq<Profile<C>>, allVideos: seq<Video<C>>)
    ensures profiles == ProfilesOf(items, def)
    ensures allVideos == VideosIn(items, def)
  {
    profiles, allVideos := [], [];
    var i := 0;
    while i < |items|
      invariant 0 <= i <= |items|
      invariant profiles == ProfilesOf(items[..i], def)
      invariant allVideos == VideosIn(items[..i], def)
    {
      var x := items[i];
      assert items[..i + 1] == items[..i] + [x];
      var author := AuthorKey(x);
      if author.None? {
        SkippedItem(items[..i], x, def);
      } else {
        var name := author.value;
        ghost var before := profiles;
        var idx := FindProfile(profiles, name);
        if idx.None? {
          profiles := profiles + [NewProfile(x.authorMeta.value, name, def)];
        }
        var k := if idx.Some? then idx.value else |profiles| - 1;
        var v := ToVideo(x, name, def);
        profiles := profiles[k := profiles[k].(videos := profiles[k].videos + [v])];
        allVideos := allVideos + [v];
        AcceptedItem(items[..i], x, def);
        if idx.None? {
          assert profiles == before + [NewProfile(x.authorMeta.value, name, def).(videos := [v])];
        }
      }
      i := i + 1;
    }
    assert items[..i] == items;
  }

  lemma {:induction false} ByAuthorAppend<C>(vs: seq<Video<C>>, v: Video<C>, b: string)
    ensures ByAuthor(vs + [v], b) == ByAuthor(vs, b) + (if v.author == b then [v] else [])
  {
    assert (vs + [v])[..|vs|] == vs;
  }

  lemma {:induction false} ByAuthorAbsent<C>(vs: seq<Video<C>>, a: string)
    requires forall i :: 0 <= i < |vs| ==> vs[i].author != a
    ensures ByAuthor(vs, a) == []
  {
    if |vs| > 0 {
      ByAuthorAbsent(vs[..|vs| - 1], a);
    }
  }

  /** Every video of VideosIn(items) has an author among Authors(items). */
  lemma {:induction false} VideoAuthorsKnown<C>(items: seq<RawItem>, def: Num -> C)
    ensures forall i :: 0 <= i < |VideosIn(items, def)| ==> VideosIn(items, def)[i].author in Authors(items)
  {
    if |items| > 0 {
      var init := items[..|items| - 1];
      VideoAuthorsKnown(init, def);
      assert forall a :: a in Authors(init) ==> a in Authors(items);
    }
  }

  /** A profile whose author is not the new item's keeps its fields and its videos. */
  lemma ProfileUnchanged<C>(items: seq<RawItem>, x: RawItem, def: Num -> C, b: string)
    requires b in Authors(items) && AuthorKey(x) != Some(b)
    ensures b in Authors(items + [x])
    ensures ProfileOf(items + [x], b, def) == ProfileOf(items, b, def)
  {
    AppendedPrefix(items, x);
    var vs := VideosIn(items, def);
    if AuthorKey(x).Some? {
      var v := ToVideo(x, AuthorKey(x).value, def);
      assert VideosIn(items + [x], def) == vs + [v];
      ByAuthorAppend(vs, v, b);
    } else {
      assert VideosIn(items + [x], def) == vs;
    }
    assert FirstIndex(items + [x], b) == FirstIndex(items, b);
    assert (items + [x])[FirstIndex(items, b)] == items[FirstIndex(items, b)];
  }

  /** The profile of a known author gains the new item's video at the end. */
  lemma ProfileGrows<C>(items: seq<RawItem>, x: RawItem, def: Num -> C)
    requires AuthorKey(x).Some? && AuthorKey(x).value in Authors(items)
    ensures AuthorKey(x).value in Authors(items + [x])
    ensures var a := AuthorKey(x).value;
      var p := ProfileOf(items, a, def);
      ProfileOf(items + [x], a, def) == p.(videos := p.videos + [ToVideo(x, a, def)])
  {
    AppendedPrefix(items, x);
    var a := AuthorKey(x).value;
    assert VideosIn(items + [x], def) == VideosIn(items, def) + [ToVideo(x, a, def)];
    ByAuthorAppend(VideosIn(items, def), ToVideo(x, a, def), a);
    assert FirstIndex(items + [x], a) == FirstIndex(items, a);
    assert (items + [x])[FirstIndex(items, a)] == items[FirstIndex(items, a)];
  }

  /** A first-seen author's profile comes from this item and holds just its video. */
  lemma ProfileCreated<C>(items: seq<RawItem>, x: RawItem, def: Num -> C)
    requires AuthorKey(x).Some? && AuthorKey(x).value !in Authors(items)
    ensures Authors(items + [x]) == Authors(items) + [AuthorKey(x).value]
    ensures var a := AuthorKey(x).value;
      ProfileOf(items + [x], a, def) == NewProfile(x.authorMeta.value, a, def).(videos := [ToVideo(x, a, def)])
  {
    AppendedPrefix(items, x);
    var a := AuthorKey(x).value;
    var vs := VideosIn(items, def);
    VideoAuthorsKnown(items, def);
    ByAuthorAbsent(vs, a);
    assert VideosIn(items + [x], def) == vs + [ToVideo(x, a, def)];
    ByAuthorAppend(vs, ToVideo(x, a, def), a);
    assert FirstIndex(items + [x], a) == |items|;
  }

  /** An item without an author name changes neither the profiles nor the video list. */
  lemma SkippedItem<C>(items: seq<RawItem>, x: RawItem, def: Num -> C)
    requires AuthorKey(x).None?
    ensures Authors(items + [x]) == Authors(items)
    ensures VideosIn(items + [x], def) == VideosIn(items, def)
    ensures ProfilesOf(items + [x], def) == ProfilesOf(items, def)
  {
    AppendedPrefix(items, x);
    var A := Authors(items);
    assert Authors(items + [x]) == A;
    forall j | 0 <= j < |A| ensures ProfileOf(items + [x], A[j], def) == ProfileOf(items, A[j], def) {
      ProfileUnchanged(items, x, def, A[j]);
    }
  }

  /** Profile j of ProfilesOf(items) is named after the j-th author. */
  lemma ProfileNames<C>(items: seq<RawItem>, def: Num -> C)
    ensures |ProfilesOf(items, def)| == |Authors(items)|
    ensures forall j :: 0 <= j < |Authors(items)| ==> ProfilesOf(items, def)[j].name == Authors(items)[j]
  {
  }

  lemma AcceptedKnownAuthor<C>(items: seq<RawItem>, x: RawItem, def: Num -> C, k: nat)
    requires AuthorKey(x).Some? && k < |Authors(items)| && Authors(items)[k] == AuthorKey(x).value
    ensures
      var ps := ProfilesOf(items, def);
      k < |ps| &&
      ProfilesOf(items + [x], def) == ps[k := ps[k].(videos := ps[k].videos + [ToVideo(x, AuthorKey(x).value, def)])]
  {
    AppendedPrefix(items, x);
    var a := AuthorKey(x).value;
    var A := Authors(items);
    var ps := ProfilesOf(items, def);
    var ps' := ProfilesOf(items + [x], def);
    assert Authors(items + [x]) == A;
    var want := ps[k := ps[k].(videos := ps[k].videos + [ToVideo(x, a, def)])];
    forall j | 0 <= j < |A| ensures ps'[j] == want[j] {
      if j == k {
        ProfileGrows(items, x, def);
      } else {
        ProfileUnchanged(items, x, def, A[j]);
      }
    }
  }

  lemma AcceptedNewAuthor<C>(items: seq<RawItem>, x: RawItem, def: Num -> C)
    requires AuthorKey(x).Some? && AuthorKey(x).value !in Authors(items)
    ensures
      var a := AuthorKey(x).value;
      ProfilesOf(items + [x], def) == ProfilesOf(items, def) + [NewProfile(x.authorMeta.value, a, def).(videos := [ToVideo(x, a, def)])]
  {
    var a := AuthorKey(x).value;
    var A := Authors(items);
    var ps := ProfilesOf(items, def);
    var ps' := ProfilesOf(items + [x], def);
    var created := NewProfile(x.authorMeta.value, a, def).(videos := [ToVideo(x, a, def)]);
    assert Authors(items + [x]) == A + [a] && ProfileOf(items + [x], a, def) == created by {
      ProfileCreated(items, x, def);
    }
    var want := ps + [created];
    assert |ps'| == |want|;
    forall j | 0 <= j < |A| ensures ps'[j] == want[j] {
      assert ps'[j] == ProfileOf(items + [x], A[j], def);
      ProfileUnchanged(items, x, def, A[j]);
    }
    assert ps'[|A|] == want[|A|];
  }

  /** The record after pushing item x's video under author a: onto the existing profile of
      that name, or onto a new profile built from x's author metadata and appended at the end. */
  function Absorb<C>(ps: seq<Profile<C>>, x: RawItem, a: string, def: Num -> C): seq<Profile<C>>
    requires x.authorMeta.Some?
  {
    var v := ToVideo(x, a, def);
    match FindProfile(ps, a)
    case Some(k) => ps[k := ps[k].(videos := ps[k].videos + [v])]
    case None => ps + [NewProfile(x.authorMeta.value, a, def).(videos := [v])]
  }

  /** One accepted item: either its author's profile gains the video at the end of its list, or
      a new profile for a first-seen author is appended with this one video. Nothing else changes. */
  lemma AcceptedItem<C>(items: seq<RawItem>, x: RawItem, def: Num -> C)
    requires AuthorKey(x).Some?
    ensures VideosIn(items + [x], def) == VideosIn(items, def) + [ToVideo(x, AuthorKey(x).value, def)]
    ensures ProfilesOf(items + [x], def) == Absorb(ProfilesOf(items, def), x, AuthorKey(x).value, def)
  {
    AppendedPrefix(items, x);
    var a := AuthorKey(x).value;
    var ps := ProfilesOf(items, def);
    var A := Authors(items);
    ProfileNames(items, def);
    match FindProfile(ps, a)
    case Some(k) =>
      AcceptedKnownAuthor(items, x, def, k);
    case None =>
      assert a !in A;
      AcceptedNewAuthor(items, x, def);
  }

  /** Every profile's videos, one profile after another. */
  function ProfileVideos<C>(ps: seq<Profile<C>>): seq<Video<C>>
  {
    if |ps| == 0 then [] else ProfileVideos(ps[..|ps| - 1]) + ps[|ps| - 1].videos
  }

  lemma {:induction false} ProfileVideosUpdate<C>(ps: seq<Profile<C>>, k: nat, v: Video<C>)
    requires k < |ps|
    ensures multiset(ProfileVideos(ps[k := ps[k].(videos := ps[k].videos + [v])])) == multiset(ProfileVideos(ps)) + multiset{v}
  {
    var n := |ps|;
    var qs := ps[k := ps[k].(videos := ps[k].videos + [v])];
    if k < n - 1 {
      assert qs[..n - 1] == ps[..n - 1][k := ps[k].(videos := ps[k].videos + [v])];
      ProfileVideosUpdate(ps[..n - 1], k, v);
    } else {
      assert qs[..n - 1] == ps[..n - 1];
    }
  }

  /** The profiles partition the video list: each accepted item's video is in exactly one
      profile, and no profile holds anything else. */
  lemma {:induction false} ProfilesPartitionVideos<C>(items: seq<RawItem>, def: Num -> C)
    ensures multiset(ProfileVideos(ProfilesOf(items, def))) == multiset(VideosIn(items, def))
  {
    if |items| > 0 {
      var init := items[..|items| - 1];
      var x := items[|items| - 1];
      assert items == init + [x];
      ProfilesPartitionVideos(init, def);
      if AuthorKey(x).None? {
        SkippedItem(init, x, def);
      } else {
        var a := AuthorKey(x).value;
        var ps := ProfilesOf(init, def);
        var v := ToVideo(x, a, def);
        AcceptedItem(init, x, def);
        match FindProfile(ps, a)
        case Some(k) =>
          ProfileVideosUpdate(ps, k, v);
        case None =>
          var q := NewProfile(x.authorMeta.value, a, def).(videos := [v]);
          assert (ps + [q])[..|ps|] == ps;
      }
    }
  }

  /** Summing a per-video measure over the flat list equals summing it profile by profile. */
  lemma {:induction false} ProfileVideosSum<C>(ps: seq<Profile<C>>, f: Video<C> -> int)
    ensures Sum(ProfileVideos(ps), f) == Sum(ps, (p: Profile<C>) => Sum(p.videos, f))
  {
    if |ps| > 0 {
      var init := ps[..|ps| - 1];
      ProfileVideosSum(init, f);
      SumAppend(ProfileVideos(init), ps[|ps| - 1].videos, f);
    }
  }

  /** Totalling a measure over every accepted video gives the same as totalling it over each
      author's profile and adding the results. */
  lemma GroupedTotals<C>(items: seq<RawItem>, def: Num -> C, f: Video<C> -> int)
    ensures Sum(VideosIn(items, def), f) == Sum(ProfilesOf(items, def), (p: Profile<C>) => Sum(p.videos, f))
  {
    ProfilesPartitionVideos(items, def);
    SumPermutation(ProfileVideos(ProfilesOf(items, def)), VideosIn(items, def), f);
    ProfileVideosSum(ProfilesOf(items, def), f);
  }

  /** Profile names are the distinct author names, so no two profiles share a name, and every
      video in a profile is by that profile's author. */
  lemma ProfilesWellFormed<C>(items: seq<RawItem>, def: Num -> C)
    ensures var ps := ProfilesOf(items, def);
      (forall i, j :: 0 <= i < j < |ps| ==> ps[i].name != ps[j].name) &&
      (forall j, i :: 0 <= j < |ps| && 0 <= i < |ps[j].videos| ==> ps[j].videos[i].author == ps[j].name)
  {
    ProfileNames(items, def);
  }

  /** A video is in the list exactly when it is built from some accepted item. */
  lemma {:induction false} VideosInMembers<C>(items: seq<RawItem>, def: Num -> C, v: Video<C>)
    ensures v in VideosIn(items, def) <==>
      exists i :: 0 <= i < |items| && AuthorKey(items[i]).Some? && v == ToVideo(items[i], AuthorKey(items[i]).value, def)
  {
    if |items| > 0 {
      var init := items[..|items| - 1];
      VideosInMembers(init, def, v);
      assert forall i :: 0 <= i < |init| ==> init[i] == items[i];
      if exists i :: 0 <= i < |items| && AuthorKey(items[i]).Some? && v == ToVideo(items[i], AuthorKey(items[i]).value, def) {
        var i :| 0 <= i < |items| && AuthorKey(items[i]).Some? && v == ToVideo(items[i], AuthorKey(items[i]).value, def);
        if i < |init| {
          assert init[i] == items[i];
        }
      }
    }
  }

  /** There is no profile exactly when there is no video: both happen when no item has an author name. */
  lemma {:induction false} NoVideosIffNoAuthorName<C>(items: seq<RawItem>, def: Num -> C)
    ensures |VideosIn(items, def)| == 0 <==> forall i :: 0 <= i < |items| ==> AuthorKey(items[i]).None?
  {
    var vs := VideosIn(items, def);
    if |vs| > 0 {
      VideosInMembers(items, def, vs[0]);
    }
    if exists i :: 0 <= i < |items| && AuthorKey(items[i]).Some? {
      var i :| 0 <= i < |items| && AuthorKey(items[i]).Some?;
      VideosInMembers(items, def, ToVideo(items[i], AuthorKey(items[i]).value, def));
    }
  }

  lemma {:induction false} NoProfilesIffNoVideos<C>(items: seq<RawItem>, def: Num -> C)
    ensures |ProfilesOf(items, def)| == 0 <==> |VideosIn(items, def)| == 0
  {
    ProfileNames(items, def);
    NoVideosIffNoAuthorName(items, def);
    var A := Authors(items);
    if |A| > 0 {
      var i := FirstIndex(items, A[0]);
      assert AuthorKey(items[i]).Some?;
    }
  }

  /** Each profile takes its metadata from the first item by that author and holds that
      author's videos in input order. */
  lemma ProfileFromFirstItem<C>(items: seq<RawItem>, def: Num -> C, j: nat)
    requires j < |ProfilesOf(items, def)|
    ensures var p := ProfilesOf(items, def)[j];
      exists i :: 0 <= i < |items| && AuthorKey(items[i]) == Some(p.name) &&
        (forall h :: 0 <= h < i ==> AuthorKey(items[h]) != Some(p.name)) &&
        p == NewProfile(items[i].authorMeta.value, p.name, def).(videos := ByAuthor(VideosIn(items, def), p.name))
  {
    ProfileNames(items, def);
    var a := Authors(items)[j];
    var i := FirstIndex(items, a);
    assert ProfilesOf(items, def)[j] == ProfileOf(items, a, def);
  }

  /** Grouping with one default and then mapping the counters is grouping with the composed
      default: the videos... */
  lemma {:induction false} VideosInMap<C, D>(items: seq<RawItem>, def: Num -> C, h: C -> D, def2: Num -> D)
    requires forall n :: def2(n) == h(def(n))
    ensures VideosIn(items, def2) == Map(VideosIn(items, def), (v: Video<C>) => MapVideo(v, h))
  {
    if |items| > 0 {
      var init, x := items[..|items| - 1], items[|items| - 1];
      VideosInMap(init, def, h, def2);
      MapAppend(VideosIn(init, def), if AuthorKey(x).Some? then [ToVideo(x, AuthorKey(x).value, def)] else [], (v: Video<C>) => MapVideo(v, h));
    }
  }

  lemma {:induction false} ByAuthorMap<C, D>(vs: seq<Video<C>>, h: C -> D, a: string)
    ensures ByAuthor(Map(vs, (v: Video<C>) => MapVideo(v, h)), a) == Map(ByAuthor(vs, a), (v: Video<C>) => MapVideo(v, h))
  {
    var f := (v: Video<C>) => MapVideo(v, h);
    if |vs| > 0 {
      var init := vs[..|vs| - 1];
      ByAuthorMap(init, h, a);
      assert vs == init + [vs[|vs| - 1]];
      MapAppend(init, [vs[|vs| - 1]], f);
      MapAppend(ByAuthor(init, a), if vs[|vs| - 1].author == a then [vs[|vs| - 1]] else [], f);
    }
  }

  /** ...and the profiles. */
  lemma ProfilesOfMap<C, D>(items: seq<RawItem>, def: Num -> C, h: C -> D, def2: Num -> D)
    requires forall n :: def2(n) == h(def(n))
    ensures ProfilesOf(items, def2) == Map(ProfilesOf(items, def), (p: Profile<C>) => MapProfile(p, h))
  {
    VideosInMap(items, def, h, def2);
    var A := Authors(items);
    var f := (p: Profile<C>) => MapProfile(p, h);
    var ps := ProfilesOf(items, def);
    forall j | 0 <= j < |A| ensures ProfilesOf(items, def2)[j] == f(ps[j]) {
      ProfileOfMap(items, A[j], def, h, def2);
    }
    MapElementwise(ps, f, ProfilesOf(items, def2));
  }

  /** One author's profile, grouped with the composed default. */
  lemma ProfileOfMap<C, D>(items: seq<RawItem>, a: string, def: Num -> C, h: C -> D, def2: Num -> D)
    requires a in Authors(items)
    requires forall n :: def2(n) == h(def(n))
    requires VideosIn(items, def2) == Map(VideosIn(items, def), (v: Video<C>) => MapVideo(v, h))
    ensures ProfileOf(items, a, def2) == MapProfile(ProfileOf(items, a, def), h)
  {
    var fv := (v: Video<C>) => MapVideo(v, h);
    var p, q := ProfileOf(items, a, def), ProfileOf(items, a, def2);
    var vs := p.videos;
    ByAuthorMap(VideosIn(items, def), h, a);
    assert q.videos == Map(vs, fv);
    forall i | 0 <= i < |vs| ensures Map(vs, fv)[i] == MapVideo(vs[i], h) {
      MapAt(vs, fv, i);
    }
    assert q.videos == MapProfile(p, h).videos;
  }
}
