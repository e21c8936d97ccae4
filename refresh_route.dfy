/** The dashboard's refresh endpoint (`POST /api/refresh`): choose the scraper API key, scrape
    every tracked profile, flatten the results in profile order, turn them into the dataset with
    `transformData`, and hand the dataset to storage when it holds anything.

    The scraper, the clock and the environment are parameters: `scrape(key, profile)` is what
    `fetchSingleProfile` returns for one profile (its own errors already turned into an empty
    list), `now` is the ISO timestamp and `env` is `process.env.APIFY_API_KEY`. */
module RefreshRoute {
  import opened Common
  import opened Schema
  import opened Sorting
  import opened Grouping

  /** The profiles the endpoint scrapes, in scraping order. */
  const PROFILES: seq<string> := [
    "matchupvault",
    "wrestler.trivia",
    "callthemoment",
    "street.slamdown",
    "ragequitguy",
    "celebolution",
    "nearmiss529",
    "arena.fever"
  ]

  /** `n || 0`: an absent or null counter (and 0 itself) becomes 0. */
  function OrZero(n: Num): int
  {
    match n
    case Int(i) => i
    case _ => 0
  }

  /** The dataset `transformData(items)` returns: one profile per author in order of first
      appearance, and every accepted video sorted by plays, highest first, ties in input order. */
  function TransformSpec(items: seq<RawItem>, now: string): Dataset<int>
  {
    Dataset(now, |PROFILES|, ProfilesOf(items, OrZero), SortDesc(VideosIn(items, OrZero), Plays))
  }

  /** `transformData`: the grouping loop followed by the in-place sort of `all_videos`. */
  method TransformData(items: seq<RawItem>, now: string) returns (d: Dataset<int>)
    ensures d == TransformSpec(items, now)
  {
    var profiles, allVideos := GroupItems(items, OrZero);
    allVideos := SortDesc(allVideos, Plays);
    d := Dataset(now, |PROFILES|, profiles, allVideos);
  }

  /** What the dataset promises: the profile count is the number of scraped profiles; the flat
      list is ordered by plays, highest first, keeps the input order among equal play counts and
      holds exactly the videos of the profiles; profile names are distinct and every video sits
      under its author's profile. */
  lemma TransformShape(items: seq<RawItem>, now: string)
    ensures var d := TransformSpec(items, now);
      d.profileCount == 8 &&
      SortedDesc(d.allVideos, Plays) &&
      (forall k :: KeyFilter(d.allVideos, Plays, k) == KeyFilter(VideosIn(items, OrZero), Plays, k)) &&
      multiset(d.allVideos) == multiset(ProfileVideos(d.profiles)) &&
      (forall i, j :: 0 <= i < j < |d.profiles| ==> d.profiles[i].name != d.profiles[j].name) &&
      (forall j, i :: 0 <= j < |d.profiles| && 0 <= i < |d.profiles[j].videos| ==>
        d.profiles[j].videos[i].author == d.profiles[j].name)
  {
    var vs := VideosIn(items, OrZero);
    SortDescSpec(vs, Plays);
    assert multiset(SortDesc(vs, Plays)) == multiset(ProfileVideos(ProfilesOf(items, OrZero))) by {
      ProfilesPartitionVideos(items, OrZero);
    }
    ProfilesWellFormed(items, OrZero);
  }

  /** The flat list holds one video per item with an author name, its counters the item's own
      numbers with absent or null ones read as 0. */
  lemma TransformVideos(items: seq<RawItem>, now: string, v: Video<int>)
    ensures v in TransformSpec(items, now).allVideos <==>
      exists i :: 0 <= i < |items| && AuthorKey(items[i]).Some? &&
        v == ToVideo(items[i], AuthorKey(items[i]).value, OrZero)
  {
    var vs := VideosIn(items, OrZero);
    SortDescSpec(vs, Plays);
    assert v in SortDesc(vs, Plays) <==> v in multiset(SortDesc(vs, Plays));
    VideosInMembers(items, OrZero, v);
  }

  /** A total over the flat list (plays, likes, comments) equals the sum of each profile's total. */
  lemma TransformTotals(items: seq<RawItem>, now: string, f: Video<int> -> int)
    ensures var d := TransformSpec(items, now);
      Sum(d.allVideos, f) == Sum(d.profiles, (p: Profile<int>) => Sum(p.videos, f))
  {
    var vs := VideosIn(items, OrZero);
    SortDescSpec(vs, Plays);
    SumPermutation(SortDesc(vs, Plays), vs, f);
    GroupedTotals(items, OrZero, f);
  }

  /** The dataset has a profile exactly when it has a video, so the save guard
      `profiles.length > 0 || all_videos.length > 0` is the same as either half alone. */
  lemma ProfilesIffVideos(items: seq<RawItem>, now: string)
    ensures var d := TransformSpec(items, now);
      |d.profiles| > 0 <==> |d.allVideos| > 0
  {
    NoProfilesIffNoVideos(items, OrZero);
  }

  // ---------------------------------------------------------------------------------------
  // The POST handler

  /** `process.env.APIFY_API_KEY` as a JavaScript value: undefined or a string. */
  function EnvValue(env: Option<string>): Json
  {
    match env
    case None => JNull
    case Some(s) => JStr(s)
  }

  /** The API key: `body.apiKey || env` when the body parses and can be read, otherwise
      `env || ''` (body is None when `request.json()` throws; reading a property of a JSON
      `null` body throws too). */
  function ApiKey(body: Option<Json>, env: Option<string>): Json
  {
    var fallback := if env.Some? && env.value != "" then JStr(env.value) else JStr("");
    match body
    case None => fallback
    case Some(b) =>
      match Member(b, "apiKey")
      case None => fallback
      case Some(k) => if Truthy(k) then k else EnvValue(env)
  }

  /** A truthy `apiKey` in an object body wins over the environment. */
  lemma BodyKeyWins(fields: seq<(string, Json)>, env: Option<string>)
    requires Truthy(FieldValue(fields, "apiKey"))
    ensures ApiKey(Some(JObj(fields)), env) == FieldValue(fields, "apiKey")
  {
  }

  /** Without a truthy `apiKey` in the body, the key is usable exactly when the environment
      holds a non-empty one, and then it is that one. */
  lemma EnvKeyFallback(body: Option<Json>, env: Option<string>)
    requires body.None? || body.value.JNull? || !(Member(body.value, "apiKey").Some? && Truthy(Member(body.value, "apiKey").value))
    ensures Truthy(ApiKey(body, env)) <==> env.Some? && env.value != ""
    ensures Truthy(ApiKey(body, env)) ==> ApiKey(body, env) == JStr(env.value)
  {
  }

  datatype RefreshResponse =
    | MissingKey                              // status 400, 'APIFY_API_KEY not provided. ...'
    | Refreshed(data: Dataset<int>, saved: bool) // status 200; saved: the dataset went to storage
    | Failed(error: string)                   // status 500

  /** `results.flat()` over the per-profile results, in PROFILES order. */
  function ScrapeAll(profiles: seq<string>, key: Json, scrape: (Json, string) -> seq<RawItem>): seq<RawItem>
  {
    if |profiles| == 0 then []
    else ScrapeAll(profiles[..|profiles| - 1], key, scrape) + scrape(key, profiles[|profiles| - 1])
  }

  lemma {:induction false} ScrapeAllFirst(profiles: seq<string>, key: Json, scrape: (Json, string) -> seq<RawItem>)
    requires |profiles| > 0
    ensures ScrapeAll(profiles, key, scrape) == scrape(key, profiles[0]) + ScrapeAll(profiles[1..], key, scrape)
  {
    if |profiles| > 1 {
      var init := profiles[..|profiles| - 1];
      ScrapeAllFirst(init, key, scrape);
      assert init[1..] == profiles[1..][..|profiles[1..]| - 1];
    } else {
      assert profiles[..0] == [];
    }
  }

  lemma {:induction false} ScrapeAllNothing(profiles: seq<string>, key: Json, scrape: (Json, string) -> seq<RawItem>)
    requires forall i :: 0 <= i < |profiles| ==> scrape(key, profiles[i]) == []
    ensures ScrapeAll(profiles, key, scrape) == []
  {
    if |profiles| > 0 {
      ScrapeAllNothing(profiles[..|profiles| - 1], key, scrape);
    }
  }

  /** The POST handler with the object-prototype lookup corrected: the refreshed dataset, handed
      to storage when it holds a profile or a video. */
  function RefreshPost(body: Option<Json>, env: Option<string>, scrape: (Json, string) -> seq<RawItem>, now: string): (r: RefreshResponse)
    ensures r.MissingKey? <==> !Truthy(ApiKey(body, env))
    ensures r.Refreshed? ==> r.data == TransformSpec(ScrapeAll(PROFILES, ApiKey(body, env), scrape), now)
  {
    var key := ApiKey(body, env);
    if !Truthy(key) then MissingKey
    else
      var d := TransformSpec(ScrapeAll(PROFILES, key, scrape), now);
      Refreshed(d, |d.profiles| > 0 || |d.allVideos| > 0)
  }

  /** Some item has an author name. */
  predicate SomeAuthored(items: seq<RawItem>)
  {
    exists i :: 0 <= i < |items| && AuthorKey(items[i]).Some?
  }

  /** The save guard holds exactly when some item had an author name. */
  lemma SaveGuardIffAuthoredItem(items: seq<RawItem>, now: string)
    ensures var d := TransformSpec(items, now);
      (|d.profiles| > 0 || |d.allVideos| > 0) <==> SomeAuthored(items)
  {
    NoProfilesIffNoVideos(items, OrZero);
    NoVideosIffNoAuthorName(items, OrZero);
  }

  /** With a usable key the handler always answers with the dataset, and stores it exactly when
      some scraped item had an author name. */
  lemma RefreshSavesIffAuthoredItem(body: Option<Json>, env: Option<string>, scrape: (Json, string) -> seq<RawItem>, now: string)
    requires Truthy(ApiKey(body, env))
    ensures var r := RefreshPost(body, env, scrape, now);
      r.Refreshed? && (r.saved <==> SomeAuthored(ScrapeAll(PROFILES, ApiKey(body, env), scrape)))
  {
    var items := ScrapeAll(PROFILES, ApiKey(body, env), scrape);
    var d := TransformSpec(items, now);
    assert RefreshPost(body, env, scrape, now) == Refreshed(d, |d.profiles| > 0 || |d.allVideos| > 0);
    SaveGuardIffAuthoredItem(items, now);
  }

  // ---------------------------------------------------------------------------------------
  // The grouping loop as written: `profiles` is an object literal, so `profiles[authorName]`
  // also finds the properties every object inherits.

  /** The property names every object literal inherits from Object.prototype. */
  const INHERITED: set<string> := {
    "constructor", "__proto__", "__defineGetter__", "__defineSetter__", "__lookupGetter__",
    "__lookupSetter__", "hasOwnProperty", "isPrototypeOf", "propertyIsEnumerable",
    "toLocaleString", "toString", "valueOf"
  }

  /** The loop over the items as written. For an author named after an inherited property the
      profile check sees a truthy value, no profile is created, and pushing onto its undefined
      `videos` throws a TypeError. */
  function GroupAsWritten(items: seq<RawItem>): Result<(seq<Profile<int>>, seq<Video<int>>), string>
  {
    if |items| == 0 then Ok(([], []))
    else
      match GroupAsWritten(items[..|items| - 1])
      case Err(e) => Err(e)
      case Ok(acc) =>
        var x := items[|items| - 1];
        match AuthorKey(x)
        case None => Ok(acc)
        case Some(a) =>
          if FindProfile(acc.0, a).None? && a in INHERITED then
            Err("TypeError: Cannot read properties of undefined (reading 'push')")
          else Ok((Absorb(acc.0, x, a, OrZero), acc.1 + [ToVideo(x, a, OrZero)]))
  }

  /** Some scraped author is named after an inherited object property. */
  predicate SomeInheritedAuthor(items: seq<RawItem>)
  {
    exists i :: 0 <= i < |items| && AuthorKey(items[i]).Some? && AuthorKey(items[i]).value in INHERITED
  }

  /** The loop as written fails exactly when some item's author is an inherited property name,
      and otherwise computes what the corrected loop computes. */
  lemma {:induction false} GroupAsWrittenDiverges(items: seq<RawItem>)
    ensures GroupAsWritten(items).Err? <==> SomeInheritedAuthor(items)
    ensures GroupAsWritten(items).Ok? ==>
      GroupAsWritten(items).value == (ProfilesOf(items, OrZero), VideosIn(items, OrZero))
  {
    if |items| > 0 {
      var init := items[..|items| - 1];
      var x := items[|items| - 1];
      assert items == init + [x];
      assert forall i :: 0 <= i < |init| ==> init[i] == items[i];
      GroupAsWrittenDiverges(init);
      if GroupAsWritten(init).Ok? {
        match AuthorKey(x)
        case None =>
          SkippedItem(init, x, OrZero);
          assert GroupAsWritten(items) == GroupAsWritten(init);
        case Some(a) =>
          AcceptedItem(init, x, OrZero);
          var ps := ProfilesOf(init, OrZero);
          if !(FindProfile(ps, a).None? && a in INHERITED) {
            assert GroupAsWritten(items) == Ok((Absorb(ps, x, a, OrZero), VideosIn(init, OrZero) + [ToVideo(x, a, OrZero)]));
          }
          if a in INHERITED {
            ProfilesWellFormed(init, OrZero);
            InheritedNeverOwn(init, a);
          }
      }
    } else {
      assert ProfilesOf(items, OrZero) == [];
    }
  }

  /** No profile of the corrected loop is named after an inherited property unless such an
      author was seen; when none was, the lookup of an inherited name finds nothing. */
  lemma InheritedNeverOwn(items: seq<RawItem>, a: string)
    requires a in INHERITED
    requires forall i :: 0 <= i < |items| && AuthorKey(items[i]).Some? ==> AuthorKey(items[i]).value !in INHERITED
    ensures FindProfile(ProfilesOf(items, OrZero), a).None?
  {
    ProfileNames(items, OrZero);
    var A := Authors(items);
    forall j | 0 <= j < |A| ensures A[j] != a {
      var i := FirstIndex(items, A[j]);
    }
  }

  /** The handler as written: the TypeError from the loop is caught and answered with 500. */
  function RefreshPostAsWritten(body: Option<Json>, env: Option<string>, scrape: (Json, string) -> seq<RawItem>, now: string): (r: RefreshResponse)
    ensures r.MissingKey? <==> !Truthy(ApiKey(body, env))
  {
    var key := ApiKey(body, env);
    if !Truthy(key) then MissingKey
    else
      var items := ScrapeAll(PROFILES, key, scrape);
      match GroupAsWritten(items)
      case Err(e) => Failed(e)
      case Ok(acc) =>
        var d := Dataset(now, |PROFILES|, acc.0, SortDesc(acc.1, Plays));
        Refreshed(d, |d.profiles| > 0 || |d.allVideos| > 0)
  }

  /** Given a key, the handler as written answers 500 exactly when some scraped author is an
      inherited property name, and otherwise answers what the corrected handler answers. */
  lemma RefreshPostAsWrittenDiverges(body: Option<Json>, env: Option<string>, scrape: (Json, string) -> seq<RawItem>, now: string)
    requires Truthy(ApiKey(body, env))
    ensures RefreshPostAsWritten(body, env, scrape, now).Failed? <==>
      SomeInheritedAuthor(ScrapeAll(PROFILES, ApiKey(body, env), scrape))
    ensures !RefreshPostAsWritten(body, env, scrape, now).Failed? ==>
      RefreshPostAsWritten(body, env, scrape, now) == RefreshPost(body, env, scrape, now)
  {
    var items := ScrapeAll(PROFILES, ApiKey(body, env), scrape);
    GroupAsWrittenDiverges(items);
    match GroupAsWritten(items)
    case Err(e) =>
      assert RefreshPostAsWritten(body, env, scrape, now) == Failed(e);
    case Ok(acc) =>
      var d := Dataset(now, |PROFILES|, acc.0, SortDesc(acc.1, Plays));
      assert d == TransformSpec(items, now);
      assert RefreshPostAsWritten(body, env, scrape, now) == Refreshed(d, |d.profiles| > 0 || |d.allVideos| > 0);
  }

  /** A scraped item by the account "constructor" with 10 plays and nothing else set. */
  function ConstructorItem(): RawItem
  {
    var meta := AuthorMeta(Some("constructor"), None, None, None, Missing, Missing, Missing, Missing);
    RawItem(Some("1"), None, None, None, Missing, Missing, Missing, Int(10), Missing, None, None, Some(meta))
  }

  /** A scraper that finds that item on the first profile and nothing elsewhere. */
  function ConstructorScrape(key: Json, profile: string): seq<RawItem>
  {
    if profile == PROFILES[0] then [ConstructorItem()] else []
  }

  lemma ConstructorScrapeItems(key: Json)
    ensures ScrapeAll(PROFILES, key, ConstructorScrape) == [ConstructorItem()]
  {
    ScrapeAllFirst(PROFILES, key, ConstructorScrape);
    ScrapeAllNothing(PROFILES[1..], key, ConstructorScrape);
  }

  /** The loop as written fails on that item. */
  lemma ConstructorItemFails()
    ensures GroupAsWritten([ConstructorItem()]).Err?
  {
    var items := [ConstructorItem()];
    assert AuthorKey(items[0]) == Some("constructor");
    GroupAsWrittenDiverges(items);
  }

  /** The corrected loop gives that item one profile and one video. */
  lemma ConstructorItemGroups(now: string)
    ensures var d := TransformSpec([ConstructorItem()], now);
      |d.profiles| == 1 && d.profiles[0].name == "constructor" &&
      |d.allVideos| == 1 && Plays(d.allVideos[0]) == 10
  {
    var items := [ConstructorItem()];
    assert AuthorKey(items[0]) == Some("constructor");
    assert items[..0] == [];
    assert Authors(items) == ["constructor"];
    ProfileNames(items, OrZero);
    var v := ToVideo(ConstructorItem(), "constructor", OrZero);
    assert VideosIn(items, OrZero) == [v];
    var sorted := SortDesc([v], Plays);
    assert multiset(sorted) == multiset{v};
    assert sorted[0] in multiset(sorted);
  }

  /** An item by the account "constructor" makes the handler as written answer 500, while the
      corrected handler returns a dataset with that account's profile and video, and saves it. */
  lemma ConstructorAuthorFails(env: string, now: string)
    requires env != ""
    ensures RefreshPostAsWritten(None, Some(env), ConstructorScrape, now).Failed?
    ensures var r := RefreshPost(None, Some(env), ConstructorScrape, now);
      r.Refreshed? && r.saved && |r.data.profiles| == 1 && r.data.profiles[0].name == "constructor" &&
      |r.data.allVideos| == 1 && Plays(r.data.allVideos[0]) == 10
  {
    assert ApiKey(None, Some(env)) == JStr(env);
    ConstructorScrapeItems(JStr(env));
    ConstructorItemFails();
    ConstructorItemGroups(now);
  }
}
