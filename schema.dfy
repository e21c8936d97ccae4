/** The shapes of the data: a scraped item as the scraper returns it, and the dataset the
    refresh builds from those items (profiles keyed by author, each with its videos, plus one
    flat list of every video). The counter type C is `int` where a missing counter has been
    replaced by 0, and Num where the JSON value is kept as it came. */
module Schema {
  import opened Common

  /** A numeric field of a scraped item: absent, JSON null, or a number. */
  datatype Num = Missing | Null | Int(i: int)

  /** The `authorMeta` object of a scraped item. */
  datatype AuthorMeta = AuthorMeta(
    name: Option<string>,
    nickName: Option<string>,
    avatar: Option<string>,
    signature: Option<string>,
    fans: Num,
    following: Num,
    heart: Num,
    video: Num)

  /** One item returned by the scraper; `coverUrl` is the item's `videoMeta.coverUrl`. */
  datatype RawItem = RawItem(
    id: Option<string>,
    text: Option<string>,
    createTime: Option<int>,
    createTimeISO: Option<string>,
    diggCount: Num,
    shareCount: Num,
    commentCount: Num,
    playCount: Num,
    collectCount: Num,
    webVideoUrl: Option<string>,
    coverUrl: Option<string>,
    authorMeta: Option<AuthorMeta>)

  datatype Stats<C> = Stats(diggCount: C, shareCount: C, commentCount: C, playCount: C, collectCount: C)

  datatype Video<C> = Video(
    id: Option<string>,
    desc: Option<string>,
    createTime: Option<int>,
    createTimeISO: Option<string>,
    stats: Stats<C>,
    videoUrl: Option<string>,
    coverUrl: Option<string>,
    author: string)

  datatype Profile<C> = Profile(
    name: string,
    nickname: Option<string>,
    avatar: Option<string>,
    signature: Option<string>,
    fans: C,
    following: C,
    heart: C,
    video: C,
    videos: seq<Video<C>>)

  /** The refreshed document. `profiles` is the `profiles` object as its values in key
      insertion order (the order `Object.values` and Python's dict iteration give). */
  datatype Dataset<C> = Dataset(
    lastUpdated: string,
    profileCount: nat,
    profiles: seq<Profile<C>>,
    allVideos: seq<Video<C>>)

  /** The same video with every counter passed through h. */
  function MapVideo<C, D>(v: Video<C>, h: C -> D): Video<D>
  {
    var st := v.stats;
    Video(v.id, v.desc, v.createTime, v.createTimeISO,
      Stats(h(st.diggCount), h(st.shareCount), h(st.commentCount), h(st.playCount), h(st.collectCount)),
      v.videoUrl, v.coverUrl, v.author)
  }

  /** The same profile with every counter, its videos' included, passed through h. */
  function MapProfile<C, D>(p: Profile<C>, h: C -> D): Profile<D>
  {
    Profile(p.name, p.nickname, p.avatar, p.signature, h(p.fans), h(p.following), h(p.heart), h(p.video),
      seq(|p.videos|, i requires 0 <= i < |p.videos| => MapVideo(p.videos[i], h)))
  }

  function Plays(v: Video<int>): int { v.stats.playCount }

  function Likes(v: Video<int>): int { v.stats.diggCount }

  function CommentTotal(v: Video<int>): int { v.stats.commentCount }

  function Fans(p: Profile<int>): int { p.fans }

  /** The key lookup `profiles[name]` on the record: the position of the profile named `name`. */
  function FindProfile<C>(ps: seq<Profile<C>>, name: string): (r: Option<nat>)
    ensures r.Some? ==> r.value < |ps| && ps[r.value].name == name
    ensures r.Some? ==> forall j :: 0 <= j < r.value ==> ps[j].name != name
    ensures r.None? ==> forall j :: 0 <= j < |ps| ==> ps[j].name != name
  {
    if |ps| == 0 then None
    else if ps[0].name == name then Some(0)
    else match FindProfile(ps[1..], name)
      case None => None
      case Some(k) => Some(k + 1)
  }

  /** The profile named `name`, if the record has one. */
  function LookupProfile<C>(ps: seq<Profile<C>>, name: string): Option<Profile<C>>
  {
    match FindProfile(ps, name)
    case None => None
    case Some(k) => Some(ps[k])
  }
}
