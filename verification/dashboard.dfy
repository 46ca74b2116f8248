/** The dashboard's channel-videos view: one `$match` on the owner feeding a `$facet`
    with a projected list and a count. */
module Dashboard {
  import opened Wrappers
  import opened ObjectIds
  import opened Seqs
  import opened Pipeline
  import opened Entities
  import opened Videos

  /** One listed video: `_id`, `title`, `thumbnail`, `videoFile`, `isPublished`. */
  datatype VideoCard = VideoCard(id: Id, title: string, thumbnail: string, videoFile: string, isPublished: bool)

  /** The single document a `$facet` stage yields: one array per facet. */
  datatype FacetDoc = FacetDoc(videos: seq<VideoCard>, totalVideos: seq<nat>)

  /** The reply body: the count and the list. */
  datatype ChannelVideos = ChannelVideos(totalVideos: nat, videos: seq<VideoCard>)

  function CardOf(v: Video): VideoCard {
    VideoCard(v.id, v.title, v.thumbnail, v.videoFile, v.isPublished)
  }

  /** Both facets run over the same matched videos. */
  function Facet(videos: seq<Video>, owner: Id): (r: FacetDoc)
    ensures var m := Filter(videos, OwnedBy(owner));
            && |r.videos| == |m|
            && (forall i :: 0 <= i < |m| ==> r.videos[i] == CardOf(m[i]))
            && (r.totalVideos == [] <==> m == [])
            && (forall i :: 0 <= i < |r.totalVideos| ==> r.totalVideos[i] == |m|)
  {
    var m := Filter(videos, OwnedBy(owner));
    FacetDoc(seq(|m|, i requires 0 <= i < |m| => CardOf(m[i])), CountStage(m))
  }

  /** `getChannelVideos`: the actor's videos with their count; the count facet of a
      channel without videos is empty and reads as 0. The aggregation always yields
      the one facet document, so the 500 for an empty result cannot occur. */
  function GetChannelVideos(videos: seq<Video>, actor: Id): (r: Response<ChannelVideos>)
    ensures r.Ok? && r.status == 200
    ensures r.body.totalVideos == |r.body.videos|
    ensures r.body.totalVideos == |Filter(videos, OwnedBy(actor))|
    ensures forall c :: c in r.body.videos <==> exists v :: v in videos && v.owner == actor && c == CardOf(v)
  {
    var doc := Facet(videos, actor);
    var m := Filter(videos, OwnedBy(actor));
    var total := if |doc.totalVideos| > 0 then doc.totalVideos[0] else 0;
    forall c | c in doc.videos ensures exists v :: v in videos && v.owner == actor && c == CardOf(v) {
      var i :| 0 <= i < |doc.videos| && doc.videos[i] == c;
      assert m[i] in m;
    }
    forall v | v in videos && v.owner == actor ensures CardOf(v) in doc.videos {
      var i :| 0 <= i < |m| && m[i] == v;
      assert doc.videos[i] == CardOf(v);
    }
    Ok(200, ChannelVideos(total, doc.videos))
  }

  /** A channel without videos gets a count of 0 and an empty list, not an error. */
  lemma EmptyChannel(videos: seq<Video>, actor: Id)
    requires forall i :: 0 <= i < |videos| ==> videos[i].owner != actor
    ensures GetChannelVideos(videos, actor) == Ok(200, ChannelVideos(0, []))
  {
    FilterNone(videos, OwnedBy(actor));
  }

  /** Uploads by other channels leave the view unchanged. */
  lemma OtherUploadsInvisible(videos: seq<Video>, actor: Id, more: seq<Video>)
    requires forall i :: 0 <= i < |more| ==> more[i].owner != actor
    ensures GetChannelVideos(videos + more, actor) == GetChannelVideos(videos, actor)
  {
    FilterConcat(videos, more, OwnedBy(actor));
    FilterNone(more, OwnedBy(actor));
    assert Filter(videos + more, OwnedBy(actor)) == Filter(videos, OwnedBy(actor));
  }

  /** Toggling a video's publish flag keeps every channel's video count. */
  lemma PublishToggleKeepsCount(videos: seq<Video>, videoId: Option<string>, actor: Id)
    ensures var after := TogglePublishStatus(videos, videoId).state;
            GetChannelVideos(after, actor).body.totalVideos == GetChannelVideos(videos, actor).body.totalVideos
  {
    var t := TogglePublishStatus(videos, videoId);
    if t.reply.Ok? {
      var i := FindById(videos, VideoId, ParamId(videoId)).value;
      FilterUpdateKeepsLength(videos, i, t.state[i], OwnedBy(actor));
    }
  }
}
