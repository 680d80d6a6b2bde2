/**
 * Turning one raw `app.bsky.feed.post` record into the exported post shape
 * `{created_at, text, images}`.
 */
module Records {
  import opened Wrappers
  import opened Text

  const ImagesEmbedType := "app.bsky.embed.images"
  const ImageCdnBase := "https://cdn.bsky.app/img/feed_fullsize/plain"
  const JpegSuffix := "@jpeg"

  /** One image of an images embed: the blob's content identifier and its alt text. */
  datatype EmbeddedImage = EmbeddedImage(cid: string, alt: string)

  /**
   * An embed as the code sees it: its `py_type` tag (empty when the object
   * has none) and, meaningful only for the images type, its images.
   */
  datatype Embed = Embed(pyType: string, images: seq<EmbeddedImage>)

  /** The `value` of a listed record; `embed` is None when absent or falsy. */
  datatype RawRecord = RawRecord(createdAt: string, text: string, embed: Option<Embed>)

  datatype ImageRef = ImageRef(url: string, altText: string)

  datatype Post = Post(createdAt: string, text: string, images: seq<ImageRef>)

  function ImageUrlPrefix(did: string): string {
    ImageCdnBase + "/" + did + "/"
  }

  /** The full-size JPEG rendition of blob `cid` in repository `did`. */
  function ImageUrl(did: string, cid: string): (url: string)
    ensures StartsWith(url, ImageUrlPrefix(did)) && EndsWith(url, JpegSuffix)
    ensures |url| == |ImageUrlPrefix(did)| + |cid| + |JpegSuffix|
    ensures url[|ImageUrlPrefix(did)|..|url| - |JpegSuffix|] == cid
  {
    ImageUrlPrefix(did) + cid + JpegSuffix
  }

  /** The blob identifier an image URL of repository `did` points at. */
  function CidOfImageUrl(did: string, url: string): Option<string> {
    var pre := ImageUrlPrefix(did);
    if StartsWith(url, pre) && EndsWith(url, JpegSuffix) && |pre| + |JpegSuffix| <= |url| then
      Some(url[|pre|..|url| - |JpegSuffix|])
    else
      None
  }

  /** Every image URL names its blob: the CID can be read back from it. */
  lemma ImageUrlRoundTrip(did: string, cid: string)
    ensures CidOfImageUrl(did, ImageUrl(did, cid)) == Some(cid)
  {
    var pre := ImageUrlPrefix(did);
    var url := ImageUrl(did, cid);
    assert url == pre + cid + JpegSuffix;
    assert url[..|pre|] == pre;
    assert url[|url| - |JpegSuffix|..] == JpegSuffix;
    assert url[|pre|..|url| - |JpegSuffix|] == cid;
  }

  /** Images are exported only for an embed whose type is the images embed. */
  predicate HasImagesEmbed(rec: RawRecord) {
    rec.embed.Some? && rec.embed.value.pyType == ImagesEmbedType
  }

  /** The post a record becomes (lines 229-245 of the fetch loop). */
  function ToPost(did: string, rec: RawRecord): (p: Post)
    ensures p.createdAt == rec.createdAt && p.text == rec.text
    ensures !HasImagesEmbed(rec) ==> p.images == []
    ensures HasImagesEmbed(rec) ==> |p.images| == |rec.embed.value.images|
    ensures HasImagesEmbed(rec) ==>
              forall i :: 0 <= i < |p.images| ==>
                CidOfImageUrl(did, p.images[i].url) == Some(rec.embed.value.images[i].cid)
                && p.images[i].altText == rec.embed.value.images[i].alt
  {
    var images :=
      if HasImagesEmbed(rec) then
        var imgs := rec.embed.value.images;
        seq(|imgs|, i requires 0 <= i < |imgs| => ImageRef(ImageUrl(did, imgs[i].cid), imgs[i].alt))
      else [];
    assert HasImagesEmbed(rec) ==>
             forall i :: 0 <= i < |images| ==>
               CidOfImageUrl(did, images[i].url) == Some(rec.embed.value.images[i].cid) by {
      if HasImagesEmbed(rec) {
        forall i | 0 <= i < |images|
          ensures CidOfImageUrl(did, images[i].url) == Some(rec.embed.value.images[i].cid)
        {
          ImageUrlRoundTrip(did, rec.embed.value.images[i].cid);
        }
      }
    }
    Post(rec.createdAt, rec.text, images)
  }

  /**
   * The transform as the loop body writes it: start with no images and append
   * one reference per embedded image, in order.
   */
  method TransformRecord(did: string, rec: RawRecord) returns (p: Post)
    ensures p == ToPost(did, rec)
  {
    var images: seq<ImageRef> := [];
    if rec.embed.Some? && rec.embed.value.pyType == ImagesEmbedType {
      var imgs := rec.embed.value.images;
      for k := 0 to |imgs|
        invariant |images| == k
        invariant forall i :: 0 <= i < k ==> images[i] == ImageRef(ImageUrl(did, imgs[i].cid), imgs[i].alt)
      {
        images := images + [ImageRef(ImageUrl(did, imgs[k].cid), imgs[k].alt)];
      }
    }
    p := Post(rec.createdAt, rec.text, images);
  }
}
