/**
 * The local image listing as the program sees it (`listImages()`): a list of
 * images, each carrying an optional list of repository tags.
 */
module Images {
  import opened Wrappers

  datatype ImageSummary = ImageSummary(repoTags: Option<seq<string>>)

  /** An image's tags; an image without `RepoTags` has none. */
  function TagsOf(img: ImageSummary): seq<string> {
    img.repoTags.GetOr([])
  }

  /** Every local tag: the images' tag lists concatenated in listing order. */
  function AllTags(images: seq<ImageSummary>): (tags: seq<string>)
    ensures forall t :: t in tags <==> exists i :: 0 <= i < |images| && t in TagsOf(images[i])
    decreases |images|
  {
    if |images| == 0 then []
    else
      var rest := AllTags(images[1..]);
      assert forall i :: 1 <= i < |images| ==> images[i] == images[1..][i - 1];
      TagsOf(images[0]) + rest
  }

  /** Listing more images only appends their tags, after the earlier ones. */
  lemma {:induction false} AllTagsAppend(a: seq<ImageSummary>, b: seq<ImageSummary>)
    ensures AllTags(a + b) == AllTags(a) + AllTags(b)
    decreases |a|
  {
    if |a| == 0 {
      assert a + b == b;
    } else {
      assert (a + b)[0] == a[0];
      assert (a + b)[1..] == a[1..] + b;
      AllTagsAppend(a[1..], b);
    }
  }

  /** A listing of one image with one tag has exactly that tag. */
  lemma SingleImageTags(tag: string)
    ensures AllTags([ImageSummary(Some([tag]))]) == [tag]
  {
    var images := [ImageSummary(Some([tag]))];
    assert images[1..] == [];
  }
}
