/** `_send_image`: one embed with a caption and an image. */
module Renderer {
  import opened JsonValues
  import opened Outcomes
  import opened Sequences

  /** The embed that is sent: its description and its image URL value. */
  datatype Embed = Embed(description: Json, image: Json)

  /** A list picks one of its elements at random (an empty list makes
      `random.choice` raise `IndexError`); any other value is used as the
      image unchanged. The caption becomes the description unchanged. */
  function SendImage(image: Json, caption: Json, draw: nat): (r: Result<Embed>)
    ensures image.JArr? && |image.items| == 0 ==> r == Err(IndexError)
    ensures image.JArr? && |image.items| > 0 ==> r.Ok? && r.value.image in image.items
    ensures !image.JArr? ==> r == Ok(Embed(caption, image))
    ensures r.Ok? ==> r.value.description == caption
  {
    match image
    case JArr(items) =>
      if |items| == 0 then Err(IndexError) else Ok(Embed(caption, Pick(items, draw)))
    case _ => Ok(Embed(caption, image))
  }

  /** Every image of a list can be the one sent. */
  lemma SendImageReachesEvery(items: seq<Json>, caption: Json, i: nat)
    requires i < |items|
    ensures SendImage(JArr(items), caption, i) == Ok(Embed(caption, items[i]))
  {
    PickReachesEvery(items, i);
  }
}
