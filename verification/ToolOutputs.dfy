/** What is shown of the output of a tool: which images, and the content with the image data taken out. */
module ToolOutputs {
  import opened Protocol
  import opened Projection

  /** An image block, whether or not it can be shown. */
  ghost predicate IsImage(block: JsonValue) {
    && block.JsonObject?
    && "type" in block.fields && block.fields["type"] == JsonString("image")
    && "data_base64" in block.fields
  }

  /** It can be shown if both texts are there and the data has at most 384 Ki characters. */
  ghost predicate CanBeShown(block: JsonValue) {
    && IsImage(block)
    && "mime_type" in block.fields && block.fields["mime_type"].JsonString?
    && block.fields["data_base64"].JsonString? && |block.fields["data_base64"].text| <= 393216
  }

  /** How many of the blocks can be shown. */
  ghost function Count(blocks: seq<JsonValue>): nat {
    if blocks == [] then 0 else (if CanBeShown(blocks[0]) then 1 else 0) + Count(blocks[1..])
  }

  ghost predicate Shows(image: Image, block: JsonValue)
    requires CanBeShown(block)
  {
    image.mimeType == block.fields["mime_type"].text && image.base64 == block.fields["data_base64"].text
  }

  lemma {:induction false} ShownCount(blocks: seq<JsonValue>, shown: nat)
    requires shown <= 4
    ensures |ShownImages(blocks, shown)| == if shown + Count(blocks) <= 4 then Count(blocks) else 4 - shown
  {
    if blocks != [] {
      ShownCount(blocks[1..], if IsShownImage(blocks[0], shown) then shown + 1 else shown);
    }
  }

  lemma {:induction false} ShownAt(blocks: seq<JsonValue>, shown: nat, i: nat)
    requires i < |blocks| && CanBeShown(blocks[i]) && shown + Count(blocks[..i]) < 4
    ensures Count(blocks[..i]) < |ShownImages(blocks, shown)|
    ensures Shows(ShownImages(blocks, shown)[Count(blocks[..i])], blocks[i])
  {
    if i > 0 {
      assert blocks[..i][1..] == blocks[1..][..i - 1];
      ShownAt(blocks[1..], if IsShownImage(blocks[0], shown) then shown + 1 else shown, i - 1);
    }
  }

  /**
   * The first four images that can be shown are shown, in order and with their own data. In the content every image
   * block, shown or not, is replaced by a text that says so, and every other block stays as it is. Content that is not
   * a list of blocks stays whole.
   */
  lemma ResultsShowTheFirstImages(value: JsonValue)
    ensures var images, content := OutputImages(value), OutputContent(value);
      if value.JsonArray? then
        var blocks := value.elements;
        && |images| == (if Count(blocks) <= 4 then Count(blocks) else 4)
        && (forall i | 0 <= i < |blocks| && CanBeShown(blocks[i]) && Count(blocks[..i]) < 4 ::
              Count(blocks[..i]) < |images| && Shows(images[Count(blocks[..i])], blocks[i]))
        && content.JsonArray? && |content.elements| == |blocks|
        && forall i | 0 <= i < |blocks| ::
             content.elements[i]
             == if IsImage(blocks[i]) then
                  JsonObject(map["type" := JsonString("text"), "text" := JsonString("[\U{56FE}\U{7247}]")])
                else blocks[i]
      else images == [] && content == value
  {
    if value.JsonArray? {
      var blocks := value.elements;
      ShownCount(blocks, 0);
      forall i | 0 <= i < |blocks| && CanBeShown(blocks[i]) && Count(blocks[..i]) < 4
        ensures Count(blocks[..i]) < |OutputImages(value)|
        ensures Shows(OutputImages(value)[Count(blocks[..i])], blocks[i])
      {
        ShownAt(blocks, 0, i);
      }
    }
  }
}
