/** Request shaping for the image provider: the style prefix added to the
    prompt (app.py `generate_image`) and the aspect-ratio-to-size map
    (app.py `api_generate`). */
module Prompts {
  import opened Records

  const ABSTRACT_PREFIX := "Create an abstract art piece with vibrant colors and geometric shapes: "
  const REALISTIC_PREFIX := "Create a photorealistic image with intricate details: "
  const ANIME_PREFIX := "Create an anime-style illustration with vibrant colors: "
  const PAINTERLY_PREFIX := "Create a painting in the style of a classical artist with visible brushstrokes: "
  const THREE_D_PREFIX := "Create a 3D rendered image with strong lighting and textures: "
  const MINIMALIST_PREFIX := "Create a minimalist design with clean lines and limited color palette: "

  /** The style keywords that carry an instruction prefix. */
  const STYLES: seq<string> := ["abstract", "realistic", "anime", "painterly", "3d", "minimalist"]

  /** The model name and image count of every provider request. */
  const IMAGE_MODEL := "dall-e-3"
  const IMAGES_PER_CALL: nat := 1

  const SQUARE_SIZE := "1024x1024"
  const WIDE_SIZE := "1792x1024"
  const TALL_SIZE := "1024x1792"

  /** The `style_prompts` dictionary: the prefix of a recognised style. */
  function StylePrefix(style: string): (prefix: Option<string>)
    ensures prefix.Some? <==> style in STYLES
    ensures prefix.Some? ==> |prefix.value| > 0
  {
    if style == "abstract" then Some(ABSTRACT_PREFIX)
    else if style == "realistic" then Some(REALISTIC_PREFIX)
    else if style == "anime" then Some(ANIME_PREFIX)
    else if style == "painterly" then Some(PAINTERLY_PREFIX)
    else if style == "3d" then Some(THREE_D_PREFIX)
    else if style == "minimalist" then Some(MINIMALIST_PREFIX)
    else None
  }

  predicate IsSuffix(suffix: string, s: string) {
    |suffix| <= |s| && s[|s| - |suffix|..] == suffix
  }

  /** The prompt sent to the provider: a missing, empty or "default" style
      leaves the prompt alone; otherwise a recognised style's prefix is put
      in front of it and an unrecognised one changes nothing. */
  function ComposePrompt(prompt: string, style: Option<string>): (full: string)
    ensures IsSuffix(prompt, full)
  {
    if style.Some? && style.value != "" && style.value != DEFAULT_STYLE then
      match StylePrefix(style.value)
      case Some(prefix) => prefix + prompt
      case None => prompt
    else
      prompt
  }

  /** The prompt is changed exactly for the six recognised styles, and then
      by exactly that style's prefix; the "default" sentinel is not one of them. */
  lemma ComposePromptByStyle(prompt: string, style: Option<string>)
    ensures ComposePrompt(prompt, style) != prompt <==> style.Some? && style.value in STYLES
    ensures style.Some? && style.value in STYLES ==>
              ComposePrompt(prompt, style) == StylePrefix(style.value).value + prompt
    ensures style.None? || style.value !in STYLES ==> ComposePrompt(prompt, style) == prompt
  {
    assert DEFAULT_STYLE !in STYLES;
    assert "" !in STYLES;
    if style.Some? && style.value in STYLES {
      var full := ComposePrompt(prompt, style);
      assert |full| == |StylePrefix(style.value).value| + |prompt| > |prompt|;
    }
  }

  /** `size_map.get(aspect_ratio, '1024x1024')`. */
  function SizeFor(aspectRatio: string): (size: string)
    ensures size == WIDE_SIZE <==> aspectRatio == "16:9"
    ensures size == TALL_SIZE <==> aspectRatio == "9:16"
    ensures size == SQUARE_SIZE <==> aspectRatio != "16:9" && aspectRatio != "9:16"
  {
    if aspectRatio == "1:1" then SQUARE_SIZE
    else if aspectRatio == "16:9" then WIDE_SIZE
    else if aspectRatio == "9:16" then TALL_SIZE
    else SQUARE_SIZE
  }

  /** The request `generate_image` sends: one image of the given size, for
      the style-composed prompt. */
  function ProviderCallFor(prompt: string, style: Option<string>, size: string): (call: ProviderCall)
    ensures call.model == IMAGE_MODEL && call.n == 1 && call.size == size
    ensures IsSuffix(prompt, call.prompt)
  {
    ProviderCall(IMAGE_MODEL, ComposePrompt(prompt, style), IMAGES_PER_CALL, size)
  }
}
