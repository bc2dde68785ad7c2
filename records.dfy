/** Rows of the two tables, the JSON shapes built from them, and the
    request and result of the external image provider. */
module Records {

  datatype Option<+T> = None | Some(value: T) {
    /** The value, or `default` when absent (Python's `dict.get(key, default)`). */
    function GetOr(default: T): T {
      match this
      case Some(v) => v
      case None => default
    }
  }

  /** A row of the `user` table. The password is only ever held as a hash. */
  datatype User = User(
    id: nat,
    username: string,
    email: string,
    passwordHash: string,
    createdAt: int)

  /** A row of the `image` table: metadata only, the picture stays at `imageUrl`. */
  datatype Image = Image(
    id: nat,
    userId: nat,
    prompt: string,
    imageUrl: string,
    style: string,
    aspectRatio: string,
    createdAt: int,
    isFavorite: bool)

  /** Column defaults of `Image.style` and `Image.aspect_ratio`; the generation
      endpoint uses the same strings when the request omits those keys. */
  const DEFAULT_STYLE := "default"
  const DEFAULT_ASPECT_RATIO := "1:1"

  /** A freshly inserted image: `is_favorite` takes its column default, false. */
  function NewImage(id: nat, userId: nat, prompt: string, url: string, style: string,
                    aspectRatio: string, createdAt: int): Image
  {
    Image(id, userId, prompt, url, style, aspectRatio, createdAt, false)
  }

  /** The JSON object the image listing returns per row: every column but `user_id`. */
  datatype ImageView = ImageView(
    id: nat,
    url: string,
    prompt: string,
    style: string,
    aspectRatio: string,
    createdAt: int,
    isFavorite: bool)

  function ViewOf(img: Image): ImageView {
    ImageView(img.id, img.imageUrl, img.prompt, img.style, img.aspectRatio, img.createdAt, img.isFavorite)
  }

  /** The single outbound request to the image provider. */
  datatype ProviderCall = ProviderCall(model: string, prompt: string, n: nat, size: string)

  /** What the provider adapter hands back: a URL, or the text of whatever went wrong. */
  datatype ProviderResult = ProviderSuccess(url: string) | ProviderFailure(error: string)
}
