/**
 * `urlFor` and `getPostImageUrl` of `lib/sanity/image.ts`. A Sanity document
 * is a JavaScript object; the `@sanity/image-url` builder is a parameter
 * `render` that turns an image request and a size into a URL or throws.
 */
module SanityImage {
  import opened Wrappers
  import opened Strings

  /** A JSON value as JavaScript sees it. */
  datatype JsValue =
    | JUndefined
    | JNull
    | JBool(b: bool)
    | JNum(n: int)
    | JStr(s: string)
    | JObj(fields: map<string, JsValue>)

  /** JavaScript truthiness. */
  predicate IsTruthy(v: JsValue) {
    match v
    case JUndefined => false
    case JNull => false
    case JBool(b) => b
    case JNum(n) => n != 0
    case JStr(s) => s != ""
    case JObj(_) => true
  }

  /** The client's `projectId` and `dataset`, either of which may be unset. */
  datatype SanityConfig = SanityConfig(projectId: Option<string>, dataset: Option<string>)

  /** What `imageUrlBuilder({ projectId, dataset }).image(source)` holds. */
  datatype ImageRequest = ImageRequest(projectId: string, dataset: string, source: JsValue)

  /** `urlFor`: a builder only when project, dataset and source are all truthy. */
  function UrlFor(config: SanityConfig, source: JsValue): (r: Option<ImageRequest>)
    ensures r.Some? <==> Truthy(config.projectId) && Truthy(config.dataset) && IsTruthy(source)
    ensures r.Some? ==> r.value == ImageRequest(config.projectId.value, config.dataset.value, source)
  {
    if Truthy(config.projectId) && Truthy(config.dataset) && IsTruthy(source)
    then Some(ImageRequest(config.projectId.value, config.dataset.value, source))
    else None
  }

  /** `options.width || 800` and `options.height || 450`: a missing or zero size takes the default. */
  function OrDefault(size: Option<int>, default: int): (r: int)
    ensures size.None? || size.value == 0 ==> r == default
    ensures size.Some? && size.value != 0 ==> r == size.value
  {
    if size.Some? && size.value != 0 then size.value else default
  }

  const ImageFields: seq<string> := ["mainImage", "image", "coverImage", "thumbnail", "featuredImage"]

  /** `post[name]`: a missing key reads as `undefined`. */
  function Field(post: map<string, JsValue>, name: string): JsValue {
    if name in post then post[name] else JUndefined
  }

  /** The value of the first of `names` whose field is truthy. */
  function FirstTruthy(post: map<string, JsValue>, names: seq<string>): (r: Option<JsValue>)
    ensures r.None? <==> forall i | 0 <= i < |names| :: !IsTruthy(Field(post, names[i]))
    ensures r.Some? ==> exists i | 0 <= i < |names| ::
      && r.value == Field(post, names[i]) && IsTruthy(r.value)
      && forall j | 0 <= j < i :: !IsTruthy(Field(post, names[j]))
  {
    if names == [] then None
    else if IsTruthy(Field(post, names[0])) then Some(Field(post, names[0]))
    else
      var r := FirstTruthy(post, names[1..]);
      assert forall i | 1 <= i < |names| :: names[1..][i - 1] == names[i];
      r
  }

  predicate IsHttpString(v: JsValue) {
    v.JStr? && StartsWith(v.s, "http")
  }

  /** `getPostImageUrl`. */
  method GetPostImageUrl(config: SanityConfig, post: map<string, JsValue>, width: Option<int>, height: Option<int>,
                         render: (ImageRequest, int, int) -> Completion<string>)
    returns (url: Option<string>)
    // no truthy image field: null
    ensures FirstTruthy(post, ImageFields).None? ==> url.None?
    // an absolute URL string is returned as it is
    ensures FirstTruthy(post, ImageFields).Some? && IsHttpString(FirstTruthy(post, ImageFields).value) ==>
      url == Some(FirstTruthy(post, ImageFields).value.s)
    // anything else goes through the builder at the requested or default size;
    // a missing project or dataset, or a builder that throws, gives null
    ensures FirstTruthy(post, ImageFields).Some? && !IsHttpString(FirstTruthy(post, ImageFields).value) ==>
      var image := FirstTruthy(post, ImageFields).value;
      && (!(Truthy(config.projectId) && Truthy(config.dataset)) ==> url.None?)
      && (Truthy(config.projectId) && Truthy(config.dataset) ==>
            var rendered := render(ImageRequest(config.projectId.value, config.dataset.value, image),
                                   OrDefault(width, 800), OrDefault(height, 450));
            url == (if rendered.Normal? then Some(rendered.value) else None))
  {
    var w := OrDefault(width, 800);
    var h := OrDefault(height, 450);
    var imageField := JNull;
    var k := 0;
    while k < |ImageFields|
      invariant 0 <= k <= |ImageFields|
      invariant FirstTruthy(post, ImageFields) == if IsTruthy(imageField) then Some(imageField)
                                                  else FirstTruthy(post, ImageFields[k..])
      invariant IsTruthy(imageField) || imageField == JNull
    {
      if IsTruthy(Field(post, ImageFields[k])) {
        imageField := Field(post, ImageFields[k]);
        break;
      }
      k := k + 1;
    }
    if !IsTruthy(imageField) {
      return None;
    }
    if IsHttpString(imageField) {
      return Some(imageField.s);
    }
    // The `_type == "image"` branch and the fallback branch build the URL the same way.
    var builder := UrlFor(config, imageField);
    if builder.Some? {
      var rendered := render(builder.value, w, h);
      if rendered.Normal? {
        return Some(rendered.value);
      }
    }
    return None;
  }
}
