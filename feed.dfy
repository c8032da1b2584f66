/** The shape of one feed entry as the widget reads it, and the JavaScript
    value rules (truthiness, `||`, template interpolation) that its
    fallbacks rely on. */
module Feed {

  /** An optional string field of a feed record: missing from the JSON
      object, or present with some string value (possibly empty). */
  datatype Field = Absent | Present(s: string)

  datatype Option<T> = None | Some(value: T)

  /** One feed record. `mediaType` is kept raw: the widget compares it
      against the literals "image" and "video" at every use. */
  datatype Entry = Entry(
    title: Field,
    date: Field,
    mediaType: Field,
    url: Field,
    hdurl: Field,
    thumbnailUrl: Field,
    explanation: Field)

  /** The media kind that the widget's string comparisons distinguish. */
  datatype MediaKind = Image | Video | Other(raw: string)

  /** `f || ''`: the string value of a field, an absent field counting as empty. */
  function Text(f: Field): (r: string)
    ensures f.Present? ==> r == f.s
    ensures f.Absent? ==> r == ""
  {
    match f
    case Absent => ""
    case Present(s) => s
  }

  /** JavaScript truthiness of a field: absent and the empty string are falsy. */
  predicate Truthy(f: Field) {
    Text(f) != ""
  }

  /** `f || g` on two fields: the first when it is truthy, otherwise the second. */
  function Or(f: Field, g: Field): (r: Field)
    ensures Truthy(f) ==> r == f
    ensures !Truthy(f) ==> r == g
    ensures Truthy(r) <==> Truthy(f) || Truthy(g)
  {
    if Truthy(f) then f else g
  }

  /** `${f}` in a template literal (or a string assignment to a DOM property):
      an absent field is rendered as the text "undefined". */
  function Show(f: Field): (r: string)
    ensures f.Present? ==> r == f.s
    ensures f.Absent? ==> r == "undefined"
  {
    match f
    case Absent => "undefined"
    case Present(s) => s
  }

  /** The kind selected by the strict comparisons `media_type === 'image'` and
      `media_type === 'video'`; every other value, and a missing one, is Other. */
  function Kind(e: Entry): (k: MediaKind)
    ensures k == Image <==> e.mediaType == Present("image")
    ensures k == Video <==> e.mediaType == Present("video")
    ensures k.Other? ==> k.raw == Text(e.mediaType) && k.raw != "image" && k.raw != "video"
  {
    match e.mediaType
    case Present(s) =>
      if s == "image" then Image
      else if s == "video" then Video
      else Other(s)
    case Absent => Other("")
  }
}
