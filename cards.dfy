/** One gallery card per entry (`createCard`): the preview chosen from the
    entry's media kind, the caption and accessible label, and the activation
    rule that hands the card's own entry to the modal. */
module Cards {
  import opened Feed

  /** The card's media preview. */
  datatype Preview =
    | ZoomImage(src: string)   // a lazily loaded zoomable image
    | VideoPlaceholder         // the "▶ Video" panel, no image request
    | Unsupported              // the "Unsupported media" panel

  datatype Card = Card(item: Entry, ariaLabel: string, preview: Preview, captionTitle: string, captionDate: string)

  /** The two events a card listens for: `click`, and `keypress` with its key. */
  datatype CardEvent = Click | KeyPress(key: string)

  /** The preview dispatch: an image shows `url`; a video shows its thumbnail
      when `thumbnail_url` is non-empty and the "▶ Video" panel otherwise;
      every other media type is unsupported. */
  function SelectPreview(e: Entry): (p: Preview)
    ensures Kind(e) == Image ==> p == ZoomImage(Show(e.url))
    ensures Kind(e) == Video && Truthy(e.thumbnailUrl) ==> p == ZoomImage(Text(e.thumbnailUrl))
    ensures Kind(e) == Video && !Truthy(e.thumbnailUrl) ==> p == VideoPlaceholder
    ensures Kind(e).Other? ==> p == Unsupported
    ensures p.ZoomImage? <==> Kind(e) == Image || (Kind(e) == Video && Truthy(e.thumbnailUrl))
    ensures p == VideoPlaceholder <==> Kind(e) == Video && !Truthy(e.thumbnailUrl)
    ensures p == Unsupported <==> Kind(e).Other?
  {
    match Kind(e)
    case Image => ZoomImage(Show(e.url))
    case Video =>
      var thumb := Text(e.thumbnailUrl);
      if thumb != "" then ZoomImage(thumb) else VideoPlaceholder
    case Other(_) => Unsupported
  }

  /** The `aria-label` "Open <title> from <date>". */
  function AriaLabel(e: Entry): (s: string)
    ensures |s| == |Show(e.title)| + |Show(e.date)| + 11
    ensures s[..5] == "Open " && s[5..5 + |Show(e.title)|] == Show(e.title)
    ensures s[|s| - |Show(e.date)| - 6..|s| - |Show(e.date)|] == " from "
    ensures s[|s| - |Show(e.date)|..] == Show(e.date)
  {
    "Open " + Show(e.title) + " from " + Show(e.date)
  }

  function CreateCard(e: Entry): (c: Card)
    ensures c.item == e
    ensures c.ariaLabel == AriaLabel(e)
    ensures c.preview == SelectPreview(e)
    ensures c.captionTitle == Show(e.title) && c.captionDate == Show(e.date)
  {
    Card(e, AriaLabel(e), SelectPreview(e), Show(e.title), Show(e.date))
  }

  /** The keys for which the card's `keypress` handler opens the modal. */
  predicate ActivatesCard(key: string) {
    key == "Enter" || key == " "
  }

  /** The `openModal` calls one event on card `c` makes: a click, Enter or
      Space makes exactly one, with the card's own entry; other keys none. */
  function ActivationCalls(c: Card, ev: CardEvent): (calls: seq<Entry>)
    ensures |calls| <= 1
    ensures forall x :: x in calls ==> x == c.item
    ensures |calls| == 1 <==> ev == Click || (ev.KeyPress? && ActivatesCard(ev.key))
  {
    match ev
    case Click => [c.item]
    case KeyPress(key) => if ActivatesCard(key) then [c.item] else []
  }
}
