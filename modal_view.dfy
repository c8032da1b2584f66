/** What `openModal` puts in the overlay for one entry: the header, the body
    media chosen from the media kind, the explanation with its fallback, and
    the link the "Open Source" button opens. */
module ModalView {
  import opened Feed

  /** The element placed first in the modal body. */
  datatype ModalMedia =
    | ModalImage(src: string)  // an <img>
    | Iframe(src: string)      // an embedded frame
    | MediaUnavailable         // the "Media unavailable" panel

  datatype Modal = Modal(item: Entry, title: string, date: string, media: ModalMedia, explanation: string)

  const NoExplanation := "No explanation provided."

  /** The body media: an image shows `hdurl || url`; a video with a non-empty
      `url` is embedded; everything else gets the unavailable panel, so the
      body is never left without a media element. */
  function SelectMedia(e: Entry): (m: ModalMedia)
    ensures m.ModalImage? <==> Kind(e) == Image
    ensures m.ModalImage? ==> m.src == Show(if Truthy(e.hdurl) then e.hdurl else e.url)
    ensures m.Iframe? <==> Kind(e) == Video && Truthy(e.url)
    ensures m.Iframe? ==> m.src == e.url.s && m.src != ""
    ensures m == MediaUnavailable <==> Kind(e).Other? || (Kind(e) == Video && !Truthy(e.url))
  {
    if Kind(e) == Image then ModalImage(Show(Or(e.hdurl, e.url)))
    else if Kind(e) == Video && Truthy(e.url) then Iframe(Text(e.url))
    else MediaUnavailable
  }

  /** `explanation || 'No explanation provided.'`: an empty explanation counts
      as missing. */
  function Explanation(e: Entry): (t: string)
    ensures t != ""
    ensures Truthy(e.explanation) ==> t == e.explanation.s
    ensures !Truthy(e.explanation) ==> t == NoExplanation
  {
    Text(Or(e.explanation, Present(NoExplanation)))
  }

  /** The "Open Source" click: the link is `hdurl || url` for an image and
      `url` otherwise, and a window is opened only when it is non-empty.
      `None` stands for the click doing nothing. For an image with a usable
      link and for every video, the link is the very resource the modal
      shows. */
  function SourceLink(e: Entry): (r: Option<string>)
    ensures r.Some? ==> r.value != ""
    ensures Kind(e) == Image ==> (r.Some? <==> Truthy(e.hdurl) || Truthy(e.url))
    ensures Kind(e) != Image ==> (r.Some? <==> Truthy(e.url))
    ensures Kind(e) != Image && r.Some? ==> r.value == e.url.s
    ensures Kind(e) == Image && r.Some? ==> SelectMedia(e) == ModalImage(r.value)
    ensures Kind(e) == Video ==> (r.Some? <==> SelectMedia(e).Iframe?)
    ensures Kind(e) == Video && r.Some? ==> SelectMedia(e) == Iframe(r.value)
  {
    var link := if Kind(e) == Image then Or(e.hdurl, e.url) else e.url;
    if Truthy(link) then Some(Text(link)) else None
  }

  /** The overlay built for `e`. */
  function BuildModal(e: Entry): (m: Modal)
    ensures m.item == e
    ensures m.media == SelectMedia(e) && m.explanation == Explanation(e)
    ensures m.title == Show(e.title) && m.date == Show(e.date)
  {
    Modal(e, Show(e.title), Show(e.date), SelectMedia(e), Explanation(e))
  }
}
