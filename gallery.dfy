/** The gallery container (`renderGallery`, `showLoading`): its children are
    replaced wholesale, either by the "No entries found." placeholder or by
    one card per entry, newest-first. */
module Gallery {
  import opened Feed
  import opened DateOrder
  import opened Cards

  /** What `renderGallery` receives, as a value: the parsed JSON, which may
      not be an array. */
  datatype FeedData = NotArray | Array(entries: seq<Entry>)

  /** The value of a JavaScript array reference, `null` standing for any
      value that is not an array. */
  ghost function Received(data: array?<Entry>): (d: FeedData)
    reads data
    ensures d.NotArray? <==> data == null
  {
    if data == null then NotArray else Array(data[..])
  }

  /** A child of the gallery container. */
  datatype Node =
    | Loading(message: string)
    | Placeholder(message: string)
    | CardNode(card: Card)

  const NoEntries := "No entries found."
  const DefaultLoading := "🔄 Loading space photos…"

  /** One card per entry, in the order given. */
  function CardsOf(items: seq<Entry>): (nodes: seq<Node>)
    ensures |nodes| == |items|
    ensures forall i :: 0 <= i < |items| ==> nodes[i] == CardNode(CreateCard(items[i]))
  {
    seq(|items|, i requires 0 <= i < |items| => CardNode(CreateCard(items[i])))
  }

  /** The entries shown by the cards among `nodes`, in order. */
  function Items(nodes: seq<Node>): (items: seq<Entry>)
    ensures |items| <= |nodes|
  {
    if nodes == [] then []
    else if nodes[0].CardNode? then [nodes[0].card.item] + Items(nodes[1..])
    else Items(nodes[1..])
  }

  /** The container's children after `renderGallery(root, data)`: exactly
      the placeholder when the input is not an array or is empty, and
      otherwise exactly one card per entry and nothing else. */
  function RenderView(data: FeedData): (nodes: seq<Node>)
    ensures nodes == [Placeholder(NoEntries)] <==> data.NotArray? || data.entries == []
    ensures data.Array? && data.entries != [] ==>
      |nodes| == |data.entries| && forall i :: 0 <= i < |nodes| ==> nodes[i].CardNode?
  {
    if data.NotArray? || data.entries == [] then [Placeholder(NoEntries)]
    else
      var cards := CardsOf(SortByDate(data.entries));
      assert cards[0].CardNode?;
      cards
  }

  lemma {:induction false} ItemsOfCards(items: seq<Entry>)
    ensures Items(CardsOf(items)) == items
    decreases |items|
  {
    if items != [] {
      ItemsOfCards(items[1..]);
      assert CardsOf(items)[1..] == CardsOf(items[1..]);
    }
  }

  /** The cards of a non-empty render show the input entries rearranged and
      nothing more: newest-first, equal dates in input order, a permutation of
      the input, with undated entries last. */
  lemma RenderOrder(entries: seq<Entry>)
    requires entries != []
    ensures Items(RenderView(Array(entries))) == SortByDate(entries)
    ensures multiset(Items(RenderView(Array(entries)))) == multiset(entries)
    ensures SortedDesc(Items(RenderView(Array(entries))))
    ensures KeepsTies(Items(RenderView(Array(entries))), entries)
  {
    ItemsOfCards(SortByDate(entries));
    SortByDateSorted(entries);
    SortByDateKeepsTies(entries);
  }

  /** `items.forEach(item => frag.appendChild(createCard(item)))`: a document
      fragment holding one card per item, in order. */
  method BuildFragment(items: seq<Entry>) returns (frag: seq<Node>)
    ensures frag == CardsOf(items)
  {
    frag := [];
    var i := 0;
    while i < |items|
      invariant 0 <= i <= |items|
      invariant frag == CardsOf(items[..i])
    {
      CardsOfSnoc(items, i);
      frag := frag + [CardNode(CreateCard(items[i]))];
      i := i + 1;
    }
    assert items[..i] == items;
  }

  lemma CardsOfSnoc(items: seq<Entry>, i: nat)
    requires i < |items|
    ensures CardsOf(items[..i + 1]) == CardsOf(items[..i]) + [CardNode(CreateCard(items[i]))]
  {
    var a, b := CardsOf(items[..i + 1]), CardsOf(items[..i]) + [CardNode(CreateCard(items[i]))];
    assert |a| == |b|;
    forall j | 0 <= j < |a| ensures a[j] == b[j] {
      if j < i {
        assert items[..i + 1][j] == items[..i][j];
      }
    }
  }

  /** A gallery container element and its children. */
  class Container {
    var children: seq<Node>

    constructor ()
      ensures children == []
    {
      children := [];
    }

    /** `showLoading`: the children become one loading node with `msg`. */
    method ShowLoading(msg: string)
      modifies this
      ensures children == [Loading(msg)]
    {
      children := [Loading(msg)];
    }

    /** `showLoading(gallery)` with the default message, as the fetch
        button's handler calls it. */
    method ShowDefaultLoading()
      modifies this
      ensures children == [Loading(DefaultLoading)]
    {
      ShowLoading(DefaultLoading);
    }

    /** `renderGallery`: the previous children are dropped and the new ones
        are the placeholder or the cards of a sorted copy, appended one at a
        time; the caller's array keeps its order. */
    method RenderGallery(data: array?<Entry>)
      modifies this
      ensures children == RenderView(Received(data))
      ensures data != null ==> data[..] == old(data[..])
    {
      children := [];
      if data == null || data.Length == 0 {
        children := [Placeholder(NoEntries)];
        return;
      }
      var copy := data[..];
      var frag := BuildFragment(SortByDate(copy));
      children := children + frag;
    }
  }
}
