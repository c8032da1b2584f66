/** The modal's life on the page (`openModal`, `doClose`, `escHandler`): the
    backdrops mounted in the document body, the document-level `keydown`
    listeners, and `body.style.overflow`. Each `openModal` call creates its
    own backdrop and its own `escHandler`; both are identified here by the
    number of the call that created them. */
module Lifecycle {
  import opened Feed
  import opened Cards
  import opened ModalView

  /** A mounted overlay, made by the `openModal` call numbered `id`. */
  datatype Backdrop = Backdrop(id: nat, modal: Modal)

  /** Where a click inside the overlay lands: on the backdrop itself, or on
      the modal panel (or anything inside it). */
  datatype ClickTarget = OnBackdrop | OnPanel

  /** The document state the modal touches. `listeners` holds the numbers of
      the `escHandler`s registered for `keydown`. */
  datatype PageState = PageState(mounted: seq<Backdrop>, listeners: set<nat>, overflow: string, nextId: nat)

  const Hidden := "hidden"

  /** The numbers of the mounted backdrops. */
  function Ids(bs: seq<Backdrop>): (ids: set<nat>)
    ensures forall b :: b in bs ==> b.id in ids
    ensures forall id :: id in ids ==> exists b :: b in bs && b.id == id
  {
    set b | b in bs :: b.id
  }

  /** Every registered listener belongs to a mounted backdrop and every
      mounted backdrop has its listener; backdrops are distinct and numbered
      below the next call's number. */
  ghost predicate Balanced(p: PageState) {
    && Distinct(p.mounted)
    && (forall b :: b in p.mounted ==> b.id < p.nextId)
    && Ids(p.mounted) == p.listeners
  }

  /** `backdrop.remove()` for every backdrop numbered in `ids`. */
  function Unmount(bs: seq<Backdrop>, ids: set<nat>): (r: seq<Backdrop>)
    ensures |r| <= |bs|
    ensures forall b :: b in r <==> b in bs && b.id !in ids
  {
    if bs == [] then []
    else if bs[0].id in ids then Unmount(bs[1..], ids)
    else [bs[0]] + Unmount(bs[1..], ids)
  }

  /** `openModal(e)`: one more backdrop at the end of the body, one more
      listener, and the page scroll suppressed. */
  function Open(p: PageState, e: Entry): (q: PageState)
    ensures q.overflow == Hidden && q.nextId == p.nextId + 1
    ensures q.mounted == p.mounted + [Backdrop(p.nextId, BuildModal(e))]
    ensures q.listeners == p.listeners + {p.nextId}
    ensures Balanced(p) ==> Balanced(q) && |q.listeners| == |p.listeners| + 1
  {
    var b := Backdrop(p.nextId, BuildModal(e));
    MountFresh(p, b);
    PageState(p.mounted + [b], p.listeners + {p.nextId}, Hidden, p.nextId + 1)
  }

  /** Mounting a backdrop with the next number, and registering its listener,
      keeps a balanced page balanced. */
  lemma MountFresh(p: PageState, b: Backdrop)
    requires b.id == p.nextId
    ensures Balanced(p) ==>
      (p.nextId !in p.listeners &&
       Balanced(PageState(p.mounted + [b], p.listeners + {p.nextId}, Hidden, p.nextId + 1)))
  {
    if Balanced(p) {
      var m := p.mounted + [b];
      forall i, j | 0 <= i < j < |m| ensures m[i].id != m[j].id {
        if j == |p.mounted| {
          assert m[i] in p.mounted;
        }
      }
      assert Ids(m) == Ids(p.mounted) + {b.id};
    }
  }

  /** `doClose` of the modal numbered `id`: the overflow is reset to '',
      that backdrop is removed and that listener deregistered. Removing what
      is already gone does nothing. */
  function Close(p: PageState, id: nat): (q: PageState)
    ensures q.overflow == "" && q.nextId == p.nextId
    ensures id !in q.listeners && id !in Ids(q.mounted)
    ensures forall b :: b in q.mounted <==> b in p.mounted && b.id != id
    ensures q.listeners == p.listeners - {id}
    ensures Balanced(p) ==> Balanced(q)
  {
    var q := p.(mounted := Unmount(p.mounted, {id}), listeners := p.listeners - {id}, overflow := "");
    UnmountDistinct(p.mounted, {id});
    q
  }

  /** Every `escHandler` in `ids` running its `doClose`. */
  function CloseAll(p: PageState, ids: set<nat>): (q: PageState)
    ensures q.nextId == p.nextId && q.listeners == p.listeners - ids
    ensures forall b :: b in q.mounted <==> b in p.mounted && b.id !in ids
    ensures q.overflow == if ids == {} then p.overflow else ""
    ensures Balanced(p) ==> Balanced(q)
  {
    UnmountDistinct(p.mounted, ids);
    p.(mounted := Unmount(p.mounted, ids), listeners := p.listeners - ids,
       overflow := if ids == {} then p.overflow else "")
  }

  /** A `keydown` on the document reaches every registered `escHandler`;
      each one closes its own modal on Escape and ignores every other key. */
  function KeyDown(p: PageState, key: string): (q: PageState)
    ensures key != "Escape" ==> q == p
    ensures key == "Escape" ==> q == CloseAll(p, p.listeners)
    ensures key == "Escape" ==> q.listeners == {} && q.nextId == p.nextId
    ensures key == "Escape" ==> q.overflow == if p.listeners == {} then p.overflow else ""
    ensures key == "Escape" && Balanced(p) ==> q.mounted == [] && Balanced(q)
    ensures key == "Escape" && Balanced(p) && p.listeners == {} ==> q == p
  {
    if key == "Escape" then
      UnmountAll(p.mounted, p.listeners);
      CloseAll(p, p.listeners)
    else p
  }

  /** The backdrop's click handler: only a click whose target is the backdrop
      itself closes; a click on the panel changes nothing. */
  function BackdropClick(p: PageState, id: nat, target: ClickTarget): (q: PageState)
    ensures target == OnPanel ==> q == p
    ensures target == OnBackdrop ==> q == Close(p, id)
  {
    match target
    case OnBackdrop => Close(p, id)
    case OnPanel => p
  }

  /** Open and then close `n` modals in a row, one per entry of `items`. */
  function Cycles(p: PageState, items: seq<Entry>): (q: PageState)
    ensures q.nextId == p.nextId + |items|
    decreases |items|
  {
    if items == [] then p
    else Cycles(Close(Open(p, items[0]), p.nextId), items[1..])
  }

  /** Two different positions hold backdrops with different numbers. */
  ghost predicate Distinct(bs: seq<Backdrop>) {
    forall i, j :: 0 <= i < j < |bs| ==> bs[i].id != bs[j].id
  }

  lemma {:induction false} UnmountDistinct(bs: seq<Backdrop>, ids: set<nat>)
    ensures Distinct(bs) ==> Distinct(Unmount(bs, ids))
    decreases |bs|
  {
    if bs != [] && Distinct(bs) {
      UnmountDistinct(bs[1..], ids);
      var r := Unmount(bs, ids);
      if bs[0].id !in ids {
        var t := Unmount(bs[1..], ids);
        assert r == [bs[0]] + t;
        forall j | 0 <= j < |t| ensures t[j].id != bs[0].id {
          assert t[j] in bs[1..];
        }
      }
    }
  }

  /** Removing backdrops none of which is numbered in `ids` changes nothing. */
  lemma {:induction false} UnmountNone(bs: seq<Backdrop>, ids: set<nat>)
    requires forall b :: b in bs ==> b.id !in ids
    ensures Unmount(bs, ids) == bs
    decreases |bs|
  {
    if bs != [] {
      UnmountNone(bs[1..], ids);
      assert bs == [bs[0]] + bs[1..];
    }
  }

  /** Removing every listened-to backdrop of a balanced page empties it. */
  lemma UnmountAll(bs: seq<Backdrop>, ids: set<nat>)
    ensures Ids(bs) <= ids ==> Unmount(bs, ids) == []
  {
    if Unmount(bs, ids) != [] {
      assert Unmount(bs, ids)[0] in Unmount(bs, ids);
    }
  }

  lemma {:induction false} UnmountAppend(bs: seq<Backdrop>, b: Backdrop, ids: set<nat>)
    ensures Unmount(bs + [b], ids) == Unmount(bs, ids) + Unmount([b], ids)
    decreases |bs|
  {
    if bs != [] {
      UnmountAppend(bs[1..], b, ids);
      assert (bs + [b])[1..] == bs[1..] + [b];
    } else {
      assert bs + [b] == [b];
    }
  }

  lemma {:induction false} UnmountTwice(bs: seq<Backdrop>, a: set<nat>, c: set<nat>)
    ensures Unmount(Unmount(bs, a), c) == Unmount(bs, a + c)
    decreases |bs|
  {
    if bs != [] {
      UnmountTwice(bs[1..], a, c);
      if bs[0].id !in a {
        assert Unmount(bs, a) == [bs[0]] + Unmount(bs[1..], a);
        assert Unmount(bs, a)[1..] == Unmount(bs[1..], a);
      }
    }
  }

  /** Closing a modal right after opening it leaves the document as it was,
      except that the overflow is now '': no backdrop and no listener is
      left behind. */
  lemma OpenThenClose(p: PageState, e: Entry)
    requires Balanced(p)
    ensures Close(Open(p, e), p.nextId) == p.(overflow := "", nextId := p.nextId + 1)
  {
    var b := Backdrop(p.nextId, BuildModal(e));
    var o := Open(p, e);
    UnmountAppend(p.mounted, b, {p.nextId});
    UnmountNone(p.mounted, {p.nextId});
    assert Unmount([b], {p.nextId}) == [];
    assert Unmount(o.mounted, {p.nextId}) == p.mounted;
    assert o.listeners - {p.nextId} == p.listeners;
  }

  /** Calling `doClose` a second time changes nothing. */
  lemma CloseIdempotent(p: PageState, id: nat)
    ensures Close(Close(p, id), id) == Close(p, id)
  {
    UnmountTwice(p.mounted, {id}, {id});
    assert {id} + {id} == {id};
  }

  /** With a single modal open, the close button, a click on the backdrop and
      the Escape key all have the same effect. */
  lemma TriggersAgree(p: PageState, id: nat)
    requires Balanced(p) && p.listeners == {id}
    ensures BackdropClick(p, id, OnBackdrop) == KeyDown(p, "Escape") == Close(p, id)
  {
  }

  /** Escape closes every open modal at once: each registered handler closing
      its own modal in turn gives the same page as closing them all. */
  lemma CloseOneMore(p: PageState, done: set<nat>, id: nat)
    ensures Close(CloseAll(p, done), id) == CloseAll(p, done + {id})
  {
    UnmountTwice(p.mounted, done, {id});
  }

  /** `doClose` resets the overflow unconditionally: with two modals open,
      closing the newer one re-enables page scroll while the older one is
      still mounted. */
  lemma CloseUnderAnotherModal(p: PageState, older: Entry, newer: Entry)
    requires Balanced(p)
    ensures var q := Close(Open(Open(p, older), newer), p.nextId + 1);
      q.overflow == "" && q.mounted == p.mounted + [Backdrop(p.nextId, BuildModal(older))] &&
      q.listeners == p.listeners + {p.nextId}
  {
    OpenThenClose(Open(p, older), newer);
  }

  /** Any number of open/close cycles leaves the mounted backdrops and the
      registered listeners exactly as they were: no listener leaks. */
  lemma {:induction false} CyclesBalanced(p: PageState, items: seq<Entry>)
    requires Balanced(p)
    ensures Cycles(p, items).mounted == p.mounted
    ensures Cycles(p, items).listeners == p.listeners
    ensures items != [] ==> Cycles(p, items).overflow == ""
    decreases |items|
  {
    if items != [] {
      var q := Close(Open(p, items[0]), p.nextId);
      OpenThenClose(p, items[0]);
      CyclesBalanced(q, items[1..]);
    }
  }

  /** The document: the body's mounted backdrops, the `keydown` listeners and
      the body's overflow style. */
  class Document {
    var mounted: seq<Backdrop>
    var listeners: set<nat>
    var overflow: string
    var nextId: nat

    function State(): PageState
      reads this
    {
      PageState(mounted, listeners, overflow, nextId)
    }

    ghost predicate Valid()
      reads this
    {
      Balanced(State())
    }

    /** A page with no modal yet and the given initial overflow style. */
    constructor (initialOverflow: string)
      ensures Valid()
      ensures State() == PageState([], {}, initialOverflow, 0)
    {
      mounted, listeners, overflow, nextId := [], {}, initialOverflow, 0;
    }

    /** `openModal(e)`: returns the number of the new backdrop. */
    method OpenModal(e: Entry) returns (id: nat)
      modifies this
      ensures State() == Open(old(State()), e)
      ensures id == old(nextId) && mounted[|mounted| - 1] == Backdrop(id, BuildModal(e))
      ensures old(Valid()) ==> Valid()
    {
      id := nextId;
      nextId := nextId + 1;
      listeners := listeners + {id};
      mounted := mounted + [Backdrop(id, BuildModal(e))];
      overflow := Hidden;
    }

    /** `doClose` of the modal numbered `id`. */
    method DoClose(id: nat)
      modifies this
      ensures State() == Close(old(State()), id)
      ensures old(Valid()) ==> Valid()
    {
      overflow := "";
      mounted := Unmount(mounted, {id});
      listeners := listeners - {id};
    }

    /** A click on the close button of the modal numbered `id`. */
    method CloseButtonClick(id: nat)
      modifies this
      ensures State() == Close(old(State()), id)
      ensures old(Valid()) ==> Valid()
    {
      DoClose(id);
    }

    /** A click inside the overlay of the modal numbered `id`. */
    method OverlayClick(id: nat, target: ClickTarget)
      modifies this
      ensures State() == BackdropClick(old(State()), id, target)
      ensures old(Valid()) ==> Valid()
    {
      if target == OnBackdrop {
        DoClose(id);
      }
    }

    /** A `keydown` on the document: each registered `escHandler` is called in
        turn, and each closes its own modal when the key is Escape. */
    method KeyDownEvent(key: string)
      modifies this
      ensures State() == KeyDown(old(State()), key)
      ensures old(Valid()) ==> Valid()
    {
      var pending := listeners;
      ghost var done: set<nat> := {};
      UnmountNone(mounted, done);
      while pending != {}
        invariant pending !! done && pending + done == old(listeners)
        invariant key == "Escape" ==> State() == CloseAll(old(State()), done)
        invariant key != "Escape" ==> State() == old(State())
        decreases pending
      {
        var handler :| handler in pending;
        if key == "Escape" {
          CloseOneMore(old(State()), done, handler);
          DoClose(handler);
        }
        pending := pending - {handler};
        done := done + {handler};
      }
    }

    /** A click, Enter or Space on a card calls `openModal` once with the
        card's entry; any other key does nothing. */
    method CardActivated(c: Card, ev: CardEvent)
      modifies this
      ensures State() == if |ActivationCalls(c, ev)| == 1 then Open(old(State()), c.item) else old(State())
      ensures old(Valid()) ==> Valid()
    {
      var calls := ActivationCalls(c, ev);
      if |calls| == 1 {
        var _ := OpenModal(calls[0]);
      }
    }
  }
}
