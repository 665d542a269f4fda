/** The canvas renderer's draw order: a doubly linked list threaded through the layers
    (frontend/lib/leaflet/1.6.0/leaflet.js, _initPath, _removePath, _bringToFront,
    _bringToBack, _draw). */
module DrawOrder {
  class Layer {
    var order: Order?

    constructor ()
      ensures order == null
    {
      order := null;
    }
  }

  class Order {
    const layer: Layer
    var prev: Order?
    var next: Order?

    constructor (layer: Layer, prev: Order?)
      ensures this.layer == layer && this.prev == prev && next == null
    {
      this.layer, this.prev, next := layer, prev, null;
    }
  }

  // ----- the sequences the list stands for -----

  function Without<T>(s: seq<T>, k: nat): (r: seq<T>)
    requires k < |s|
    ensures |r| == |s| - 1
  {
    s[..k] + s[k + 1..]
  }

  function ToEnd<T>(s: seq<T>, k: nat): seq<T>
    requires k < |s|
  {
    Without(s, k) + [s[k]]
  }

  function ToStart<T>(s: seq<T>, k: nat): seq<T>
    requires k < |s|
  {
    [s[k]] + Without(s, k)
  }

  lemma StartAtStart<T>(s: seq<T>)
    requires s != []
    ensures ToStart(s, 0) == s
  {
  }

  lemma EndAtEnd<T>(s: seq<T>)
    requires s != []
    ensures ToEnd(s, |s| - 1) == s
  {
  }

  lemma SameElements<T>(s: seq<T>, k: nat)
    requires k < |s|
    ensures forall x :: x in s <==> x in ToStart(s, k)
    ensures forall x :: x in s <==> x in ToEnd(s, k)
  {
    assert s == s[..k] + [s[k]] + s[k + 1..];
  }

  class Canvas {
    var drawFirst: Order?
    var drawLast: Order?
    /** The orders from bottom to top. */
    ghost var Nodes: seq<Order>

    ghost predicate Valid()
      reads this, Nodes, set o | o in Nodes :: o.layer
    {
      Linked() && forall o :: o in Nodes ==> o.layer.order == o
    }

    /** The pointers run through the orders in both directions. */
    ghost predicate Linked()
      reads this, Nodes
    {
      && (forall i, j :: 0 <= i < j < |Nodes| ==> Nodes[i] != Nodes[j])
      && (if Nodes == [] then drawFirst == null && drawLast == null
          else drawFirst == Nodes[0] && drawLast == Nodes[|Nodes| - 1])
      && (forall i {:trigger Nodes[i].prev} :: 0 <= i < |Nodes| ==>
            Nodes[i].prev == if i == 0 then null else Nodes[i - 1])
      && (forall i {:trigger Nodes[i].next} :: 0 <= i < |Nodes| ==>
            Nodes[i].next == if i == |Nodes| - 1 then null else Nodes[i + 1])
    }

    constructor ()
      ensures Valid() && Nodes == []
    {
      drawFirst, drawLast, Nodes := null, null, [];
    }

    /** A new entry for the layer goes on top.  Of an entry the layer has already the list keeps
        hold, and the layer no longer does. */
    method InitPath(t: Layer)
      requires Linked()
      modifies this, Nodes, t
      ensures Linked() && t.order != null && fresh(t.order) && t.order.layer == t
      ensures Nodes == old(Nodes) + [t.order]
      ensures old(Valid()) ==> (Valid() <==> forall o :: o in old(Nodes) ==> o.layer != t)
    {
      var i := new Order(t, drawLast);
      t.order := i;
      if drawLast != null {
        drawLast.next := i;
      }
      drawLast := i;
      drawFirst := if drawFirst != null then drawFirst else drawLast;
      Nodes := Nodes + [i];
    }

    /** Takes the order at position `k` out of the chain. */
    method Unlink(i: Order, ghost k: nat)
      requires Linked() && k < |Nodes| && Nodes[k] == i
      modifies this, Nodes
      ensures Linked() && Nodes == Without(old(Nodes), k) == old(Nodes)[..k] + old(Nodes)[k + 1..]
    {
      var e, n := i.next, i.prev;
      if e != null {
        e.prev := n;
      } else {
        drawLast := n;
      }
      if n != null {
        n.next := e;
      } else {
        drawFirst := e;
      }
      Nodes := Without(Nodes, k);
    }

    method RemovePath(t: Layer, ghost k: nat)
      requires Linked() && k < |Nodes| && Nodes[k] == t.order
      modifies this, Nodes, t
      ensures Linked() && (old(Valid()) ==> Valid())
      ensures t.order == null && Nodes == old(Nodes)[..k] + old(Nodes)[k + 1..]
    {
      Unlink(t.order, k);
      t.order := null;
    }

    /** Puts an unlinked order behind the last one. */
    method LinkLast(i: Order)
      requires Linked() && Nodes != [] && i !in Nodes
      modifies this, Nodes, i
      ensures Linked() && Nodes == old(Nodes) + [i]
    {
      i.prev := drawLast;
      drawLast.next := i;
      i.next := null;
      drawLast := i;
      Nodes := Nodes + [i];
    }

    /** Puts an unlinked order before the first one. */
    method LinkFirst(i: Order)
      requires Linked() && Nodes != [] && i !in Nodes
      modifies this, Nodes, i
      ensures Linked() && Nodes == [i] + old(Nodes)
    {
      i.prev := null;
      i.next := drawFirst;
      drawFirst.prev := i;
      drawFirst := i;
      Nodes := [i] + Nodes;
    }

    /** Drawn last, hence on top; `k` is the layer's position if it has one. */
    method BringToFront(t: Layer, ghost k: nat)
      requires Linked() && (t.order != null ==> k < |Nodes| && Nodes[k] == t.order)
      modifies this, Nodes
      ensures Linked() && (old(Valid()) ==> Valid())
      ensures t.order == null ==> Nodes == old(Nodes)
      ensures t.order != null ==>
                && Nodes == ToEnd(old(Nodes), k) && drawLast == t.order == Nodes[|Nodes| - 1]
                && Nodes[..|Nodes| - 1] == old(Nodes)[..k] + old(Nodes)[k + 1..]
    {
      var i := t.order;
      if i != null {
        SameElements(Nodes, k);
        if i.next != null {
          Unlink(i, k);
          LinkLast(i);
        } else {
          assert k == |Nodes| - 1;
          EndAtEnd(Nodes);
        }
      }
    }

    /** Drawn first, hence at the bottom. */
    method BringToBack(t: Layer, ghost k: nat)
      requires Linked() && (t.order != null ==> k < |Nodes| && Nodes[k] == t.order)
      modifies this, Nodes
      ensures Linked() && (old(Valid()) ==> Valid())
      ensures t.order == null ==> Nodes == old(Nodes)
      ensures t.order != null ==>
                && Nodes == ToStart(old(Nodes), k) && drawFirst == t.order == Nodes[0]
                && Nodes[1..] == old(Nodes)[..k] + old(Nodes)[k + 1..]
    {
      var i := t.order;
      if i != null {
        SameElements(Nodes, k);
        if i.prev != null {
          Unlink(i, k);
          LinkFirst(i);
        } else {
          assert k == 0;
          StartAtStart(Nodes);
        }
      }
    }

    /** Redrawing follows the list from bottom to top, skipping layers clear of the redraw bounds. */
    method Draw(bounded: bool, touched: set<Layer>) returns (drawn: seq<Layer>, ghost at: seq<nat>)
      requires Linked()
      ensures drawn == LayersOf(Nodes, bounded, touched)
      ensures DrawnAt(Nodes, bounded, touched, drawn, at)
    {
      drawn := [];
      var n := drawFirst;
      ghost var k := 0;
      while n != null
        invariant 0 <= k <= |Nodes| && n == (if k == |Nodes| then null else Nodes[k])
        invariant drawn == LayersOf(Nodes[..k], bounded, touched)
        decreases |Nodes| - k
      {
        assert Nodes[..k + 1][..k] == Nodes[..k];
        if !bounded || n.layer in touched {
          drawn := drawn + [n.layer];
        }
        assert n == Nodes[k];
        n := n.next;
        k := k + 1;
      }
      assert Nodes[..k] == Nodes;
      at := DrawsInOrder(Nodes, bounded, touched);
    }
  }

  function LayersOf(nodes: seq<Order>, bounded: bool, touched: set<Layer>): seq<Layer> {
    if nodes == [] then []
    else
      var l := nodes[|nodes| - 1].layer;
      LayersOf(nodes[..|nodes| - 1], bounded, touched) + if !bounded || l in touched then [l] else []
  }

  /** `at` are the positions of `nodes`, from bottom to top, whose layers are `drawn`. */
  ghost predicate DrawnAt(nodes: seq<Order>, bounded: bool, touched: set<Layer>, drawn: seq<Layer>, at: seq<nat>) {
    && |at| == |drawn|
    && (forall i :: 0 <= i < |at| ==> at[i] < |nodes| && nodes[at[i]].layer == drawn[i])
    && (forall i, j :: 0 <= i < j < |at| ==> at[i] < at[j])
    && (forall k :: 0 <= k < |nodes| ==> (k in at <==> !bounded || nodes[k].layer in touched))
  }

  lemma DrawnNext(nodes: seq<Order>, bounded: bool, touched: set<Layer>, drawn: seq<Layer>, at: seq<nat>, o: Order)
    requires DrawnAt(nodes, bounded, touched, drawn, at)
    ensures if !bounded || o.layer in touched then
              DrawnAt(nodes + [o], bounded, touched, drawn + [o.layer], at + [|nodes|])
            else DrawnAt(nodes + [o], bounded, touched, drawn, at)
  {
    assert forall k :: k in at + [|nodes|] <==> k in at || k == |nodes|;
  }

  /** What is drawn are the layers to draw, each once, from bottom to top. */
  lemma {:induction false} DrawsInOrder(nodes: seq<Order>, bounded: bool, touched: set<Layer>) returns (at: seq<nat>)
    ensures DrawnAt(nodes, bounded, touched, LayersOf(nodes, bounded, touched), at)
  {
    if nodes == [] {
      at := [];
    } else {
      var init, o := nodes[..|nodes| - 1], nodes[|nodes| - 1];
      var before := DrawsInOrder(init, bounded, touched);
      DrawnNext(init, bounded, touched, LayersOf(init, bounded, touched), before, o);
      assert nodes == init + [o];
      if !bounded || o.layer in touched {
        at := before + [|init|];
      } else {
        at := before;
      }
    }
  }

  ghost predicate Precedes<T>(s: seq<T>, x: T, y: T) {
    exists i, j :: 0 <= i < j < |s| && s[i] == x && s[j] == y
  }

  /** Moving an element keeps the elements, and leaves any two others in the order they had. */
  lemma MovesKeepOrder<T>(s: seq<T>, k: nat, x: T, y: T)
    requires k < |s| && x != s[k] && y != s[k]
    ensures multiset(ToEnd(s, k)) == multiset(s) == multiset(ToStart(s, k))
    ensures Precedes(ToEnd(s, k), x, y) <==> Precedes(s, x, y)
    ensures Precedes(ToStart(s, k), x, y) <==> Precedes(s, x, y)
    ensures Precedes(Without(s, k), x, y) <==> Precedes(s, x, y)
  {
    MultisetMoves(s, k);
    WithoutKeepsOrder(s, k, x, y);
    var rest := Without(s, k);
    if Precedes(ToEnd(s, k), x, y) {
      var i, j :| 0 <= i < j < |s| && ToEnd(s, k)[i] == x && ToEnd(s, k)[j] == y;
      assert rest[i] == x && rest[j] == y;
    }
    if Precedes(ToStart(s, k), x, y) {
      var i, j :| 0 <= i < j < |s| && ToStart(s, k)[i] == x && ToStart(s, k)[j] == y;
      assert rest[i - 1] == x && rest[j - 1] == y;
    }
    if Precedes(rest, x, y) {
      var i, j :| 0 <= i < j < |rest| && rest[i] == x && rest[j] == y;
      assert ToEnd(s, k)[i] == x && ToEnd(s, k)[j] == y;
      assert ToStart(s, k)[i + 1] == x && ToStart(s, k)[j + 1] == y;
    }
  }

  lemma MultisetMoves<T>(s: seq<T>, k: nat)
    requires k < |s|
    ensures multiset(ToEnd(s, k)) == multiset(s) == multiset(ToStart(s, k))
  {
    assert s == s[..k] + [s[k]] + s[k + 1..];
  }

  lemma WithoutKeepsOrder<T>(s: seq<T>, k: nat, x: T, y: T)
    requires k < |s| && x != s[k] && y != s[k]
    ensures Precedes(Without(s, k), x, y) <==> Precedes(s, x, y)
  {
    var rest := Without(s, k);
    if Precedes(s, x, y) {
      var i, j :| 0 <= i < j < |s| && s[i] == x && s[j] == y;
      assert rest[if i < k then i else i - 1] == x && rest[if j < k then j else j - 1] == y;
    }
    if Precedes(rest, x, y) {
      var i, j :| 0 <= i < j < |rest| && rest[i] == x && rest[j] == y;
      assert s[if i < k then i else i + 1] == x && s[if j < k then j else j + 1] == y;
    }
  }
}
