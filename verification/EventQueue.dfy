/** The event queue of platform/audio_event_queue.c: two intrusive doubly linked lists that share
    one pool of nodes, and a diagnostic record beside them. */
module AudioEventQueue {
  import opened Agenda

  const AL_EVTQ_END := 0x7fff_ffff
  const EMPTY_EVENT := -1
  const AL_USEC_PER_FRAME := 16000
  const U32_MAX := 0xffff_ffff
  const S32_MAX := 0x7fff_ffff

  /** A counter that stops at the largest unsigned 32-bit value. */
  function Saturated(n: int): int {
    if n == U32_MAX then n else n + 1
  }

  /** A list node. The two list headers are nodes whose `delta` and `evt` nobody reads. */
  class Link {
    var next: Link?
    var prev: Link?
    var delta: int
    var evt: Event

    constructor ()
      ensures next == null && prev == null
    {
      next, prev, delta, evt := null, null, 0, Event(0, 0, 0);
    }
  }

  ghost function LinkFrame(element: Link?, after: Link?): set<object>
    reads after
  {
    if element == null || after == null then {}
    else {element, after} + if after.next == null then {} else {after.next}
  }

  ghost function UnlinkFrame(element: Link?): set<object>
    reads element
  {
    if element == null then {}
    else (if element.next == null then {} else {element.next}) +
         (if element.prev == null then {} else {element.prev})
  }

  /** Links `element` in behind `after`. */
  method AlLink(element: Link?, after: Link?)
    modifies LinkFrame(element, after)
    ensures element != null && after != null && element != after && old(after.next) !in {element, after} ==>
      && after.next == element && element.prev == after && element.next == old(after.next)
      && after.prev == old(after.prev)
      && (element.next != null ==> element.next.prev == element && element.next.next == old(after.next.next))
    ensures forall n: Link :: n in old(LinkFrame(element, after)) ==> n.delta == old(n.delta) && n.evt == old(n.evt)
  {
    if element == null || after == null {
      return;
    }
    element.next := after.next;
    element.prev := after;
    if after.next != null {
      after.next.prev := element;
    }
    after.next := element;
  }

  /** Takes `element` out; its own links keep their old values. */
  method AlUnlink(element: Link?)
    modifies UnlinkFrame(element)
    ensures element != null && element !in {old(element.next), old(element.prev)} &&
            (old(element.next) == null || old(element.next) != old(element.prev)) ==>
      && element.next == old(element.next) && element.prev == old(element.prev)
      && (element.next != null ==> element.next.prev == element.prev && element.next.next == old(element.next.next))
      && (element.prev != null ==> element.prev.next == element.next && element.prev.prev == old(element.prev.prev))
    ensures forall n: Link :: n in old(UnlinkFrame(element)) ==> n.delta == old(n.delta) && n.evt == old(n.evt)
  {
    if element == null {
      return;
    }
    if element.next != null {
      element.next.prev := element.prev;
    }
    if element.prev != null {
      element.prev.next := element.next;
    }
  }

  ghost predicate Distinct(c: seq<Link>) {
    forall i, j :: 0 <= i < j < |c| ==> c[i] != c[j]
  }

  /** `c` is a list header followed by exactly the nodes that hang off it, linked both ways;
      `own` is the set of these nodes. */
  ghost predicate Chained(c: seq<Link>, own: set<Link>)
    reads own
  {
    && |c| >= 1 && Distinct(c)
    && (forall i :: 0 <= i < |c| ==> c[i] in own)
    && |own| == |c|
    && (forall i :: 0 <= i < |c| - 1 ==> c[i].next == c[i + 1])
    && c[|c| - 1].next == null
    && (forall i :: 1 <= i < |c| ==> c[i].prev == c[i - 1])
  }

  function With(s: seq<Link>, k: nat, n: Link): (r: seq<Link>)
    requires k <= |s|
    ensures |r| == |s| + 1
    ensures forall i {:trigger r[i]} :: 0 <= i < |r| ==> r[i] == if i < k then s[i] else if i == k then n else s[i - 1]
  {
    s[..k] + [n] + s[k..]
  }

  function Without(s: seq<Link>, k: nat): (r: seq<Link>)
    requires k < |s|
    ensures |r| == |s| - 1
    ensures forall i {:trigger r[i]} :: 0 <= i < |r| ==> r[i] == if i < k then s[i] else s[i + 1]
  {
    s[..k] + s[k + 1..]
  }

  /** `pool` is the set of the nodes in `items`, which are all different. */
  ghost predicate Holds(pool: set<Link>, items: seq<Link>) {
    Distinct(items) && |pool| == |items| && forall i :: 0 <= i < |items| ==> items[i] in pool
  }

  lemma {:induction false} SubsetOfSameSize(a: set<Link>, b: set<Link>)
    requires a <= b && |a| == |b|
    ensures a == b
  {
    assert |b - a| == |b| - |a|;
  }

  lemma {:induction false} SetOfSameSize(c: seq<Link>, own: set<Link>)
    requires Distinct(c) && |own| == |c| && forall i :: 0 <= i < |c| ==> c[i] in own
    ensures forall n :: n in own <==> n in c
  {
    if c == [] {
      assert own == {};
    } else {
      var last := |c| - 1;
      SetOfSameSize(c[..last], own - {c[last]});
      assert c == c[..last] + [c[last]];
    }
  }

  lemma WithHead(s: seq<Link>, k: nat, n: Link)
    requires 0 < k <= |s|
    ensures With(s, k, n)[0] == s[0]
  {}

  lemma WithoutHead(s: seq<Link>, k: nat)
    requires 0 < k < |s|
    ensures Without(s, k)[0] == s[0]
  {}

  /** `AlLink` behind the node at position `k` of a chain. */
  method LinkAt(ghost c: seq<Link>, ghost own: set<Link>, ghost k: nat, n: Link, after: Link)
    requires Chained(c, own) && k < |c| && after == c[k] && n !in own
    modifies own, n
    ensures Chained(With(c, k + 1, n), own + {n})
    ensures forall m: Link :: m == n || m in own ==> m.delta == old(m.delta) && m.evt == old(m.evt)
  {
    assert k + 1 < |c| ==> after.next == c[k + 1];
    AlLink(n, after);
    assert Distinct(With(c, k + 1, n));
  }

  /** `AlUnlink` of the node at position `k` of a chain. */
  method UnlinkAt(ghost c: seq<Link>, ghost own: set<Link>, ghost k: nat, n: Link)
    requires Chained(c, own) && 0 < k < |c| && n == c[k]
    modifies own
    ensures Chained(Without(c, k), own - {n})
    ensures n.next == old(n.next) && n.prev == old(n.prev)
    ensures forall m: Link :: m in own ==> m.delta == old(m.delta) && m.evt == old(m.evt)
  {
    assert k + 1 < |c| ==> n.next == c[k + 1];
    assert n.prev == c[k - 1];
    AlUnlink(n);
  }

  /** The node behind `node`, if any, takes over its delta. */
  method PassOnDelta(ghost c: seq<Link>, ghost own: set<Link>, ghost k: nat, node: Link)
    requires Chained(c, own) && k < |c| && node == c[k]
    modifies own
    ensures Chained(c, own)
    ensures forall m: Link :: m in own ==> m.evt == old(m.evt) && m.next == old(m.next) && m.prev == old(m.prev)
    ensures forall i :: 0 <= i < |c| ==> c[i].delta == old(c[i].delta) + if i == k + 1 then old(node.delta) else 0
  {
    assert k + 1 < |c| ==> node.next == c[k + 1];
    assert k + 1 == |c| ==> node.next == null;
    if node.next != null {
      node.next.delta := node.next.delta + node.delta;
    }
  }

  /** The entries stored in the nodes behind the header. */
  ghost function EntriesOf(c: seq<Link>, own: set<Link>): (es: seq<Entry>)
    requires |c| > 0 && forall i :: 0 <= i < |c| ==> c[i] in own
    reads own
    ensures |es| == |c| - 1
    ensures forall i {:trigger es[i]} :: 0 <= i < |es| ==> es[i] == Entry(c[i + 1].delta, c[i + 1].evt)
  {
    seq(|c| - 1, i requires 0 <= i < |c| - 1 reads own => Entry(c[i + 1].delta, c[i + 1].evt))
  }

  /** Takes the node at position `k` out; the node behind it takes over its delta. */
  method DetachAt(ghost c: seq<Link>, ghost own: set<Link>, ghost k: nat, node: Link)
    requires Chained(c, own) && 0 < k < |c| && node == c[k]
    modifies own
    ensures Chained(Without(c, k), own - {node})
    ensures EntriesOf(Without(c, k), own - {node}) == RemovedAt(old(EntriesOf(c, own)), k - 1)
    ensures node.delta == old(node.delta) && node.evt == old(node.evt)
    ensures node.next == old(node.next) && node.prev == old(node.prev)
  {
    PassOnDelta(c, own, k, node);
    UnlinkAt(c, own, k, node);
  }

  /** The diagnostic record the implementation keeps beside a queue, found by the queue's address. */
  class Track {
    var capacity: int
    var occupancy: int
    var highWater: int
    var droppedPosts: int
    var emptyPolls: int
    var heartbeatRecoveries: int

    constructor (capacity: int)
      ensures this.capacity == capacity
      ensures occupancy == highWater == droppedPosts == emptyPolls == heartbeatRecoveries == 0
    {
      this.capacity := capacity;
      occupancy, highWater, droppedPosts, emptyPolls, heartbeatRecoveries := 0, 0, 0, 0, 0;
    }

    method Insert()
      modifies this`occupancy, this`highWater
      ensures occupancy == Saturated(old(occupancy))
      ensures highWater == if occupancy > old(highWater) then occupancy else old(highWater)
    {
      occupancy := Saturated(occupancy);
      if occupancy > highWater {
        highWater := occupancy;
      }
    }

    method Remove()
      modifies this`occupancy
      ensures occupancy == if old(occupancy) > 0 then old(occupancy) - 1 else old(occupancy)
    {
      if occupancy > 0 {
        occupancy := occupancy - 1;
      }
    }

    method Drop()
      modifies this`droppedPosts
      ensures droppedPosts == Saturated(old(droppedPosts))
    {
      droppedPosts := Saturated(droppedPosts);
    }

    method EmptyPoll()
      modifies this`emptyPolls
      ensures emptyPolls == Saturated(old(emptyPolls))
    {
      emptyPolls := Saturated(emptyPolls);
    }

    method Recovery()
      modifies this`heartbeatRecoveries
      ensures heartbeatRecoveries == Saturated(old(heartbeatRecoveries))
    {
      heartbeatRecoveries := Saturated(heartbeatRecoveries);
    }
  }

  /** Links `node`, due `d` after the node at position `k`, in behind that node; the node behind it,
      if any, gives up `d`. */
  method AttachAt(ghost c: seq<Link>, ghost own: set<Link>, ghost k: nat, node: Link, after: Link, d: int, evt: Event)
    requires Chained(c, own) && k < |c| && after == c[k] && node !in own
    modifies own, node
    ensures Chained(With(c, k + 1, node), own + {node})
    ensures EntriesOf(With(c, k + 1, node), own + {node}) == InsertedAt(old(EntriesOf(c, own)), k, d, evt)
  {
    assert k + 1 < |c| ==> after.next == c[k + 1];
    node.delta, node.evt := d, evt;
    if after.next != null {
      after.next.delta := after.next.delta - d;
    }
    LinkAt(c, own, k, node, after);
  }

  function HeartbeatDelay(frameTime: int): (d: int)
    ensures d > 0
  {
    if frameTime > 0 then frameTime else AL_USEC_PER_FRAME
  }

  /** What queueing one event does to the due list. */
  function Placed(t: seq<Timed>, evt: Event, delta: int, atEnd: bool): (r: seq<Timed>) {
    if atEnd then t + [Timed(LastTime(t, 0), evt)] else StableInsert(t, Timed(delta, evt))
  }

  /** Position `k` is where an event due at `delta`, or at the end, goes; `left` is its delta there. */
  ghost predicate SlotFor(es: seq<Entry>, k: nat, left: int, delta: int, atEnd: bool) {
    if atEnd then k == |es| && left == 0
    else StopsAt(es, k, delta) && left == delta - Span(es[..k])
  }

  lemma SlotPlaces(es: seq<Entry>, k: nat, left: int, delta: int, atEnd: bool, evt: Event)
    requires SlotFor(es, k, left, delta, atEnd)
    ensures Timeline(InsertedAt(es, k, left, evt), 0) == Placed(Timeline(es, 0), evt, delta, atEnd)
  {
    if atEnd {
      assert InsertedAt(es, k, 0, evt) == es + [Entry(0, evt)];
      AppendAtEnd(es, evt, 0);
    } else {
      InsertIsStable(es, k, delta, evt, 0);
    }
  }

  class EventQueue {
    const allocList: Link
    const freeList: Link
    const track: Track?           // null when the table of sixteen records was full
    ghost const pool: set<Link>   // all nodes, the two headers included
    ghost var queued: seq<Link>   // the header allocList, then the queued nodes
    ghost var spare: seq<Link>    // the header freeList, then the free nodes
    ghost var queuedSet: set<Link>
    ghost var spareSet: set<Link>

    /** The two lists are well linked and share no node. */
    ghost predicate Linked()
      reads this, pool
    {
      && queuedSet <= pool && spareSet <= pool && queuedSet !! spareSet
      && Chained(queued, queuedSet) && queued[0] == allocList
      && Chained(spare, spareSet) && spare[0] == freeList
      && |queued| + |spare| <= |pool| <= S32_MAX + 2
    }

    /** Moreover the diagnostic count is exact. */
    ghost predicate Counted()
      reads this, pool, track
      ensures Counted() ==> Linked()
    {
      Linked() && (track != null ==> track.occupancy == |queued| - 1)
    }

    /** Moreover no node is missing. */
    ghost predicate Valid()
      reads this, pool, track
      ensures Valid() ==> Counted()
    {
      Counted() && |queued| + |spare| == |pool|
    }

    lemma Parts()
      requires Valid()
      ensures Linked() && |queued| + |spare| == |pool| && (track != null ==> track.occupancy == |queued| - 1)
    {}

    lemma Whole()
      requires Linked() && |queued| + |spare| == |pool| && (track != null ==> track.occupancy == |queued| - 1)
      ensures Valid()
    {}

    lemma CountedIs()
      requires Linked()
      ensures Counted() <==> track == null || track.occupancy == |queued| - 1
      ensures queuedSet <= pool && spareSet <= pool
    {}

    lemma QueuedNode(k: nat)
      requires Linked() && k < |queued|
      ensures queued[k] in queuedSet && queued[k] in pool
    {}

    lemma NothingDue()
      requires Linked() && |queued| == 1
      ensures Due() == []
    {}

    lemma DueIs()
      requires Linked()
      ensures Due() == Timeline(Entries(), 0) && |Entries()| == |Due()| == |queued| - 1
    {}

    /** A node that is in neither list. */
    ghost predicate InHand(item: Link)
      reads this
    {
      item in pool && item !in queuedSet && item !in spareSet && |queued| + |spare| < |pool|
    }

    ghost function Entries(): (es: seq<Entry>)
      requires Linked()
      reads this, pool
      ensures |es| == |queued| - 1
    {
      EntriesOf(queued, queuedSet)
    }

    /** Queued events with their due times, counted from the player's clock. */
    ghost function Due(): (t: seq<Timed>)
      requires Linked()
      reads this, pool
      ensures |t| == |queued| - 1
    {
      Timeline(Entries(), 0)
    }

    /** In a valid queue every node of the pool is in exactly one of the two lists. */
    lemma EveryNodeInOneList(n: Link)
      requires Valid() && n in pool
      ensures n in queued || n in spare
      ensures !(n in queued && n in spare)
    {
      SetOfSameSize(queued, queuedSet);
      SetOfSameSize(spare, spareSet);
      assert |queuedSet + spareSet| == |pool|;
      SubsetOfSameSize(queuedSet + spareSet, pool);
    }

    /** `nodes` is the set of the nodes in `items`; `slotFree` says that the sidecar table still had
        room for this queue. */
    constructor (items: seq<Link>, ghost nodes: set<Link>, slotFree: bool)
      requires |items| <= S32_MAX && Holds(nodes, items)
      modifies nodes
      ensures Valid() && Due() == []
      ensures fresh({allocList, freeList}) && pool == nodes + {allocList, freeList}
      ensures slotFree <==> track != null
      ensures slotFree ==> fresh(track) && track.capacity == |items|
    {
      var a := new Link();
      var f := new Link();
      allocList, freeList := a, f;
      track := null;
      if slotFree {
        track := new Track(|items|);
      }
      pool := nodes + {a, f};
      queued, spare := [a], [f];
      queuedSet, spareSet := {a}, {f};
      new;
      assert |pool| == |items| + 2;
      assert Linked();
      hide *;
      FillFree(items, nodes);
      DueIs();
      NothingDue();
      Whole();
    }

    /** Hands every node of `items` to the free list. */
    method FillFree(items: seq<Link>, ghost nodes: set<Link>)
      requires Linked() && |queued| + |spare| + |items| <= |pool|
      requires Holds(nodes, items) && nodes <= pool && nodes !! queuedSet && nodes !! spareSet
      modifies this`spare, this`spareSet, pool
      ensures Linked() && Entries() == old(Entries()) && |spare| == old(|spare|) + |items|
    {
      for i := 0 to |items|
        invariant Linked() && Entries() == old(Entries())
        invariant |spare| == old(|spare|) + i
        invariant forall j :: i <= j < |items| ==> items[j] !in spareSet && items[j] in pool && items[j] !in queuedSet
      {
        Release(items[i]);
      }
    }

    method NoteRemoved()
      requires Linked()
      modifies track
      ensures Linked() && Entries() == old(Entries()) && forall n :: n in pool ==> unchanged(n)
      ensures track != null ==>
        track.occupancy == if old(track.occupancy) > 0 then old(track.occupancy) - 1 else old(track.occupancy)
    {
      if track != null {
        label before:
        track.Remove();
        assert forall n: Link :: n in pool ==> unchanged@before(n);
      }
    }

    method NoteInserted()
      requires Linked()
      modifies track
      ensures Linked() && Entries() == old(Entries())
      ensures track != null ==> track.occupancy == Saturated(old(track.occupancy))
    {
      if track != null {
        label before:
        track.Insert();
        assert forall n: Link :: n in pool ==> unchanged@before(n);
      }
    }

    method NoteDropped()
      requires Valid()
      modifies track
      ensures Valid() && Entries() == old(Entries())
      ensures track != null ==> track.droppedPosts == Saturated(old(track.droppedPosts))
    {
      if track != null {
        label before:
        track.Drop();
        assert forall n: Link :: n in pool ==> unchanged@before(n);
      }
    }

    method NoteEmptyPoll()
      requires Valid()
      modifies track
      ensures Valid() && Entries() == old(Entries())
      ensures track != null ==> track.emptyPolls == Saturated(old(track.emptyPolls))
    {
      if track != null {
        label before:
        track.EmptyPoll();
        assert forall n: Link :: n in pool ==> unchanged@before(n);
      }
    }

    method NoteRecovery()
      requires Valid()
      modifies track
      ensures Valid() && Entries() == old(Entries())
      ensures track != null ==> track.heartbeatRecoveries == Saturated(old(track.heartbeatRecoveries))
    {
      if track != null {
        label before:
        track.Recovery();
        assert forall n: Link :: n in pool ==> unchanged@before(n);
      }
    }

    // ---- single steps on the two lists ---------------------------------------------

    /** Takes a queued node out: the node behind it takes over its delta. */
    method Detach(node: Link, ghost k: nat)
      requires Linked() && k < |queued| - 1 && node == queued[k + 1]
      modifies this`queued, this`queuedSet, pool
      ensures Linked() && queued == Without(old(queued), k + 1) && InHand(node)
      ensures queuedSet == old(queuedSet) - {node}
      ensures node.delta == old(node.delta) && node.evt == old(node.evt)
      ensures node.next == old(node.next) && node.prev == old(node.prev)
      ensures forall n :: n in pool && n !in old(queuedSet) ==> unchanged(n)
      ensures Entries() == RemovedAt(old(Entries()), k)
    {
      DetachAt(queued, queuedSet, k + 1, node);
      queued, queuedSet := Without(queued, k + 1), queuedSet - {node};
    }

    /** Writes to nodes in neither list leave the queue alone. */
    twostate lemma LinkedFrame()
      requires old(Linked()) && unchanged(this)
      requires forall n :: n in queuedSet || n in spareSet ==> unchanged(n)
      ensures Linked() && Entries() == old(Entries())
    {}

    /** Takes the node at the cursor out and into hand; the cursor then stands at its successor. */
    method TakeOut(node: Link, next: Link?, ghost k: nat)
      requires Counted() && k + 1 < |queued| && node == queued[k + 1] && Cursor(next, k + 1)
      modifies this, pool, track
      ensures Counted() && Cursor(next, k) && InHand(node) && |queued| == old(|queued|) - 1 && spare == old(spare)
      ensures queuedSet == old(queuedSet) - {node} && spareSet == old(spareSet)
      ensures Due() == old(Due())[..k] + old(Due())[k + 1..]
      ensures node.evt == old(node.evt)
      ensures forall n :: n in pool && n !in old(queuedSet) ==> unchanged(n)
    {
      ghost var was := Entries();
      label before:
      Detach(node, k);
      hide Chained, Distinct;
      NoteRemoved();
      RemoveKeepsTimes(was, k, 0);
    }

    /** Puts a node that is in neither list at the front of the free list. */
    method Release(node: Link)
      requires Linked() && InHand(node)
      modifies this`spare, this`spareSet, pool
      ensures Linked() && spare == With(old(spare), 1, node) && spareSet == old(spareSet) + {node}
      ensures Entries() == old(Entries()) && node.evt == old(node.evt) && node.delta == old(node.delta)
    {
      assert |spare| > 0;
      hide Chained, Distinct, With;
      LinkAt(spare, spareSet, 0, node, freeList);
      WithHead(spare, 1, node);
      spare, spareSet := With(spare, 1, node), spareSet + {node};
    }

    /** The step every splicing routine performs on a queued node it drops. */
    method Recycle(node: Link, ghost k: nat)
      requires Valid() && k < |queued| - 1 && node == queued[k + 1]
      modifies this, pool, track
      ensures Valid() && queued == Without(old(queued), k + 1)
      ensures Due() == old(Due())[..k] + old(Due())[k + 1..]
    {
      hide *;
      Parts();
      ghost var was := Entries();
      DueIs();
      Detach(node, k);
      Release(node);
      NoteRemoved();
      RemoveKeepsTimes(was, k, 0);
      DueIs();
      Whole();
    }

    /** Takes the first free node, if there is one, out of the free list. */
    method TakeFree() returns (item: Link?)
      requires Valid()
      modifies this`spare, this`spareSet, pool
      ensures Counted() && Entries() == old(Entries())
      ensures item == null <==> old(|spare|) == 1
      ensures item == null ==> Valid()
      ensures item != null ==> InHand(item) && |queued| + |spare| + 1 == |pool|
    {
      item := freeList.next;
      if item != null {
        assert |spare| > 1 && item == spare[1];
        UnlinkAt(spare, spareSet, 1, item);
        spare, spareSet := Without(spare, 1), spareSet - {item};
      }
    }

    /** The insertion walk: the position whose successor is the first node due later than `delta`,
        and what is left of `delta` there. At the end, the last position. */
    method FindSlot(delta: int, atEnd: bool) returns (node: Link, left: int, ghost k: nat)
      requires Linked()
      ensures k < |queued| && node == queued[k] && SlotFor(Entries(), k, left, delta, atEnd)
    {
      ghost var es := Entries();
      node, left, k := allocList, if atEnd then 0 else delta, 0;
      while node.next != null
        invariant k < |queued| && node == queued[k]
        invariant k < |queued| - 1 ==> node.next == queued[k + 1]
        invariant atEnd ==> left == 0
        invariant !atEnd ==> left == delta - Span(es[..k])
        invariant !atEnd ==> forall j :: 0 <= j < k ==> Span(es[..j]) + es[j].delta <= delta
        decreases |queued| - k
      {
        var nextItem := node.next;
        assert nextItem == queued[k + 1];
        if !atEnd && left < nextItem.delta {
          return;
        }
        assert es[..k + 1] == es[..k] + [es[k]];
        SpanAppend(es[..k], [es[k]]);
        if !atEnd {
          left := left - nextItem.delta;
        }
        node, k := nextItem, k + 1;
      }
    }

    /** Links a node that is in neither list in behind position `k` of the queue. */
    method Attach(item: Link, ghost k: nat, after: Link, d: int, evt: Event)
      requires Counted() && InHand(item) && k < |queued| && after == queued[k]
      modifies this`queued, this`queuedSet, pool, track
      ensures Counted() && queuedSet == old(queuedSet) + {item} && |queued| == old(|queued|) + 1
      ensures Entries() == InsertedAt(old(Entries()), k, d, evt)
      ensures forall n :: n in pool && n !in queuedSet ==> unchanged(n)
    {
      hide Chained, Distinct, With, InsertedAt;
      AttachAt(queued, queuedSet, k, item, after, d, evt);
      WithHead(queued, k + 1, item);
      queued, queuedSet := With(queued, k + 1, item), queuedSet + {item};
      label before:
      NoteInserted();
      assert forall n: Link :: n in pool ==> unchanged@before(n);
    }

    /** Queues a node that is in neither list, at `delta` from now or at the end. */
    method Place(item: Link, evt: Event, delta: int, atEnd: bool)
      requires Counted() && InHand(item)
      modifies this`queued, this`queuedSet, pool, track
      ensures Counted() && queuedSet == old(queuedSet) + {item} && |queued| == old(|queued|) + 1
      ensures Due() == Placed(old(Due()), evt, delta, atEnd)
      ensures forall n :: n in pool && n !in queuedSet ==> unchanged(n)
    {
      ghost var es := Entries();
      var node, left, k := FindSlot(delta, atEnd);
      hide Chained, Distinct;
      Attach(item, k, node, left, evt);
      SlotPlaces(es, k, left, delta, atEnd, evt);
    }

    /** `alEvtqPostEvent`: a post is dropped exactly when no node is free. */
    method PostEvent(evt: Event, delta: int)
      requires Valid()
      modifies this, pool, track
      ensures Valid()
      ensures Due() == if old(|spare|) > 1 then Placed(old(Due()), evt, delta, delta == AL_EVTQ_END) else old(Due())
      ensures old(|spare|) > 1 && delta == 0x7fff_ffff ==>
        Due() == old(Due()) + [Timed(if old(Due()) == [] then 0 else old(Due())[|Due()| - 2].at, evt)]
      ensures old(|spare|) > 1 && delta != 0x7fff_ffff ==> Due() == StableInsert(old(Due()), Timed(delta, evt))
      ensures old(|spare|) == 1 && track != null ==>
        var n := old(track.droppedPosts); track.droppedPosts == if n == 0xffff_ffff then n else n + 1
    {
      hide Chained, Distinct;
      var item := TakeFree();
      if item == null {
        NoteDropped();
        return;
      }
      Place(item, evt, delta, delta == AL_EVTQ_END);
    }

    /** Unlinks the first queued node; its successor keeps its own delta. */
    method TakeFirst(item: Link)
      requires Linked() && |queued| > 1 && item == queued[1]
      modifies this`queued, this`queuedSet, pool
      ensures Linked() && queued == Without(old(queued), 1) && InHand(item)
      ensures Entries() == old(Entries())[1..] && item.delta == old(item.delta) && item.evt == old(item.evt)
    {
      UnlinkAt(queued, queuedSet, 1, item);
      queued, queuedSet := Without(queued, 1), queuedSet - {item};
    }

    /** Moves the first queued node to the free list. */
    method RetireFirst(item: Link)
      requires Valid() && |queued| > 1 && item == queued[1]
      modifies this, pool, track
      ensures Valid() && queued == Without(old(queued), 1)
      ensures Entries() == old(Entries())[1..]
    {
      TakeFirst(item);
      hide Chained, Distinct;
      Release(item);
      NoteRemoved();
    }

    /** `alEvtqNextEvent`: the first event comes out, and every other due time is counted from its time
        on. An empty queue answers with the empty event and delay zero. */
    method NextEvent() returns (evt: Event, delta: int)
      requires Valid()
      modifies this, pool, track
      ensures Valid()
      ensures old(Due()) == [] ==> evt == Event(-1, 0, 0) && delta == 0 && Due() == []
      ensures old(Due()) == [] && track != null ==>
        var n := old(track.emptyPolls); track.emptyPolls == if n == 0xffff_ffff then n else n + 1
      ensures old(Due()) != [] ==> Timed(delta, evt) == old(Due())[0] && Due() == Shift(old(Due())[1..], -delta)
    {
      ghost var es := Entries();
      var item := allocList.next;
      assert if |queued| > 1 then item == queued[1] else item == null;
      hide Chained, Distinct;
      if item == null {
        evt, delta := Event(EMPTY_EVENT, 0, 0), 0;
        NoteEmptyPoll();
      } else {
        evt, delta := item.evt, item.delta;
        PopTimeline(es);
        hide Timeline;
        RetireFirst(item);
      }
    }

    /** `portAudioEventQueueNextOrHeartbeat`: an empty queue still yields a positive delay, so that the
        player's clock moves. */
    method NextOrHeartbeat(heartbeatKind: int, frameTime: int) returns (evt: Event, delta: int)
      requires Valid()
      modifies this, pool, track
      ensures Valid()
      ensures old(Due()) == [] ==>
        evt == Event(heartbeatKind, 0, 0) && delta == HeartbeatDelay(frameTime) && Due() == []
      ensures old(Due()) == [] ==> delta == if frameTime > 0 then frameTime else 16000
      ensures old(Due()) != [] && old(Due())[0].evt.kind != -1 ==>
        Timed(delta, evt) == old(Due())[0] && Due() == Shift(old(Due())[1..], -delta)
    {
      hide Chained, Distinct;
      evt, delta := NextEvent();
      if evt.kind == EMPTY_EVENT {
        evt := evt.(kind := heartbeatKind);
        NoteRecovery();
        delta := HeartbeatDelay(frameTime);
      }
    }

    // ---- the splicing loops ---------------------------------------------------------

    /** `node` is the `k`-th queued node, or null behind the last one. */
    ghost predicate Cursor(node: Link?, k: nat)
      reads this`queued
    {
      k < |queued| && if k + 1 < |queued| then node == queued[k + 1] else node == null
    }

    /** The node at the cursor carries the k-th due event. */
    lemma CursorHead(node: Link, k: nat)
      requires Linked() && Cursor(node, k)
      ensures k < |Due()| && Due()[k].evt == node.evt
    {
      hide Chained, Distinct;
      TimelineStep(Entries(), k);
    }

    /** Reads the successor of the node at the cursor. */
    method Successor(node: Link, ghost k: nat) returns (next: Link?)
      requires Linked() && Cursor(node, k)
      ensures k + 1 < |queued| && node == queued[k + 1] && Cursor(next, k + 1)
      ensures Due()[k] == Timed(LastTime(Due()[..k], 0) + node.delta, node.evt)
    {
      next := node.next;
      TimelineStep(Entries(), k);
    }

    /** Recycles the node at the cursor; the cursor then stands at its successor. */
    method DropAt(node: Link, next: Link?, ghost k: nat)
      requires Valid() && k + 1 < |queued| && node == queued[k + 1] && Cursor(next, k + 1)
      modifies this, pool, track
      ensures Valid() && Cursor(next, k) && Due() == old(Due())[..k] + old(Due())[k + 1..]
    {
      hide Chained, Distinct, Timeline;
      Recycle(node, k);
    }

    /** One step of a sifting loop: the node at the cursor is dropped, or the cursor passes it. */
    method Sift(node: Link, drop: bool, ghost k: nat, ghost was: seq<Timed>, ghost j: nat, ghost keep: Pattern)
      returns (next: Link?)
      requires Valid() && Cursor(node, k) && Sifted(was, j, Due(), k, keep) && drop == !Matches(keep, node.evt)
      modifies this, pool, track
      ensures Valid() && Cursor(next, if drop then k else k + 1)
      ensures j < |was| && Sifted(was, j + 1, Due(), if drop then k else k + 1, keep)
    {
      hide Chained, Distinct, Sifted, Timeline, Span, Without, With, Matches;
      next := Successor(node, k);
      if drop {
        SiftDrop(was, j, Due(), k, keep);
        DropAt(node, next, k);
      } else {
        SiftKeep(was, j, Due(), k, keep);
      }
    }

    /** `alEvtqFlush`. */
    method Flush()
      requires Valid()
      modifies this, pool, track
      ensures Valid() && Due() == []
    {
      var node := allocList.next;
      while node != null
        invariant Valid() && Cursor(node, 0)
        decreases |queued|
      {
        hide Chained, Distinct;
        var next := Successor(node, 0);
        RetireFirst(node);
        node := next;
      }
    }

    /** `alEvtqFlushType`. */
    method FlushType(kind: int)
      requires Valid()
      modifies this, pool, track
      ensures Valid() && Due() == Filter(old(Due()), Other(Kind(kind)))
      ensures var was := old(Due());
              exists kept :: KeptAt(was, Due(), kept) &&
                forall i: nat :: i < |was| ==> (i !in kept <==> was[i].evt.kind == kind)
    {
      KindGone(Due(), kind);
      ghost var keep, was := Other(Kind(kind)), Due();
      ghost var j, k := 0, 0;
      var node := allocList.next;
      assert Cursor(node, 0) && Sifted(was, 0, Due(), 0, keep);
      hide Chained, Distinct, Sifted, Filter, Timeline, Span, Without, With;
      while node != null
        invariant Valid() && Cursor(node, k) && Sifted(was, j, Due(), k, keep)
        decreases |was| - j
      {
        var drop := node.evt.kind == kind;
        node := Sift(node, drop, k, was, j, keep);
        j, k := j + 1, if drop then k else k + 1;
      }
      SiftDone(was, j, Due(), k, keep);
    }
  }
}
