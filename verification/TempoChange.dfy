/** native_csp_handle_meta in platform/audio_cspplayer.c on the linked queue: note-off nodes move to a
    chain of their own, get rescaled times, and are linked back in one at a time. */
module TempoChange {
  import opened Agenda
  import opened AudioEventQueue
  import opened Retiming

  /** Nodes in hand, chained by `next`; each stores its event and its due time. */
  ghost predicate Deferred(d: seq<Link>, held: set<Link>, ts: seq<Timed>)
    reads held
  {
    && |d| == |held| == |ts| && Distinct(d)
    && (forall i :: 0 <= i < |d| ==> d[i] in held)
    && (forall i :: 0 <= i < |d| ==> ts[i] == Timed(d[i].delta, d[i].evt))
    && (forall i :: 0 <= i < |d| - 1 ==> d[i].next == d[i + 1])
    && (|d| > 0 ==> d[|d| - 1].next == null)
  }

  /** The nodes in hand are the only ones in neither list. */
  ghost predicate Apart(q: EventQueue, held: set<Link>)
    reads q
  {
    && held <= q.pool && held !! q.queuedSet && held !! q.spareSet
    && |q.queued| + |q.spare| + |held| == |q.pool|
  }

  lemma ApartIs(q: EventQueue, held: set<Link>)
    ensures Apart(q, held) <==>
              && held <= q.pool && held !! q.queuedSet && held !! q.spareSet
              && |q.queued| + |q.spare| + |held| == |q.pool|
  {}

  lemma Freed(q: EventQueue, node: Link)
    requires q.InHand(node)
    ensures node in q.pool && node !in q.queuedSet && node !in q.spareSet
  {}

  ghost function Tail(d: seq<Link>): Link? {
    if d == [] then null else d[|d| - 1]
  }

  /** Appends a node to the chain in hand. */
  method Append(node: Link, tail: Link?, at: int, ghost d: seq<Link>, ghost held: set<Link>, ghost ts: seq<Timed>)
    requires Deferred(d, held, ts) && tail == Tail(d) && node !in held
    modifies held, node
    ensures Deferred(d + [node], held + {node}, ts + [Timed(at, old(node.evt))])
  {
    node.prev := null;
    node.next := null;
    if tail != null {
      tail.next := node;
      node.prev := tail;
    }
    node.delta := at;
    assert Distinct(d + [node]);
  }

  /** Takes the note-off at the cursor out of the queue and into the chain. */
  method Defer(q: EventQueue, node: Link, next: Link?, ghost k: nat, tail: Link?, at: int,
               ghost d: seq<Link>, ghost held: set<Link>, ghost ts: seq<Timed>, ghost x: Timed)
    requires q.Counted() && Apart(q, held) && Deferred(d, held, ts) && tail == Tail(d) && x == Timed(at, node.evt)
    requires k + 1 < |q.queued| && node == q.queued[k + 1] && q.Cursor(next, k + 1)
    modifies q, q.pool, q.track
    ensures q.Counted() && Apart(q, held + {node}) && q.Cursor(next, k)
    ensures Deferred(d + [node], held + {node}, ts + [x])
    ensures q.Due() == old(q.Due())[..k] + old(q.Due())[k + 1..]
  {
    hide *;
    ApartIs(q, held);
    q.QueuedNode(k + 1);
    label before:
    q.TakeOut(node, next, k);
    Freed(q, node);
    assert forall n: Link :: n in held ==> unchanged@before(n);
    q.DueIs();
    q.CountedIs();
    label out:
    Append(node, tail, at, d, held, ts);
    assert forall n: Link :: n in q.queuedSet || n in q.spareSet ==> unchanged@out(n);
    q.LinkedFrame@out();
    q.DueIs();
    q.CountedIs();
    ApartIs(q, held + {node});
  }

  /** `native_seqp_repost_event_item`: queues a node in hand at the time stored in it. */
  method Repost(q: EventQueue, item: Link)
    requires q.Counted() && q.InHand(item)
    modifies q, q.pool, q.track
    ensures q.Counted() && q.queuedSet == old(q.queuedSet) + {item} && q.spareSet == old(q.spareSet)
    ensures |q.queued| == old(|q.queued|) + 1 && q.spare == old(q.spare)
    ensures q.Due() == StableInsert(old(q.Due()), Timed(old(item.delta), old(item.evt)))
    ensures forall n :: n in q.pool && n !in q.queuedSet ==> unchanged(n)
  {
    hide Chained, Distinct;
    label before:
    item.next := null;
    item.prev := null;
    q.LinkedFrame@before();
    q.Place(item, item.evt, item.delta, false);
  }

  /** Rescales the first node of the chain and queues it again. */
  method RepostFirst(q: EventQueue, head: Link, oldUspt: int, newUspt: int,
                     ghost d: seq<Link>, ghost held: set<Link>, ghost ts: seq<Timed>) returns (next: Link?)
    requires oldUspt > 0 && q.Counted() && Apart(q, held) && Deferred(d, held, ts) && d != [] && head == d[0]
    modifies q, q.pool, q.track
    ensures q.Counted() && Apart(q, held - {head}) && Deferred(d[1..], held - {head}, ts[1..])
    ensures next == if |d| > 1 then d[1] else null
    ensures q.Due() == StableInsert(old(q.Due()), Timed(Rescaled(ts[0].at, oldUspt, newUspt), ts[0].evt))
  {
    next := head.next;
    label before:
    head.delta := Rescaled(head.delta, oldUspt, newUspt);
    q.LinkedFrame@before();
    Repost(q, head);
    assert forall n: Link :: n in held && n != head ==> unchanged@before(n);
  }

  /** After `j` events of `was`, the queue holds the other events so far, `k` of them passed, and `ts`
      lists the note-offs so far. */
  ghost predicate Split(was: seq<Timed>, j: nat, now: seq<Timed>, k: nat, ts: seq<Timed>) {
    Sifted(was, j, now, k, Other(NOTE_OFFS)) && ts == Filter(was[..j], NOTE_OFFS)
  }

  lemma SplitOff(was: seq<Timed>, j: nat, now: seq<Timed>, k: nat, ts: seq<Timed>)
    requires Split(was, j, now, k, ts) && k < |now| && now[k].evt.kind == AL_CSP_NOTEOFF_EVT
    ensures j < |was| && Split(was, j + 1, now[..k] + now[k + 1..], k, ts + [now[k]])
  {
    SiftNext(was, j, now, k, Other(NOTE_OFFS));
    FilterStep(was, j, NOTE_OFFS);
    SiftDrop(was, j, now, k, Other(NOTE_OFFS));
  }

  lemma SplitKeep(was: seq<Timed>, j: nat, now: seq<Timed>, k: nat, ts: seq<Timed>)
    requires Split(was, j, now, k, ts) && k < |now| && now[k].evt.kind != AL_CSP_NOTEOFF_EVT
    ensures j < |was| && Split(was, j + 1, now, k + 1, ts)
    ensures LastTime(now[..k + 1], 0) == now[k].at
  {
    SiftNext(was, j, now, k, Other(NOTE_OFFS));
    FilterStep(was, j, NOTE_OFFS);
    SiftKeep(was, j, now, k, Other(NOTE_OFFS));
  }

  lemma SplitDone(was: seq<Timed>, j: nat, now: seq<Timed>, k: nat, ts: seq<Timed>)
    requires Split(was, j, now, k, ts) && k == |now|
    ensures now == Filter(was, Other(NOTE_OFFS)) && ts == Filter(was, NOTE_OFFS)
  {
    SiftDone(was, j, now, k, Other(NOTE_OFFS));
    assert was[..j] == was;
  }

  /** What the first loop has done so far: the ghost half of its state. */
  datatype Progress = Progress(d: seq<Link>, held: set<Link>, ts: seq<Timed>, was: seq<Timed>, j: nat, k: nat)

  /** The variables of the first loop. */
  datatype Cursors = Cursors(node: Link?, head: Link?, tail: Link?, runningDelta: int)

  /** What the first loop keeps. */
  ghost predicate Deferring(q: EventQueue, c: Cursors, p: Progress)
    reads q, q.pool, q.track
    ensures Deferring(q, c, p) ==> q.Counted() && p.j <= |p.was|
  {
    && q.Counted() && Apart(q, p.held) && Deferred(p.d, p.held, p.ts) && q.Cursor(c.node, p.k)
    && c.tail == Tail(p.d) && (c.head == if p.d == [] then null else p.d[0])
    && p.j <= |p.was| && Split(p.was, p.j, q.Due(), p.k, p.ts)
    && (c.node != null ==> c.runningDelta == LastTime(q.Due()[..p.k], 0))
  }

  /** One turn of the first loop at a note-off. */
  method DeferHere(q: EventQueue, c: Cursors, next: Link?, ghost p: Progress) returns (c': Cursors, ghost p': Progress)
    requires Deferring(q, c, p) && c.node != null && c.node.evt.kind == AL_CSP_NOTEOFF_EVT
    requires p.k + 1 < |q.queued| && c.node == q.queued[p.k + 1] && q.Cursor(next, p.k + 1)
    requires q.Due()[p.k] == Timed(c.runningDelta + c.node.delta, c.node.evt)
    modifies q, q.pool, q.track
    ensures Deferring(q, c', p') && c'.node == next && p'.was == p.was && p'.j == p.j + 1
  {
    var node := c.node;
    ghost var now := q.Due();
    ghost var x := now[p.k];
    var absoluteDelta := c.runningDelta + node.delta;
    var running := if next != null then absoluteDelta - node.delta else absoluteDelta;
    hide *;
    Opened(q, c, p);
    DueLength(q);
    SplitOff(p.was, p.j, now, p.k, p.ts);
    assert (now[..p.k] + now[p.k + 1..])[..p.k] == now[..p.k];
    Defer(q, node, next, p.k, c.tail, absoluteDelta, p.d, p.held, p.ts, x);
    c' := Cursors(next, if c.head == null then node else c.head, node, running);
    p' := Progress(p.d + [node], p.held + {node}, p.ts + [x], p.was, p.j + 1, p.k);
    Tails(p.d, node);
    Closed(q, c', p');
  }

  lemma Tails(d: seq<Link>, node: Link)
    ensures Tail(d + [node]) == node
  {}

  lemma DueLength(q: EventQueue)
    requires q.Linked()
    ensures |q.Due()| == |q.queued| - 1
  {}

  lemma Opened(q: EventQueue, c: Cursors, p: Progress)
    requires Deferring(q, c, p)
    ensures q.Counted() && Apart(q, p.held) && Deferred(p.d, p.held, p.ts) && q.Cursor(c.node, p.k)
    ensures c.tail == Tail(p.d) && (c.head == if p.d == [] then null else p.d[0])
    ensures p.j <= |p.was| && Split(p.was, p.j, q.Due(), p.k, p.ts)
    ensures c.node != null ==> p.k <= |q.Due()| && c.runningDelta == LastTime(q.Due()[..p.k], 0)
  {}

  lemma Closed(q: EventQueue, c: Cursors, p: Progress)
    requires q.Counted() && Apart(q, p.held) && Deferred(p.d, p.held, p.ts) && q.Cursor(c.node, p.k)
    requires c.tail == Tail(p.d) && (c.head == if p.d == [] then null else p.d[0])
    requires p.j <= |p.was| && Split(p.was, p.j, q.Due(), p.k, p.ts)
    requires c.node != null ==> p.k <= |q.Due()| && c.runningDelta == LastTime(q.Due()[..p.k], 0)
    ensures Deferring(q, c, p)
  {}

  lemma AtCursor(q: EventQueue, c: Cursors, p: Progress)
    requires Deferring(q, c, p) && c.node != null
    ensures q.Cursor(c.node, p.k) && c.runningDelta == LastTime(q.Due()[..p.k], 0)
  {}

  /** One turn of the first loop at any other event. */
  lemma KeepHere(q: EventQueue, c: Cursors, next: Link?, p: Progress)
    requires Deferring(q, c, p) && c.node != null && c.node.evt.kind != AL_CSP_NOTEOFF_EVT
    requires p.k + 1 < |q.queued| && c.node == q.queued[p.k + 1] && q.Cursor(next, p.k + 1)
    requires q.Due()[p.k] == Timed(c.runningDelta + c.node.delta, c.node.evt)
    ensures Deferring(q, c.(node := next, runningDelta := c.runningDelta + c.node.delta),
                      p.(j := p.j + 1, k := p.k + 1))
  {
    SplitKeep(p.was, p.j, q.Due(), p.k, p.ts);
  }

  lemma DeferredAll(q: EventQueue, c: Cursors, p: Progress)
    requires Deferring(q, c, p) && c.node == null
    ensures Apart(q, p.held) && Deferred(p.d, p.held, Filter(p.was, NOTE_OFFS))
    ensures q.Due() == Filter(p.was, Other(NOTE_OFFS))
    ensures c.head == if p.d == [] then null else p.d[0]
  {
    SplitDone(p.was, p.j, q.Due(), p.k, p.ts);
  }

  /** The first loop of the tempo change: every note-off leaves the queue, in time order. */
  method DeferNoteOffs(q: EventQueue) returns (head: Link?, ghost d: seq<Link>, ghost held: set<Link>)
    requires q.Valid()
    modifies q, q.pool, q.track
    ensures q.Counted() && Apart(q, held) && Deferred(d, held, Filter(old(q.Due()), NOTE_OFFS))
    ensures head == if d == [] then null else d[0]
    ensures q.Due() == Filter(old(q.Due()), Other(NOTE_OFFS))
  {
    var c := Cursors(q.allocList.next, null, null, 0);
    ghost var p := Progress([], {}, [], q.Due(), 0, 0);
    assert Deferring(q, c, p);
    hide Chained, Distinct, Deferring, Filter, Timeline, Without, With, LastTime;
    while c.node != null
      invariant Deferring(q, c, p) && p.was == old(q.Due())
      decreases |p.was| - p.j
    {
      AtCursor(q, c, p);
      var next := q.Successor(c.node, p.k);
      if c.node.evt.kind == AL_CSP_NOTEOFF_EVT {
        c, p := DeferHere(q, c, next, p);
      } else {
        KeepHere(q, c, next, p);
        c := c.(node := next, runningDelta := c.runningDelta + c.node.delta);
        p := p.(j := p.j + 1, k := p.k + 1);
      }
    }
    DeferredAll(q, c, p);
    head, d, held := c.head, p.d, p.held;
  }

  /** The second loop: the deferred nodes go back, each at its rescaled time. */
  method RepostNoteOffs(q: EventQueue, first: Link?, oldUspt: int, newUspt: int,
                        ghost nodes: seq<Link>, ghost inHand: set<Link>, ghost times: seq<Timed>)
    requires oldUspt > 0 && q.Counted() && Apart(q, inHand) && Deferred(nodes, inHand, times)
    requires first == if nodes == [] then null else nodes[0]
    modifies q, q.pool, q.track
    ensures q.Valid() && q.Due() == InsertAll(old(q.Due()), RescaleAll(times, oldUspt, newUspt))
  {
    ghost var was, d, held, ts := q.Due(), nodes, inHand, times;
    var head := first;
    while head != null
      invariant q.Counted() && Apart(q, held) && Deferred(d, held, ts)
      invariant head == if d == [] then null else d[0]
      invariant InsertAll(q.Due(), RescaleAll(ts, oldUspt, newUspt)) ==
                InsertAll(was, RescaleAll(times, oldUspt, newUspt))
      decreases |ts|
    {
      ghost var rest := RescaleAll(ts, oldUspt, newUspt);
      assert |d| == |ts| > 0 && rest[1..] == RescaleAll(ts[1..], oldUspt, newUspt);
      hide Chained, Distinct, Deferred, Rescaled;
      var next := RepostFirst(q, head, oldUspt, newUspt, d, held, ts);
      d, held, ts := d[1..], held - {head}, ts[1..];
      head := next;
    }
  }

  /** `native_csp_handle_meta` for a tempo event; `oldUspt` and `newUspt` are the player's microseconds
      per tick before and after it. A player whose old value is not positive leaves its queue alone. */
  method HandleTempo(q: EventQueue, oldUspt: int, newUspt: int)
    requires q.Valid()
    modifies q, q.pool, q.track
    ensures q.Valid()
    ensures q.Due() == if oldUspt > 0 then Retimed(old(q.Due()), oldUspt, newUspt) else old(q.Due())
  {
    if oldUspt <= 0 {
      return;
    }
    ghost var was := q.Due();
    var head, d, held := DeferNoteOffs(q);
    hide Chained, Distinct, Deferred;
    RepostNoteOffs(q, head, oldUspt, newUspt, d, held, Filter(was, NOTE_OFFS));
  }
}
