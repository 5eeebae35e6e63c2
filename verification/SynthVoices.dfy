/** The synthesiser's voice pool (platform/audio_synth.c, platform/audio_envmix.c): physical voices in three
    lists, callers' voices that own them, stealing with a deferred free, and a fixed pool of parameter
    updates. */
module SynthVoices {
  import opened AudioEventQueue
  import opened VoiceLists

  const STEAL_OFFSET: nat := 512
  const FADE_MARGIN: nat := 64

  /** A queued change to a physical voice; the last one gives the voice back. */
  datatype Update =
    | Change(delta: nat, kind: int)
    | SetVolume(delta: nat, volume: int, ramp: nat)
    | StopVoice(delta: nat)
    | FreeVoice(delta: nat, target: PVoice)

  /** A physical voice. `node` is its embedded list node, and `place` the list that is linked into. */
  class PVoice {
    const node: Link
    const knob: bool
    var offset: nat
    var vvoice: VVoice?
    var queue: seq<Update>
    ghost var place: Place

    constructor (knob: bool)
      ensures this.knob == knob && offset == 0 && vvoice == null && queue == [] && place == Free && fresh(node)
    {
      node := new Link();
      this.knob, offset, vvoice, queue, place := knob, 0, null, [], Free;
    }
  }

  /** A caller's voice. */
  class VVoice {
    var priority: int
    var pvoice: PVoice?
  }

  ghost predicate Different<T>(s: seq<T>) {
    forall i, j :: 0 <= i < j < |s| ==> s[i] != s[j]
  }

  /** The list holds exactly the pool's voices of one place, each once. */
  ghost predicate Gathers(list: seq<PVoice>, pool: set<PVoice>, place: Place)
    reads pool`place
  {
    && Different(list)
    && (forall p :: p in list ==> p in pool && p.place == place)
    && (forall p :: p in pool && p.place == place ==> p in list)
  }

  /** How many of a queue's updates give the voice back. */
  function Frees(queue: seq<Update>): nat {
    if |queue| == 0 then 0 else Frees(queue[..|queue| - 1]) + (if queue[|queue| - 1].FreeVoice? then 1 else 0)
  }

  lemma {:induction false} FreesTail(queue: seq<Update>)
    requires |queue| > 0
    ensures Frees(queue) == (if queue[0].FreeVoice? then 1 else 0) + Frees(queue[1..])
  {
    if |queue| > 1 {
      FreesTail(queue[..|queue| - 1]);
      assert queue[1..][..|queue| - 2] == queue[..|queue| - 1][1..];
    }
  }

  lemma FreesAppend(queue: seq<Update>, u: Update)
    ensures Frees(queue + [u]) == Frees(queue) + (if u.FreeVoice? then 1 else 0)
  {
    assert (queue + [u])[..|queue|] == queue;
  }

  /** A voice with its give-back queued is a stolen voice that nobody owns any more, and it is given back once. */
  ghost predicate Settled(p: PVoice, voices: set<VVoice>)
    reads p, voices`pvoice
  {
    && (p.vvoice != null ==> p.vvoice in voices)
    && (p.offset == 0 || p.offset == STEAL_OFFSET)
    && (forall i :: 0 <= i < |p.queue| && p.queue[i].FreeVoice? ==> p.queue[i].target == p)
    && Frees(p.queue) <= 1
    && (Frees(p.queue) == 1 ==> p.place == Allocated && p.offset != 0 && !(p.vvoice != null && p.vvoice.pvoice == p))
  }

  /** A voice that is allocated is owned, or has its give-back queued. */
  ghost predicate Kept(p: PVoice, voices: set<VVoice>)
    reads p, voices`pvoice
  {
    p.place == Allocated ==> (p.vvoice != null && p.vvoice in voices && p.vvoice.pvoice == p) || Frees(p.queue) == 1
  }

  ghost function Lengths(pool: seq<PVoice>): (lengths: seq<nat>)
    reads pool`queue
    ensures |lengths| == |pool| && forall i :: 0 <= i < |pool| ==> lengths[i] == |pool[i].queue|
  {
    if |pool| == 0 then [] else Lengths(pool[..|pool| - 1]) + [|pool[|pool| - 1].queue|]
  }

  function Sum(xs: seq<nat>): nat {
    if |xs| == 0 then 0 else xs[0] + Sum(xs[1..])
  }

  lemma {:induction false} SumUpdate(xs: seq<nat>, k: nat, x: nat)
    requires k < |xs|
    ensures Sum(xs[k := x]) + xs[k] == Sum(xs) + x
  {
    if k > 0 {
      SumUpdate(xs[1..], k - 1, x);
      assert xs[k := x][1..] == xs[1..][k - 1 := x];
    }
  }

  function Removed(list: seq<PVoice>, p: PVoice): seq<PVoice> {
    if |list| == 0 then []
    else if list[0] == p then list[1..]
    else [list[0]] + Removed(list[1..], p)
  }

  lemma {:induction false} RemovedFacts(list: seq<PVoice>, p: PVoice)
    requires Different(list)
    ensures Different(Removed(list, p))
    ensures forall q :: q in Removed(list, p) <==> q in list && q != p
  {
    if |list| > 0 && list[0] != p {
      RemovedFacts(list[1..], p);
      var rest := Removed(list[1..], p);
      assert list[0] !in list[1..];
      assert Removed(list, p) == [list[0]] + rest;
      assert forall i :: 0 <= i < |rest| ==> rest[i] in rest;
    } else if |list| > 0 {
      assert forall q :: q in list <==> q == p || q in list[1..];
    }
  }

  /** The list of place `mine`, once p has moved. */
  function Moved(list: seq<PVoice>, mine: Place, p: PVoice, from: Place, to: Place): seq<PVoice> {
    if mine == to then [p] + list else if mine == from then Removed(list, p) else list
  }

  lemma MovedIs(list: seq<PVoice>, mine: Place, p: PVoice, from: Place, to: Place)
    ensures mine == to ==> Moved(list, mine, p, from, to) == [p] + list
    ensures mine != to && mine == from ==> Moved(list, mine, p, from, to) == Removed(list, p)
    ensures mine != to && mine != from ==> Moved(list, mine, p, from, to) == list
  {}

  function Reversed(list: seq<PVoice>): seq<PVoice> {
    if |list| == 0 then [] else Reversed(list[1..]) + [list[0]]
  }

  lemma ReversedHead(list: seq<PVoice>, rest: seq<PVoice>)
    requires |list| > 0
    ensures Reversed(list) + rest == Reversed(list[1..]) + ([list[0]] + rest)
  {}

  lemma {:induction false} ReversedEnd(list: seq<PVoice>, p: PVoice)
    ensures Reversed(list + [p]) == [p] + Reversed(list)
  {
    if |list| > 0 {
      assert (list + [p])[1..] == list[1..] + [p];
      ReversedEnd(list[1..], p);
    }
  }

  lemma {:induction false} ReversedFacts(list: seq<PVoice>)
    requires Different(list)
    ensures Different(Reversed(list)) && |Reversed(list)| == |list|
    ensures forall p :: p in Reversed(list) <==> p in list
  {
    if |list| > 0 {
      ReversedFacts(list[1..]);
      assert list[0] !in list[1..];
      assert list == [list[0]] + list[1..];
    }
  }

  lemma ReversedNone(rest: seq<PVoice>)
    ensures Reversed([]) + rest == rest
  {}

  /** The priority of p's owner once `voice` has asked with `priority`. */
  function OwnerPriority(p: PVoice, voice: VVoice, priority: int): int
    requires p.vvoice != null
    reads p, p.vvoice
  {
    if p.vvoice == voice then priority else p.vvoice.priority
  }

  /** A voice that may be stolen: owned by someone, not above the request, not stolen already. */
  predicate Eligible(p: PVoice, voice: VVoice, priority: int)
    reads p, p.vvoice
  {
    p.vvoice != null && p.offset == 0 && OwnerPriority(p, voice, priority) <= priority
  }

  /** The last of the lowest-priority voices that may be stolen. */
  ghost predicate Victim(alloc: seq<PVoice>, k: nat, voice: VVoice, priority: int)
    requires k < |alloc|
    reads alloc, set p | p in alloc && p.vvoice != null :: p.vvoice
  {
    && Eligible(alloc[k], voice, priority)
    && forall j :: 0 <= j < |alloc| && Eligible(alloc[j], voice, priority) ==>
         OwnerPriority(alloc[k], voice, priority) <= OwnerPriority(alloc[j], voice, priority) &&
         (j > k ==> OwnerPriority(alloc[k], voice, priority) < OwnerPriority(alloc[j], voice, priority))
  }

  ghost predicate NoVictim(alloc: seq<PVoice>, voice: VVoice, priority: int)
    reads alloc, set p | p in alloc && p.vvoice != null :: p.vvoice
  {
    forall j :: 0 <= j < |alloc| ==> !Eligible(alloc[j], voice, priority)
  }

  /** The nodes of a chain are those of the voices in a list. */
  ghost predicate Threads(c: Chain, list: seq<PVoice>) {
    |c.nodes| == |list| + 1 && forall i :: 0 <= i < |list| ==> c.nodes[i + 1] == list[i].node
  }

  lemma {:induction false} RemovedIs(list: seq<PVoice>, k: nat)
    requires Different(list) && k < |list|
    ensures Removed(list, list[k]) == list[..k] + list[k + 1..]
  {
    if k > 0 {
      RemovedIs(list[1..], k - 1);
      assert list[1..][..k - 1] == list[..k][1..];
    }
  }

  lemma ThreadsWithout(c: Chain, list: seq<PVoice>, k: nat, own: set<Link>)
    requires Threads(c, list) && Different(list) && k < |list|
    ensures Threads(Chain(Without(c.nodes, k + 1), own), Removed(list, list[k]))
  {
    RemovedIs(list, k);
  }

  lemma ThreadsWith(c: Chain, list: seq<PVoice>, p: PVoice, own: set<Link>)
    requires Threads(c, list)
    ensures Threads(Chain(With(c.nodes, 1, p.node), own), [p] + list)
  {}

  /** One more voice of the list looked at: what becomes of the best victim so far. */
  lemma VictimStep(list: seq<PVoice>, i: nat, voice: VVoice, priority: int)
    requires i < |list|
    ensures NoVictim(list[..i], voice, priority) && !Eligible(list[i], voice, priority) ==>
              NoVictim(list[..i + 1], voice, priority)
    ensures NoVictim(list[..i], voice, priority) && Eligible(list[i], voice, priority) ==>
              Victim(list[..i + 1], i, voice, priority)
  {
    var longer := list[..i + 1];
    assert forall j :: 0 <= j < i ==> longer[j] == list[..i][j];
  }

  lemma VictimOrNext(list: seq<PVoice>, i: nat, k: nat, voice: VVoice, priority: int)
    requires k < i < |list| && Victim(list[..i], k, voice, priority)
    ensures list[k].vvoice != null
    ensures Eligible(list[i], voice, priority) &&
            OwnerPriority(list[i], voice, priority) <= OwnerPriority(list[k], voice, priority) ==>
              Victim(list[..i + 1], i, voice, priority)
    ensures !(Eligible(list[i], voice, priority) &&
              OwnerPriority(list[i], voice, priority) <= OwnerPriority(list[k], voice, priority)) ==>
              Victim(list[..i + 1], k, voice, priority)
  {
    var longer := list[..i + 1];
    assert forall j :: 0 <= j < i ==> longer[j] == list[..i][j];
  }

  /** A list of one place, once p has moved and nothing else. */
  lemma MovedGathers(list: seq<PVoice>, mine: Place, p: PVoice, from: Place, to: Place, pool: set<PVoice>)
    requires Different(list) && from != to && p in pool && p.place == to && (p in list <==> mine == from)
    requires forall q :: q in list ==> q in pool && (q == p || q.place == mine)
    requires forall q :: q in pool && q != p && q.place == mine ==> q in list
    ensures Gathers(Moved(list, mine, p, from, to), pool, mine)
  {
    RemovedFacts(list, p);
    MovedIs(list, mine, p, from, to);
    hide Removed, Moved;
    if mine == to {
      assert p !in list;
      assert forall q :: q in [p] + list <==> q == p || q in list;
      forall i, j | 0 <= i < j < |list| + 1 ensures ([p] + list)[i] != ([p] + list)[j] {
        assert ([p] + list)[j] == list[j - 1] && list[j - 1] in list;
      }
      assert Gathers([p] + list, pool, mine);
    } else if mine == from {
      assert Gathers(Removed(list, p), pool, mine);
    } else {
      assert Gathers(list, pool, mine);
    }
  }

  class Synth {
    ghost const pool: set<PVoice>
    ghost const order: seq<PVoice>
    ghost const maxUpdates: nat
    const lists: Lists
    const voiceOf: map<Link, PVoice>   // the voice a node is embedded in
    var paramSamples: nat
    var freeParams: nat

    /** The voices of the three lists, first to last. */
    ghost var alloc: seq<PVoice>
    ghost var free: seq<PVoice>
    ghost var lame: seq<PVoice>

    /** Every caller's voice that has ever asked. */
    ghost var voices: set<VVoice>

    ghost function ListAt(place: Place): seq<PVoice>
      reads this`alloc, this`free, this`lame
    {
      match place case Allocated => alloc case Free => free case Lame => lame
    }

    /** Each physical voice is in exactly one of the three lists, once. */
    ghost predicate Listed()
      reads this`alloc, this`free, this`lame, pool`place
    {
      Gathers(alloc, pool, Allocated) && Gathers(free, pool, Free) && Gathers(lame, pool, Lame)
    }

    /** The lists are well linked and hold these voices. */
    ghost predicate Threaded()
      reads this`alloc, this`free, this`lame, lists, lists.links
    {
      && lists.Valid() && Threads(lists.alloc, alloc) && Threads(lists.free, free) && Threads(lists.lame, lame)
      && Embedded()
    }

    /** Every voice can be found from its node. */
    ghost predicate Embedded() {
      forall p :: p in pool ==> p.node in voiceOf && voiceOf[p.node] == p
    }

    /** A voice that owns a physical voice owns an allocated one, which knows it. */
    ghost predicate OwnersAgree()
      reads this`voices, pool`place, pool`vvoice, voices`pvoice
    {
      forall v :: v in voices && v.pvoice != null ==>
        v.pvoice in pool && v.pvoice.place == Allocated && v.pvoice.vvoice == v
    }

    ghost predicate AllSettled()
      reads this`voices, pool, voices`pvoice
    {
      forall p :: p in pool ==> Settled(p, voices)
    }

    /** No voice is lost: none is allocated for nobody with no give-back to come. */
    ghost predicate NoneLost()
      reads this`voices, pool, voices`pvoice
    {
      forall p :: p in pool ==> Kept(p, voices)
    }

    /** Free parameters, queued ones and `held` in hand always number maxUpdates. */
    ghost predicate ParamsKept(held: nat)
      reads this`freeParams, order`queue
    {
      && Different(order) && (forall p :: p in order ==> p in pool) && (forall p :: p in pool ==> p in order)
      && freeParams + Sum(Lengths(order)) + held == maxUpdates
    }

    ghost predicate Sound(held: nat)
      reads this, pool, order`queue, voices`pvoice, lists, lists.links
    {
      Listed() && Threaded() && OwnersAgree() && AllSettled() && ParamsKept(held)
    }

    ghost predicate Valid()
      reads this, pool, order`queue, voices`pvoice, lists, lists.links
    {
      Sound(0)
    }

    lemma Whole(held: nat)
      requires Listed() && Threaded() && OwnersAgree() && AllSettled() && ParamsKept(held)
      ensures Sound(held) && (held == 0 ==> Valid())
    {}

    // ---- reading the invariant ---------------------------------------------------------------

    lemma AtPlace(place: Place)
      requires Threaded()
      ensures lists.Valid() && Embedded() && Threads(lists.At(place), ListAt(place))
      ensures |lists.At(place).nodes| > 0 && lists.At(place).nodes[0] == lists.Header(place)
    {}

    lemma ListedAt(p: PVoice) returns (k: nat)
      requires Listed() && p in pool
      ensures Different(ListAt(p.place)) && k < |ListAt(p.place)| && ListAt(p.place)[k] == p
    {
      k :| k < |ListAt(p.place)| && ListAt(p.place)[k] == p;
    }

    lemma ThreadedAt(place: Place, k: nat)
      requires Threaded() && k < |ListAt(place)|
      ensures lists.Valid() && k + 1 < |lists.At(place).nodes| && lists.At(place).nodes[k + 1] == ListAt(place)[k].node
    {}

    lemma VoiceAt(place: Place, k: nat)
      requires Listed() && Threaded() && k < |ListAt(place)|
      ensures var p := ListAt(place)[k]; p in pool && p.place == place && p.node in voiceOf && voiceOf[p.node] == p
    {}

    lemma HeadMoves(p: PVoice, place: Place)
      requires Listed() && |ListAt(place)| > 0 && p == ListAt(place)[0]
      ensures Removed(ListAt(place), p) == ListAt(place)[1..]
    {}

    lemma Owner(voice: VVoice)
      requires OwnersAgree() && voice in voices && voice.pvoice != null
      ensures voice.pvoice in pool && voice.pvoice.place == Allocated && voice.pvoice.vvoice == voice
    {}

    // ---- the lists ---------------------------------------------------------------------------

    /** Unlink a physical voice from its list and link it at the head of another. */
    method Relink(p: PVoice, to: Place)
      requires Listed() && Threaded() && p in pool && p.place != to
      modifies this`alloc, this`free, this`lame, p`place, lists, lists.links
      ensures Listed() && Threaded() && p.place == to
      ensures forall place :: ListAt(place) == Moved(old(ListAt(place)), place, p, old(p.place), to)
    {
      hide *;
      Rethread(p, to);
      Replace(p, to);
    }

    /** The link writes. */
    method Rethread(p: PVoice, to: Place)
      requires Listed() && Threaded() && p in pool && p.place != to
      modifies lists, lists.links
      ensures lists.Valid() && Embedded()
      ensures forall place :: Threads(lists.At(place), Moved(ListAt(place), place, p, p.place, to))
    {
      hide *;
      ghost var from := p.place;
      ghost var k := ListedAt(p);
      ThreadedAt(from, k);
      AtPlace(Allocated);
      AtPlace(Free);
      AtPlace(Lame);
      ghost var c, d := lists.At(from), lists.At(to);
      lists.Unlink(p.node, from, k + 1);
      lists.LinkFirst(p.node, to);
      ThreadsWithout(c, ListAt(from), k, c.own - {p.node});
      ThreadsWith(d, ListAt(to), p, d.own + {p.node});
      forall place ensures Threads(lists.At(place), Moved(ListAt(place), place, p, from, to)) {
        MovedIs(ListAt(place), place, p, from, to);
      }
    }

    /** The ghost record of them. */
    ghost method Replace(p: PVoice, to: Place)
      requires Listed() && p in pool && p.place != to && lists.Valid() && Embedded()
      requires forall place :: Threads(lists.At(place), Moved(ListAt(place), place, p, p.place, to))
      modifies this`alloc, this`free, this`lame, p`place
      ensures Listed() && Threaded() && p.place == to
      ensures forall place :: ListAt(place) == Moved(old(ListAt(place)), place, p, old(p.place), to)
    {
      hide *;
      var from := p.place;
      var a, f, l := ListAt(Allocated), ListAt(Free), ListAt(Lame);
      ThreeLists();
      GatheredAt(p, Allocated);
      GatheredAt(p, Free);
      GatheredAt(p, Lame);
      p.place := to;
      MovedGathers(a, Allocated, p, from, to, pool);
      MovedGathers(f, Free, p, from, to, pool);
      MovedGathers(l, Lame, p, from, to, pool);
      alloc := Moved(a, Allocated, p, from, to);
      free := Moved(f, Free, p, from, to);
      lame := Moved(l, Lame, p, from, to);
      ThreeLists();
      forall place ensures ListAt(place) == Moved(old(ListAt(place)), place, p, from, to) {
        OneOfThree(place);
      }
      Rejoin();
    }

    lemma OneOfThree(place: Place)
      ensures place == Allocated || place == Free || place == Lame
    {}

    lemma ThreeLists()
      ensures ListAt(Allocated) == alloc && ListAt(Free) == free && ListAt(Lame) == lame
    {}

    lemma GatheredAt(p: PVoice, mine: Place)
      requires Listed() && p in pool
      ensures Different(ListAt(mine)) && (p in ListAt(mine) <==> mine == p.place)
      ensures forall q :: q in ListAt(mine) ==> q in pool && q.place == mine
      ensures forall q :: q in pool && q.place == mine ==> q in ListAt(mine)
    {}

    lemma Rejoin()
      requires Gathers(alloc, pool, Allocated) && Gathers(free, pool, Free) && Gathers(lame, pool, Lame)
      requires lists.Valid() && Embedded()
      requires forall place :: Threads(lists.At(place), ListAt(place))
      ensures Listed() && Threaded()
    {
      hide Gathers, Lists.Valid, Threads, Embedded;
      assert Threads(lists.At(Allocated), ListAt(Allocated));
      assert Threads(lists.At(Free), ListAt(Free));
      assert Threads(lists.At(Lame), ListAt(Lame));
    }

    /** A physical voice that nobody owns and that is not being given back changes lists. */
    method MoveTo(p: PVoice, to: Place)
      requires Valid() && p in pool && p.place != to && Frees(p.queue) == 0
      requires p.vvoice != null ==> p.vvoice.pvoice != p
      modifies this`alloc, this`free, this`lame, p`place, lists, lists.links
      ensures Valid() && p.place == to
      ensures forall place :: ListAt(place) == Moved(old(ListAt(place)), place, p, old(p.place), to)
    {
      hide Listed, Threaded, ParamsKept, Moved, Frees, Lengths;
      Relink(p, to);
    }

    /** The node behind the k-th voice of a list, or behind its header. */
    method NextIn(node: Link, place: Place, ghost k: nat) returns (next: Link?)
      requires Threaded() && k <= |ListAt(place)|
      requires node == if k == 0 then lists.Header(place) else ListAt(place)[k - 1].node
      ensures next == if k < |ListAt(place)| then ListAt(place)[k].node else null
    {
      AtPlace(place);
      hide Threaded, Lists.Valid;
      next := lists.After(node, place, k);
    }

    /** The last of the lowest-priority voices that may be stolen. */
    method FindStealable(voice: VVoice, priority: int) returns (candidate: PVoice?, ghost k: nat)
      requires Listed() && Threaded() && voice.priority == priority
      ensures candidate == null ==> NoVictim(alloc, voice, priority)
      ensures candidate != null ==> k < |alloc| && alloc[k] == candidate && Victim(alloc, k, voice, priority)
      ensures candidate == null ==>
                forall p :: p in alloc && p.vvoice != null && p.offset == 0 ==> p.vvoice.priority > priority
      ensures candidate != null ==>
                && candidate.vvoice != null && candidate.vvoice.priority <= priority && candidate.offset == 0
                && forall j :: 0 <= j < |alloc| && alloc[j].vvoice != null && alloc[j].offset == 0 ==>
                     && candidate.vvoice.priority <= alloc[j].vvoice.priority
                     && (j > k ==> candidate.vvoice.priority < alloc[j].vvoice.priority)
    {
      hide Listed, Threaded, Victim, NoVictim;
      candidate, k := null, 0;
      var lowest := priority;
      ghost var i := 0;
      NoneYet(voice, priority);
      var node := NextIn(lists.allocList, Allocated, 0);
      while node != null
        invariant i <= |alloc| && node == if i < |alloc| then alloc[i].node else null
        invariant candidate == null ==> lowest == priority && NoVictim(alloc[..i], voice, priority)
        invariant candidate != null ==> k < i && alloc[k] == candidate && Victim(alloc[..i], k, voice, priority)
        invariant candidate != null ==> candidate.vvoice != null && lowest == candidate.vvoice.priority
        decreases |alloc| - i
      {
        VoiceAt(Allocated, i);
        var physical := voiceOf[node];
        if candidate == null {
          VictimStep(alloc, i, voice, priority);
        } else {
          VictimOrNext(alloc, i, k, voice, priority);
          VictimBound(alloc[..i], k, voice, priority);
        }
        if physical.vvoice != null && physical.vvoice.priority <= lowest && physical.offset == 0 {
          candidate, k := physical, i;
          lowest := physical.vvoice.priority;
        }
        node := NextIn(node, Allocated, i + 1);
        i := i + 1;
      }
      assert alloc[..i] == alloc;
      if candidate == null {
        NoVictimSpelled(alloc, voice, priority);
      } else {
        VictimSpelled(alloc, k, voice, priority);
      }
    }

    lemma NoneYet(voice: VVoice, priority: int)
      ensures NoVictim(alloc[..0], voice, priority)
    {}

    // ---- parameters --------------------------------------------------------------------------

    /** Take a parameter off the free list, if there is one. */
    method AllocParam(ghost held: nat) returns (ok: bool)
      requires ParamsKept(held)
      modifies this`freeParams
      ensures ok <==> old(freeParams) > 0
      ensures freeParams == old(freeParams) - (if ok then 1 else 0)
      ensures ParamsKept(held + if ok then 1 else 0)
    {
      hide Different, Lengths, Sum;
      ok := freeParams > 0;
      if ok {
        freeParams := freeParams - 1;
      }
    }

    method FreeParam(ghost held: nat)
      requires ParamsKept(held) && held > 0
      modifies this`freeParams
      ensures freeParams == old(freeParams) + 1 && ParamsKept(held - 1)
    {
      hide Different, Lengths, Sum;
      freeParams := freeParams + 1;
    }

    lemma OrderOf(p: PVoice) returns (k: nat)
      requires Different(order) && p in order
      ensures k < |order| && order[k] == p && forall j :: 0 <= j < |order| && j != k ==> order[j] != p
    {
      k :| 0 <= k < |order| && order[k] == p;
    }

    /** Queue a parameter in hand on a voice; without a filter it goes straight back. */
    method Enqueue(p: PVoice, u: Update, ghost held: nat)
      requires p in pool && ParamsKept(held) && held > 0
      modifies this`freeParams, p`queue
      ensures p.queue == if p.knob then old(p.queue) + [u] else old(p.queue)
      ensures freeParams == old(freeParams) + (if p.knob then 0 else 1)
      ensures ParamsKept(held - 1)
    {
      ghost var before := Lengths(order);
      if !p.knob {
        hide ParamsKept;
        FreeParam(held);
        return;
      }
      ghost var k := OrderOf(p);
      hide Different;
      p.queue := p.queue + [u];
      assert Lengths(order) == before[k := |p.queue|];
      SumUpdate(before, k, |p.queue|);
    }

    /** The first update leaves a voice's queue and its parameter goes back. */
    method PopFirst(p: PVoice)
      requires p in pool && ParamsKept(0) && |p.queue| > 0
      modifies this`freeParams, p`queue
      ensures ParamsKept(0) && p.queue == old(p.queue)[1..] && freeParams == old(freeParams) + 1
    {
      ghost var before := Lengths(order);
      ghost var k := OrderOf(p);
      hide Different;
      p.queue := p.queue[1..];
      freeParams := freeParams + 1;
      assert Lengths(order) == before[k := |p.queue|];
      SumUpdate(before, k, |p.queue|);
    }

    /** A physical voice that is stolen or being given back stays allocated until it is given back. */
    twostate predicate StolenStay()
      reads this, pool
    {
      forall p :: p in pool && old(p.place) == Allocated && old(p.offset) != 0 ==>
        (p.place == Allocated && p.offset != 0) || p.place == Lame
    }

    /** Queue an update, with a parameter in hand, that gives nothing back. */
    method QueueChange(p: PVoice, u: Update, ghost held: nat)
      requires Sound(held) && held > 0 && p in pool && !u.FreeVoice?
      modifies this`freeParams, p`queue
      ensures Sound(held - 1) && Frees(p.queue) == old(Frees(p.queue))
      ensures freeParams == old(freeParams) + (if p.knob then 0 else 1)
      ensures p.queue == if p.knob then old(p.queue) + [u] else old(p.queue)
    {
      hide Listed, Threaded, OwnersAgree, ParamsKept, Lengths, Frees;
      FreesAppend(p.queue, u);
      Enqueue(p, u, held);
    }

    /** A parameter, queued as an update if there is one. */
    method Submit(p: PVoice, u: Update) returns (ok: bool)
      requires Valid() && p in pool && !u.FreeVoice?
      modifies this`freeParams, p`queue
      ensures Valid() && (ok <==> old(freeParams) > 0)
      ensures freeParams == old(freeParams) - (if ok && p.knob then 1 else 0)
      ensures p.queue == if ok && p.knob then old(p.queue) + [u] else old(p.queue)
      ensures Frees(p.queue) == old(Frees(p.queue))
    {
      hide Listed, Threaded, OwnersAgree, AllSettled, ParamsKept, Frees;
      ok := AllocParam(0);
      if ok {
        QueueChange(p, u, 1);
      }
    }

    /** A change of volume, pan, pitch and so on: one parameter, queued on the owned voice. */
    method UpdateVoice(voice: VVoice, kind: int)
      requires Valid() && voice in voices
      modifies this`freeParams, pool`queue
      ensures Valid() && StolenStay()
      ensures forall p :: p in pool ==>
                p.queue == if p == voice.pvoice && p.knob && old(freeParams) > 0
                           then old(p.queue) + [Change(paramSamples + p.offset, kind)] else old(p.queue)
      ensures old(NoneLost()) ==> NoneLost()
    {
      hide Listed, Threaded, OwnersAgree, AllSettled, ParamsKept, Frees;
      if voice.pvoice == null {
        return;
      }
      Owner(voice);
      var p := voice.pvoice;
      var _ := Submit(p, Change(paramSamples + p.offset, kind));
    }

    // ---- giving voices back ------------------------------------------------------------------

    /** Give a voice back: at once, or, while it is fading from a theft, by a queued request. A voice is lost
        if and only if that request has no filter to go to. */
    method FreeVoice(voice: VVoice)
      requires Valid() && voice in voices
      modifies this`freeParams, this`alloc, this`free, this`lame, pool`place, pool`queue, voice`pvoice
      modifies lists, lists.links
      ensures Valid() && StolenStay()
      ensures voice.pvoice == null || (voice.pvoice == old(voice.pvoice) && old(freeParams) == 0)
      ensures forall p :: p in pool && p != old(voice.pvoice) ==> p.place == old(p.place) && p.queue == old(p.queue)
      ensures var p := old(voice.pvoice);
              p != null ==>
                if old(p.offset) == 0 then
                  p.place == Lame && lame == [p] + old(lame) && p.queue == old(p.queue) && voice.pvoice == null
                else
                  p.place == Allocated &&
                  p.queue == if p.knob && voice.pvoice == null
                             then old(p.queue) + [Update.FreeVoice(paramSamples + p.offset, p)] else old(p.queue)
      ensures var p := old(voice.pvoice);
              old(NoneLost()) ==>
                (NoneLost() <==> !(p != null && old(p.offset) != 0 && !p.knob && voice.pvoice == null))
    {
      hide Listed, Threaded, OwnersAgree, AllSettled, ParamsKept, Frees;
      if voice.pvoice == null {
        return;
      }
      Owner(voice);
      var p := voice.pvoice;
      if p.offset == 0 {
        Disown(p, voice);
        GiveBack(p);
        return;
      }
      var ok := AllocParam(0);
      if ok {
        QueueGiveBack(p, voice);
      }
    }

    /** The owner of a voice that is not stolen lets go of it. */
    method Disown(p: PVoice, voice: VVoice)
      requires Valid() && voice in voices && voice.pvoice == p && p.offset == 0 && p.vvoice == voice && p in pool
      modifies voice`pvoice
      ensures Valid() && voice.pvoice == null && Frees(p.queue) == 0
    {
      hide Listed, Threaded, ParamsKept, Frees;
      voice.pvoice := null;
    }

    /** The owner of a stolen voice lets go of it with a parameter in hand, which asks for it back later. */
    method QueueGiveBack(p: PVoice, voice: VVoice)
      requires Sound(1) && voice in voices && voice.pvoice == p && p.vvoice == voice && p in pool
      requires p.place == Allocated && p.offset != 0
      modifies this`freeParams, p`queue, voice`pvoice
      ensures Valid() && voice.pvoice == null
      ensures p.queue == if p.knob then old(p.queue) + [Update.FreeVoice(paramSamples + p.offset, p)] else old(p.queue)
      ensures Frees(p.queue) == if p.knob then 1 else 0
    {
      hide Listed, Threaded, ParamsKept, Lengths, Frees;
      var u := Update.FreeVoice(paramSamples + p.offset, p);
      FreesAppend(p.queue, u);
      Enqueue(p, u, 1);
      voice.pvoice := null;
    }

    /** A physical voice that nobody owns goes to the lame list. */
    method GiveBack(p: PVoice)
      requires Valid() && p in pool && p.place == Allocated && Frees(p.queue) == 0
      requires p.vvoice != null ==> p.vvoice.pvoice != p
      modifies this`alloc, this`free, this`lame, p`place, lists, lists.links
      ensures Valid() && p.place == Lame && lame == [p] + old(lame)
      ensures alloc == Removed(old(alloc), p) && free == old(free)
    {
      hide Sound;
      MovedIs(alloc, Allocated, p, Allocated, Lame);
      MovedIs(free, Free, p, Allocated, Lame);
      MovedIs(lame, Lame, p, Allocated, Lame);
      MoveTo(p, Lame);
      assert ListAt(Allocated) == alloc && ListAt(Free) == free && ListAt(Lame) == lame;
    }

    /** The envelope mixer takes the first of a voice's updates; a give-back frees the voice. */
    method Process(p: PVoice)
      requires Valid() && p in pool && |p.queue| > 0
      modifies this`freeParams, this`alloc, this`free, this`lame, pool`place, p`offset, p`queue, lists, lists.links
      ensures Valid() && StolenStay()
      ensures p.queue == old(p.queue)[1..] && freeParams == old(freeParams) + 1
      ensures forall q :: q in pool && q != p ==> q.place == old(q.place)
      ensures if old(p.queue)[0].FreeVoice? then p.offset == 0 && p.place == Lame && lame == [p] + old(lame)
              else p.offset == old(p.offset) && p.place == old(p.place) && lame == old(lame)
      ensures old(NoneLost()) ==> NoneLost()
    {
      hide Listed, Threaded, OwnersAgree, AllSettled, ParamsKept, Settled, Frees;
      var u := p.queue[0];
      TakeUpdate(p);
      if u.FreeVoice? {
        GiveBack(u.target);
      }
    }

    /** The first update leaves the queue; a give-back puts its voice in phase again. */
    method TakeUpdate(p: PVoice)
      requires Valid() && p in pool && |p.queue| > 0
      modifies this`freeParams, p`offset, p`queue
      ensures Valid() && p.queue == old(p.queue)[1..] && freeParams == old(freeParams) + 1
      ensures var u := old(p.queue)[0];
              if u.FreeVoice? then
                && u.target == p && p.offset == 0 && p.place == Allocated && old(p.offset) != 0 && Frees(p.queue) == 0
                && (p.vvoice != null ==> p.vvoice.pvoice != p)
              else p.offset == old(p.offset) && Frees(p.queue) == old(Frees(p.queue))
    {
      hide Listed, Threaded, OwnersAgree, ParamsKept, Lengths, Frees;
      var u := p.queue[0];
      FreesTail(p.queue);
      PopFirst(p);
      if u.FreeVoice? {
        u.target.offset := 0;
      }
    }

    /** Voices given back become free: each goes to the head of the free list in turn. */
    method Collect()
      requires Valid()
      modifies this`alloc, this`free, this`lame, pool`place, lists, lists.links
      ensures Valid() && StolenStay()
      ensures lame == [] && free == Reversed(old(lame)) + old(free) && alloc == old(alloc)
      ensures old(NoneLost()) ==> NoneLost()
    {
      hide Valid, Reversed, Frees;
      var node := FirstIn(Lame);
      while node != null
        invariant Valid() && alloc == old(alloc)
        invariant node == if |lame| > 0 then lame[0].node else null
        invariant forall p :: p in pool ==> (p.place == Allocated <==> old(p.place) == Allocated)
        invariant Reversed(lame) + free == Reversed(old(lame)) + old(free)
        decreases |lame|
      {
        ReversedHead(lame, free);
        CollectOne(node);
        node := FirstIn(Lame);
      }
      assert Reversed(lame) + free == free by { ReversedNone(free); }
    }

    method FirstIn(place: Place) returns (node: Link?)
      requires Valid()
      ensures node == if |ListAt(place)| > 0 then ListAt(place)[0].node else null
    {
      hide Listed, Threaded, OwnersAgree, AllSettled, ParamsKept;
      node := NextIn(lists.Header(place), place, 0);
    }

    /** The voice of the first node of a list that is not the allocated one. */
    method HeadVoice(node: Link, ghost from: Place) returns (p: PVoice)
      requires Valid() && from != Allocated && |ListAt(from)| > 0 && node == ListAt(from)[0].node
      ensures p == ListAt(from)[0] && p in pool && p.place == from && Removed(ListAt(from), p) == ListAt(from)[1..]
      ensures Frees(p.queue) == 0 && (p.vvoice != null ==> p.vvoice.pvoice != p)
    {
      hide Listed, Threaded, ParamsKept, Removed, Frees;
      VoiceAt(from, 0);
      p := voiceOf[node];
      HeadMoves(p, from);
    }

    method CollectOne(node: Link)
      requires Valid() && |lame| > 0 && node == lame[0].node
      modifies this`alloc, this`free, this`lame, pool`place, lists, lists.links
      ensures Valid() && alloc == old(alloc) && lame == old(lame)[1..] && free == [old(lame)[0]] + old(free)
      ensures forall p :: p in pool ==> (p.place == Allocated <==> old(p.place) == Allocated)
    {
      hide Sound, Removed;
      var p := HeadVoice(node, Lame);
      MovedIs(alloc, Allocated, p, Lame, Free);
      MovedIs(free, Free, p, Lame, Free);
      MovedIs(lame, Lame, p, Lame, Free);
      MoveTo(p, Free);
      assert ListAt(Allocated) == alloc && ListAt(Free) == free && ListAt(Lame) == lame;
    }

    /** `alSynNew`: every voice is linked at the head of the free list. `nodes` holds the voices' nodes, and
        `voiceOf` finds a voice from its node. */
    constructor (pool: seq<PVoice>, voiceOf: map<Link, PVoice>, ghost nodes: set<Link>, maxUpdates: nat)
      requires Different(pool)
      requires forall p :: p in pool ==> p.node in nodes && p.node in voiceOf && voiceOf[p.node] == p
      requires forall p :: p in pool ==> p.place == Free && p.offset == 0 && p.vvoice == null && p.queue == []
      modifies nodes
      ensures Valid() && free == Reversed(pool) && alloc == lame == [] && freeParams == maxUpdates && voices == {}
      ensures NoneLost()
      ensures this.pool == (set p | p in pool) && this.maxUpdates == maxUpdates && paramSamples == 0
    {
      hide *;
      this.pool := set p | p in pool;
      order := pool;
      this.maxUpdates := maxUpdates;
      paramSamples := 0;
      alloc, free, lame := [], [], [];
      freeParams := maxUpdates;
      voices := {};
      lists := new Lists(nodes);
      this.voiceOf := voiceOf;
      new;
      Embed();
      Fill(pool);
      AllFree();
      Whole(0);
    }

    lemma Embed()
      requires forall p :: p in pool ==> p.node in voiceOf && voiceOf[p.node] == p
      ensures Embedded()
    {}

    /** At the start every voice is free and every parameter too. */
    lemma AllFree()
      requires Different(order) && pool == (set p | p in order)
      requires forall p :: p in pool ==> p.place == Free && p.offset == 0 && p.vvoice == null && p.queue == []
      requires alloc == lame == [] && free == Reversed(order) && freeParams == maxUpdates && voices == {}
      ensures Listed() && OwnersAgree() && AllSettled() && ParamsKept(0) && NoneLost()
    {
      ReversedFacts(order);
      AllEmpty(Lengths(order));
    }

    method Fill(items: seq<PVoice>)
      requires lists.Valid() && |lists.alloc.nodes| == |lists.free.nodes| == |lists.lame.nodes| == 1 && Embedded()
      requires alloc == free == lame == [] && forall p :: p in items ==> lists.InHand(p.node)
      requires Different(items) && forall p :: p in items ==> p.node in voiceOf && voiceOf[p.node] == p
      modifies this`free, lists, lists.links
      ensures Threaded() && free == Reversed(items)
    {
      for i := 0 to |items|
        invariant lists.Valid() && lists.At(Allocated) == old(lists.alloc) && lists.At(Lame) == old(lists.lame)
        invariant Threads(lists.At(Free), free)
        invariant free == Reversed(items[..i]) && forall j :: i <= j < |items| ==> lists.InHand(items[j].node)
      {
        hide Threads, Lists.Valid, Reversed;
        assert items[..i + 1] == items[..i] + [items[i]];
        ReversedEnd(items[..i], items[i]);
        LinkFree(items[i]);
      }
      assert items[..|items|] == items;
      assert lists.At(Allocated) == lists.alloc && lists.At(Free) == lists.free && lists.At(Lame) == lists.lame;
    }

    /** A voice's node is linked at the head of the free list. */
    method LinkFree(p: PVoice)
      requires lists.Valid() && Threads(lists.At(Free), free) && lists.InHand(p.node)
      modifies this`free, lists, lists.links
      ensures lists.Valid() && Threads(lists.At(Free), free) && free == [p] + old(free)
      ensures forall place :: place != Free ==> lists.At(place) == old(lists.At(place))
      ensures forall n :: n in lists.links && n != p.node && old(lists.InHand(n)) ==> lists.InHand(n)
    {
      ghost var c := lists.At(Free);
      lists.OwnIs();
      hide *;
      lists.LinkFirst(p.node, Free);
      ThreadsWith(c, free, p, c.own + {p.node});
      free := [p] + free;
      lists.OwnIs();
    }

    // ---- taking voices -----------------------------------------------------------------------

    /** `take_first_voice`: the first voice of one list moves to the head of the allocated ones. */
    method TakeFrom(from: Place) returns (p: PVoice?)
      requires Valid() && from != Allocated
      modifies this`alloc, this`free, this`lame, pool`place, lists, lists.links
      ensures Valid()
      ensures old(ListAt(from)) == [] ==> p == null && unchanged(this) && unchanged(pool`place)
      ensures p != null ==> old(ListAt(from)) != [] && p == old(ListAt(from))[0] && p in pool && p.place == Allocated
      ensures p != null ==> alloc == [p] + old(alloc) && ListAt(from) == old(ListAt(from))[1..]
      ensures p == null ==> old(ListAt(from)) == []
      ensures forall other :: other != Allocated && other != from ==> ListAt(other) == old(ListAt(other))
      ensures p != null ==> old(p.place) != Allocated && forall q :: q in pool && q != p ==> q.place == old(q.place)
      ensures p != null ==> Frees(p.queue) == 0 && (p.vvoice != null ==> p.vvoice.pvoice != p)
    {
      hide Sound, Removed, Frees, Moved;
      var node := FirstIn(from);
      if node == null {
        return null;
      }
      p := HeadVoice(node, from);
      forall place
        ensures place == Allocated ==> Moved(ListAt(place), place, p, from, Allocated) == [p] + ListAt(place)
        ensures place == from ==> Moved(ListAt(place), place, p, from, Allocated) == Removed(ListAt(place), p)
        ensures place != Allocated && place != from ==> Moved(ListAt(place), place, p, from, Allocated) == ListAt(place)
      {
        MovedIs(ListAt(place), place, p, from, Allocated);
      }
      MoveTo(p, Allocated);
      assert ListAt(Allocated) == alloc;
    }

    /** The first lame voice, or else the first free one. */
    method TakeFirst() returns (p: PVoice?)
      requires Valid()
      modifies this`alloc, this`free, this`lame, pool`place, lists, lists.links
      ensures Valid()
      ensures old(lame) != [] ==> p == old(lame)[0] && lame == old(lame)[1..] && free == old(free)
      ensures old(lame) == [] && old(free) != [] ==> p == old(free)[0] && free == old(free)[1..] && lame == []
      ensures old(lame) == [] && old(free) == [] ==> p == null && unchanged(this) && unchanged(pool`place)
      ensures p != null ==> p in pool && alloc == [p] + old(alloc) && p.place == Allocated && old(p.place) != Allocated
      ensures forall q :: q in pool && q != p ==> q.place == old(q.place)
      ensures p != null ==> Frees(p.queue) == 0 && (p.vvoice != null ==> p.vvoice.pvoice != p)
    {
      hide Valid, Frees;
      ghost var f := ListAt(Free);
      p := TakeFrom(Lame);
      assert ListAt(Free) == f;
      if p == null {
        ghost var l := ListAt(Lame);
        p := TakeFrom(Free);
        assert ListAt(Lame) == l;
      }
    }

    /** Take over a voice from its owner, with two parameters in hand: fade it out, stop it a little later, and
        start the newcomer after. */
    method Steal(p: PVoice)
      requires Sound(2) && p in pool && p.place == Allocated && p.offset == 0 && p.vvoice != null
      modifies this`freeParams, p`offset, p`queue, p.vvoice`pvoice
      ensures Valid() && p.offset == 512 && p.vvoice.pvoice == null && Frees(p.queue) == 0
      ensures p.queue == if p.knob then old(p.queue) + [SetVolume(paramSamples, 0, 448), StopVoice(paramSamples + 512)]
                         else old(p.queue)
      ensures freeParams == old(freeParams) + (if p.knob then 0 else 2)
    {
      hide Sound, Frees;
      TakeOver(p);
      QueueChange(p, SetVolume(paramSamples, 0, p.offset - FADE_MARGIN), 2);
      QueueChange(p, StopVoice(paramSamples + p.offset), 1);
    }

    /** The old owner loses the voice, which is marked stolen. */
    method TakeOver(p: PVoice)
      requires Sound(2) && p in pool && p.place == Allocated && p.offset == 0 && p.vvoice != null
      modifies p`offset, p.vvoice`pvoice
      ensures Sound(2) && p.offset == STEAL_OFFSET && p.vvoice.pvoice == null && Frees(p.queue) == 0
    {
      hide Listed, Threaded, ParamsKept, Frees;
      p.offset := STEAL_OFFSET;
      p.vvoice.pvoice := null;
    }

    /** A caller's voice starts over. */
    method Reset(voice: VVoice, priority: int)
      requires Valid()
      modifies this`voices, voice
      ensures Valid() && voices == old(voices) + {voice} && voice.priority == priority && voice.pvoice == null
    {
      hide Listed, Threaded, ParamsKept, Frees;
      voice.priority := priority;
      voice.pvoice := null;
      voices := voices + {voice};
    }

    lemma KnownOwner(j: nat)
      requires Listed() && AllSettled() && j < |alloc|
      ensures alloc[j] in pool && (alloc[j].vvoice != null ==> alloc[j].vvoice in voices)
    {
      assert alloc[j] in pool;
      assert Settled(alloc[j], voices);
    }

    lemma InPhase(p: PVoice)
      requires AllSettled() && p in pool && p.offset == 0
      ensures Frees(p.queue) == 0
    {
      assert Settled(p, voices);
    }

    lemma KnownOwners()
      requires Valid()
      ensures forall j :: 0 <= j < |alloc| ==>
                alloc[j] in pool && (alloc[j].vvoice != null ==> alloc[j].vvoice in voices)
    {
      hide Listed, AllSettled, Threaded, OwnersAgree, ParamsKept;
      forall j | 0 <= j < |alloc|
        ensures alloc[j] in pool && (alloc[j].vvoice != null ==> alloc[j].vvoice in voices)
      {
        KnownOwner(j);
      }
    }

    /** What a caller's voice owns as it asks again. */
    ghost function Owns(voice: VVoice): PVoice?
      reads this`voices, voice
    {
      if voice in voices then voice.pvoice else null
    }

    lemma OwnedAlone(voice: VVoice)
      requires Valid()
      ensures LeftBy(Owns(voice), voice)
    {
      hide Listed, Threaded, ParamsKept, Frees;
      if Owns(voice) != null {
        Owner(voice);
        assert Settled(voice.pvoice, voices);
      }
    }

    /** A caller's voice starts over; the choice of a victim already uses its new priority. */
    method Ask(voice: VVoice, priority: int)
      requires Valid()
      modifies this`voices, voice
      ensures Valid() && voices == old(voices) + {voice} && voice.priority == priority && voice.pvoice == null
      ensures forall k :: 0 <= k < |alloc| && Victim(alloc, k, voice, priority) ==>
                old(Victim(alloc, k, voice, priority))
      ensures NoVictim(alloc, voice, priority) ==> old(NoVictim(alloc, voice, priority))
      ensures LeftBy(old(Owns(voice)), voice) && (old(NoneLost()) ==> KeptBut(old(Owns(voice)), null))
    {
      hide Sound, Frees;
      KnownOwners();
      OwnedAlone(voice);
      Reset(voice, priority);
      forall j | 0 <= j < |alloc| && alloc[j].vvoice != null
        ensures OwnerPriority(alloc[j], voice, priority) == old(OwnerPriority(alloc[j], voice, priority))
        ensures Eligible(alloc[j], voice, priority) == old(Eligible(alloc[j], voice, priority))
      {
      }
    }

    /** p is stolen: its queue fades it out over 448 samples and stops it at 512, and the two parameters are
        used; without a filter there is no queue to put them in, and they are not. */
    twostate predicate Silenced(p: PVoice)
      reads this, p
    {
      && p.offset == 512 && freeParams == old(freeParams) - (if p.knob then 2 else 0)
      && p.queue == old(p.queue) +
                    if p.knob then [SetVolume(paramSamples, 0, 448), StopVoice(paramSamples + 512)] else []
    }

    /** p was the one to steal. */
    twostate predicate WasVictim(p: PVoice, voice: VVoice, priority: int)
      reads this
    {
      exists k :: 0 <= k < |old(alloc)| && old(alloc)[k] == p && old(Victim(alloc, k, voice, priority))
    }

    /** No voice but p has had its queue or its offset changed. */
    twostate predicate OthersPlayOn(p: PVoice?)
      reads this, pool
    {
      forall q :: q in pool && q != p ==> q.offset == old(q.offset) && q.queue == old(q.queue)
    }

    /** Steal the last lowest-priority voice that may be stolen, if two parameters can be had for it. */
    method TrySteal(voice: VVoice, priority: int) returns (p: PVoice?, ghost k: nat)
      requires Valid() && voice in voices && voice.priority == priority && voice.pvoice == null
      modifies this`freeParams, pool`offset, pool`queue, voices`pvoice
      ensures Valid() && voice.pvoice == null
      ensures p == null ==> freeParams == old(freeParams) && unchanged(pool) && unchanged(voices`pvoice)
      ensures p == null ==> NoVictim(alloc, voice, priority) || freeParams < 2
      ensures p != null ==> k < |alloc| && alloc[k] == p && old(Victim(alloc, k, voice, priority))
      ensures p != null ==> old(freeParams) >= 2
      ensures p != null ==> p in pool && p.place == Allocated && p.offset == 512 && Frees(p.queue) == 0
      ensures p != null ==>
                p.queue == old(p.queue) +
                           if p.knob then [SetVolume(paramSamples, 0, 448), StopVoice(paramSamples + 512)] else []
      ensures p != null ==> freeParams == old(freeParams) - (if p.knob then 2 else 0)
      ensures p != null ==> p.vvoice != null && p.vvoice.pvoice == null
      ensures p != null ==> old(Frees(p.queue)) == 0 && old(p.place) == Allocated
      ensures p != null ==> forall v :: v in voices && v != p.vvoice ==> v.pvoice == old(v.pvoice)
      ensures p != null ==> forall q :: q in pool && q != p ==> q.offset == old(q.offset) && q.queue == old(q.queue)
    {
      hide Listed, Threaded, OwnersAgree, AllSettled, ParamsKept, Victim, NoVictim, Frees;
      p, k := FindStealable(voice, priority);
      if p == null {
        return;
      }
      VictimEligible(alloc, k, voice, priority);
      VoiceAt(Allocated, k);
      KnownOwner(k);
      InPhase(p);
      var ok := TakeTwo();
      if !ok {
        return null, 0;
      }
      Steal(p);
    }

    /** Two parameters, or none. */
    method TakeTwo() returns (ok: bool)
      requires Valid()
      modifies this`freeParams
      ensures ok <==> old(freeParams) >= 2
      ensures if ok then Sound(2) && freeParams == old(freeParams) - 2 else Valid() && freeParams == old(freeParams)
    {
      hide Listed, Threaded, OwnersAgree, AllSettled, ParamsKept;
      var fade := AllocParam(0);
      var stop := AllocParam(if fade then 1 else 0);
      if !fade || !stop {
        if fade {
          FreeParam(1);
        }
        return false;
      }
      return true;
    }

    /** A voice that is not stolen starts without delay. */
    method ClearOffset(p: PVoice)
      requires Valid() && p in pool && Frees(p.queue) == 0
      modifies p`offset
      ensures Valid() && p.offset == 0
    {
      hide Listed, Threaded, OwnersAgree, ParamsKept, Frees;
      p.offset := 0;
    }

    /** A voice that only `owner` could own is allocated and no give-back of it is queued. */
    ghost predicate LeftBy(p: PVoice?, owner: VVoice)
      reads p, pool
    {
      p != null ==> p in pool && p.place == Allocated && p.vvoice == owner && Frees(p.queue) == 0
    }

    /** No voice but these two is lost. */
    ghost predicate KeptBut(x: PVoice?, y: PVoice?)
      reads this`voices, pool, voices`pvoice
    {
      forall p :: p in pool && p != x && p != y ==> Kept(p, voices)
    }

    /** A physical voice for a caller: a lame one, else a free one, else a stolen one, else none. A voice is
        lost if and only if the caller still owned one, and did not get that one back. */
    method AllocVoice(voice: VVoice, priority: int) returns (ok: bool, ghost p: PVoice?, ghost owner: VVoice?)
      requires Valid()
      modifies this`freeParams, this`alloc, this`free, this`lame, this`voices, pool, voice, voices`pvoice
      modifies lists, lists.links
      ensures Valid() && voices == old(voices) + {voice} && voice.priority == priority
      ensures p == voice.pvoice && ok == (p != null)
      ensures old(NoneLost()) ==>
                (NoneLost() <==> !(voice in old(voices) && old(voice.pvoice) != null && p != old(voice.pvoice)))
      ensures p != null ==> p in pool && p.vvoice == voice && Frees(p.queue) == 0
      ensures StolenStay()
      ensures old(lame) != [] ==>
                ok && p == old(lame)[0] && lame == old(lame)[1..] && free == old(free) && alloc == [p] + old(alloc)
      ensures old(lame) == [] && old(free) != [] ==>
                ok && p == old(free)[0] && lame == [] && free == old(free)[1..] && alloc == [p] + old(alloc)
      ensures old(lame) != [] || old(free) != [] ==>
                owner == null && p.offset == 0 && p.queue == old(p.queue) && freeParams == old(freeParams)
      ensures old(lame) == [] && old(free) == [] && p != null ==>
                && owner != null && owner == old(p.vvoice) && (owner != voice ==> owner.pvoice == null)
                && old(freeParams) >= 2 && alloc == old(alloc) && WasVictim(p, voice, priority)
      ensures old(lame) == [] && old(free) == [] && p != null ==> Silenced(p)
      ensures OthersPlayOn(p)
      ensures forall v :: v in voices && v != voice && v != owner ==> v.pvoice == old(v.pvoice)
      ensures !ok ==>
                owner == null && alloc == old(alloc) && old(lame) == [] == old(free) && freeParams == old(freeParams)
      ensures !ok ==> old(NoVictim(alloc, voice, priority)) || freeParams < 2
    {
      hide Valid, Victim, NoVictim, Frees, Kept, LeftBy, KeptBut, NoneLost;
      ghost var was, none := Owns(voice), NoneLost();
      ghost var steals := lame == [] && free == [];
      Ask(voice, priority);
      var physical := Obtain(voice, priority, was);
      p, owner := physical, if steals && physical != null then physical.vvoice else null;
      if physical == null {
        ok := false;
      } else {
        Own(physical, voice, was);
        ok := true;
      }
      if none {
        LostIf(was, voice);
      }
    }

    /** Only a voice that its owner has left is lost. */
    lemma LostIf(was: PVoice?, voice: VVoice)
      requires KeptBut(was, null)
      requires was == null || (was == voice.pvoice && Kept(was, voices)) || (was != voice.pvoice && LeftBy(was, voice))
      ensures NoneLost() <==> (was == null || was == voice.pvoice)
    {}

    /** A voice for the caller: a lame one, else a free one, else a stolen one, else none. */
    method Obtain(voice: VVoice, priority: int, ghost was: PVoice?) returns (p: PVoice?)
      requires Valid() && voice in voices && voice.priority == priority && voice.pvoice == null && LeftBy(was, voice)
      modifies this`freeParams, this`alloc, this`free, this`lame, pool`place, pool`offset, pool`queue
      modifies voices`pvoice, lists, lists.links
      ensures Valid() && voice.pvoice == null && StolenStay()
      ensures p != null ==> p in pool && p.place == Allocated && Frees(p.queue) == 0
      ensures old(lame) != [] ==> p == old(lame)[0] && p.offset == 0
      ensures old(lame) == [] && old(free) != [] ==> p == old(free)[0] && p.offset == 0
      ensures old(lame) == [] && old(free) == [] && p != null ==>
                old(freeParams) >= 2 && alloc == old(alloc) && WasVictim(p, voice, priority)
      ensures old(lame) == [] && old(free) == [] && p != null ==> Silenced(p)
      ensures old(lame) != [] || old(free) != [] ==> p.queue == old(p.queue) && freeParams == old(freeParams)
      ensures OthersPlayOn(p)
      ensures old(lame) != [] ==> lame == old(lame)[1..] && free == old(free) && alloc == [p] + old(alloc)
      ensures old(lame) == [] && old(free) != [] ==> lame == [] && free == old(free)[1..] && alloc == [p] + old(alloc)
      ensures forall v :: v in voices && v.pvoice != old(v.pvoice) ==>
                p != null && v.pvoice == null && old(lame) == [] && old(free) == [] && v == p.vvoice
      ensures old(lame) == [] && old(free) == [] && p != null ==>
                p.vvoice != null && p.vvoice.pvoice == null
      ensures p == null ==> alloc == old(alloc) && old(lame) == [] == old(free) && freeParams == old(freeParams)
      ensures p == null ==> old(NoVictim(alloc, voice, priority)) || freeParams < 2
      ensures p != null && p.vvoice != null ==> p.vvoice.pvoice != p
      ensures was == p || LeftBy(was, voice)
      ensures old(KeptBut(was, null)) ==> KeptBut(was, p)
    {
      hide Valid, Victim, NoVictim, Frees, Kept, KeptBut, LeftBy;
      p := Reuse(voice, was);
      if p == null {
        ghost var k;
        p, k := StealFor(voice, priority, was);
      }
    }

    /** A voice that was given back, in phase again. */
    method Reuse(voice: VVoice, ghost was: PVoice?) returns (p: PVoice?)
      requires Valid() && voice in voices && voice.pvoice == null && LeftBy(was, voice)
      modifies this`alloc, this`free, this`lame, pool`place, pool`offset, lists, lists.links
      ensures Valid() && StolenStay()
      ensures old(lame) != [] ==> p == old(lame)[0]
      ensures old(lame) == [] && old(free) != [] ==> p == old(free)[0]
      ensures old(lame) == [] && old(free) == [] ==> p == null
      ensures p == null ==> old(lame) == [] == old(free) && unchanged(this) && unchanged(pool)
      ensures old(lame) != [] ==> lame == old(lame)[1..] && free == old(free) && alloc == [p] + old(alloc)
      ensures old(lame) == [] && old(free) != [] ==> lame == [] && free == old(free)[1..] && alloc == [p] + old(alloc)
      ensures p != null ==> p in pool && p.place == Allocated && p.offset == 0 && Frees(p.queue) == 0
      ensures forall q :: q in pool && q != p ==> q.offset == old(q.offset)
      ensures p != null && p.vvoice != null ==> p.vvoice.pvoice != p
      ensures LeftBy(was, voice) && (old(KeptBut(was, null)) ==> KeptBut(was, p))
    {
      hide Valid, Frees;
      p := TakeFirst();
      if p != null {
        ClearOffset(p);
      }
    }

    /** A voice taken from another owner. */
    method StealFor(voice: VVoice, priority: int, ghost was: PVoice?) returns (p: PVoice?, ghost k: nat)
      requires Valid() && voice in voices && voice.priority == priority && voice.pvoice == null && LeftBy(was, voice)
      modifies this`freeParams, pool`offset, pool`queue, voices`pvoice
      ensures Valid() && voice.pvoice == null && StolenStay()
      ensures p == null ==> freeParams == old(freeParams)
      ensures p == null ==> old(NoVictim(alloc, voice, priority)) || freeParams < 2
      ensures p != null ==> k < |alloc| && alloc[k] == p && old(Victim(alloc, k, voice, priority))
      ensures p != null ==> old(freeParams) >= 2 && p in pool && p.place == Allocated && p.offset == 512
      ensures p != null ==> Silenced(p)
      ensures p != null ==> OthersPlayOn(p)
      ensures p == null ==> unchanged(pool) && unchanged(voices`pvoice)
      ensures p != null ==> p.vvoice != null && p.vvoice.pvoice == null
      ensures p != null ==> forall v :: v in voices && v != p.vvoice ==> v.pvoice == old(v.pvoice)
      ensures p != null ==> Frees(p.queue) == 0 && (p.vvoice != null ==> p.vvoice.pvoice != p)
      ensures was == p || LeftBy(was, voice)
      ensures old(KeptBut(was, null)) ==> KeptBut(was, p)
    {
      hide Valid, Victim, NoVictim, Frees;
      p, k := TrySteal(voice, priority);
    }

    /** The caller's voice and the physical one know each other. */
    method Own(p: PVoice, voice: VVoice, ghost was: PVoice?)
      requires Valid() && p in pool && p.place == Allocated && Frees(p.queue) == 0
      requires p.vvoice != null ==> p.vvoice.pvoice != p
      requires voice in voices && voice.pvoice == null
      modifies p`vvoice, voice`pvoice
      ensures Valid() && voice.pvoice == p && p.vvoice == voice
      ensures old(KeptBut(was, p)) ==> KeptBut(was, null) && Kept(p, voices)
      ensures was != p && old(LeftBy(was, voice)) ==> LeftBy(was, voice)
    {
      hide Listed, Threaded, ParamsKept, Frees;
      p.vvoice := voice;
      voice.pvoice := p;
    }
  }

  lemma VictimEligible(list: seq<PVoice>, k: nat, voice: VVoice, priority: int)
    requires k < |list| && Victim(list, k, voice, priority)
    ensures list[k].vvoice != null && list[k].offset == 0
  {}

  /** The victim, spelled out for a caller that already has the priority it asks with. */
  lemma VictimSpelled(list: seq<PVoice>, k: nat, voice: VVoice, priority: int)
    requires k < |list| && Victim(list, k, voice, priority) && voice.priority == priority
    ensures list[k].vvoice != null && list[k].vvoice.priority <= priority && list[k].offset == 0
    ensures forall j :: 0 <= j < |list| && list[j].vvoice != null && list[j].offset == 0 ==>
              && list[k].vvoice.priority <= list[j].vvoice.priority
              && (j > k ==> list[k].vvoice.priority < list[j].vvoice.priority)
  {}

  lemma NoVictimSpelled(list: seq<PVoice>, voice: VVoice, priority: int)
    requires NoVictim(list, voice, priority) && voice.priority == priority
    ensures forall p :: p in list && p.vvoice != null && p.offset == 0 ==> p.vvoice.priority > priority
  {}

  /** A victim's owner is not above the request. */
  lemma VictimBound(list: seq<PVoice>, k: nat, voice: VVoice, priority: int)
    requires k < |list| && Victim(list, k, voice, priority) && voice.priority == priority
    ensures list[k].vvoice != null && list[k].vvoice.priority <= priority
    ensures OwnerPriority(list[k], voice, priority) == list[k].vvoice.priority
  {}

  /** No physical voice is in two lists, and none is in no list. */
  lemma ExactlyOneList(s: Synth, p: PVoice)
    requires s.Valid() && p in s.pool
    ensures (p in s.alloc && p !in s.free && p !in s.lame) || (p !in s.alloc && p in s.free && p !in s.lame) ||
            (p !in s.alloc && p !in s.free && p in s.lame)
    ensures Different(s.alloc) && Different(s.free) && Different(s.lame)
  {
    hide Sum, Lengths, Settled;
    assert Gathers(s.alloc, s.pool, Allocated) && Gathers(s.free, s.pool, Free) && Gathers(s.lame, s.pool, Lame);
  }

  lemma {:induction false} AllEmpty(lengths: seq<nat>)
    requires forall i :: 0 <= i < |lengths| ==> lengths[i] == 0
    ensures Sum(lengths) == 0
  {
    if |lengths| > 0 {
      AllEmpty(lengths[1..]);
    }
  }
}
